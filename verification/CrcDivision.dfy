/** Both checksums as division of polynomials with coefficients 0 and 1: a number stands for the
    polynomial whose coefficients are its bits. */
module CrcDivision {
  import opened Bytes
  import opened Crc

  // ---- polynomials ----

  /** The sum: bit by bit without carries. */
  function Add(a: nat, b: nat): nat
    decreases a, b
  {
    if a == 0 then b else if b == 0 then a else (a + b) % 2 + 2 * Add(a / 2, b / 2)
  }

  /** The product. */
  function Times(a: nat, g: nat): nat
    decreases a
  {
    if a == 0 then 0 else Add(if a % 2 == 1 then g else 0, 2 * Times(a / 2, g))
  }

  /** The sum of the powers of x with these exponents. */
  function Powers(exponents: seq<nat>): nat {
    if exponents == [] then 0 else Add(Pow2(exponents[0]), Powers(exponents[1..]))
  }

  /** The generator of the checksum of sections, Annex A of ISO/IEC 13818-1. */
  const GENERATOR := HIGH_TERMS + LOW_TERMS
  const HIGH_TERMS := [32, 26, 23, 22, 16, 12, 11, 10]
  const LOW_TERMS := [8, 7, 5, 4, 2, 1, 0]

  lemma AddStep(a: nat, b: nat)
    ensures Add(a, b) == (a + b) % 2 + 2 * Add(a / 2, b / 2)
    ensures Add(a, b) % 2 == (a + b) % 2 && Add(a, b) / 2 == Add(a / 2, b / 2)
  {
    hide Add;
    AddUnfolds(a, b);
    AddUnfolds(a / 2, b / 2);
    SumDigits(a, b, Add(a, b), Add(a / 2, b / 2));
  }

  lemma SumDigits(a: nat, b: nat, r: nat, h: nat)
    requires a == 0 ==> r == b && h == b / 2
    requires b == 0 ==> r == a && h == a / 2
    requires a > 0 && b > 0 ==> r == (a + b) % 2 + 2 * h
    ensures r == (a + b) % 2 + 2 * h && r % 2 == (a + b) % 2 && r / 2 == h
  {
    if a == 0 {
      Halves(b);
    } else if b == 0 {
      Halves(a);
    } else {
      DigitOf((a + b) % 2, h);
    }
  }

  lemma AddUnfolds(a: nat, b: nat)
    ensures a == 0 ==> Add(a, b) == b
    ensures b == 0 ==> Add(a, b) == a
    ensures a > 0 && b > 0 ==> Add(a, b) == (a + b) % 2 + 2 * Add(a / 2, b / 2)
  {
  }

  lemma DigitOf(bit: nat, h: nat)
    requires bit < 2
    ensures (bit + 2 * h) % 2 == bit && (bit + 2 * h) / 2 == h
  {
  }

  lemma AddNothing(a: nat)
    ensures Add(a, 0) == a && Add(0, a) == a
  {
  }

  lemma Halves(a: nat)
    ensures a % 2 + 2 * (a / 2) == a
  {
  }

  lemma {:induction false} AddCommutes(a: nat, b: nat)
    ensures Add(a, b) == Add(b, a)
    decreases a, b
  {
    if a > 0 && b > 0 {
      AddCommutes(a / 2, b / 2);
    }
  }

  lemma {:induction false} AddAssociates(a: nat, b: nat, c: nat)
    ensures Add(Add(a, b), c) == Add(a, Add(b, c))
    decreases a, b, c
  {
    if a > 0 && b > 0 && c > 0 {
      AddAssociates(a / 2, b / 2, c / 2);
      hide Add;
      var l, m := Add(a, b), Add(b, c);
      AddStep(a, b); AddStep(b, c); AddStep(l, c); AddStep(a, m);
      ParityOfThree(a, b, c, l, m);
    }
  }

  lemma {:induction false} AddSelf(a: nat)
    ensures Add(a, a) == 0
    decreases a
  {
    if a > 0 {
      AddSelf(a / 2);
    }
  }

  lemma AddDouble(a: nat, b: nat)
    ensures Add(2 * a, 2 * b) == 2 * Add(a, b)
  {
    hide Add;
    AddStep(2 * a, 2 * b);
    assert 2 * a / 2 == a && 2 * b / 2 == b && (2 * a + 2 * b) % 2 == 0;
  }

  lemma {:induction false} AddScaled(a: nat, b: nat, n: nat)
    ensures Add(a * Pow2(n), b * Pow2(n)) == Add(a, b) * Pow2(n)
    decreases n
  {
    if n > 0 {
      AddScaled(a, b, n - 1);
      hide Add;
      AddDouble(a * Pow2(n - 1), b * Pow2(n - 1));
      TwiceScaled(a, n); TwiceScaled(b, n); TwiceScaled(Add(a, b), n);
    } else {
      hide Add;
      assert Pow2(0) == 1;
    }
  }

  lemma TwiceScaled(a: nat, n: nat)
    requires n > 0
    ensures a * Pow2(n) == 2 * (a * Pow2(n - 1))
  {
    assert Pow2(n) == 2 * Pow2(n - 1);
  }

  /** Numbers without a common bit add up as numbers. */
  lemma {:induction false} AddApart(hi: nat, lo: nat, n: nat)
    requires lo < Pow2(n)
    ensures Add(hi * Pow2(n), lo) == hi * Pow2(n) + lo
    decreases n
  {
    if n > 0 {
      HalfOfShifted(hi, n, lo);
      HalfFits(lo, n);
      AddApart(hi, lo / 2, n - 1);
      hide Add, Pow2;
      AddStep(hi * Pow2(n), lo);
      Halves(lo);
    }
  }

  /** On words the sum is the exclusive or. */
  lemma {:induction false} XorIsAdd(a: nat, b: nat, k: nat)
    requires a < Pow2(k) && b < Pow2(k)
    ensures XorBits(a, b, k) == Add(a, b)
    decreases k
  {
    if k > 0 {
      XorIsAdd(a / 2, b / 2, k - 1);
      AddStep(a, b);
    }
  }

  lemma WordsAdd(a: u32, b: u32)
    ensures Xor32(a, b) == Add(a, b)
  {
    Pow2Of32();
    XorIsAdd(a, b, 32);
  }

  // ---- the generator ----

  lemma {:induction false} LeadingPower(e: nat, rest: nat)
    requires rest < Pow2(e)
    ensures Add(Pow2(e), rest) == Pow2(e) + rest
  {
    AddApart(1, rest, e);
  }

  lemma SmallPowers()
    ensures Pow2(0) == 1 && Pow2(1) == 2 && Pow2(2) == 4 && Pow2(4) == 16 && Pow2(5) == 32 && Pow2(7) == 0x80 && Pow2(8) == 0x100
    ensures Pow2(10) == 0x400 && Pow2(11) == 0x800 && Pow2(12) == 0x1000 && Pow2(16) == 0x1_0000
    ensures Pow2(22) == 0x40_0000 && Pow2(23) == 0x80_0000 && Pow2(26) == 0x400_0000 && Pow2(32) == 0x1_0000_0000
  {
    PowAdd(8, 2); PowAdd(8, 3); PowAdd(8, 4); PowAdd(8, 8); PowAdd(16, 4); PowAdd(20, 2); PowAdd(20, 3); PowAdd(22, 4); PowAdd(26, 6);
    assert Pow2(4) == 16 && Pow2(8) == 0x100 && Pow2(6) == 64;
  }

  lemma GeneratorIs()
    ensures Powers(GENERATOR) == 0x1_04C1_1DB7
  {
    SmallPowers();
    LowTerms();
    hide Pow2, Powers, Add;
    var g, h := GENERATOR, HIGH_TERMS;
    assert g[8..] == LOW_TERMS && g[..8] == h;
    assert forall i :: 0 <= i < 8 ==> g[i] == h[i];
    PowersStep(g, 7, 0x1B7); PowersStep(g, 6, 0x5B7); PowersStep(g, 5, 0xDB7); PowersStep(g, 4, 0x1DB7);
    PowersStep(g, 3, 0x1_1DB7); PowersStep(g, 2, 0x41_1DB7); PowersStep(g, 1, 0xC1_1DB7); PowersStep(g, 0, 0x4C1_1DB7);
    assert g[0..] == g;
  }

  lemma LowTerms()
    ensures Powers(LOW_TERMS) == 0x1B7
  {
    hide Pow2, Powers, Add;
    SmallPowers();
    LowestTerms();
    var g, h := LOW_TERMS, [4, 2, 1, 0];
    assert g[3..] == h;
    PowersStep(g, 2, 0x17); PowersStep(g, 1, 0x37); PowersStep(g, 0, 0xB7);
    assert g[0..] == g;
  }

  lemma LowestTerms()
    ensures Powers([4, 2, 1, 0]) == 0x17
  {
    hide Pow2, Powers, Add;
    SmallPowers();
    var h := [4, 2, 1, 0];
    PowersFrom(h, 4, 0);
    PowersStep(h, 3, 0); PowersStep(h, 2, 1); PowersStep(h, 1, 3); PowersStep(h, 0, 7);
    assert h[0..] == h;
  }

  lemma PowersFrom(g: seq<nat>, i: nat, r: nat)
    requires i == |g| && r == 0
    ensures Powers(g[i..]) == r
  {
  }

  lemma PowersStep(g: seq<nat>, i: nat, r: nat)
    requires i < |g| && Powers(g[i + 1..]) == r < Pow2(g[i])
    ensures Powers(g[i..]) == Pow2(g[i]) + r
  {
    assert g[i..][1..] == g[i + 1..];
    LeadingPower(g[i], r);
  }

  // ---- the register holds the remainder ----

  /** Some multiple of the generator and `r` add up to `p`. */
  ghost predicate Leaves(p: nat, r: nat) { exists q: nat :: p == Add(Times(q, Powers(GENERATOR)), r) }

  /** Twice the register is the next register, with the generator added when the top bit was set. */
  lemma OneStep(c: u32)
    ensures 2 * c == Add(if c >= 0x8000_0000 then Powers(GENERATOR) else 0, MpegStep(c))
  {
    GeneratorIs();
    hide Powers;
    if c >= 0x8000_0000 {
      var low: u32 := c * 2 % 0x1_0000_0000;
      Pow2Of32();
      assert 2 * c == 0x1_0000_0000 + low;
      AddApart(1, low, 32);
      AddApart(1, 0x04C1_1DB7, 32);
      WordsAdd(low, MPEG_POLY);
      hide Add, Xor32;
      var t := 0x1_0000_0000;
      AddCommutes(low, MPEG_POLY);
      AddAssociates(Add(t, MPEG_POLY), MPEG_POLY, low);
      AddAssociates(t, MPEG_POLY, MPEG_POLY);
      AddSelf(MPEG_POLY);
      AddNothing(t);
    }
  }

  lemma StepLeaves(p: nat, c: u32)
    requires Leaves(p, c)
    ensures Leaves(2 * p, MpegStep(c))
  {
    hide MpegStep, Powers, Add;
    var g := Powers(GENERATOR);
    var q: nat :| p == Add(Times(q, g), c);
    var top := if c >= 0x8000_0000 then 1 else 0;
    OneStep(c);
    AddDouble(Times(q, g), c);
    TimesNext(q, top, g);
    AddAssociates(2 * Times(q, g), if top == 1 then g else 0, MpegStep(c));
    AddCommutes(2 * Times(q, g), if top == 1 then g else 0);
    assert 2 * p == Add(Times(2 * q + top, g), MpegStep(c));
  }

  lemma TimesNext(q: nat, top: nat, g: nat)
    requires top <= 1
    ensures Times(2 * q + top, g) == Add(if top == 1 then g else 0, 2 * Times(q, g))
  {
    assert (2 * q + top) / 2 == q && (2 * q + top) % 2 == top;
  }

  lemma {:induction false} StepsLeave(p: nat, c: u32, n: nat)
    requires Leaves(p, c)
    ensures Leaves(p * Pow2(n), MpegSteps(c, n))
    decreases n
  {
    hide MpegStep, Leaves, Pow2, MpegSteps;
    StepsUnfold(c, n);
    if n > 0 {
      StepLeaves(p, c);
      StepsLeave(2 * p, MpegStep(c), n - 1);
      TwiceScaled(p, n);
      DoubleFirst(p, Pow2(n - 1));
    } else {
      assert Pow2(0) == 1 by { SmallPowers(); }
    }
  }

  lemma StepsUnfold(c: u32, n: nat)
    ensures MpegSteps(c, n) == if n == 0 then c else MpegSteps(MpegStep(c), n - 1)
  {
    hide MpegStep;
  }

  lemma DoubleFirst(p: nat, x: nat)
    ensures 2 * p * x == 2 * (p * x)
  {
  }

  lemma ByteLeaves(p: nat, c: u32, b: byte)
    requires Leaves(p, c)
    ensures Leaves(Add(256 * p, b as int * 0x1_0000_0000), MpegByte(c, b))
  {
    hide MpegSteps, Powers, Add, Xor32, Times;
    var g := Powers(GENERATOR);
    var q: nat :| p == Add(Times(q, g), c);
    var high: u32 := b as int * 0x100_0000;
    WordsAdd(c, high);
    AddAssociates(Times(q, g), c, high);
    assert Leaves(Add(p, high), Xor32(c, high));
    StepsLeave(Add(p, high), Xor32(c, high), 8);
    SmallPowers();
    AddScaled(p, high, 8);
  }

  /** The register started with `c` and the bytes behind it, as one polynomial. */
  function Dividend(c: u32, data: seq<byte>): nat { Add(c * Pow256(|data|), FromBE(data) * 0x1_0000_0000) }

  lemma DividendMore(c: u32, data: seq<byte>, b: byte)
    ensures Dividend(c, data + [b]) == Add(256 * Dividend(c, data), b as int * 0x1_0000_0000)
  {
    hide Add;
    var n, f, w := Pow256(|data|), FromBE(data), 0x1_0000_0000;
    assert (data + [b])[..|data|] == data;
    assert FromBE(data + [b]) == 256 * f + b && Pow256(|data| + 1) == 256 * n;
    SmallPowers();
    AddApart(f, b, 8);
    AddScaled(f * 256, b, 32);
    AddScaled(c * n, f * w, 8);
    assert c * (256 * n) == c * n * 256 && f * 256 * w == f * w * 256;
    AddAssociates(c * n * 256, f * w * 256, b as int * w);
  }

  /** For every section: the checksum is what division by the generator leaves of the section behind a
      register of ones and before 32 zeros. */
  lemma {:induction false} MpegDivides(c: u32, data: seq<byte>)
    ensures Leaves(Dividend(c, data), MpegRegister(c, data))
    decreases |data|
  {
    hide MpegByte, Leaves, Dividend;
    if data == [] {
      NoBytes(c);
    } else {
      var n := |data| - 1;
      MpegDivides(c, data[..n]);
      ByteLeaves(Dividend(c, data[..n]), MpegRegister(c, data[..n]), data[n]);
      DividendMore(c, data[..n], data[n]);
      assert data == data[..n] + [data[n]];
      MpegMore(c, data[..n], [data[n]]);
      assert MpegRegister(MpegRegister(c, data[..n]), [data[n]]) == MpegByte(MpegRegister(c, data[..n]), data[n]) by { OneByte(MpegRegister(c, data[..n]), data[n]); }
    }
  }

  lemma OneByte(c: u32, b: byte)
    ensures MpegRegister(c, [b]) == MpegByte(c, b)
  {
    hide MpegByte;
    assert [b][1..] == [];
  }

  lemma NoBytes(c: u32)
    ensures Leaves(Dividend(c, []), MpegRegister(c, []))
  {
    assert Dividend(c, []) == c by { AddNothing(c); }
    assert Times(0, Powers(GENERATOR)) == 0;
    AddNothing(c);
    assert c as nat == Add(Times(0, Powers(GENERATOR)), c);
  }

  lemma CrcDivides(section: seq<byte>)
    ensures Leaves(Dividend(0xFFFF_FFFF, section), MpegCrc(section))
  {
    hide Leaves, Dividend, MpegRegister;
    MpegDivides(0xFFFF_FFFF, section);
  }

  // ---- a remainder is unique ----

  lemma {:induction false} AddBig(a: nat, b: nat, n: nat)
    requires a < Pow2(n) <= b
    ensures Add(a, b) >= Pow2(n)
    decreases n
  {
    if n > 0 && a > 0 {
      AddBig(a / 2, b / 2, n - 1);
    }
  }

  /** A multiple of the generator, other than 0, has a degree of 32 or more. */
  lemma {:induction false} MultipleBig(q: nat)
    requires q > 0
    ensures Times(q, Powers(GENERATOR)) >= 0x1_0000_0000
    decreases q
  {
    GeneratorIs();
    hide Powers;
    var g := Powers(GENERATOR);
    if q == 1 {
      assert Times(0, g) == 0;
      AddNothing(g);
    } else {
      MultipleBig(q / 2);
      SmallPowers();
      AddBig(if q % 2 == 1 then g else 0, 2 * Times(q / 2, g), 33);
    }
  }

  lemma {:induction false} TimesAdd(a: nat, b: nat, g: nat)
    ensures Add(Times(a, g), Times(b, g)) == Times(Add(a, b), g)
    decreases a, b
  {
    if a == 0 || b == 0 {
      AddNothing(Times(a, g)); AddNothing(Times(b, g));
    } else {
      TimesAdd(a / 2, b / 2, g);
      hide Times, Add;
      TimesStep(a, g); TimesStep(b, g); TimesStep(Add(a, b), g);
      AddStep(a, b);
      FourTerms(Lowest(a, g), 2 * Times(a / 2, g), Lowest(b, g), 2 * Times(b / 2, g));
      AddDouble(Times(a / 2, g), Times(b / 2, g));
      LowestAdd(a, b, g);
    }
  }

  function Lowest(a: nat, g: nat): nat { if a % 2 == 1 then g else 0 }

  lemma LowestAdd(a: nat, b: nat, g: nat)
    ensures Add(Lowest(a, g), Lowest(b, g)) == Lowest(Add(a, b), g)
  {
    hide Add;
    AddStep(a, b);
    AddSelf(g); AddNothing(g); AddNothing(0);
    ParityOfSum(a, b);
  }

  lemma ParityOfSum(a: nat, b: nat)
    ensures (a + b) % 2 == (if a % 2 == b % 2 then 0 else 1)
  {
  }

  lemma TimesStep(a: nat, g: nat)
    ensures Times(a, g) == Add(Lowest(a, g), 2 * Times(a / 2, g))
  {
    AddNothing(0);
  }

  lemma FourTerms(a: nat, b: nat, c: nat, d: nat)
    ensures Add(Add(a, b), Add(c, d)) == Add(Add(a, c), Add(b, d))
  {
    hide Add;
    AddAssociates(a, b, Add(c, d)); AddAssociates(b, c, d);
    AddCommutes(b, c);
    AddAssociates(c, b, d); AddAssociates(a, c, Add(b, d));
  }

  /** No other word is left by the same division. */
  lemma RemainderUnique(p: nat, r: u32, s: u32)
    requires Leaves(p, r) && Leaves(p, s)
    ensures r == s
  {
    hide Powers, Times, Add;
    var g := Powers(GENERATOR);
    var a: nat :| p == Add(Times(a, g), r);
    var b: nat :| p == Add(Times(b, g), s);
    AddSelf(p);
    FourTerms(Times(a, g), r, Times(b, g), s);
    TimesAdd(a, b, g);
    var m, d := Times(Add(a, b), g), Add(r, s);
    assert Add(m, d) == 0;
    SumZero(m, d);
    WordsAdd(r, s);
    if Add(a, b) > 0 {
      MultipleBig(Add(a, b));
    } else {
      assert m == 0 by { TimesZero(g); }
      SumZero(r, s);
    }
  }

  lemma TimesZero(g: nat)
    ensures Times(0, g) == 0
  {
  }

  lemma {:induction false} SumZero(a: nat, b: nat)
    requires Add(a, b) == 0
    ensures a == b
    decreases a, b
  {
    if a > 0 && b > 0 {
      AddStep(a, b);
      SumZero(a / 2, b / 2);
    }
  }

  // ---- the other checksum is the same, read backwards ----

  /** The low `k` bits in the other order. */
  function Reversed(a: nat, k: nat): (r: nat)
    ensures r < Pow2(k)
    decreases k
  {
    if k == 0 then 0 else a % 2 * Pow2(k - 1) + Reversed(a / 2, k - 1)
  }

  function Reversed32(a: u32): u32 { Pow2Of32(); Reversed(a, 32) }

  function Reversed8(b: byte): byte { Pow2Of8(); Reversed(b, 8) }

  lemma {:induction false} ReversedSum(a: nat, b: nat, k: nat)
    ensures Reversed(Add(a, b), k) == Add(Reversed(a, k), Reversed(b, k))
    decreases k
  {
    hide Add, Reversed, Pow2;
    if k > 0 {
      ReversedSum(a / 2, b / 2, k - 1);
      AddStep(a, b);
      var x, y := Reversed(a / 2, k - 1), Reversed(b / 2, k - 1);
      ReversedStep(Add(a, b), k); ReversedStep(a, k); ReversedStep(b, k);
      TopsAdd(a % 2, b % 2, x, y, k - 1);
      assert (a % 2 + b % 2) % 2 == (a + b) % 2;
    } else {
      AddNothing(0);
      NothingReversed(a); NothingReversed(b); NothingReversed(Add(a, b));
    }
  }

  lemma NothingReversed(a: nat)
    ensures Reversed(a, 0) == 0
  {
  }

  lemma ReversedStep(a: nat, k: nat)
    requires k > 0
    ensures Reversed(a, k) == a % 2 * Pow2(k - 1) + Reversed(a / 2, k - 1)
  {
  }

  lemma TopsAdd(s: nat, t: nat, x: nat, y: nat, n: nat)
    requires s < 2 && t < 2 && x < Pow2(n) && y < Pow2(n) && Add(x, y) < Pow2(n)
    ensures Add(s * Pow2(n) + x, t * Pow2(n) + y) == (s + t) % 2 * Pow2(n) + Add(x, y)
  {
    hide Pow2, Add;
    var p := Pow2(n);
    var a, b, c := s * p, t * p, (s + t) % 2 * p;
    AddApart(s, x, n); AddApart(t, y, n);
    FourTerms(a, x, b, y);
    AddScaled(s, t, n);
    Bits(s, t);
    AddApart((s + t) % 2, Add(x, y), n);
  }

  lemma Bits(s: nat, t: nat)
    requires s < 2 && t < 2
    ensures Add(s, t) == (s + t) % 2
  {
  }

  /** A number one bit wider than need be, reversed. */
  lemma {:induction false} ReversedWide(a: nat, k: nat)
    requires a < Pow2(k)
    ensures Reversed(a, k + 1) == 2 * Reversed(a, k)
    decreases k
  {
    hide Reversed;
    ReversedStep(a, k + 1);
    if k > 0 {
      ReversedWide(a / 2, k - 1);
      ReversedStep(a, k);
      TwiceScaled(a % 2, k);
    } else {
      assert a == 0 by { assert Pow2(0) == 1; }
      NothingReversed(0);
    }
  }

  /** The reverse of two parts is the reverses of the parts, the other way round. */
  lemma {:induction false} ReversedParts(hi: nat, lo: nat, m: nat, n: nat)
    requires lo < Pow2(m)
    ensures Reversed(hi * Pow2(m) + lo, m + n) == Reversed(lo, m) * Pow2(n) + Reversed(hi, n)
    decreases m
  {
    hide Reversed, Pow2;
    if m == 0 {
      assert Pow2(0) == 1 by { SmallPowers(); }
      assert lo == 0;
      NothingReversed(lo);
      assert 0 * Pow2(n) == 0;
    } else {
      HalfOfShifted(hi, m, lo);
      HalfFits(lo, m);
      ReversedParts(hi, lo / 2, m - 1, n);
      ReversedStep(hi * Pow2(m) + lo, m + n);
      ReversedStep(lo, m);
      PowAdd(m - 1, n);
      var bit, rest := lo % 2, Reversed(lo / 2, m - 1);
      Distribute(bit, Pow2(m - 1), rest, Pow2(n));
    }
  }

  lemma Distribute(bit: nat, p: nat, rest: nat, q: nat)
    ensures bit * (p * q) + rest * q == (bit * p + rest) * q
  {
    assert (bit * p + rest) * q == bit * p * q + rest * q;
    assert bit * p * q == bit * (p * q);
  }

  lemma ReversedByte(b: byte)
    ensures Reversed32(b) == Reversed8(b) as int * 0x100_0000
  {
    hide Reversed;
    Pow2Of32();
    ReversedParts(0, b, 8, 24);
    assert Reversed(0, 24) == 0 by { ReversedZero(24); }
  }

  lemma {:induction false} ReversedZero(k: nat)
    ensures Reversed(0, k) == 0
    decreases k
  {
    if k > 0 {
      ReversedZero(k - 1);
      assert 0 * Pow2(k - 1) == 0;
    }
  }

  lemma ReversedBit(h: nat, d: nat, k: nat)
    requires d < 2 && k > 0
    ensures Reversed(2 * h + d, k) == (if d == 1 then Pow2(k - 1) else 0) + Reversed(h, k - 1)
  {
    hide Reversed, Pow2;
    ReversedStep(2 * h + d, k);
    assert (2 * h + d) / 2 == h && (2 * h + d) % 2 == d;
  }

  lemma FirstPowers()
    ensures Pow2(0) == 1 && Pow2(1) == 2 && Pow2(2) == 4 && Pow2(3) == 8
  {
  }

  lemma Nibbles()
    ensures Reversed(0, 4) == 0 && Reversed(2, 4) == 4 && Reversed(3, 4) == 0xC && Reversed(8, 4) == 1
    ensures Reversed(0xB, 4) == 0xD && Reversed(0xD, 4) == 0xB && Reversed(0xE, 4) == 7
  {
    hide Pow2, Reversed;
    FirstPowers();
    NothingReversed(0);
    ReversedBit(0, 0, 1); ReversedBit(0, 1, 1);
    ReversedBit(0, 0, 2); ReversedBit(0, 1, 2); ReversedBit(1, 0, 2); ReversedBit(1, 1, 2);
    ReversedBit(0, 0, 3); ReversedBit(0, 1, 3); ReversedBit(2, 0, 3); ReversedBit(2, 1, 3); ReversedBit(3, 0, 3); ReversedBit(3, 1, 3);
    ReversedBit(0, 0, 4); ReversedBit(1, 0, 4); ReversedBit(1, 1, 4); ReversedBit(4, 0, 4);
    ReversedBit(5, 1, 4); ReversedBit(6, 1, 4); ReversedBit(7, 0, 4);
  }

  lemma TwoNibbles(hi: nat, lo: nat)
    requires hi < 16 && lo < 16
    ensures Reversed(hi * 16 + lo, 8) == Reversed(lo, 4) * 16 + Reversed(hi, 4)
  {
    hide Reversed, Pow2;
    SmallPowers();
    ReversedParts(hi, lo, 4, 4);
  }

  /** The two generators are each other's reverse. */
  lemma GeneratorsReflect()
    ensures Reversed32(POLY) == MPEG_POLY
  {
    hide Reversed, Pow2;
    Pow2Of32();
    SmallPowers();
    Nibbles();
    TwoNibbles(2, 0); TwoNibbles(8, 3); TwoNibbles(0xB, 8); TwoNibbles(0xE, 0xD);
    ReversedParts(0xED, 0xB8, 8, 8);
    ReversedParts(0xEDB8, 0x83, 8, 16);
    ReversedParts(0xED_B883, 0x20, 8, 24);
  }

  lemma XorReflects(a: u32, b: u32)
    ensures Reversed32(Xor32(a, b)) == Xor32(Reversed32(a), Reversed32(b))
  {
    hide Reversed, Xor32;
    WordsAdd(a, b);
    WordsAdd(Reversed32(a), Reversed32(b));
    ReversedSum(a, b, 32);
  }

  lemma StepReflects(c: u32)
    ensures Reversed32(BitStep(c)) == MpegStep(Reversed32(c))
  {
    hide Reversed, Xor32;
    Pow2Of32();
    var h := c / 2;
    ReversedStep(c, 32);
    ReversedWide(h, 31);
    if c % 2 == 1 {
      XorReflects(POLY, h);
      GeneratorsReflect();
      Commute(MPEG_POLY, Reversed32(h));
    }
  }

  lemma {:induction false} StepsReflect(c: u32, n: nat)
    ensures Reversed32(BitSteps(c, n)) == MpegSteps(Reversed32(c), n)
    decreases n
  {
    hide Reversed32, BitStep, MpegStep;
    if n > 0 {
      StepReflects(c);
      StepsReflect(BitStep(c), n - 1);
    }
  }

  lemma ByteReflects(c: u32, b: byte)
    ensures Reversed32(BitByte(c, b)) == MpegByte(Reversed32(c), Reversed8(b))
  {
    hide Reversed32, Reversed8, BitSteps, MpegSteps, Xor32;
    XorReflects(c, b);
    ReversedByte(b);
    StepsReflect(Xor32(c, b), 8);
  }

  function ReversedBytes(data: seq<byte>): (r: seq<byte>)
    ensures |r| == |data|
  {
    seq(|data|, i requires 0 <= i < |data| => Reversed8(data[i]))
  }

  lemma {:induction false} RegisterReflects(c: u32, data: seq<byte>)
    ensures Reversed32(BitRegister(c, data)) == MpegRegister(Reversed32(c), ReversedBytes(data))
    decreases |data|
  {
    hide Reversed32, Reversed8, BitByte, MpegByte;
    if data == [] {
      assert ReversedBytes(data) == [];
    } else {
      var n := |data| - 1;
      RegisterReflects(c, data[..n]);
      ByteReflects(BitRegister(c, data[..n]), data[n]);
      assert ReversedBytes(data) == ReversedBytes(data[..n]) + [Reversed8(data[n])];
      MpegMore(Reversed32(c), ReversedBytes(data[..n]), [Reversed8(data[n])]);
      OneByte(MpegRegister(Reversed32(c), ReversedBytes(data[..n])), Reversed8(data[n]));
    }
  }

  lemma {:induction false} OnesReversed(k: nat)
    ensures Reversed(Pow2(k) - 1, k) == Pow2(k) - 1
    decreases k
  {
    if k > 0 {
      OnesReversed(k - 1);
      assert (Pow2(k) - 1) / 2 == Pow2(k - 1) - 1 && (Pow2(k) - 1) % 2 == 1;
    }
  }

  /** The checksum of the recorder's structures is the same division with every byte, and the result, read from
      the other end, and all bits of the result turned over. */
  lemma BitCrcDivides(data: seq<byte>)
    ensures Reversed32(Xor32(BitCrc(data), 0xFFFF_FFFF)) == MpegCrc(ReversedBytes(data))
    ensures Leaves(Dividend(0xFFFF_FFFF, ReversedBytes(data)), Reversed32(Xor32(BitCrc(data), 0xFFFF_FFFF)))
  {
    hide Reversed, Leaves, Dividend, BitRegister, MpegRegister, Xor32;
    Pow2Of32();
    OnesReversed(32);
    RegisterReflects(0xFFFF_FFFF, data);
    XorBack(BitRegister(0xFFFF_FFFF, data), 0xFFFF_FFFF);
    CrcDivides(ReversedBytes(data));
  }

  lemma XorBack(a: u32, b: u32)
    ensures Xor32(Xor32(a, b), b) == a
  {
    Pow2Of32();
    XorBitsTwice(a, b, 32);
  }

  // ---- values ----

  /** One bit fed into an empty register leaves the generator. */
  lemma OneBit()
    ensures MpegRegister(0, [0x01]) == 0x04C1_1DB7 && MpegCrc([]) == 0xFFFF_FFFF && BitSteps(0x80, 8) == 0xEDB8_8320
  {
    hide MpegStep, BitStep;
    OneByte(0, 1);
    WordsAdd(0, 0x100_0000);
    MpegShift(0x100_0000, 7);
    SmallPowers();
    assert Pow2(7) == 128;
    StepsSplit(0x100_0000, 7, 1);
    TopBit();
    StepsShift(1, 7);
    BitStepsSplit(0x80, 7, 1);
    LowestBit();
  }

  lemma {:induction false} StepsSplit(c: u32, m: nat, n: nat)
    ensures MpegSteps(c, m + n) == MpegSteps(MpegSteps(c, m), n)
    decreases m
  {
    hide MpegStep;
    if m > 0 {
      StepsSplit(MpegStep(c), m - 1, n);
    }
  }

  lemma {:induction false} BitStepsSplit(c: u32, m: nat, n: nat)
    ensures BitSteps(c, m + n) == BitSteps(BitSteps(c, m), n)
    decreases m
  {
    hide BitStep;
    if m > 0 {
      BitStepsSplit(BitStep(c), m - 1, n);
    }
  }

  lemma TopBit()
    ensures MpegSteps(0x8000_0000, 1) == 0x04C1_1DB7
  {
    hide Xor32;
    WordsAdd(0, MPEG_POLY);
    AddNothing(MPEG_POLY);
    assert MpegStep(0x8000_0000) == Xor32(0, MPEG_POLY);
    assert MpegSteps(MpegStep(0x8000_0000), 0) == MpegStep(0x8000_0000);
  }

  lemma LowestBit()
    ensures BitSteps(1, 1) == 0xEDB8_8320
  {
    hide Xor32;
    WordsAdd(POLY, 0);
    AddNothing(POLY);
    assert BitStep(1) == Xor32(POLY, 0);
    assert BitSteps(BitStep(1), 0) == BitStep(1);
  }
}
