/** The checksums: the table-driven CRC-32 of the recorder's structures against the bit-by-bit
    one, and the MPEG CRC of the stream tables. */
module Crc {
  import opened Bytes

  // ---- exclusive or of words ----

  function Xor32(a: u32, b: u32): u32 { Pow2Of32(); XorBits(a, b, 32) }

  lemma Pow2Of32()
    ensures Pow2(32) == 0x1_0000_0000 && Pow2(31) == 0x8000_0000 && Pow2(24) == 0x100_0000 && Pow2(8) == 256
  {
    Pow2Of8();
    PowAdd(8, 8); PowAdd(16, 8); PowAdd(24, 8);
    assert Pow2(32) == 2 * Pow2(31);
  }

  lemma {:induction false} PowAdd(a: nat, b: nat)
    ensures Pow2(a + b) == Pow2(a) * Pow2(b)
    decreases b
  {
    if b > 0 {
      PowAdd(a, b - 1);
      assert Pow2(a + b) == 2 * Pow2(a + (b - 1));
    }
  }

  lemma {:induction false} XorCommutes(a: nat, b: nat, k: nat)
    ensures XorBits(a, b, k) == XorBits(b, a, k)
    decreases k
  {
    if k > 0 {
      XorCommutes(a / 2, b / 2, k - 1);
    }
  }

  /** The lowest bit, and the bits above it. */
  lemma XorStep(a: nat, b: nat, k: nat)
    requires k > 0
    ensures var r := XorBits(a, b, k);
      r == (a + b) % 2 + 2 * XorBits(a / 2, b / 2, k - 1) && r % 2 == (a + b) % 2 && r / 2 == XorBits(a / 2, b / 2, k - 1)
  {
    LowBit(a, b, XorBits(a / 2, b / 2, k - 1));
  }

  lemma {:induction false} XorAssociates(a: nat, b: nat, c: nat, k: nat)
    ensures XorBits(XorBits(a, b, k), c, k) == XorBits(a, XorBits(b, c, k), k)
    decreases k
  {
    if k > 0 {
      XorAssociates(a / 2, b / 2, c / 2, k - 1);
      hide XorBits;
      var l, m := XorBits(a, b, k), XorBits(b, c, k);
      XorStep(a, b, k); XorStep(b, c, k); XorStep(l, c, k); XorStep(a, m, k);
      ParityOfThree(a, b, c, l, m);
    }
  }

  lemma ParityOfThree(a: nat, b: nat, c: nat, l: nat, m: nat)
    requires l % 2 == (a + b) % 2 && m % 2 == (b + c) % 2
    ensures (l + c) % 2 == (a + m) % 2
  {
  }

  lemma {:induction false} XorZero(a: nat, k: nat)
    requires a < Pow2(k)
    ensures XorBits(a, 0, k) == a && XorBits(0, a, k) == a
    decreases k
  {
    if k > 0 {
      XorZero(a / 2, k - 1);
    }
  }

  lemma {:induction false} XorSelf(a: nat, k: nat)
    ensures XorBits(a, a, k) == 0
    decreases k
  {
    if k > 0 {
      XorSelf(a / 2, k - 1);
    }
  }

  /** The top bit is clear when it is clear in both. */
  lemma {:induction false} XorNarrow(a: nat, b: nat, k: nat)
    requires a < Pow2(k) && b < Pow2(k)
    ensures XorBits(a, b, k + 1) == XorBits(a, b, k)
    decreases k
  {
    if k > 0 {
      XorNarrow(a / 2, b / 2, k - 1);
    } else {
      assert XorBits(0, 0, 0) == 0;
    }
  }

  /** A number whose low `m` bits are `lo` and whose other bits are those of `hi`. */
  lemma {:induction false} XorParts(hi: nat, lo: nat, m: nat, k: nat)
    requires lo < Pow2(m) && m <= k && hi < Pow2(k - m)
    ensures XorBits(lo, hi * Pow2(m), k) == hi * Pow2(m) + lo
    decreases m
  {
    if m == 0 {
      XorZero(hi, k);
    } else {
      HalfOfShifted(hi, m, lo);
      XorParts(hi, lo / 2, m - 1, k - 1);
    }
  }

  lemma HalfOfShifted(hi: nat, m: nat, lo: nat)
    requires m > 0
    ensures hi * Pow2(m) == 2 * (hi * Pow2(m - 1)) && (hi * Pow2(m) + lo) / 2 == hi * Pow2(m - 1) + lo / 2
    ensures hi * Pow2(m) / 2 == hi * Pow2(m - 1) && (hi * Pow2(m) + lo) % 2 == lo % 2 && hi * Pow2(m) % 2 == 0
  {
    var h := hi * Pow2(m - 1);
    assert hi * Pow2(m) == 2 * h by {
      assert Pow2(m) == 2 * Pow2(m - 1);
    }
  }

  lemma XorLowBase(hi: nat, lo: nat, b: nat, k: nat)
    requires lo < Pow2(0) && b < Pow2(0) && hi < Pow2(k - 0)
    ensures XorBits(hi * Pow2(0) + lo, b, k) == hi * Pow2(0) + XorBits(lo, b, 0)
  {
    XorZero(hi, k);
  }

  lemma XorHighBase(hi: nat, lo: nat, k: nat)
    requires lo < Pow2(0) && hi < Pow2(k - 0)
    ensures XorBits(hi * Pow2(0) + lo, hi * Pow2(0), k) == lo
  {
    XorSelf(hi, k);
  }

  /** Exclusive or with a number of `m` bits leaves the other bits alone. */
  lemma {:induction false} XorLow(hi: nat, lo: nat, b: nat, m: nat, k: nat)
    requires lo < Pow2(m) && b < Pow2(m) && m <= k && hi < Pow2(k - m)
    ensures XorBits(hi * Pow2(m) + lo, b, k) == hi * Pow2(m) + XorBits(lo, b, m)
    decreases m
  {
    hide XorBits, Pow2;
    if m == 0 {
      XorLowBase(hi, lo, b, k);
    } else {
      HalfOfShifted(hi, m, lo);
      HalfFits(lo, m); HalfFits(b, m);
      XorLow(hi, lo / 2, b / 2, m - 1, k - 1);
      XorLowStep(hi * Pow2(m) + lo, lo, b, hi * Pow2(m - 1), m, k);
    }
  }

  lemma XorLowStep(x: nat, lo: nat, b: nat, high: nat, m: nat, k: nat)
    requires k > 0 && m > 0 && x % 2 == lo % 2
    requires XorBits(x / 2, b / 2, k - 1) == high + XorBits(lo / 2, b / 2, m - 1)
    ensures XorBits(x, b, k) == 2 * high + XorBits(lo, b, m)
  {
    hide XorBits;
    XorStep(x, b, k); XorStep(lo, b, m);
    SameParity(x, lo, b);
  }

  lemma HalfFits(a: nat, m: nat)
    requires m > 0 && a < Pow2(m)
    ensures a / 2 < Pow2(m - 1)
  {
  }

  lemma SameParity(x: nat, y: nat, b: nat)
    requires x % 2 == y % 2
    ensures (x + b) % 2 == (y + b) % 2
  {
  }

  /** Exclusive or with its own high bits leaves the low ones. */
  lemma {:induction false} XorHigh(hi: nat, lo: nat, m: nat, k: nat)
    requires lo < Pow2(m) && m <= k && hi < Pow2(k - m)
    ensures XorBits(hi * Pow2(m) + lo, hi * Pow2(m), k) == lo
    decreases m
  {
    hide XorBits, Pow2;
    if m == 0 {
      XorHighBase(hi, lo, k);
    } else {
      HalfOfShifted(hi, m, lo);
      HalfFits(lo, m);
      XorHigh(hi, lo / 2, m - 1, k - 1);
      XorStep(hi * Pow2(m) + lo, hi * Pow2(m), k);
      SameParity(hi * Pow2(m) + lo, lo, hi * Pow2(m));
      SameParity(hi * Pow2(m), 0, lo);
    }
  }

  // ---- CRC-32, bit by bit ----

  const POLY: u32 := 0xEDB8_8320

  function BitStep(c: u32): u32 { if c % 2 == 1 then Xor32(POLY, c / 2) else c / 2 }

  function BitSteps(c: u32, n: nat): u32
    decreases n, c
  {
    if n == 0 then c else BitSteps(BitStep(c), n - 1)
  }

  function BitByte(c: u32, b: byte): u32 { BitSteps(Xor32(c, b), 8) }

  function BitRegister(c: u32, data: seq<byte>): u32
    decreases |data|
  {
    if data == [] then c else BitByte(BitRegister(c, data[..|data| - 1]), data[|data| - 1])
  }

  /** The checksum by the definition: every bit of every byte. */
  function BitCrc(data: seq<byte>): u32 { Xor32(BitRegister(0xFFFF_FFFF, data), 0xFFFF_FFFF) }

  // ---- the step is linear ----

  lemma XorHalves(a: u32, b: u32)
    ensures Xor32(a, b) / 2 == Xor32(a / 2, b / 2) && Xor32(a, b) % 2 == (a + b) % 2
  {
    Pow2Of32();
    LowBit(a, b, XorBits(a / 2, b / 2, 31));
    XorNarrow(a / 2, b / 2, 31);
  }

  lemma XorBoth(p: u32, a: u32, b: u32)
    ensures Xor32(Xor32(p, a), Xor32(p, b)) == Xor32(a, b)
  {
    Pow2Of32();
    XorCommutes(p, a, 32);
    XorAssociates(a, p, XorBits(p, b, 32), 32);
    XorAssociates(p, p, b, 32);
    XorSelf(p, 32);
    XorZero(b, 32);
  }

  lemma StepLinear(a: u32, b: u32)
    ensures BitStep(Xor32(a, b)) == Xor32(BitStep(a), BitStep(b))
  {
    hide Xor32;
    var x, y := a / 2, b / 2;
    XorHalves(a, b);
    if a % 2 == 1 && b % 2 == 1 {
      XorBoth(POLY, x, y);
    } else if a % 2 == 1 {
      Associate(POLY, x, y);
    } else if b % 2 == 1 {
      Associate(x, POLY, y);
      Associate(POLY, x, y);
      Commute(x, POLY);
    }
  }

  lemma Associate(a: u32, b: u32, c: u32)
    ensures Xor32(Xor32(a, b), c) == Xor32(a, Xor32(b, c))
  {
    XorAssociates(a, b, c, 32);
  }

  lemma Commute(a: u32, b: u32)
    ensures Xor32(a, b) == Xor32(b, a)
  {
    XorCommutes(a, b, 32);
  }

  lemma {:induction false} StepsLinear(a: u32, b: u32, n: nat)
    ensures BitSteps(Xor32(a, b), n) == Xor32(BitSteps(a, n), BitSteps(b, n))
    decreases n
  {
    hide Xor32, BitStep;
    if n > 0 {
      StepLinear(a, b);
      StepsLinear(BitStep(a), BitStep(b), n - 1);
    }
  }

  /** Clear low bits are just shifted out. */
  lemma {:induction false} StepsShift(hi: nat, n: nat)
    requires hi * Pow2(n) < 0x1_0000_0000
    ensures hi < 0x1_0000_0000 && BitSteps(hi * Pow2(n), n) == hi
    decreases n
  {
    if n == 0 {
      assert hi * Pow2(0) == hi;
    } else {
      HalfOfShifted(hi, n, 0);
      StepsShift(hi, n - 1);
    }
  }

  lemma HighPart(c: u32, b: byte)
    ensures Xor32(c, b) / 256 == c / 256
  {
    Pow2Of32();
    XorLow(c / 256, c % 256, b, 8, 32);
    LowByte(c / 256, XorBits(c % 256, b, 8));
  }

  lemma SplitWord(x: u32)
    ensures Xor32(x % 256, x / 256 * 256) == x
  {
    Pow2Of32();
    XorParts(x / 256, x % 256, 8, 32);
  }

  lemma ShiftOut(hi: nat)
    requires hi < 0x100_0000
    ensures BitSteps(hi * 256, 8) == hi
  {
    hide BitSteps;
    Pow2Of32();
    StepsShift(hi, 8);
  }

  /** One byte through the table: the low byte picks the entry, the rest moves down. */
  lemma TableByte(c: u32, b: byte)
    ensures BitByte(c, b) == Xor32(BitSteps(Xor32(c, b) % 256, 8), c / 256)
  {
    hide BitSteps, Xor32;
    var x := Xor32(c, b);
    HighPart(c, b);
    SplitWord(x);
    ShiftOut(x / 256);
    StepsLinear(x % 256, x / 256 * 256, 8);
  }

  lemma LowByte(hi: nat, lo: nat)
    requires lo < 256
    ensures (hi * 256 + lo) % 256 == lo && (hi * 256 + lo) / 256 == hi
  {
  }

  // ---- CRC-32 through a table ----

  predicate IsTable(tab: seq<u32>) { |tab| == 256 && forall i :: 0 <= i < 256 ==> tab[i] == BitSteps(i, 8) }

  method MakeTable() returns (tab: array<u32>)
    ensures fresh(tab) && IsTable(tab[..])
  {
    hide Xor32, BitStep;
    tab := new u32[256];
    var i := 0;
    while i < 256
      invariant 0 <= i <= 256 && forall j :: 0 <= j < i ==> tab[j] == BitSteps(j, 8)
    {
      var c: u32 := i;
      var k := 0;
      while k < 8
        invariant 0 <= k <= 8 && BitSteps(c, 8 - k) == BitSteps(i, 8)
      {
        c := BitStep(c);
        k := k + 1;
      }
      tab[i] := c;
      i := i + 1;
    }
  }

  /** The checksum as the recorder computes it, a byte at a time. */
  method TableCrc(data: seq<byte>) returns (crc: u32)
    ensures crc == BitCrc(data)
  {
    hide Xor32, BitSteps, BitByte;
    var tab := MakeTable();
    var c: u32 := 0xFFFF_FFFF;
    var i := 0;
    while i < |data|
      invariant 0 <= i <= |data| && IsTable(tab[..]) && c == BitRegister(0xFFFF_FFFF, data[..i])
    {
      TableByte(c, data[i]);
      assert data[..i + 1][..i] == data[..i];
      c := Xor32(tab[..][Xor32(c, data[i]) % 256], c / 256);
      i := i + 1;
    }
    assert data[..i] == data;
    crc := Xor32(c, 0xFFFF_FFFF);
  }

  // ---- the MPEG CRC ----

  const MPEG_POLY: u32 := 0x04C1_1DB7

  function MpegStep(c: u32): u32 { if c >= 0x8000_0000 then Xor32(c * 2 % 0x1_0000_0000, MPEG_POLY) else c * 2 }

  function MpegSteps(c: u32, n: nat): u32
    decreases n, c
  {
    if n == 0 then c else MpegSteps(MpegStep(c), n - 1)
  }

  function MpegByte(c: u32, b: byte): u32 { MpegSteps(Xor32(c, b as int * 0x100_0000), 8) }

  function MpegRegister(c: u32, data: seq<byte>): u32
    decreases |data|
  {
    if data == [] then c else MpegRegister(MpegByte(c, data[0]), data[1..])
  }

  function MpegCrc(data: seq<byte>): u32 { MpegRegister(0xFFFF_FFFF, data) }

  method ComputeMpegCrc(data: seq<byte>) returns (c: u32)
    ensures c == MpegCrc(data)
  {
    hide Xor32, MpegStep;
    c := 0xFFFF_FFFF;
    var i := 0;
    assert data[0..] == data;
    while i < |data|
      invariant 0 <= i <= |data| && MpegRegister(c, data[i..]) == MpegCrc(data)
    {
      assert data[i..][1..] == data[i + 1..];
      ghost var before := c;
      c := Xor32(c, data[i] as int * 0x100_0000);
      var b := 0;
      while b < 8
        invariant 0 <= b <= 8 && MpegSteps(c, 8 - b) == MpegByte(before, data[i])
      {
        c := MpegStep(c);
        b := b + 1;
      }
      i := i + 1;
    }
    assert data[i..] == [];
  }

  lemma {:induction false} MpegMore(c: u32, a: seq<byte>, b: seq<byte>)
    ensures MpegRegister(c, a + b) == MpegRegister(MpegRegister(c, a), b)
    decreases |a|
  {
    hide MpegByte;
    if a == [] {
      assert a + b == b;
    } else {
      assert (a + b)[0] == a[0] && (a + b)[1..] == a[1..] + b;
      MpegMore(MpegByte(c, a[0]), a[1..], b);
    }
  }

  /** Without a top bit nothing but a shift happens. */
  lemma {:induction false} MpegShift(c: nat, n: nat)
    requires c * Pow2(n) < 0x1_0000_0000
    ensures c < 0x1_0000_0000 && MpegSteps(c, n) == c * Pow2(n)
    decreases n
  {
    if n == 0 {
      assert c * Pow2(0) == c;
    } else {
      assert c * Pow2(n) == 2 * c * Pow2(n - 1);
      MulUp(c, Pow2(n - 1));
      MpegShift(2 * c, n - 1);
    }
  }

  lemma MulUp(c: nat, p: nat)
    requires p > 0 && 2 * c * p < 0x1_0000_0000
    ensures c < 0x8000_0000
  {
    var q := p - 1;
    assert 2 * c * p == 2 * c * q + 2 * c;
    assert 2 * c * q >= 0;
  }

  /** Its own top byte goes out of the register, the others move up. */
  lemma OwnTopByte(t: byte, r: nat)
    requires r < 0x100_0000
    ensures MpegByte(t as int * 0x100_0000 + r, t) == r * 256
  {
    Pow2Of32();
    XorHigh(t, r, 24, 32);
    MpegShift(r, 8);
  }

  /** The register fed with its own bytes is empty. */
  lemma OwnBytes(c: u32)
    ensures MpegRegister(c, BE(c, 4)) == 0
  {
    hide MpegByte, BE;
    BE4(c);
    FourDigits(c);
    var b3: byte, b2: byte, b1: byte, b0: byte := c / 0x100_0000 % 256, c / 0x1_0000 % 256, c / 0x100 % 256, c % 256;
    OwnTopByte(b3, b2 as int * 0x1_0000 + b1 as int * 0x100 + b0);
    OwnTopByte(b2, b1 as int * 0x1_0000 + b0 as int * 0x100);
    OwnTopByte(b1, b0 as int * 0x1_0000);
    OwnTopByte(b0, 0);
    FourBytes(c, b3, b2, b1, b0);
  }

  lemma FourDigits(c: u32)
    ensures c == c / 0x100_0000 % 256 * 0x100_0000 + c / 0x1_0000 % 256 * 0x1_0000 + c / 0x100 % 256 * 0x100 + c % 256
  {
    assert c / 0x100 == c / 0x1_0000 * 0x100 + c / 0x100 % 256;
    assert c / 0x1_0000 == c / 0x100_0000 * 0x100 + c / 0x1_0000 % 256;
  }

  lemma FourBytes(c: u32, b3: byte, b2: byte, b1: byte, b0: byte)
    ensures MpegRegister(c, [b3, b2, b1, b0]) == MpegByte(MpegByte(MpegByte(MpegByte(c, b3), b2), b1), b0)
  {
    hide MpegByte;
    assert [b3, b2, b1, b0][1..] == [b2, b1, b0] && [b2, b1, b0][1..] == [b1, b0] && [b1, b0][1..] == [b0] && [b0][1..] == [];
    var c3 := MpegByte(c, b3);
    var c2 := MpegByte(c3, b2);
    var c1 := MpegByte(c2, b1);
    assert MpegRegister(c2, [b1, b0]) == MpegRegister(c1, [b0]) == MpegByte(c1, b0);
  }

  /** Any section followed by its own checksum checks to zero, which is how receivers test it. */
  lemma SectionChecks(section: seq<byte>)
    ensures MpegCrc(section + BE(MpegCrc(section), 4)) == 0
  {
    hide MpegRegister, BE;
    MpegMore(0xFFFF_FFFF, section, BE(MpegCrc(section), 4));
    OwnBytes(MpegCrc(section));
  }
}
