/** Octet strings: fixed-width integers, concatenated fields, and the disk image
    as a total byte array (reads past the end give zero). */
module Bytes {

  type u8 = x: nat | x < 0x100
  type byte = u8
  type u16 = x: nat | x < 0x1_0000
  type u32 = x: nat | x < 0x1_0000_0000
  type u64 = x: nat | x < 0x1_0000_0000_0000_0000

  const U32_MAX := 0xFFFF_FFFF

  /** The C conversion to uint32_t. */
  function U32(n: nat): u32 { n % 0x1_0000_0000 }

  // ---- little- and big-endian integers ----

  function Pow256(k: nat): (p: nat)
    ensures p > 0
  {
    if k == 0 then 1 else 256 * Pow256(k - 1)
  }

  lemma Pow256Values()
    ensures Pow256(1) == 0x100 && Pow256(2) == 0x1_0000
    ensures Pow256(4) == 0x1_0000_0000 && Pow256(8) == 0x1_0000_0000_0000_0000
  {
    assert Pow256(3) == 256 * Pow256(2) && Pow256(2) == 256 * Pow256(1) && Pow256(1) == 256 * Pow256(0);
    assert Pow256(5) == 256 * Pow256(4);
    assert Pow256(6) == 256 * Pow256(5);
    assert Pow256(7) == 256 * Pow256(6);
  }

  function LE(n: nat, k: nat): (s: seq<byte>)
    ensures |s| == k
    decreases k, n
  {
    if k == 0 then [] else [n % 256] + LE(n / 256, k - 1)
  }

  function FromLE(s: seq<byte>): (n: nat) {
    if s == [] then 0 else s[0] + 256 * FromLE(s[1..])
  }

  lemma {:induction false} FromLEBound(s: seq<byte>)
    ensures FromLE(s) < Pow256(|s|)
  {
    if s != [] {
      FromLEBound(s[1..]);
    }
  }

  /** Decoding inverts encoding exactly for the integers that fit. */
  lemma {:induction false} LERoundTrip(n: nat, k: nat)
    ensures FromLE(LE(n, k)) == n % Pow256(k)
    decreases k
  {
    if k > 0 {
      var s := LE(n, k);
      assert s[1..] == LE(n / 256, k - 1);
      LERoundTrip(n / 256, k - 1);
      ModSplit(n, Pow256(k - 1));
    }
  }

  lemma ModSplit(n: nat, p: nat)
    requires p > 0
    ensures n % 256 + 256 * (n / 256 % p) == n % (256 * p)
  {
    var a, b := n / 256, n % 256;
    var q, r := a / p, a % p;
    assert n == 256 * (p * q + r) + b;
    assert n == (256 * p) * q + (256 * r + b) by {
      assert 256 * (p * q) == (256 * p) * q;
    }
    assert 0 <= 256 * r + b < 256 * p;
    ModUnique(n, 256 * p, q, 256 * r + b);
  }

  lemma ModUnique(n: int, m: int, q: int, r: int)
    requires m > 0 && n == m * q + r && 0 <= r < m
    ensures n / m == q && n % m == r
  {
    var q' := n / m;
    var d := q - q';
    assert n == m * q' + n % m;
    assert m * d == n % m - r by {
      assert m * d == m * q - m * q';
    }
    MulAtLeast(m, d);
    MulAtLeast(m, -d);
    assert m * -d == -(m * d);
  }

  lemma MulAtLeast(m: int, d: int)
    requires m > 0
    ensures d >= 1 ==> m * d >= m
  {
  }

  function BE(n: nat, k: nat): (s: seq<byte>)
    ensures |s| == k
    decreases k, n
  {
    if k == 0 then [] else BE(n / 256, k - 1) + [n % 256]
  }

  function FromBE(s: seq<byte>): (n: nat) {
    if s == [] then 0 else 256 * FromBE(s[..|s| - 1]) + s[|s| - 1]
  }

  lemma {:induction false} BERoundTrip(n: nat, k: nat)
    ensures FromBE(BE(n, k)) == n % Pow256(k)
    decreases k
  {
    if k > 0 {
      var s := BE(n, k);
      assert s[..|s| - 1] == BE(n / 256, k - 1);
      BERoundTrip(n / 256, k - 1);
      ModSplit(n, Pow256(k - 1));
    }
  }

  // ---- exclusive or ----

  function Pow2(k: nat): (p: nat)
    ensures p > 0
  {
    if k == 0 then 1 else 2 * Pow2(k - 1)
  }

  /** Exclusive or of the low `k` bits. */
  function XorBits(a: nat, b: nat, k: nat): (r: nat)
    ensures r < Pow2(k)
    decreases k, a
  {
    if k == 0 then 0 else (a + b) % 2 + 2 * XorBits(a / 2, b / 2, k - 1)
  }

  lemma {:induction false} XorBitsTwice(a: nat, b: nat, k: nat)
    requires a < Pow2(k)
    ensures XorBits(XorBits(a, b, k), b, k) == a
    decreases k
  {
    if k > 0 {
      var high := XorBits(a / 2, b / 2, k - 1);
      LowBit(a, b, high);
      XorBitsTwice(a / 2, b / 2, k - 1);
    }
  }

  lemma LowBit(a: nat, b: nat, high: nat)
    ensures var r := (a + b) % 2 + 2 * high; r / 2 == high && (r + b) % 2 == a % 2
  {
    var low := (a + b) % 2;
    assert a == 2 * (a / 2) + a % 2 && b == 2 * (b / 2) + b % 2;
    assert low == (a % 2 + b % 2) % 2;
    assert (low + 2 * high + b) % 2 == (low + b % 2) % 2;
  }

  function Xor(a: byte, b: byte): byte { Pow2Of8(); XorBits(a, b, 8) }

  lemma Pow2Of8()
    ensures Pow2(8) == 256
  {
    assert Pow2(4) == 2 * Pow2(3) == 4 * Pow2(2) == 8 * Pow2(1) == 16 * Pow2(0);
    assert Pow2(8) == 2 * Pow2(7) == 4 * Pow2(6) == 8 * Pow2(5) == 16 * Pow2(4);
  }

  lemma XorTwice(a: byte, b: byte)
    ensures Xor(Xor(a, b), b) == a
  {
    Pow2Of8();
    XorBitsTwice(a, b, 8);
  }

  lemma {:induction false} XorBitsCommute(a: nat, b: nat, k: nat)
    ensures XorBits(a, b, k) == XorBits(b, a, k)
    decreases k
  {
    if k > 0 {
      XorBitsCommute(a / 2, b / 2, k - 1);
    }
  }

  lemma {:induction false} XorBitsZero(a: nat, k: nat)
    requires a < Pow2(k)
    ensures XorBits(a, 0, k) == a
    decreases k
  {
    if k > 0 {
      XorBitsZero(a / 2, k - 1);
    }
  }

  lemma XorZero(a: byte)
    ensures Xor(a, 0) == a
  {
    Pow2Of8();
    XorBitsZero(a, 8);
  }

  /** Exclusive or with the same byte tells bytes apart. */
  lemma XorLeft(a: byte, b: byte, c: byte)
    ensures Xor(a, b) == Xor(a, c) ==> b == c
  {
    XorBitsCommute(a, b, 8);
    XorBitsCommute(a, c, 8);
    XorTwice(b, a);
    XorTwice(c, a);
  }

  // ---- typed little-endian fields ----

  function Get8(s: seq<byte>): u8
    requires |s| == 1
  {
    FromLEBound(s); Pow256Values(); FromLE(s)
  }

  function Get16(s: seq<byte>): u16
    requires |s| == 2
  {
    FromLEBound(s); Pow256Values(); FromLE(s)
  }

  function Get32(s: seq<byte>): u32
    requires |s| == 4
  {
    FromLEBound(s); Pow256Values(); FromLE(s)
  }

  function Get64(s: seq<byte>): u64
    requires |s| == 8
  {
    FromLEBound(s); Pow256Values(); FromLE(s)
  }

  lemma LEFits(n: nat, k: nat)
    requires n < Pow256(k)
    ensures FromLE(LE(n, k)) == n
  {
    LERoundTrip(n, k);
    ModUnique(n, Pow256(k), 0, n);
  }

  lemma Fit8(n: u8)
    ensures Get8(LE(n, 1)) == n
  {
    Pow256Values(); LEFits(n, 1);
  }

  lemma Fit16(n: u16)
    ensures Get16(LE(n, 2)) == n
  {
    Pow256Values(); LEFits(n, 2);
  }

  lemma Fit32(n: u32)
    ensures Get32(LE(n, 4)) == n
  {
    Pow256Values(); LEFits(n, 4);
  }

  lemma Fit64(n: u64)
    ensures Get64(LE(n, 8)) == n
  {
    Pow256Values(); LEFits(n, 8);
  }

  lemma BEFits(n: nat, k: nat)
    requires n < Pow256(k)
    ensures FromBE(BE(n, k)) == n
  {
    BERoundTrip(n, k);
    ModUnique(n, Pow256(k), 0, n);
  }

  /** The bytes a shift by whole bytes picks out. */
  lemma BE2(n: nat)
    ensures BE(n, 2) == [n / 0x100 % 256, n % 256]
  {
    assert BE(n / 256 / 256, 0) == [];
    assert BE(n / 256, 1) == [] + [n / 256 % 256];
  }

  lemma BE4(n: nat)
    ensures BE(n, 4) == [n / 0x100_0000 % 256, n / 0x1_0000 % 256, n / 0x100 % 256, n % 256]
  {
    BE2(n / 256 / 256);
    assert BE(n, 4) == BE(n / 256, 3) + [n % 256];
    assert BE(n / 256, 3) == BE(n / 256 / 256, 2) + [n / 256 % 256];
    assert n / 256 / 256 == n / 0x1_0000 && n / 256 / 256 / 256 == n / 0x100_0000;
  }

  // ---- packed structures ----

  /** Where each of eight consecutive fields lies in their concatenation. */
  lemma Slices8(a: seq<byte>, b: seq<byte>, c: seq<byte>, d: seq<byte>,
                e: seq<byte>, f: seq<byte>, g: seq<byte>, t: seq<byte>, s: seq<byte>)
    requires s == a + (b + (c + (d + (e + (f + (g + t))))))
    ensures var i := |a|; s[..i] == a && s[i..i + |b|] == b
    ensures var i := |a| + |b|; s[i..i + |c|] == c && s[i + |c|..i + |c| + |d|] == d
    ensures var i := |a| + |b| + |c| + |d|; s[i..i + |e|] == e && s[i + |e|..i + |e| + |f|] == f
    ensures var i := |a| + |b| + |c| + |d| + |e| + |f|; s[i..i + |g|] == g && s[i + |g|..] == t
  {
  }

  // ---- the disk image ----

  function Read(disk: seq<byte>, off: nat, n: nat): (s: seq<byte>)
    ensures |s| == n
  {
    seq(n, i requires 0 <= i < n => if off + i < |disk| then disk[off + i] else 0)
  }

  function Write(disk: seq<byte>, off: nat, data: seq<byte>): (r: seq<byte>)
    ensures |r| == |disk|
  {
    seq(|disk|, i requires 0 <= i < |disk| => if off <= i < off + |data| then data[i - off] else disk[i])
  }

  lemma ReadBack(disk: seq<byte>, off: nat, data: seq<byte>)
    requires off + |data| <= |disk|
    ensures Read(Write(disk, off, data), off, |data|) == data
  {
  }

  lemma ReadElsewhere(disk: seq<byte>, off: nat, data: seq<byte>, off': nat, n: nat)
    requires off' + n <= off || off + |data| <= off'
    ensures Read(Write(disk, off, data), off', n) == Read(disk, off', n)
  {
  }

  function Zeros(n: nat): (s: seq<byte>)
    ensures |s| == n
  {
    seq(n, _ => 0)
  }
}
