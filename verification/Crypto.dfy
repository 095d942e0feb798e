/** AES-256 in counter mode with a byte offset, and the wrapping of the disk key.
    The block cipher itself is a parameter. */
module Crypto {
  import opened Bytes
  import opened RecorderFormat

  type BlockCipher = (Key, Block) -> Block

  /** counter = | seg_id(32) | frame_seq(32) | block(64) |, big-endian. */
  function Counter(segId: u32, frameSeq: u32, blk: nat): Block {
    BE(segId, 4) + BE(frameSeq, 4) + BE(blk, 8)
  }

  function KeyStream(aes: BlockCipher, key: Key, segId: u32, frameSeq: u32, pos: nat): byte {
    aes(key, Counter(segId, frameSeq, pos / 16))[pos % 16]
  }

  /** What en- or deciphering `buf`, taken to start at byte `off` of the frame, yields. */
  function Xcrypt(aes: BlockCipher, key: Key, segId: u32, frameSeq: u32, off: nat, buf: seq<byte>): (r: seq<byte>)
    ensures |r| == |buf|
  {
    seq(|buf|, i requires 0 <= i < |buf| => Xor(buf[i], KeyStream(aes, key, segId, frameSeq, off + i)))
  }

  /** Section 6.5 of NIST SP 800-38A: decryption is encryption. */
  lemma XcryptTwice(aes: BlockCipher, key: Key, segId: u32, frameSeq: u32, off: nat, buf: seq<byte>)
    ensures Xcrypt(aes, key, segId, frameSeq, off, Xcrypt(aes, key, segId, frameSeq, off, buf)) == buf
  {
    var c := Xcrypt(aes, key, segId, frameSeq, off, buf);
    var p := Xcrypt(aes, key, segId, frameSeq, off, c);
    forall i | 0 <= i < |buf|
      ensures p[i] == buf[i]
    {
      XorTwice(buf[i], KeyStream(aes, key, segId, frameSeq, off + i));
    }
  }

  /** A frame may be processed in pieces cut anywhere. */
  lemma XcryptPieces(aes: BlockCipher, key: Key, segId: u32, frameSeq: u32, off: nat, a: seq<byte>, b: seq<byte>)
    ensures Xcrypt(aes, key, segId, frameSeq, off, a + b)
         == Xcrypt(aes, key, segId, frameSeq, off, a) + Xcrypt(aes, key, segId, frameSeq, off + |a|, b)
  {
    var l := Xcrypt(aes, key, segId, frameSeq, off, a + b);
    var ra := Xcrypt(aes, key, segId, frameSeq, off, a);
    var rb := Xcrypt(aes, key, segId, frameSeq, off + |a|, b);
    forall i | 0 <= i < |a + b|
      ensures l[i] == (ra + rb)[i]
    {
      if i >= |a| {
        assert off + i == off + |a| + (i - |a|);
      }
    }
  }

  /** Counter blocks coincide only for the same segment, frame and block number. */
  lemma CounterInjective(s1: u32, f1: u32, b1: u64, s2: u32, f2: u32, b2: u64)
    ensures Counter(s1, f1, b1) == Counter(s2, f2, b2) <==> s1 == s2 && f1 == f2 && b1 == b2
  {
    var c1, c2 := Counter(s1, f1, b1), Counter(s2, f2, b2);
    assert c1[..4] == BE(s1, 4) && c1[4..8] == BE(f1, 4) && c1[8..] == BE(b1, 8);
    assert c2[..4] == BE(s2, 4) && c2[4..8] == BE(f2, 4) && c2[8..] == BE(b2, 8);
    BEFits(s1, 4); BEFits(s2, 4); BEFits(f1, 4); BEFits(f2, 4); BEFits(b1, 8); BEFits(b2, 8);
  }

  lemma {:induction false} JoinedDigits(a: seq<byte>, b: seq<byte>)
    ensures FromBE(a + b) == FromBE(a) * Pow256(|b|) + FromBE(b)
    decreases |b|
  {
    if b == [] {
      assert a + b == a;
    } else {
      var n := |b| - 1;
      assert (a + b)[..|a| + n] == a + b[..n] && (a + b)[|a| + n] == b[n];
      JoinedDigits(a, b[..n]);
      assert FromBE(a) * Pow256(n + 1) == 256 * (FromBE(a) * Pow256(n));
    }
  }

  /** The counter block is a number of 128 bits: segment, frame and block number from the top down. */
  lemma CounterIs(s: u32, f: u32, b: u64)
    ensures FromBE(Counter(s, f, b)) == (s as nat * 0x1_0000_0000 + f) * 0x1_0000_0000_0000_0000 + b
  {
    hide BE, FromBE, Pow256;
    Pow256Values();
    JoinedDigits(BE(s, 4) + BE(f, 4), BE(b, 8));
    JoinedDigits(BE(s, 4), BE(f, 4));
    BEFits(s, 4); BEFits(f, 4); BEFits(b, 8);
  }

  lemma {:induction false} DigitsTell(a: seq<byte>, b: seq<byte>)
    requires |a| == |b| && FromBE(a) == FromBE(b)
    ensures a == b
    decreases |a|
  {
    if a != [] {
      var n := |a| - 1;
      DigitsTell(a[..n], b[..n]);
      assert a == a[..n] + [a[n]] && b == b[..n] + [b[n]];
    }
  }

  /** Byte `i` is combined with byte `j` of the cipher's image of the counter block for segment, frame and
      block `n`, where the byte's place in the frame is 16 n + j. */
  lemma XcryptIs(aes: BlockCipher, key: Key, segId: u32, frameSeq: u32, off: nat, buf: seq<byte>, i: nat, n: u64, j: nat, c: Block)
    requires i < |buf| && off + i == 16 * n + j && j < 16
    requires FromBE(c) == (segId as nat * 0x1_0000_0000 + frameSeq) * 0x1_0000_0000_0000_0000 + n
    ensures Xcrypt(aes, key, segId, frameSeq, off, buf)[i] == Xor(buf[i], aes(key, c)[j])
  {
    hide Xor, Counter, FromBE;
    CounterIs(segId, frameSeq, n);
    DigitsTell(c, Counter(segId, frameSeq, n));
    ModUnique(off + i, 16, n, j);
  }

  lemma BEFits(n: nat, k: nat)
    ensures k == 4 && n < 0x1_0000_0000 ==> FromBE(BE(n, k)) == n
    ensures k == 8 && n < 0x1_0000_0000_0000_0000 ==> FromBE(BE(n, k)) == n
  {
    BERoundTrip(n, k);
    Pow256Values();
    if n < Pow256(k) {
      ModUnique(n, Pow256(k), 0, n);
    }
  }

  /** The software loop: one cipher block at a time, the first one entered at `off % 16`. */
  method XcryptInPlace(aes: BlockCipher, key: Key, segId: u32, frameSeq: u32, off: nat, buf: array<byte>, len: nat)
    requires len <= buf.Length
    modifies buf
    ensures buf[..len] == Xcrypt(aes, key, segId, frameSeq, off, old(buf[..len]))
    ensures buf[len..] == old(buf[len..])
  {
    hide Xcrypt, Xor, Counter;
    ghost var was := buf[..];
    ghost var want := Xcrypt(aes, key, segId, frameSeq, off, was[..len]);
    var blk, skip, done := off / 16, off % 16, 0;
    while done < len
      invariant 0 <= done <= len && 0 <= skip < 16 && 0 <= blk
      invariant done < len ==> 16 * blk + skip == off + done
      invariant buf[..] == want[..done] + was[done..]
    {
      var ks := aes(key, Counter(segId, frameSeq, blk));
      BlockOfStream(aes, key, segId, frameSeq, off, was[..len], blk, skip, done);
      done := XorBlock(ks, skip, buf, done, len, was, want);
      skip, blk := 0, blk + 1;
    }
    assert buf[..len] == want && buf[len..] == was[len..];
  }

  /** What one key-stream block contributes from position `done` on. */
  lemma BlockOfStream(aes: BlockCipher, key: Key, segId: u32, frameSeq: u32, off: nat, plain: seq<byte>,
                      blk: nat, skip: nat, done: nat)
    requires 16 * blk + skip == off + done
    ensures var ks := aes(key, Counter(segId, frameSeq, blk));
      forall j :: skip <= j < 16 && done + j - skip < |plain| ==>
        Xcrypt(aes, key, segId, frameSeq, off, plain)[done + j - skip] == Xor(plain[done + j - skip], ks[j])
  {
    hide Xor, Counter;
    forall j | skip <= j < 16 && done + j - skip < |plain|
      ensures Xcrypt(aes, key, segId, frameSeq, off, plain)[done + j - skip]
           == Xor(plain[done + j - skip], aes(key, Counter(segId, frameSeq, blk))[j])
    {
      ModUnique(off + (done + j - skip), 16, blk, j);
    }
  }

  /** The inner loop over one key-stream block. */
  method XorBlock(ks: Block, skip: nat, buf: array<byte>, start: nat, len: nat,
                  ghost was: seq<byte>, ghost want: seq<byte>) returns (done: nat)
    requires skip < 16 && start < len <= buf.Length == |was| && |want| == len
    requires buf[..] == want[..start] + was[start..]
    requires forall j :: skip <= j < 16 && start + j - skip < len ==> want[start + j - skip] == Xor(was[start + j - skip], ks[j])
    modifies buf
    ensures done == if start + 16 - skip < len then start + 16 - skip else len
    ensures buf[..] == want[..done] + was[done..]
  {
    done := start;
    var i := skip;
    while i < 16 && done < len
      invariant skip <= i <= 16 && start <= done <= len
      invariant done - start == i - skip
      invariant buf[..] == want[..done] + was[done..]
    {
      assert buf[done] == was[done];
      assert want[start + i - skip] == Xor(was[start + i - skip], ks[i]);
      buf[done] := Xor(buf[done], ks[i]);
      assert buf[..] == want[..done] + [want[done]] + was[done + 1..];
      assert want[..done + 1] == want[..done] + [want[done]];
      i, done := i + 1, done + 1;
    }
  }

  // ---- key wrapping ----

  const WRAP_SEG_ID: u32 := 0xA5A5A5A5

  /** The key-encryption key derived from a serial number and the disk's salt. */
  function KdfKek(aes: BlockCipher, sn: seq<byte>, salt: Block): Key {
    var seed: Key := seq(16, i requires 0 <= i < 16 => Xor(0x5a, salt[i]))
                   + seq(16, i requires 0 <= i < 16 => if i < |sn| then Xor(0x5a, sn[i]) else 0x5a);
    var first := aes(seed, Zeros(16));
    var second: Block := seq(16, i requires 0 <= i < 16 => Xor(first[i], 0xff));
    first + aes(seed, second)
  }

  function Kcv(aes: BlockCipher, kek: Key): Bytes8 { aes(kek, Zeros(16))[..8] }

  function DekWrap(aes: BlockCipher, kek: Key, dek: Key): (Wrapped, Bytes8) {
    (Xcrypt(aes, kek, WRAP_SEG_ID, 0, 0, dek) + Zeros(16), Kcv(aes, kek))
  }

  datatype KeyResult = NoKey | HasKey(key: Key)

  function DekUnwrap(aes: BlockCipher, kek: Key, wrapped: Wrapped, kcv: Bytes8): KeyResult {
    if Kcv(aes, kek) != kcv then NoKey
    else HasKey(Xcrypt(aes, kek, WRAP_SEG_ID, 0, 0, wrapped[..32]))
  }

  lemma UnwrapWrap(aes: BlockCipher, kek: Key, dek: Key)
    ensures var (w, kcv) := DekWrap(aes, kek, dek); DekUnwrap(aes, kek, w, kcv) == HasKey(dek)
  {
    var (w, kcv) := DekWrap(aes, kek, dek);
    assert w[..32] == Xcrypt(aes, kek, WRAP_SEG_ID, 0, 0, dek);
    XcryptTwice(aes, kek, WRAP_SEG_ID, 0, 0, dek);
  }

  /** The key-encryption key: with 0x5A over the salt and over the first 16 bytes of the serial number, zeros behind
      its end, for a key, the images of the zero block and of the complement of that image. */
  lemma KekIs(aes: BlockCipher, sn: seq<byte>, salt: Block, seed: Key, first: Block, second: Block)
    requires forall i :: 0 <= i < 16 ==> seed[i] == Xor(0x5A, salt[i]) && seed[16 + i] == Xor(0x5A, if i < |sn| then sn[i] else 0)
    requires first == aes(seed, Zeros(16)) && forall i :: 0 <= i < 16 ==> second[i] == Xor(first[i], 0xFF)
    ensures KdfKek(aes, sn, salt) == first + aes(seed, second)
  {
    hide Xor;
    XorZero(0x5A);
    var key: Key := seq(16, i requires 0 <= i < 16 => Xor(0x5a, salt[i]))
                  + seq(16, i requires 0 <= i < 16 => if i < |sn| then Xor(0x5a, sn[i]) else 0x5a);
    forall i | 0 <= i < 32
      ensures key[i] == seed[i]
    {
      if i >= 16 {
        assert seed[i] == seed[16 + (i - 16)];
      }
    }
    assert key == seed;
    assert seq(16, i requires 0 <= i < 16 => Xor(first[i], 0xff)) == second;
  }

  /** The data key in 32 bytes, enciphered under the segment number 0xA5A5A5A5, and 16 zeros; the check value is the
      first half of the image of the zero block. */
  lemma WrappedIs(aes: BlockCipher, kek: Key, dek: Key, i: nat, c: Block)
    requires i < 32 && FromBE(c) == 0xA5A5_A5A5 * 0x1_0000_0000_0000_0000_0000_0000 + i / 16
    ensures var (w, kcv) := DekWrap(aes, kek, dek);
      w[i] == Xor(dek[i], aes(kek, c)[i % 16]) && w[32..] == Zeros(16) && kcv == aes(kek, Zeros(16))[..8]
  {
    hide Xor, Xcrypt, FromBE;
    XcryptIs(aes, kek, WRAP_SEG_ID, 0, 0, dek, i, i / 16, i % 16, c);
  }
}
