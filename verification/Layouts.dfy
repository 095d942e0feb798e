/** Where every field lies on the disk, byte by byte, as the packed structures of the recorder lay it out; and where
    tables, slots and records are. Numbers are read here by their bytes, low byte first. */
module Layouts {
  import opened Bytes
  import opened RecorderFormat
  import opened StorageDev
  import opened Index
  import opened Recorder
  import opened Player
  import opened Faithful
  import History
  import opened Crypto

  /** The number in the `n` bytes of `s` from byte `a` on. */
  function Number(s: seq<byte>, a: nat, n: nat): nat
    requires a + n <= |s|
    decreases n
  {
    if n == 0 then 0 else s[a] + 256 * Number(s, a + 1, n - 1)
  }

  lemma {:induction false} NumberIs(s: seq<byte>, a: nat, n: nat)
    requires a + n <= |s|
    ensures FromLE(s[a..a + n]) == Number(s, a, n)
    decreases n
  {
    if n > 0 {
      assert s[a..a + n][1..] == s[a + 1..a + 1 + (n - 1)];
      NumberIs(s, a + 1, n - 1);
    }
  }

  // ---- the structures ----

  lemma HdrLayout(h: FrameHdr)
    ensures var s := EncodeHdr(h);
      && s[..8] == h.magic && Number(s, 8, 2) == h.chn && Number(s, 10, 1) == h.stream && Number(s, 11, 1) == h.codec
      && Number(s, 12, 1) == h.frameType && Number(s, 13, 1) == h.enc && Number(s, 14, 2) == h.rsv0
      && Number(s, 16, 4) == h.payloadLen && Number(s, 20, 4) == h.segId && Number(s, 24, 4) == h.frameSeq
      && Number(s, 28, 8) == h.pts && Number(s, 36, 8) == h.wallTime && s[44..52] == h.ivNonce
      && Number(s, 52, 4) == h.crc && s[56..] == h.rsvh
  {
    hide EncodeHdr, Number, FromLE;
    HdrRoundTrip(h);
    var s := EncodeHdr(h);
    var t := s[16..];
    assert t[..4] == s[16..20] && t[4..8] == s[20..24] && t[8..12] == s[24..28] && t[12..20] == s[28..36];
    assert t[20..28] == s[36..44] && t[28..36] == s[44..52] && t[36..40] == s[52..56] && t[40..] == s[56..];
    NumberIs(s, 8, 2); NumberIs(s, 10, 1); NumberIs(s, 11, 1); NumberIs(s, 12, 1); NumberIs(s, 13, 1); NumberIs(s, 14, 2);
    NumberIs(s, 16, 4); NumberIs(s, 20, 4); NumberIs(s, 24, 4); NumberIs(s, 28, 8); NumberIs(s, 36, 8); NumberIs(s, 52, 4);
  }

  lemma SlotLayout(x: Slot)
    ensures var s := EncodeSlot(x);
      && Number(s, 0, 4) == x.segId && Number(s, 4, 2) == x.chn && Number(s, 6, 1) == x.rectype && Number(s, 7, 1) == x.flags
      && Number(s, 8, 4) == x.startTime && Number(s, 12, 4) == x.endTime && Number(s, 16, 4) == x.frameCount
      && Number(s, 20, 8) == x.totalBytes && Number(s, 28, 2) == x.startDisk && Number(s, 30, 2) == x.endDisk
      && Number(s, 32, 8) == x.startChunk && Number(s, 40, 4) == x.startOff && Number(s, 44, 8) == x.endChunk
      && Number(s, 52, 4) == x.endOff && Number(s, 56, 4) == x.crc && Number(s, 60, 4) == x.pad
  {
    hide EncodeSlot, Number, FromLE;
    SlotRoundTrip(x);
    var s := EncodeSlot(x);
    var t := s[20..];
    var u := t[36..];
    assert s[..4] == s[0..4] && t[..8] == s[20..28] && t[8..10] == s[28..30] && t[10..12] == s[30..32] && t[12..20] == s[32..40];
    assert t[20..24] == s[40..44] && t[24..32] == s[44..52] && t[32..36] == s[52..56] && u[..4] == s[56..60] && u[4..] == s[60..64];
    NumberIs(s, 0, 4); NumberIs(s, 4, 2); NumberIs(s, 6, 1); NumberIs(s, 7, 1); NumberIs(s, 8, 4); NumberIs(s, 12, 4);
    NumberIs(s, 16, 4); NumberIs(s, 20, 8); NumberIs(s, 28, 2); NumberIs(s, 30, 2); NumberIs(s, 32, 8); NumberIs(s, 40, 4);
    NumberIs(s, 44, 8); NumberIs(s, 52, 4); NumberIs(s, 56, 4); NumberIs(s, 60, 4);
  }

  lemma SbLayout(x: SuperBlock)
    ensures var s := EncodeSb(x);
      && s[..8] == x.magic && Number(s, 8, 4) == x.version && Number(s, 12, 4) == x.crc
      && s[16..32] == x.diskUuid && s[32..48] == x.groupUuid && Number(s, 48, 2) == x.groupDiskIndex && Number(s, 50, 2) == x.groupDiskCount
      && Number(s, 52, 8) == x.totalSectors && Number(s, 60, 8) == x.rsvStartSec && Number(s, 68, 8) == x.dataStartSec
      && Number(s, 76, 8) == x.chunkSectors && Number(s, 84, 8) == x.chunkCount && Number(s, 92, 8) == x.writePtrChunk
      && Number(s, 100, 8) == x.seqEpoch && Number(s, 108, 4) == x.featureMask && Number(s, 112, 4) == x.rsvf
      && Number(s, 116, 8) == x.metaStartChunk && Number(s, 124, 8) == x.metaChunkCount
      && Number(s, 132, 1) == x.encAlgo && Number(s, 133, 1) == x.encFlags && Number(s, 134, 1) == x.hddFull
      && s[135..140] == x.rsv0 && s[140..156] == x.kdfSalt && s[156..204] == x.wrappedDek && s[204..212] == x.dekKcv && s[212..] == x.pad
  {
    hide EncodeSb, Number, FromLE;
    SbRoundTrip(x);
    var s := EncodeSb(x);
    SbTails(s);
    NumberIs(s, 8, 4); NumberIs(s, 12, 4); NumberIs(s, 48, 2); NumberIs(s, 50, 2); NumberIs(s, 52, 8); NumberIs(s, 60, 8);
    NumberIs(s, 68, 8); NumberIs(s, 76, 8); NumberIs(s, 84, 8); NumberIs(s, 92, 8); NumberIs(s, 100, 8); NumberIs(s, 108, 4);
    NumberIs(s, 112, 4); NumberIs(s, 116, 8); NumberIs(s, 124, 8); NumberIs(s, 132, 1); NumberIs(s, 133, 1); NumberIs(s, 134, 1);
  }

  lemma SbTails(s: seq<byte>)
    requires |s| == SEC
    ensures var t := s[52..]; var u := t[56..]; var v := u[27..];
      && t[..8] == s[52..60] && t[8..16] == s[60..68] && t[16..24] == s[68..76] && t[24..32] == s[76..84]
      && t[32..40] == s[84..92] && t[40..48] == s[92..100] && t[48..56] == s[100..108]
      && u[..4] == s[108..112] && u[4..8] == s[112..116] && u[8..16] == s[116..124] && u[16..24] == s[124..132]
      && u[24..25] == s[132..133] && u[25..26] == s[133..134] && u[26..27] == s[134..135]
      && v[..5] == s[135..140] && v[5..21] == s[140..156] && v[21..69] == s[156..204] && v[69..77] == s[204..212] && v[77..] == s[212..]
  {
  }

  predicate Channel(s: seq<byte>, a: nat, c: ChnPos)
    requires a + 16 <= |s|
  {
    Number(s, a, 8) == c.curChunk && Number(s, a + 8, 4) == c.curOff && Number(s, a + 12, 4) == c.segSeq
  }

  lemma Part(s: seq<byte>, a: nat, n: nat, i: nat, j: nat)
    requires a + n <= |s| && i <= j <= n
    ensures s[a..a + n][i..j] == s[a + i..a + j]
  {
    var l, r := s[a..a + n][i..j], s[a + i..a + j];
    forall m | 0 <= m < j - i
      ensures l[m] == r[m]
    {
      assert s[a..a + n][i + m] == s[a + (i + m)];
    }
  }

  lemma StLayout(x: SysTab)
    ensures var s := EncodeSt(x);
      && Number(s, 0, 4) == x.magic && Number(s, 4, 4) == x.version && Number(s, 8, 4) == x.size && Number(s, 12, 4) == x.crc
      && Number(s, 16, 8) == x.formatTime && Number(s, 24, 8) == x.bitmapStartSec && Number(s, 32, 8) == x.bitmapSectors
      && Number(s, 40, 8) == x.indexStartSec && Number(s, 48, 8) == x.indexSectors && Number(s, 56, 4) == x.slotSize
      && Number(s, 60, 4) == x.slotCount && Number(s, 64, 4) == x.indexNext && Number(s, 68, 4) == x.rsvi
      && Number(s, 72, 8) == x.metaNextOff && Number(s, 80, 8) == x.metaBytes && s[600..] == x.rsv
      && forall i :: 0 <= i < 32 ==> Channel(s, 88 + 16 * i, x.chn[i])
  {
    hide EncodeSt, Number, FromLE, DecodeChn;
    StRoundTrip(x);
    var s := EncodeSt(x);
    StTails(s);
    NumberIs(s, 0, 4); NumberIs(s, 4, 4); NumberIs(s, 8, 4); NumberIs(s, 12, 4); NumberIs(s, 16, 8); NumberIs(s, 24, 8);
    NumberIs(s, 32, 8); NumberIs(s, 40, 8); NumberIs(s, 48, 8); NumberIs(s, 56, 4); NumberIs(s, 60, 4); NumberIs(s, 64, 4);
    NumberIs(s, 68, 4); NumberIs(s, 72, 8); NumberIs(s, 80, 8);
    forall i | 0 <= i < 32
      ensures Channel(s, 88 + 16 * i, x.chn[i])
    {
      ChnLayout(s, 88, 32, i);
    }
  }

  lemma StTails(s: seq<byte>)
    requires |s| == ST_SIZE
    ensures var t := s[40..]; var u := t[40..];
      && s[..4] == s[0..4] && t[..8] == s[40..48] && t[8..16] == s[48..56] && t[16..20] == s[56..60] && t[20..24] == s[60..64]
      && t[24..28] == s[64..68] && t[28..32] == s[68..72] && t[32..40] == s[72..80] && u[..8] == s[80..88]
      && u[8..520] == s[88..600] && u[520..] == s[600..]
  {
  }

  /** Entry `i` of a table of `n` channels from byte `a` on. */
  lemma {:induction false} ChnLayout(s: seq<byte>, a: nat, n: nat, i: nat)
    requires a + 16 * n <= |s| && i < n
    ensures |s[a..a + 16 * n]| == 16 * n
    ensures Channel(s, a + 16 * i, DecodeChn(s[a..a + 16 * n])[i])
    decreases n
  {
    hide FromLE, Number;
    var t := s[a..a + 16 * n];
    if i == 0 {
      FirstChannel(s, a, n);
    } else {
      assert t[16..] == s[a + 16..a + 16 + 16 * (n - 1)];
      ChnLayout(s, a + 16, n - 1, i - 1);
      assert DecodeChn(t)[i] == DecodeChn(t[16..])[i - 1];
    }
  }

  lemma FirstChannel(s: seq<byte>, a: nat, n: nat)
    requires a + 16 * n <= |s| && 0 < n
    ensures |s[a..a + 16 * n]| == 16 * n && Channel(s, a, DecodeChn(s[a..a + 16 * n])[0])
  {
    hide FromLE, Number;
    var t := s[a..a + 16 * n];
    Part(s, a, 16 * n, 0, 8); Part(s, a, 16 * n, 8, 12); Part(s, a, 16 * n, 12, 16);
    assert t[..8] == t[0..8];
    NumberIs(s, a, 8); NumberIs(s, a + 8, 4); NumberIs(s, a + 12, 4);
  }

  // ---- names ----

  function Text(t: string): seq<byte>
    requires forall i :: 0 <= i < |t| ==> t[i] < 128 as char
  {
    seq(|t|, i requires 0 <= i < |t| => t[i] as int)
  }

  lemma Names()
    ensures FRAME_MAGIC == Text("rsdkfrm") + [0] && SB_MAGIC == Text("RSDK01") + [0, 0] && DEFAULT_SN == Text("NT12-32")
    ensures LE(ST_MAGIC, 4) == Text("STAB")
  {
    assert LE(ST_MAGIC, 4) == [ST_MAGIC % 256] + LE(ST_MAGIC / 256, 3);
    assert LE(ST_MAGIC / 256, 3) == [ST_MAGIC / 256 % 256] + LE(ST_MAGIC / 256 / 256, 2);
    assert LE(ST_MAGIC / 256 / 256, 2) == [ST_MAGIC / 0x1_0000 % 256] + LE(ST_MAGIC / 0x100_0000, 1);
    assert LE(ST_MAGIC / 0x100_0000, 1) == [ST_MAGIC / 0x100_0000 % 256] + LE(ST_MAGIC / 0x1_0000_0000, 0);
  }

  // ---- places ----

  /** The superblock is in sector 1 and again in sector 2; the system table is in the 8 sectors from sector 3 and
      again in those from sector 11. Each carries the checksum of itself with a zero in its place. */
  lemma TablePlaces(d: Dev)
    requires 19 * 512 <= |d.disk|
    ensures var e := Flush(d); var sb, st := EncodeSb(e.sb), EncodeSt(e.st);
      && Read(e.disk, 512, 512) == sb && Read(e.disk, 1024, 512) == sb
      && Read(e.disk, 1536, 4096) == st && Read(e.disk, 5632, 4096) == st
      && e.sb == d.sb.(crc := d.prims.crc(EncodeSb(d.sb.(crc := 0)))) && e.st == d.st.(crc := d.prims.crc(EncodeSt(d.st.(crc := 0))))
  {
    hide EncodeSb, EncodeSt, Read, Write;
    var e := Flush(d);
    TablesReadBack(d.disk, e.sb, e.st);
    var d1 := Write(d.disk, 1024, EncodeSb(e.sb));
    var d2 := Write(d1, 5632, EncodeSt(e.st));
    var d3 := Write(d2, 512, EncodeSb(e.sb));
    ReadBack(d.disk, 1024, EncodeSb(e.sb));
    ReadElsewhere(d1, 5632, EncodeSt(e.st), 1024, 512);
    ReadElsewhere(d2, 512, EncodeSb(e.sb), 1024, 512);
    ReadElsewhere(d3, 1536, EncodeSt(e.st), 1024, 512);
    ReadBack(d1, 5632, EncodeSt(e.st));
    ReadElsewhere(d2, 512, EncodeSb(e.sb), 5632, 4096);
    ReadElsewhere(d3, 1536, EncodeSt(e.st), 5632, 4096);
  }

  /** At byte `off` of the disk are the header, field by field, and the payload, enciphered or not. */
  predicate RecordIs(d: Dev, off: nat, segId: u32, frameSeq: u32, f: Frame) {
    var s := Read(d.disk, off, 64);
    && s[..8] == Text("rsdkfrm") + [0] && Number(s, 8, 2) == f.chn && Number(s, 10, 1) == f.stream && Number(s, 11, 1) == f.codec
    && Number(s, 12, 1) == f.frameType && Number(s, 16, 4) == |f.data| && Number(s, 20, 4) == segId && Number(s, 24, 4) == frameSeq
    && Number(s, 28, 8) == f.pts && Number(s, 36, 8) == f.wallTime
    && match d.dek
       case NoKey => Number(s, 13, 1) == 0 && Read(d.disk, off + 64, |f.data|) == f.data
       case HasKey(key) => Number(s, 13, 1) == 1 && Read(d.disk, off + 64, |f.data|) == Xcrypt(d.prims.aes, key, segId, frameSeq, 0, f.data)
  }

  /** The first byte of the chunk of segment `k`. */
  function FirstByte(d: Dev, k: nat): nat
    requires d.sb.metaChunkCount < d.sb.chunkCount
  {
    512 * (d.sb.dataStartSec + k % (d.sb.chunkCount - d.sb.metaChunkCount) * d.sb.chunkSectors)
  }

  /** The bytes of frame `j` of a live segment: its chunk is that of its number on the ring, the frames before it
      take their room, and then it comes. */
  lemma RecordBytes(d: Dev, h: seq<Seg>, k: nat, j: nat)
    requires DiskInv(d, h) && k < |h| && Live(d, |h|, k) && j < |h[k].frames|
    ensures d.sb.metaChunkCount < d.sb.chunkCount && j <= U32_MAX
    ensures RecordIs(d, FirstByte(d, k) + History.Room(h[k].frames[..j]), h[k].segId, j, h[k].frames[j])
  {
    hide DiskInv, Live, RecordAt, RecordIs, Span, History.Room, Base, SegOk, FirstByte;
    LiveSeg(d, h, k);
    RecordOf(d, k, h[k], j);
    Places(d, h, k);
    History.RoomIs(h[k].frames[..j]);
    RecordHdr(d, Base(d, k) + Span(h[k].frames[..j]), h[k].segId, j, h[k].frames[j]);
  }

  lemma LiveSeg(d: Dev, h: seq<Seg>, k: nat)
    requires DiskInv(d, h) && k < |h| && Live(d, |h|, k)
    ensures GeoOk(d) && RingOk(d, |h|) && SegOk(d, k, h[k])
  {
    hide GeoOk, RingOk, SlotsOk, SegOk;
  }

  lemma RecordHdr(d: Dev, off: nat, segId: u32, frameSeq: u32, f: Frame)
    requires RecordAt(d, off, segId, frameSeq, f)
    ensures RecordIs(d, off, segId, frameSeq, f)
  {
    hide EncodeHdr, Number, Nonce, Read, Text, Xcrypt;
    HdrLayout(HdrFor(d, segId, frameSeq, f));
    Names();
  }

  lemma Places(d: Dev, h: seq<Seg>, k: nat)
    requires GeoOk(d) && RingOk(d, |h|) && k < |h| && Live(d, |h|, k)
    ensures d.sb.metaChunkCount < d.sb.chunkCount && Base(d, k) == FirstByte(d, k)
  {
    hide RingOk;
    var m := d.sb.chunkCount - d.sb.metaChunkCount;
    assert DataChunks(d) == m;
    var c, x := k % m, d.sb.chunkSectors;
    assert c * (x * 512) == 512 * (c * x);
  }

  /** Slot `i` of the index. */
  lemma SlotBytes(d: Dev, i: nat, x: Slot)
    requires Read(d.disk, 512 * d.st.indexStartSec + 64 * i, 64) == EncodeSlot(x)
    ensures SlotAt(d, i) == x
  {
    hide EncodeSlot, DecodeSlot, Read;
    SlotRoundTrip(x);
  }

  /** The slot of a segment, open or closed: open it has mark 4 and no end, closed mark 1 and the last time; mark 2 is
      for anything but continuous recording; it names disk and chunk of the segment and where its last record
      begins. */
  lemma FilledSlot(d: Dev, w: Wr, closed: bool)
    ensures var x := FillSlot(d, w, closed);
      && x.segId == w.segId && x.chn == w.chn && x.rectype == w.rectype
      && x.flags == (if closed then 1 else 4) + (if w.rectype == 0 then 0 else 2)
      && x.startTime == w.startTime && x.endTime == (if closed then w.lastTime else 0xFFFF_FFFF)
      && x.frameCount == w.frameCount && x.totalBytes == w.totalBytes
      && x.startDisk == x.endDisk == d.sb.groupDiskIndex && x.startChunk == x.endChunk == w.chunk && x.startOff == 0 && x.endOff == w.endOff
      && IsOpen(x) == !closed && IsValid(x) == closed
  {
  }

  // ---- a full disk ----

  /** What a disk does when it comes to the end of its chunks: mode 1 stops, any other begins again and counts the
      lap. */
  lemma FullDisk(d: Dev)
    requires d.sb.metaChunkCount <= d.sb.chunkCount && d.sb.writePtrChunk < 0xFFFF_FFFF_FFFF_FFFF
    ensures var n, c := d.sb.chunkCount - d.sb.metaChunkCount, d.sb.writePtrChunk; var (e, r) := Alloc(d);
      && (r.NoRoom? <==> n == 0 || (d.sb.hddFull == 1 && c >= n)) && (r.NoRoom? ==> e == d)
      && (r.Chunk? ==> r.chunk == c && r.off == 512 * (d.sb.dataStartSec + c * d.sb.chunkSectors))
      && (r.Chunk? ==> e == if c + 1 < n || d.sb.hddFull == 1 then d.(sb := d.sb.(writePtrChunk := c + 1))
                            else d.(sb := d.sb.(writePtrChunk := 0, seqEpoch := (d.sb.seqEpoch + 1) % 0x1_0000_0000_0000_0000)))
  {
    assert d.sb.writePtrChunk * (d.sb.chunkSectors * 512) == 512 * (d.sb.writePtrChunk * d.sb.chunkSectors);
  }

  // ---- what is accepted ----

  /** A header or a superblock with zeros in place of its checksum. */
  function Blanked(s: seq<byte>, at: nat): seq<byte>
    requires at + 4 <= |s|
  {
    s[..at] + [0, 0, 0, 0] + s[at + 4..]
  }

  lemma FourZeros()
    ensures LE(0, 4) == [0, 0, 0, 0] && Zeros(4) == [0, 0, 0, 0]
  {
    LEZero(4);
  }

  /** Any 64 bytes are the image of the header they are read as. */
  lemma HdrOfBytes(s: seq<byte>)
    requires |s| == 64
    ensures EncodeHdr(DecodeHdr(s)) == s
  {
    hide LE, FromLE;
    var t := s[16..];
    TailOfBytes(s);
    Digits(s[8..10]); Digits(s[10..11]); Digits(s[11..12]); Digits(s[12..13]); Digits(s[13..14]); Digits(s[14..16]);
    assert s == s[..8] + (s[8..10] + (s[10..11] + (s[11..12] + (s[12..13] + (s[13..14] + (s[14..16] + t))))));
  }

  lemma TailOfBytes(s: seq<byte>)
    requires |s| == 64
    ensures HdrTail(DecodeHdr(s)) == s[16..]
  {
    hide LE, FromLE;
    var t := s[16..];
    Digits(t[..4]); Digits(t[4..8]); Digits(t[8..12]); Digits(t[12..20]); Digits(t[20..28]); Digits(t[36..40]);
    assert t == t[..4] + (t[4..8] + (t[8..12] + (t[12..20] + (t[20..28] + (t[28..36] + (t[36..40] + t[40..]))))));
  }

  lemma {:induction false} Digits(s: seq<byte>)
    ensures LE(FromLE(s), |s|) == s
    decreases |s|
  {
    if s != [] {
      var m := FromLE(s[1..]);
      ModUnique(s[0] + 256 * m, 256, m, s[0]);
      Digits(s[1..]);
      assert s == [s[0]] + s[1..];
    }
  }

  /** The fields before the checksum. */
  function HdrFront(h: FrameHdr): (s: seq<byte>)
    ensures |s| == 16
  {
    h.magic + LE(h.chn, 2) + LE(h.stream, 1) + LE(h.codec, 1) + LE(h.frameType, 1) + LE(h.enc, 1) + LE(h.rsv0, 2)
  }

  function HdrMiddle(h: FrameHdr): (s: seq<byte>)
    ensures |s| == 36
  {
    LE(h.payloadLen, 4) + LE(h.segId, 4) + LE(h.frameSeq, 4) + LE(h.pts, 8) + LE(h.wallTime, 8) + h.ivNonce
  }

  lemma HdrParts(h: FrameHdr)
    ensures EncodeHdr(h) == HdrFront(h) + HdrTail(h) && HdrTail(h) == HdrMiddle(h) + LE(h.crc, 4) + h.rsvh
  {
    hide LE;
  }

  lemma BlankedHdr(s: seq<byte>)
    requires |s| == 64
    ensures EncodeHdr(DecodeHdr(s).(crc := 0)) == Blanked(s, 52)
  {
    hide LE, FromLE, EncodeHdr, HdrTail, HdrFront, HdrMiddle, DecodeHdr;
    HdrOfBytes(s);
    var h := DecodeHdr(s);
    HdrParts(h);
    HdrParts(h.(crc := 0));
    SameFront(h);
    FourZeros();
    BlankedParts(HdrFront(h), HdrMiddle(h), LE(h.crc, 4), h.rsvh);
  }

  lemma SameFront(h: FrameHdr)
    ensures HdrFront(h.(crc := 0)) == HdrFront(h) && HdrMiddle(h.(crc := 0)) == HdrMiddle(h)
  {
    hide LE;
  }

  lemma BlankedParts(a: seq<byte>, b: seq<byte>, c: seq<byte>, r: seq<byte>)
    requires |a| == 16 && |b| == 36 && |c| == 4
    ensures Blanked(a + (b + c + r), 52) == a + (b + [0, 0, 0, 0] + r)
  {
    var s := a + (b + c + r);
    assert s[..52] == a + b && s[56..] == r;
  }

  /** A header is taken exactly when it begins with its magic and carries the checksum of itself. */
  lemma HeaderTaken(d: Dev, p: Pl, off: u32)
    ensures var s, r := Read(d.disk, p.baseOff + off, 64), ReadHdr(d, p, off);
      && (r.GoodHdr? <==> s[..8] == Text("rsdkfrm") + [0] && d.prims.crc(Blanked(s, 52)) == Number(s, 52, 4))
      && (r.GoodHdr? ==> EncodeHdr(r.hdr) == s)
      && (r.BadHdr? ==> r.error == if s[..8] == Text("rsdkfrm") + [0] then Corrupt else NotFound)
  {
    hide EncodeHdr, Number, Read, FromLE, Text;
    var s := Read(d.disk, p.baseOff + off, 64);
    Names();
    HdrOfBytes(s);
    HdrLayout(DecodeHdr(s));
    BlankedHdr(s);
  }

  /** What the player gives at its place: nothing behind the last record or at a bad header; the payload behind the
      header, deciphered where that says so, or an error without a key; and its next place, in 32 bits. */
  lemma FrameTaken(d: Dev, p: Pl)
    ensures var r, h := NextFrame(d, p), ReadHdr(d, p, p.curOff);
      if p.curOff > p.endOff then r == Stop(NotFound)
      else if h.BadHdr? then r == Stop(h.error)
      else
        var s := Read(d.disk, p.baseOff + p.curOff, 64);
        var raw, next := Read(d.disk, p.baseOff + p.curOff + 64, Number(s, 16, 4)), (p.curOff + 64 + Number(s, 16, 4)) % 0x1_0000_0000;
        if Number(s, 13, 1) == 0 then r == Got(h.hdr, raw, p.(curOff := (next + 127) / 128 * 128 % 0x1_0000_0000))
        else match d.dek
          case NoKey => r == Stop(Error.Crypto)
          case HasKey(key) =>
            && Number(s, 20, 4) < 0x1_0000_0000 && Number(s, 24, 4) < 0x1_0000_0000
            && r == Got(h.hdr, Xcrypt(d.prims.aes, key, Number(s, 20, 4), Number(s, 24, 4), 0, raw), p.(curOff := (next + 127) / 128 * 128 % 0x1_0000_0000))
  {
    hide EncodeHdr, DecodeHdr, Number, Read, FromLE, Xcrypt;
    var s := Read(d.disk, p.baseOff + p.curOff, 64);
    HdrOfBytes(s);
    HdrLayout(DecodeHdr(s));
  }

  /** A disk opens exactly when sector 1, or else sector 2, begins with the magic and that sector carries its own
      checksum. */
  lemma OpensWhen(p: Prims, disk: seq<byte>)
    ensures var m, b, magic := Read(disk, 512, 512), Read(disk, 1024, 512), Text("RSDK01") + [0, 0];
      var raw := if m[..8] == magic then m else b;
      && (Open(p, disk).Opened? <==> raw[..8] == magic && p.crc(Blanked(raw, 12)) == Number(raw, 12, 4))
      && (Open(p, disk).NotOpened? ==> Open(p, disk).error == if raw[..8] == magic then Corrupt else Format)
      && (Open(p, disk).Opened? ==> Open(p, disk).dev.sb == DecodeSb(raw) && Open(p, disk).dev.disk == disk && Open(p, disk).dev.prims == p)
  {
    hide Number, Read, FromLE, DecodeSt, Text, KeyOf;
    Names();
    FourZeros();
    var m, b := Read(disk, 512, 512), Read(disk, 1024, 512);
    NumberIs(m, 12, 4);
    NumberIs(b, 12, 4);
  }

  /** With the superblock, or the system table, in its first place destroyed a flushed disk opens all the same. */
  lemma BackupOpens(d: Dev, junk: seq<byte>, other: seq<byte>)
    requires TablesMarked(d) && d.dek == KeyOf(d.prims, d.sb)
    requires |junk| == 512 && junk[..8] != Text("RSDK01") + [0, 0] && |other| == 4096 && other[..4] != Text("STAB")
    ensures var e := Flush(d);
      && (var disk := Write(e.disk, 512, junk); Open(d.prims, disk) == Opened(e.(disk := disk)))
      && (var disk := Write(e.disk, 1536, other); Open(d.prims, disk) == Opened(e.(disk := disk)))
  {
    hide EncodeSb, EncodeSt, DecodeSb, DecodeSt, Read, Write, Text, KeyOf;
    var e := Flush(d);
    Names();
    TablePlaces(d);
    FlushedSb(d);
    var one, two := Write(e.disk, 512, junk), Write(e.disk, 1536, other);
    ReadBack(e.disk, 512, junk);
    ReadElsewhere(e.disk, 512, junk, 1024, 512);
    ReadElsewhere(e.disk, 512, junk, 1536, 4096);
    ReadElsewhere(e.disk, 512, junk, 5632, 4096);
    ReadBack(e.disk, 1536, other);
    ReadElsewhere(e.disk, 1536, other, 512, 512);
    ReadElsewhere(e.disk, 1536, other, 5632, 4096);
    OtherMagic(other);
  }

  lemma FlushedSb(d: Dev)
    requires d.sb.magic == SB_MAGIC && d.st.magic == ST_MAGIC
    ensures var e := Flush(d); var s := EncodeSb(e.sb);
      && s[..8] == SB_MAGIC && DecodeSb(s) == e.sb && d.prims.crc(SbCrcImage(s)) == e.sb.crc && DecodeSt(EncodeSt(e.st)) == e.st
      && e.st.magic == ST_MAGIC && KeyOf(d.prims, e.sb) == KeyOf(d.prims, d.sb)
  {
    hide EncodeSb, EncodeSt, DecodeSb, DecodeSt, WriteTables, KdfKek, DekUnwrap;
    var e := Flush(d);
    SbHeadRoundTrip(e.sb);
    SbRoundTrip(e.sb);
    StRoundTrip(e.st);
    SbCrcImageOfEncoding(e.sb);
    assert e.sb.(crc := 0) == d.sb.(crc := 0);
  }

  lemma OtherMagic(s: seq<byte>)
    requires |s| == 4096 && s[..4] != Text("STAB")
    ensures DecodeSt(s).magic != ST_MAGIC
  {
    hide DecodeChn, Text, LE, FromLE;
    Names();
    Digits(s[..4]);
  }
}
