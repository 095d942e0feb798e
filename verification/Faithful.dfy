/** What the recorder keeps on a disk: the history of segments started there, the invariant
    tying it to the image, and faithful replay of every indexed segment. */
module Faithful {
  import opened Bytes
  import opened RecorderFormat
  import opened Crypto
  import opened StorageDev
  import opened Index
  import opened Recorder
  import opened Player
  import Layout

  /** One segment started on the disk: its frames so far; how many of them the index slot last
      written for it covers, and under which recording type; and every such pair so far. */
  datatype Seg = Seg(segId: u32, chn: u16, frames: seq<Frame>, closed: nat, rectype: u8, closings: set<Closing>)

  datatype Closing = Closing(count: nat, rectype: u8)

  // ---- sizes ----

  function Need(f: Frame): nat { AlignUp(HDR_SIZE + |f.data|, FRAME_ALIGN) }

  function Span(fs: seq<Frame>): nat {
    if fs == [] then 0 else Span(fs[..|fs| - 1]) + Need(fs[|fs| - 1])
  }

  function PayloadBytes(fs: seq<Frame>): nat {
    if fs == [] then 0 else PayloadBytes(fs[..|fs| - 1]) + |fs[|fs| - 1].data|
  }

  // ---- which segment owns which chunk ----

  /** Segment number `k` of a history of `n` segments still owns its chunk. */
  predicate Live(d: Dev, n: nat, k: nat) { k < n <= k + DataChunks(d) }

  function ChunkNo(d: Dev, k: nat): nat { if DataChunks(d) == 0 then 0 else k % DataChunks(d) }

  function Base(d: Dev, k: nat): nat { ChunkOff(d, ChunkNo(d, k)) }

  /** The ring position after `n` allocations: the n-th chunk is n modulo the ring size, and
      the epoch counts the laps; a stop disk hands each chunk out once. */
  ghost predicate RingOk(d: Dev, n: nat) {
    var m := DataChunks(d);
    if d.sb.hddFull == HDD_STOP then d.sb.writePtrChunk == n <= m && d.sb.seqEpoch == 1
    else if m == 0 then n == 0 && d.sb.seqEpoch == 1
    else d.sb.writePtrChunk == n % m && d.sb.seqEpoch == 1 + n / m
  }

  // ---- the data area ----

  ghost predicate RecordAt(d: Dev, off: nat, segId: u32, frameSeq: u32, f: Frame) {
    && Read(d.disk, off, HDR_SIZE) == EncodeHdr(HdrFor(d, segId, frameSeq, f))
    && Read(d.disk, off + HDR_SIZE, |f.data|) == Protect(d, segId, frameSeq, f.data)
  }

  ghost predicate Recorded(d: Dev, base: nat, segId: u32, fs: seq<Frame>) {
    |fs| <= U32_MAX && forall i :: 0 <= i < |fs| ==> RecordAt(d, base + Span(fs[..i]), segId, i, fs[i])
  }

  ghost predicate SegOk(d: Dev, k: nat, seg: Seg) {
    && Span(seg.frames) <= ChunkBytes(d)
    && Recorded(d, Base(d, k), seg.segId, seg.frames)
    && seg.closed <= |seg.frames|
  }

  ghost predicate SegsOk(d: Dev, h: seq<Seg>) {
    forall k :: 0 <= k < |h| && Live(d, |h|, k) ==> SegOk(d, k, h[k])
  }

  // ---- the index area ----

  /** The slot describing the first `n` frames of segment `k`. */
  function ClosedSlot(d: Dev, k: nat, seg: Seg, n: nat, rectype: u8): Slot
    requires 0 < n <= |seg.frames| <= U32_MAX && Span(seg.frames) <= ChunkBytes(d) <= U32_MAX
    requires ChunkNo(d, k) < U64_END
  {
    SpanPrefix(seg.frames, n - 1);
    BytesBelowSpan(seg.frames[..n]);
    SpanPrefix(seg.frames, n);
    SealSlot(d.prims,
      Slot(seg.segId, seg.chn, rectype,
           VALID_BIT + (if rectype != REC_CONTINUOUS then EVENT_BIT else 0),
           U32(seg.frames[0].wallTime), U32(seg.frames[n - 1].wallTime), n, PayloadBytes(seg.frames[..n]),
           d.sb.groupDiskIndex, d.sb.groupDiskIndex, ChunkNo(d, k), 0, ChunkNo(d, k), Span(seg.frames[..n - 1]), 0, 0))
  }

  /** A closed slot of the segment: it covers the leading frames of one of its closings, under the type
      of that closing, and says so correctly. */
  ghost predicate Describes(d: Dev, s: Slot, k: nat, seg: Seg) {
    && Closing(s.frameCount, s.rectype) in seg.closings
    && 0 < s.frameCount <= |seg.frames| <= U32_MAX && Span(seg.frames) <= ChunkBytes(d) <= U32_MAX
    && ChunkNo(d, k) < U64_END
    && s == ClosedSlot(d, k, seg, s.frameCount, s.rectype)
  }

  ghost predicate SlotOwned(d: Dev, h: seq<Seg>, s: Slot) {
    exists k :: 0 <= k < |h| && Live(d, |h|, k) && Describes(d, s, k, h[k])
  }

  ghost predicate SlotsOk(d: Dev, h: seq<Seg>) {
    forall i :: 0 <= i < SlotCount(d) && IsValid(SlotAt(d, i)) ==> SlotOwned(d, h, SlotAt(d, i))
  }

  ghost predicate DiskInv(d: Dev, h: seq<Seg>) {
    GeoOk(d) && RingOk(d, |h|) && SegsOk(d, h) && SlotsOk(d, h)
  }

  /** A writer whose current segment is number `k` of the disk's history. */
  ghost predicate WriterAt(d: Dev, h: seq<Seg>, w: Wr, k: nat) {
    && k < |h| && Live(d, |h|, k)
    && var seg := h[k];
    && w.segId == seg.segId && w.chn == seg.chn
    && w.chunk == ChunkNo(d, k) && w.baseOff == Base(d, k)
    && w.frameSeq == w.frameCount == |seg.frames|
    && w.curOff == Span(seg.frames) && w.totalBytes == PayloadBytes(seg.frames)
    && (seg.frames != [] ==>
         && w.startTime == U32(seg.frames[0].wallTime)
         && w.lastTime == U32(seg.frames[|seg.frames| - 1].wallTime)
         && w.endOff == Span(seg.frames[..|seg.frames| - 1]))
  }

  // ---- arithmetic of spans ----

  lemma NeedBounds(f: Frame)
    ensures Need(f) % FRAME_ALIGN == 0 && HDR_SIZE + |f.data| <= Need(f) < HDR_SIZE + |f.data| + FRAME_ALIGN
  {
  }

  lemma {:induction false} SpanAligned(fs: seq<Frame>)
    ensures Span(fs) % FRAME_ALIGN == 0 && Span(fs) >= FRAME_ALIGN * |fs|
  {
    if fs != [] {
      SpanAligned(fs[..|fs| - 1]);
      NeedBounds(fs[|fs| - 1]);
    }
  }

  lemma {:induction false} SpanPrefix(fs: seq<Frame>, i: nat)
    requires i <= |fs|
    ensures Span(fs[..i]) <= Span(fs)
    ensures i < |fs| ==> Span(fs[..i]) + Need(fs[i]) <= Span(fs)
    decreases |fs|
  {
    if i < |fs| {
      var rest := fs[..|fs| - 1];
      assert rest[..i] == fs[..i];
      if i < |fs| - 1 {
        SpanPrefix(rest, i);
      }
    } else {
      assert fs[..i] == fs;
    }
  }

  lemma {:induction false} BytesBelowSpan(fs: seq<Frame>)
    ensures PayloadBytes(fs) <= Span(fs)
  {
    if fs != [] {
      BytesBelowSpan(fs[..|fs| - 1]);
      NeedBounds(fs[|fs| - 1]);
    }
  }

  lemma SpanSnoc(fs: seq<Frame>, f: Frame)
    ensures Span(fs + [f]) == Span(fs) + Need(f)
    ensures PayloadBytes(fs + [f]) == PayloadBytes(fs) + |f.data|
  {
    assert (fs + [f])[..|fs|] == fs;
  }

  // ---- chunks do not overlap ----

  lemma ChunkNoInRange(d: Dev, k: nat)
    requires DataChunks(d) > 0
    ensures ChunkNo(d, k) < DataChunks(d)
  {
  }

  /** Two live segments own different chunks. */
  lemma LiveChunksDiffer(d: Dev, n: nat, j: nat, k: nat)
    requires Live(d, n, j) && Live(d, n, k) && j != k
    ensures ChunkNo(d, j) != ChunkNo(d, k)
  {
    ModDiffers(j, k, DataChunks(d));
  }

  lemma ModDiffers(j: nat, k: nat, m: nat)
    requires j != k && m > 0 && j < k + m && k < j + m
    ensures j % m != k % m
  {
    assert j == m * (j / m) + j % m && k == m * (k / m) + k % m;
    var q := j / m - k / m;
    assert m * q == m * (j / m) - m * (k / m);
    MulAtLeast(m, q);
    MulAtLeast(m, -q);
    assert m * -q == -(m * q);
  }

  lemma ModSame(k: nat, m: nat)
    requires m > 0
    ensures (k + m) % m == k % m && (k + m) / m == k / m + 1
  {
    assert k == m * (k / m) + k % m;
    assert m * (k / m + 1) == m * (k / m) + m;
    ModUnique(k + m, m, k / m + 1, k % m);
  }

  lemma Strides(a: nat, b: nat, c: nat)
    ensures a < b ==> a * c + c <= b * c
  {
    if a < b {
      Layout.MulMono(a + 1, b, c);
      assert (a + 1) * c == a * c + c;
    }
  }

  /** Extents of different chunks are disjoint and inside the data area. */
  lemma ChunkExtents(d: Dev, a: nat, b: nat)
    requires GeoOk(d) && a < DataChunks(d) && b < DataChunks(d)
    ensures DataStart(d) <= ChunkOff(d, a) && ChunkOff(d, a) + ChunkBytes(d) <= |d.disk|
    ensures a != b ==> ChunkOff(d, a) + ChunkBytes(d) <= ChunkOff(d, b) || ChunkOff(d, b) + ChunkBytes(d) <= ChunkOff(d, a)
  {
    hide DataChunks, ChunkBytes, DataStart, GeoOk;
    DataFits(d);
    ChunkOffIs(d, a); ChunkOffIs(d, b);
    Strides(a, DataChunks(d), ChunkBytes(d));
    Strides(a, b, ChunkBytes(d));
    Strides(b, a, ChunkBytes(d));
  }

  lemma ChunkOffIs(d: Dev, a: nat)
    ensures ChunkOff(d, a) == DataStart(d) + a * ChunkBytes(d)
  {
  }

  lemma DataFits(d: Dev)
    requires GeoOk(d)
    ensures DataStart(d) + DataChunks(d) * ChunkBytes(d) <= |d.disk|
  {
  }

  // ---- what does not depend on the ring position and the index ----

  ghost predicate SameStatic(d: Dev, e: Dev) {
    && e.prims == d.prims && e.dek == d.dek && |e.disk| == |d.disk|
    && e.sb.(crc := 0, writePtrChunk := 0, seqEpoch := 0) == d.sb.(crc := 0, writePtrChunk := 0, seqEpoch := 0)
    && e.st.(crc := 0, indexNext := 0, chn := d.st.chn) == d.st.(crc := 0, indexNext := 0)
  }

  ghost predicate SameData(d: Dev, e: Dev) {
    forall off: nat, n: nat {:trigger Read(e.disk, off, n)} ::
      DataStart(d) <= off ==> Read(e.disk, off, n) == Read(d.disk, off, n)
  }

  lemma StaticFacts(d: Dev, e: Dev)
    requires SameStatic(d, e)
    ensures ChunkBytes(e) == ChunkBytes(d) && DataChunks(e) == DataChunks(d) && DataStart(e) == DataStart(d)
    ensures IndexStart(e) == IndexStart(d) && SlotCount(e) == SlotCount(d)
    ensures e.sb.groupDiskIndex == d.sb.groupDiskIndex && e.sb.hddFull == d.sb.hddFull
    ensures GeoOk(d) && e.st.indexNext < SlotCount(e) ==> GeoOk(e)
    ensures forall k: nat :: ChunkNo(e, k) == ChunkNo(d, k) && Base(e, k) == Base(d, k)
    ensures forall n, k: nat :: Live(e, n, k) == Live(d, n, k)
  {
    assert d.sb.(crc := 0, writePtrChunk := 0, seqEpoch := 0).chunkSectors == d.sb.chunkSectors;
  }

  lemma RecordSame(d: Dev, e: Dev, off: nat, segId: u32, frameSeq: u32, f: Frame)
    requires e.prims == d.prims && e.dek == d.dek
    requires Read(e.disk, off, HDR_SIZE) == Read(d.disk, off, HDR_SIZE)
    requires Read(e.disk, off + HDR_SIZE, |f.data|) == Read(d.disk, off + HDR_SIZE, |f.data|)
    ensures RecordAt(e, off, segId, frameSeq, f) == RecordAt(d, off, segId, frameSeq, f)
  {
    hide EncodeHdr, Read, Nonce, Xcrypt;
  }

  lemma SegOkSame(d: Dev, e: Dev, k: nat, seg: Seg)
    requires GeoOk(d) && DataChunks(d) > 0 && SameStatic(d, e) && SameData(d, e) && SegOk(d, k, seg)
    ensures SegOk(e, k, seg)
  {
    hide RecordAt, Read, Span, GeoOk, SameStatic;
    StaticFacts(d, e);
    assert e.prims == d.prims && e.dek == d.dek by { StaticParts(d, e); }
    ChunkNoInRange(d, k);
    BaseInData(d, k);
    forall i | 0 <= i < |seg.frames|
      ensures RecordAt(e, Base(e, k) + Span(seg.frames[..i]), seg.segId, i, seg.frames[i])
    {
      var off := Base(d, k) + Span(seg.frames[..i]);
      assert RecordAt(d, off, seg.segId, i, seg.frames[i]);
      RecordSame(d, e, off, seg.segId, i, seg.frames[i]);
    }
  }

  lemma StaticParts(d: Dev, e: Dev)
    requires SameStatic(d, e)
    ensures e.prims == d.prims && e.dek == d.dek && |e.disk| == |d.disk|
  {
  }

  lemma BaseInData(d: Dev, k: nat)
    ensures DataStart(d) <= Base(d, k)
  {
  }

  lemma DescribesSame(d: Dev, e: Dev, s: Slot, k: nat, seg: Seg)
    requires SameStatic(d, e) && Describes(d, s, k, seg)
    ensures Describes(e, s, k, seg)
  {
    hide EncodeSlot, Span, PayloadBytes, SameStatic;
    StaticFacts(d, e);
    StaticParts(d, e);
  }

  lemma SegsOkSame(d: Dev, e: Dev, h: seq<Seg>)
    requires GeoOk(d) && SameStatic(d, e) && SameData(d, e) && SegsOk(d, h)
    ensures SegsOk(e, h)
  {
    hide SegOk, GeoOk, SameStatic, SameData;
    StaticFacts(d, e);
    forall k | 0 <= k < |h| && Live(e, |h|, k)
      ensures SegOk(e, k, h[k])
    {
      SegOkSame(d, e, k, h[k]);
    }
  }

  lemma SlotOwnedSame(d: Dev, e: Dev, h: seq<Seg>, s: Slot)
    requires SameStatic(d, e) && SlotOwned(d, h, s)
    ensures SlotOwned(e, h, s)
  {
    hide Describes, SameStatic;
    StaticFacts(d, e);
    var k :| 0 <= k < |h| && Live(d, |h|, k) && Describes(d, s, k, h[k]);
    DescribesSame(d, e, s, k, h[k]);
  }

  // ---- writing an index slot ----

  lemma WriteIndexStatic(d: Dev, s: Slot)
    requires GeoOk(d)
    ensures SameStatic(d, WriteIndex(d, s)) && SameData(d, WriteIndex(d, s))
    ensures GeoOk(WriteIndex(d, s))
    ensures forall n: nat :: RingOk(d, n) ==> RingOk(WriteIndex(d, s), n)
  {
    hide WriteIndex, Read, GeoOk, SlotAt, WritePos, SealSlot;
    GeoHasSlots(d);
    var e := WriteIndex(d, s);
    WriteIndexAt(d, s, 0);
    assert e.sb.(crc := 0).writePtrChunk == d.sb.(crc := 0).writePtrChunk;
    forall off: nat, n: nat | DataStart(d) <= off
      ensures Read(e.disk, off, n) == Read(d.disk, off, n)
    {
      WriteIndexKeepsData(d, s, off, n);
    }
  }

  lemma GeoHasSlots(d: Dev)
    requires GeoOk(d)
    ensures 0 < SlotCount(d) && ChunkBytes(d) < 0x8000_0000 && ChunkBytes(d) % FRAME_ALIGN == 0
  {
  }

  /** Writing a slot that is either not valid, or describes a live segment, is safe. */
  lemma WriteIndexKeepsInv(d: Dev, h: seq<Seg>, s: Slot)
    requires DiskInv(d, h)
    requires IsValid(s) ==> SlotOwned(d, h, SealSlot(d.prims, s))
    ensures DiskInv(WriteIndex(d, s), h)
  {
    hide WriteIndex, GeoOk, SlotAt, WritePos, SlotOwned, SlotCrc, SameStatic, SameData, RingOk, SegsOk;
    GeoHasSlots(d);
    var e := WriteIndex(d, s);
    WriteIndexStatic(d, s);
    StaticFacts(d, e);
    SegsOkSame(d, e, h);
    forall i | 0 <= i < SlotCount(e) && IsValid(SlotAt(e, i))
      ensures SlotOwned(e, h, SlotAt(e, i))
    {
      WriteIndexAt(d, s, i);
      SlotOwnedSame(d, e, h, SlotAt(e, i));
    }
  }

  // ---- writing a frame record ----

  /** Room for the frame in the chunk the writer has open. */
  predicate Fits(d: Dev, w: Wr, f: Frame) { w.curOff + Need(f) <= ChunkBytes(d) }

  /** The frame just written reads back, and everything outside its extent reads as before. */
  lemma WriteRecordReads(d: Dev, w: Wr, f: Frame)
    requires w.baseOff + w.curOff + Need(f) <= |d.disk|
    ensures RecordAt(WriteRecord(d, w, f), w.baseOff + w.curOff, w.segId, w.frameSeq, f)
  {
    hide EncodeHdr, HdrFor, Protect, Read, Write, Need;
    NeedBounds(f);
    var off := w.baseOff + w.curOff;
    var hdr, data := EncodeHdr(HdrFor(d, w.segId, w.frameSeq, f)), Protect(d, w.segId, w.frameSeq, f.data);
    var disk := Write(d.disk, off, hdr);
    var e := WriteRecord(d, w, f);
    ReadBack(d.disk, off, hdr);
    ReadElsewhere(disk, off + HDR_SIZE, data, off, HDR_SIZE);
    ReadBack(disk, off + HDR_SIZE, data);
    HdrForSame(d, e, w.segId, w.frameSeq, f);
  }

  lemma HdrForSame(d: Dev, e: Dev, segId: u32, frameSeq: u32, f: Frame)
    requires e.prims == d.prims && e.dek == d.dek
    ensures HdrFor(e, segId, frameSeq, f) == HdrFor(d, segId, frameSeq, f)
    ensures Protect(e, segId, frameSeq, f.data) == Protect(d, segId, frameSeq, f.data)
  {
    hide EncodeHdr, Nonce, Xcrypt;
  }

  lemma WriteRecordElsewhere(d: Dev, w: Wr, f: Frame, off: nat, n: nat)
    requires off + n <= w.baseOff + w.curOff || w.baseOff + w.curOff + Need(f) <= off
    ensures Read(WriteRecord(d, w, f).disk, off, n) == Read(d.disk, off, n)
    ensures SameStatic(d, WriteRecord(d, w, f))
    ensures WriteRecord(d, w, f) == d.(disk := WriteRecord(d, w, f).disk)
  {
    hide EncodeHdr, HdrFor, Protect, Read, Write;
    NeedBounds(f);
    var at := w.baseOff + w.curOff;
    var hdr, data := EncodeHdr(HdrFor(d, w.segId, w.frameSeq, f)), Protect(d, w.segId, w.frameSeq, f.data);
    ReadElsewhere(d.disk, at, hdr, off, n);
    ReadElsewhere(Write(d.disk, at, hdr), at + HDR_SIZE, data, off, n);
  }

  lemma RecordedElsewhere(d: Dev, e: Dev, base: nat, segId: u32, fs: seq<Frame>)
    requires e.prims == d.prims && e.dek == d.dek
    requires forall off: nat, n: nat :: base <= off && off + n <= base + Span(fs) ==> Read(e.disk, off, n) == Read(d.disk, off, n)
    requires Recorded(d, base, segId, fs)
    ensures Recorded(e, base, segId, fs)
  {
    hide RecordAt, Read, Span;
    forall i | 0 <= i < |fs|
      ensures RecordAt(e, base + Span(fs[..i]), segId, i, fs[i])
    {
      var off := base + Span(fs[..i]);
      assert RecordAt(d, off, segId, i, fs[i]);
      PartsInside(fs, i);
      assert Read(e.disk, off, HDR_SIZE) == Read(d.disk, off, HDR_SIZE);
      RecordSame(d, e, off, segId, i, fs[i]);
    }
  }

  lemma PartsInside(fs: seq<Frame>, i: nat)
    requires i < |fs|
    ensures Span(fs[..i]) + HDR_SIZE + |fs[i].data| <= Span(fs)
  {
    hide Span;
    SpanPrefix(fs, i);
    NeedBounds(fs[i]);
  }

  /** Writing the writer's next record keeps every other live segment. */
  lemma WriteRecordOtherSeg(d: Dev, h: seq<Seg>, w: Wr, k: nat, f: Frame, j: nat)
    requires GeoOk(d) && WriterAt(d, h, w, k) && Fits(d, w, f)
    requires j < |h| && j != k && Live(d, |h|, j) && SegOk(d, j, h[j])
    ensures SegOk(WriteRecord(d, w, f), j, h[j])
  {
    hide GeoOk, WriteRecord, Recorded, Read, Span;
    var e := WriteRecord(d, w, f);
    WriteRecordElsewhere(d, w, f, 0, 0);
    StaticFacts(d, e);
    LiveChunksDiffer(d, |h|, j, k);
    ChunkNoInRange(d, j); ChunkNoInRange(d, k);
    ChunkExtents(d, ChunkNo(d, j), ChunkNo(d, k));
    var base, fs := Base(d, j), h[j].frames;
    forall off: nat, n: nat | base <= off && off + n <= base + Span(fs)
      ensures Read(e.disk, off, n) == Read(d.disk, off, n)
    {
      WriteRecordElsewhere(d, w, f, off, n);
    }
    RecordedElsewhere(d, e, base, h[j].segId, fs);
  }

  function Extend(seg: Seg, f: Frame): Seg { seg.(frames := seg.frames + [f]) }

  /** The writer's own segment grows by the frame. */
  lemma WriteRecordOwnSeg(d: Dev, h: seq<Seg>, w: Wr, k: nat, f: Frame)
    requires GeoOk(d) && WriterAt(d, h, w, k) && Fits(d, w, f) && SegOk(d, k, h[k])
    ensures SegOk(WriteRecord(d, w, f), k, Extend(h[k], f))
  {
    hide GeoOk, WriteRecord, RecordAt, Read, Span, Need, Recorded;
    var e := WriteRecord(d, w, f);
    GeoHasSlots(d);
    WriteRecordElsewhere(d, w, f, 0, 0);
    StaticFacts(d, e);
    ChunkNoInRange(d, k);
    ChunkExtents(d, ChunkNo(d, k), ChunkNo(d, k));
    var base, fs := Base(d, k), h[k].frames;
    SpanSnoc(fs, f);
    SpanAligned(fs + [f]);
    forall off: nat, n: nat | base <= off && off + n <= base + Span(fs)
      ensures Read(e.disk, off, n) == Read(d.disk, off, n)
    {
      WriteRecordElsewhere(d, w, f, off, n);
    }
    RecordedElsewhere(d, e, base, h[k].segId, fs);
    WriteRecordReads(d, w, f);
    RecordedMore(e, base, h[k].segId, fs, f);
  }

  lemma RecordedFrame(d: Dev, base: nat, segId: u32, fs: seq<Frame>, i: nat)
    requires Recorded(d, base, segId, fs) && i < |fs|
    ensures RecordAt(d, base + Span(fs[..i]), segId, i, fs[i])
  {
    hide RecordAt, Span;
  }

  lemma RecordedMoreAt(d: Dev, base: nat, segId: u32, fs: seq<Frame>, f: Frame, i: nat)
    requires Recorded(d, base, segId, fs) && |fs| < U32_MAX && RecordAt(d, base + Span(fs), segId, |fs|, f) && i <= |fs|
    ensures RecordAt(d, base + Span((fs + [f])[..i]), segId, i, (fs + [f])[i])
  {
    hide RecordAt, Span, Recorded;
    assert (fs + [f])[..i] == fs[..i];
    if i < |fs| {
      RecordedFrame(d, base, segId, fs, i);
    } else {
      assert fs[..i] == fs;
    }
  }

  lemma RecordedMore(d: Dev, base: nat, segId: u32, fs: seq<Frame>, f: Frame)
    requires Recorded(d, base, segId, fs) && |fs| < U32_MAX && RecordAt(d, base + Span(fs), segId, |fs|, f)
    ensures Recorded(d, base, segId, fs + [f])
  {
    hide Recorded, RecordAt, Span;
    var fs' := fs + [f];
    forall i | 0 <= i < |fs'|
      ensures RecordAt(d, base + Span(fs'[..i]), segId, i, fs'[i])
    {
      RecordedMoreAt(d, base, segId, fs, f, i);
    }
    AllRecorded(d, base, segId, fs');
  }

  lemma AllRecorded(d: Dev, base: nat, segId: u32, fs: seq<Frame>)
    requires |fs| <= U32_MAX && forall i :: 0 <= i < |fs| ==> RecordAt(d, base + Span(fs[..i]), segId, i, fs[i])
    ensures Recorded(d, base, segId, fs)
  {
    hide RecordAt, Span;
  }

  lemma DescribesExtended(d: Dev, e: Dev, s: Slot, k: nat, seg: Seg, f: Frame)
    requires SameStatic(d, e) && Describes(d, s, k, seg)
    requires |seg.frames| < U32_MAX && Span(seg.frames) + Need(f) <= ChunkBytes(d)
    ensures Describes(e, s, k, Extend(seg, f))
  {
    hide EncodeSlot, Span, PayloadBytes, SameStatic;
    DescribesSame(d, e, s, k, seg);
    StaticFacts(d, e);
    SpanSnoc(seg.frames, f);
    var n := s.frameCount;
    var fs, fs' := seg.frames, seg.frames + [f];
    assert fs'[..n] == fs[..n] && fs'[..n - 1] == fs[..n - 1];
  }

  lemma SlotOwnedExtended(d: Dev, e: Dev, h: seq<Seg>, s: Slot, k: nat, f: Frame)
    requires SameStatic(d, e) && SlotOwned(d, h, s) && k < |h|
    requires |h[k].frames| < U32_MAX && Span(h[k].frames) + Need(f) <= ChunkBytes(d)
    ensures SlotOwned(e, h[k := Extend(h[k], f)], s)
  {
    hide Describes, SameStatic, Span, Need;
    StaticFacts(d, e);
    var j :| 0 <= j < |h| && Live(d, |h|, j) && Describes(d, s, j, h[j]);
    var h' := h[k := Extend(h[k], f)];
    if j == k {
      DescribesExtended(d, e, s, j, h[j], f);
    } else {
      DescribesSame(d, e, s, j, h[j]);
    }
    assert Describes(e, s, j, h'[j]);
  }

  lemma WriteRecordSlots(d: Dev, w: Wr, f: Frame, i: nat)
    requires GeoOk(d) && DataStart(d) <= w.baseOff && i < SlotCount(d)
    ensures SlotAt(WriteRecord(d, w, f), i) == SlotAt(d, i)
  {
    hide WriteRecord, DecodeSlot, Read;
    var e := WriteRecord(d, w, f);
    WriteRecordElsewhere(d, w, f, SlotOff(d, i), SLOT_SIZE);
  }

  lemma FitsSizes(d: Dev, h: seq<Seg>, w: Wr, k: nat, f: Frame)
    requires GeoOk(d) && WriterAt(d, h, w, k) && Fits(d, w, f)
    ensures |h[k].frames| < U32_MAX && Span(h[k].frames) + Need(f) <= ChunkBytes(d) < 0x8000_0000
    ensures DataStart(d) <= w.baseOff
  {
    hide Need, Span;
    SpanAligned(h[k].frames);
    GeoHasSlots(d);
    BaseInData(d, k);
  }

  /** One record written: the invariant holds for the history with the frame added. */
  lemma WriteRecordKeepsInv(d: Dev, h: seq<Seg>, w: Wr, k: nat, f: Frame)
    requires DiskInv(d, h) && WriterAt(d, h, w, k) && Fits(d, w, f)
    ensures DiskInv(WriteRecord(d, w, f), h[k := Extend(h[k], f)])
  {
    hide GeoOk, WriteRecord, RingOk, SegOk, SlotOwned, SlotAt, SameStatic, WriterAt, Fits, Span, Need;
    WriterIsLive(d, h, w, k);
    var e, h' := WriteRecord(d, w, f), h[k := Extend(h[k], f)];
    FitsSizes(d, h, w, k, f);
    WriteRecordElsewhere(d, w, f, 0, 0);
    StaticFacts(d, e);
    StaticParts(d, e);
    GeoOfImage(d, e);
    RingOfImage(d, e, |h|);
    forall j | 0 <= j < |h'| && Live(e, |h'|, j)
      ensures SegOk(e, j, h'[j])
    {
      if j == k {
        WriteRecordOwnSeg(d, h, w, k, f);
      } else {
        WriteRecordOtherSeg(d, h, w, k, f, j);
      }
    }
    forall i | 0 <= i < SlotCount(e) && IsValid(SlotAt(e, i))
      ensures SlotOwned(e, h', SlotAt(e, i))
    {
      WriteRecordSlots(d, w, f, i);
      SlotOwnedExtended(d, e, h, SlotAt(d, i), k, f);
    }
  }

  lemma WriterIsLive(d: Dev, h: seq<Seg>, w: Wr, k: nat)
    requires WriterAt(d, h, w, k)
    ensures k < |h| && Live(d, |h|, k)
  {
  }

  lemma GeoOfImage(d: Dev, e: Dev)
    requires GeoOk(d) && e == d.(disk := e.disk) && |e.disk| == |d.disk|
    ensures GeoOk(e)
  {
  }

  lemma RingOfImage(d: Dev, e: Dev, n: nat)
    requires RingOk(d, n) && e == d.(disk := e.disk)
    ensures RingOk(e, n)
  {
  }

  // ---- a writer accepting a frame ----

  lemma Need32Exact(d: Dev, f: Frame)
    requires HDR_SIZE + |f.data| <= ChunkBytes(d) < 0x8000_0000
    ensures Need32(|f.data|) == Need(f)
  {
  }

  lemma AdvanceAt(d: Dev, h: seq<Seg>, w: Wr, k: nat, f: Frame)
    requires GeoOk(d) && WriterAt(d, h, w, k) && Fits(d, w, f)
    requires h[k].frames == [] ==> w.startTime == U32(f.wallTime)
    ensures WriterAt(WriteRecord(d, w, f), h[k := Extend(h[k], f)], Advance(w, f), k)
  {
    hide GeoOk, WriteRecord, Span, PayloadBytes, Need, Need32, ChunkNo, Base, U32, Advance, SameStatic, Live;
    var e := WriteRecord(d, w, f);
    WriteRecordElsewhere(d, w, f, 0, 0);
    StaticFacts(d, e);
    FitsSizes(d, h, w, k, f);
    AdvanceExact(d, h, w, k, f);
    var fs := h[k].frames;
    assert (fs + [f])[..|fs|] == fs;
  }

  lemma SmallU32(n: nat)
    ensures n < 0x1_0000_0000 ==> U32(n) == n
  {
  }

  /** No counter of the writer wraps. */
  lemma AdvanceExact(d: Dev, h: seq<Seg>, w: Wr, k: nat, f: Frame)
    requires GeoOk(d) && WriterAt(d, h, w, k) && Fits(d, w, f)
    ensures var fs := h[k].frames + [f]; Span(fs) <= U32_MAX && |fs| <= U32_MAX && PayloadBytes(fs) < U64_END
    ensures var fs := h[k].frames + [f];
      Advance(w, f) == w.(endOff := w.curOff, curOff := Span(fs), lastTime := U32(f.wallTime),
                          frameSeq := |fs|, frameCount := |fs|, totalBytes := PayloadBytes(fs))
  {
    hide GeoOk, Span, PayloadBytes, Need, Need32, ChunkNo, Base, U32, Live;
    FitsSizes(d, h, w, k, f);
    NeedBounds(f);
    Need32Exact(d, f);
    var fs := h[k].frames;
    SpanSnoc(fs, f);
    BytesBelowSpan(fs);
    SmallU32(w.curOff + Need32(|f.data|));
    SmallU32(|fs| + 1);
  }

  /** Other writers are not disturbed. */
  lemma OtherWriterAt(d: Dev, h: seq<Seg>, e: Dev, k: nat, seg: Seg, w': Wr, k': nat)
    requires SameStatic(d, e) && WriterAt(d, h, w', k') && k < |h| && k' != k
    ensures WriterAt(e, h[k := seg], w', k')
  {
    hide Span, PayloadBytes, SameStatic;
    StaticFacts(d, e);
  }

  lemma WriterAtSame(d: Dev, e: Dev, h: seq<Seg>, w: Wr, k: nat)
    requires SameStatic(d, e) && WriterAt(d, h, w, k)
    ensures WriterAt(e, h, w, k)
  {
    hide Span, PayloadBytes, SameStatic;
    StaticFacts(d, e);
  }

  lemma OpenSlotNotValid(d: Dev, w: Wr)
    ensures !IsValid(FillSlot(d, w, false)) && IsOpen(FillSlot(d, w, false))
  {
  }

  /** A frame accepted into the current segment. */
  lemma PutFrameKeepsInv(d: Dev, h: seq<Seg>, w: Wr, k: nat, f: Frame)
    requires DiskInv(d, h) && WriterAt(d, h, w, k) && Fits(d, w, f)
    ensures var (e, w') := PutFrame(d, w, f); var h' := h[k := Extend(h[k], f)];
      DiskInv(e, h') && WriterAt(e, h', w', k) && SameStatic(d, e)
  {
    hide GeoOk, WriteRecord, RingOk, SegsOk, SlotsOk, WriteIndex, FillSlot, Span, PayloadBytes, Need, Advance, SameStatic;
    GeoHasSlots(d);
    if w.frameCount == 0 {
      var w1 := w.(startTime := U32(f.wallTime));
      var s := FillSlot(d, w1, false);
      var d1 := WriteIndex(d, s);
      OpenSlotNotValid(d, w1);
      WriteIndexKeepsInv(d, h, s);
      WriteIndexStatic(d, s);
      StaticFacts(d, d1);
      WriterAtSame(d, d1, h, w1, k);
      WriteRecordKeepsInv(d1, h, w1, k, f);
      AdvanceAt(d1, h, w1, k, f);
      WriteRecordElsewhere(d1, w1, f, 0, 0);
      SameStaticTrans(d, d1, WriteRecord(d1, w1, f));
    } else {
      WriteRecordKeepsInv(d, h, w, k, f);
      AdvanceAt(d, h, w, k, f);
      WriteRecordElsewhere(d, w, f, 0, 0);
    }
  }

  lemma SameStaticTrans(d: Dev, e: Dev, g: Dev)
    requires SameStatic(d, e) && SameStatic(e, g)
    ensures SameStatic(d, g)
  {
    assert g.st.(crc := 0, indexNext := 0, chn := e.st.chn).(chn := d.st.chn)
        == g.st.(crc := 0, indexNext := 0, chn := d.st.chn);
    assert e.st.(crc := 0, indexNext := 0).(chn := d.st.chn) == e.st.(crc := 0, indexNext := 0, chn := d.st.chn);
  }

  // ---- closing a segment ----

  lemma ClosedSlotIs(d: Dev, h: seq<Seg>, w: Wr, k: nat)
    requires GeoOk(d) && DataChunks(d) > 0 && WriterAt(d, h, w, k) && w.frameCount > 0
    requires Span(h[k].frames) <= ChunkBytes(d) && |h[k].frames| <= U32_MAX
    ensures IsValid(FillSlot(d, w, true))
    ensures Describes(d, SealSlot(d.prims, FillSlot(d, w, true)), k, Close(h[k], w.rectype))
  {
    hide EncodeSlot, Span, PayloadBytes, GeoOk;
    GeoHasSlots(d);
    ChunkNoInRange(d, k);
    var fs := h[k].frames;
    assert fs[..|fs|] == fs;
  }

  function Close(seg: Seg, rectype: u8): Seg {
    seg.(closed := |seg.frames|, rectype := rectype, closings := seg.closings + {Closing(|seg.frames|, rectype)})
  }

  /** Closing a segment publishes a slot that describes it. */
  lemma FinalizeKeepsInv(d: Dev, h: seq<Seg>, w: Wr, k: nat)
    requires DiskInv(d, h) && WriterAt(d, h, w, k)
    ensures GeoOk(d) && SlotCount(d) > 0
    ensures var e := Finalize(d, w); var h' := h[k := Close(h[k], w.rectype)];
      DiskInv(e, h') && WriterAt(e, h', w, k) && SameStatic(d, e)
  {
    hide GeoOk, RingOk, WriteIndex, FillSlot, Span, PayloadBytes, SameStatic, SlotAt, Describes, SlotCrc;
    GeoHasSlots(d);
    var e, g := Finalize(d, w), h[k := Close(h[k], w.rectype)];
    CloseKeepsInv(d, h, k, w.rectype);
    CloseKeepsWriter(d, h, k, w.rectype, w, k);
    if w.frameCount > 0 {
      assert SegOk(d, k, h[k]);
      ClosedSlotIs(d, h, w, k);
      WriteIndexKeepsInv(d, g, FillSlot(d, w, true));
      WriteIndexStatic(d, FillSlot(d, w, true));
      WriterAtSame(d, e, g, w, k);
    } else {
      SameStaticRefl(d);
    }
  }

  lemma SameStaticRefl(d: Dev)
    ensures SameStatic(d, d)
  {
  }

  lemma CloseKeepsWriter(d: Dev, h: seq<Seg>, k: nat, rectype: u8, w: Wr, j: nat)
    requires k < |h| && WriterAt(d, h, w, j)
    ensures WriterAt(d, h[k := Close(h[k], rectype)], w, j)
  {
    hide Span, PayloadBytes;
  }

  lemma CloseKeepsInv(d: Dev, h: seq<Seg>, k: nat, rectype: u8)
    requires DiskInv(d, h) && k < |h|
    ensures DiskInv(d, h[k := Close(h[k], rectype)])
  {
    hide GeoOk, RingOk, Span, SlotAt, Recorded;
    var h' := h[k := Close(h[k], rectype)];
    assert SegsOk(d, h');
    forall i | 0 <= i < SlotCount(d) && IsValid(SlotAt(d, i))
      ensures SlotOwned(d, h', SlotAt(d, i))
    {
      OwnedAfterClose(d, h, SlotAt(d, i), k, rectype);
    }
  }

  lemma OwnedAfterClose(d: Dev, h: seq<Seg>, s: Slot, k: nat, rectype: u8)
    requires SlotOwned(d, h, s) && k < |h|
    ensures SlotOwned(d, h[k := Close(h[k], rectype)], s)
  {
    hide EncodeSlot, Span, PayloadBytes;
    var h' := h[k := Close(h[k], rectype)];
    var j :| 0 <= j < |h| && Live(d, |h|, j) && Describes(d, s, j, h[j]);
    assert Describes(d, s, j, h'[j]);
  }

  // ---- starting a segment ----

  /** The lap counter has not reached the end of its 64 bits. */
  predicate EpochRoom(d: Dev) { d.sb.seqEpoch < U64_END - 1 }

  /** Nothing is left to hand out: no data chunks at all, or a stop disk used up. */
  predicate Exhausted(d: Dev, n: nat) { DataChunks(d) == 0 || (d.sb.hddFull == HDD_STOP && n >= DataChunks(d)) }

  /** Allocation number `n` (from 0) fails exactly on an exhausted disk; otherwise it yields
      chunk n modulo the ring size, and the epoch passes 1 once a lap is complete. */
  lemma AllocNth(d: Dev, n: nat)
    requires RingOk(d, n) && EpochRoom(d)
    ensures Alloc(d).1.NoRoom? <==> Exhausted(d, n)
    ensures Alloc(d).1.Chunk? ==>
      && Alloc(d).1.chunk == n % DataChunks(d) && Alloc(d).1.off == ChunkOff(d, n % DataChunks(d))
      && RingOk(Alloc(d).0, n + 1)
      && (IsWrapped(Alloc(d).0) <==> d.sb.hddFull != HDD_STOP && n + 1 >= DataChunks(d))
    ensures Alloc(d).1.NoRoom? ==> Alloc(d).0 == d
  {
    hide DataChunks, ChunkOff, SameStatic, RingOk;
    AllocRoom(d, n);
    if Alloc(d).1.Chunk? {
      if d.sb.hddFull == HDD_STOP {
        AllocStop(d, n);
      } else {
        AllocLap(d, n);
      }
    }
  }

  lemma AllocRoom(d: Dev, n: nat)
    requires RingOk(d, n)
    ensures Alloc(d).1.NoRoom? <==> Exhausted(d, n)
  {
    hide DataChunks, ChunkOff;
  }

  lemma AllocStop(d: Dev, n: nat)
    requires RingOk(d, n) && Alloc(d).1.Chunk? && d.sb.hddFull == HDD_STOP
    ensures Alloc(d).1.chunk == n % DataChunks(d) && Alloc(d).1.off == ChunkOff(d, n % DataChunks(d))
    ensures RingOk(Alloc(d).0, n + 1) && !IsWrapped(Alloc(d).0)
  {
    hide DataChunks, ChunkOff, SameStatic;
    AllocStatic(d);
    StaticFacts(d, Alloc(d).0);
    DataChunksBelow(d);
    ModUnique(n, DataChunks(d), 0, n);
  }

  lemma AllocLap(d: Dev, n: nat)
    requires RingOk(d, n) && EpochRoom(d) && Alloc(d).1.Chunk? && d.sb.hddFull != HDD_STOP
    ensures Alloc(d).1.chunk == n % DataChunks(d) && Alloc(d).1.off == ChunkOff(d, n % DataChunks(d))
    ensures RingOk(Alloc(d).0, n + 1)
    ensures IsWrapped(Alloc(d).0) <==> n + 1 >= DataChunks(d)
  {
    hide DataChunks, ChunkOff;
    AllocChunks(d);
    DataChunksBelow(d);
    NextOnRing(n, DataChunks(d));
  }

  lemma AllocChunks(d: Dev)
    ensures DataChunks(Alloc(d).0) == DataChunks(d) && Alloc(d).0.sb.hddFull == d.sb.hddFull
  {
    hide SameStatic;
    AllocStatic(d);
    StaticFacts(d, Alloc(d).0);
  }

  lemma DataChunksBelow(d: Dev)
    ensures DataChunks(d) < U64_END
  {
  }

  lemma NextOnRing(n: nat, m: nat)
    requires m > 0
    ensures n % m + 1 >= m ==> (n + 1) % m == 0 && (n + 1) / m == n / m + 1
    ensures n % m + 1 < m ==> (n + 1) % m == n % m + 1 && (n + 1) / m == n / m
    ensures (n + 1) / m >= 1 <==> n + 1 >= m
  {
    var q, r := n / m, n % m;
    assert n == m * q + r;
    if r + 1 >= m {
      assert m * (q + 1) == m * q + m;
      ModUnique(n + 1, m, q + 1, 0);
    } else {
      ModUnique(n + 1, m, q, r + 1);
    }
    Layout.DivMono(m, if n + 1 >= m then n + 1 else m, m);
    if n + 1 < m {
      ModUnique(n + 1, m, 0, n + 1);
    }
  }

  lemma AllocStatic(d: Dev)
    ensures SameStatic(d, Alloc(d).0) && Alloc(d).0.disk == d.disk && Alloc(d).0.st == d.st
  {
  }

  lemma BumpStatic(d: Dev, chn: u16)
    ensures SameStatic(d, BumpSeq(d, chn)) && BumpSeq(d, chn).disk == d.disk
    ensures BumpSeq(d, chn).st.indexNext == d.st.indexNext && BumpSeq(d, chn).sb == d.sb
  {
  }

  lemma InvalidateStatic(d: Dev, chunk: nat)
    requires GeoOk(d)
    ensures var e := Invalidate(d, chunk, 0);
      SameStatic(d, e) && SameData(d, e) && e == d.(disk := e.disk)
  {
    hide Invalidate, Read, GeoOk;
    var e := Invalidate(d, chunk, 0);
    InvalidateKeeps(d, chunk, 0, DataStart(d), 0);
    forall off: nat, n: nat | DataStart(d) <= off
      ensures Read(e.disk, off, n) == Read(d.disk, off, n)
    {
      InvalidateKeeps(d, chunk, 0, off, n);
    }
  }

  /** The disk after the allocation and the clearing of the chunk's old slots. */
  function Recycled(d: Dev): Dev {
    match Alloc(d)
    case (_, NoRoom) => d
    case (d1, Chunk(chunk, off)) => if IsWrapped(d1) then Invalidate(d1, chunk, 0) else d1
  }

  lemma RecycledFacts(d: Dev, n: nat)
    requires GeoOk(d) && RingOk(d, n) && EpochRoom(d) && !Exhausted(d, n)
    ensures var e := Recycled(d);
      SameStatic(d, e) && SameData(d, e) && GeoOk(e) && RingOk(e, n + 1) && e.st == d.st
  {
    hide Alloc, Invalidate, Read;
    AllocNth(d, n);
    AllocStatic(d);
    var d1 := Alloc(d).0;
    StaticFacts(d, d1);
    InvalidateStatic(d1, Alloc(d).1.chunk);
    var e := Recycled(d);
    SameStaticRefl(d1);
    SameStaticTrans(d, d1, e);
    StaticFacts(d, e);
    if IsWrapped(d1) {
      RingOfImage(d1, e, n + 1);
    }
  }

  /** After recycling, no valid slot is left for the segment that loses its chunk. */
  lemma RecycledSlots(d: Dev, h: seq<Seg>, i: nat)
    requires GeoOk(d) && RingOk(d, |h|) && EpochRoom(d) && !Exhausted(d, |h|)
    requires SlotsOk(d, h) && i < SlotCount(d) && IsValid(SlotAt(Recycled(d), i))
    ensures IsValid(SlotAt(d, i)) && SlotAt(Recycled(d), i) == SlotAt(d, i)
    ensures exists k :: 0 <= k < |h| && Live(d, |h| + 1, k) && Describes(d, SlotAt(d, i), k, h[k])
  {
    hide Alloc, Invalidate, DecodeSlot, EncodeSlot, Read, GeoOk, Span, PayloadBytes, SlotCrc, RingOk;
    AllocNth(d, |h|);
    AllocStatic(d);
    var d1 := Alloc(d).0;
    StaticFacts(d, d1);
    GeoAfterAlloc(d);
    InvalidateAt(d1, Alloc(d).1.chunk, 0, i);
    var s := SlotAt(d, i);
    assert SlotAt(d1, i) == s;
    assert SlotAt(Recycled(d), i) == s;
    var k :| 0 <= k < |h| && Live(d, |h|, k) && Describes(d, s, k, h[k]);
    if !Live(d, |h| + 1, k) {
      assert |h| == k + DataChunks(d);
      ModSame(k, DataChunks(d));
    }
  }

  lemma GeoAfterAlloc(d: Dev)
    requires GeoOk(d)
    ensures GeoOk(Alloc(d).0)
  {
    AllocStatic(d);
    StaticFacts(d, Alloc(d).0);
  }

  function FreshSeg(d: Dev, w: Wr): Seg { Seg(SegIdOf(w.chn, NextSeq(d, w.chn)), w.chn, [], 0, w.rectype, {}) }

  lemma StartOnIs(d: Dev, w: Wr)
    requires Alloc(d).1.Chunk?
    ensures var r := StartOn(d, w);
      && r.dev == BumpSeq(Recycled(d), w.chn) && r.status == Ok
      && r.wr == w.(chunk := Alloc(d).1.chunk, baseOff := Alloc(d).1.off, curOff := 0,
                    segId := SegIdOf(w.chn, NextSeq(Recycled(d), w.chn)), frameSeq := 0, frameCount := 0,
                    totalBytes := 0, startTime := 0, lastTime := 0, endOff := 0)
  {
  }

  /** Starting a segment: its predecessor on the chunk, if any, stops being live, and so do
      that segment's slots. */
  lemma StartKeepsInv(d: Dev, h: seq<Seg>, w: Wr)
    requires DiskInv(d, h) && EpochRoom(d)
    ensures StartOn(d, w).status.Ok? <==> !Exhausted(d, |h|)
    ensures !StartOn(d, w).status.Ok? ==> StartOn(d, w) == WrResult(d, w, Fail(NoSpace))
    ensures StartOn(d, w).status.Ok? ==>
      var r := StartOn(d, w); var h' := h + [FreshSeg(d, w)];
      DiskInv(r.dev, h') && WriterAt(r.dev, h', r.wr, |h|) && SameStatic(d, r.dev)
  {
    hide Alloc, Recycled, GeoOk, RingOk, SegsOk, SlotsOk, SameStatic, SameData, BumpSeq, NextSeq, EpochRoom, Invalidate;
    AllocNth(d, |h|);
    if !Exhausted(d, |h|) {
      StartOnIs(d, w);
      StartParts(d, h, w);
      StartSlots(d, h, w);
      StaticFacts(d, StartOn(d, w).dev);
    }
  }

  lemma StartParts(d: Dev, h: seq<Seg>, w: Wr)
    requires GeoOk(d) && RingOk(d, |h|) && SegsOk(d, h) && EpochRoom(d) && !Exhausted(d, |h|)
    ensures var e := BumpSeq(Recycled(d), w.chn);
      && SameStatic(d, e) && GeoOk(e) && RingOk(e, |h| + 1) && SegsOk(e, h + [FreshSeg(d, w)])
      && NextSeq(Recycled(d), w.chn) == NextSeq(d, w.chn)
  {
    hide Alloc, Recycled, GeoOk, RingOk, SegsOk, SameStatic, BumpSeq, NextSeq, EpochRoom, Read;
    RecycledFacts(d, |h|);
    var r := Recycled(d);
    var e := BumpSeq(r, w.chn);
    NextSeqOf(d, r, w.chn);
    BumpStatic(r, w.chn);
    SameStaticTrans(d, r, e);
    GeoAfterBump(r, w.chn, |h| + 1);
    SegsOkAfterStart(d, e, h, FreshSeg(d, w));
  }

  lemma StartSlots(d: Dev, h: seq<Seg>, w: Wr)
    requires DiskInv(d, h) && EpochRoom(d) && !Exhausted(d, |h|)
    ensures SlotsOk(BumpSeq(Recycled(d), w.chn), h + [FreshSeg(d, w)])
  {
    hide Alloc, Recycled, GeoOk, RingOk, SegsOk, SameStatic, SameData, BumpSeq, NextSeq, EpochRoom, SlotAt, Describes, SlotOwned;
    StartParts(d, h, w);
    var r := Recycled(d);
    var e := BumpSeq(r, w.chn);
    StaticFacts(d, e);
    forall i | 0 <= i < SlotCount(e) && IsValid(SlotAt(e, i))
      ensures SlotOwned(e, h + [FreshSeg(d, w)], SlotAt(e, i))
    {
      BumpSlot(r, w.chn, i);
      RecycledSlots(d, h, i);
      OwnedAfterStart(d, e, h, FreshSeg(d, w), SlotAt(d, i));
    }
  }

  lemma NextSeqOf(d: Dev, e: Dev, chn: u16)
    requires e.st == d.st
    ensures NextSeq(e, chn) == NextSeq(d, chn)
  {
  }

  lemma BumpSlot(d: Dev, chn: u16, i: nat)
    ensures SlotAt(BumpSeq(d, chn), i) == SlotAt(d, i)
  {
    hide DecodeSlot, Read, NextSeq;
  }

  lemma GeoAfterBump(d: Dev, chn: u16, n: nat)
    requires GeoOk(d) && RingOk(d, n)
    ensures GeoOk(BumpSeq(d, chn)) && RingOk(BumpSeq(d, chn), n)
  {
  }

  lemma SegsOkAfterStart(d: Dev, e: Dev, h: seq<Seg>, seg: Seg)
    requires GeoOk(d) && DataChunks(d) > 0 && SegsOk(d, h) && SameStatic(d, e) && SameData(d, e) && seg.frames == [] && seg.closed == 0
    ensures SegsOk(e, h + [seg])
  {
    hide GeoOk, Recorded, SameStatic, SameData;
    StaticFacts(d, e);
    var h' := h + [seg];
    forall k | 0 <= k < |h'| && Live(e, |h'|, k)
      ensures SegOk(e, k, h'[k])
    {
      if k < |h| {
        assert SegOk(d, k, h[k]);
        SegOkSame(d, e, k, h[k]);
      } else {
        NothingRecorded(e, Base(e, k), seg.segId);
      }
    }
  }

  lemma NothingRecorded(d: Dev, base: nat, segId: u32)
    ensures Recorded(d, base, segId, [])
  {
  }

  lemma OwnedAfterStart(d: Dev, e: Dev, h: seq<Seg>, seg: Seg, s: Slot)
    requires SameStatic(d, e)
    requires exists k :: 0 <= k < |h| && Live(d, |h| + 1, k) && Describes(d, s, k, h[k])
    ensures SlotOwned(e, h + [seg], s)
  {
    hide Describes, SameStatic;
    StaticFacts(d, e);
    var k :| 0 <= k < |h| && Live(d, |h| + 1, k) && Describes(d, s, k, h[k]);
    DescribesSame(d, e, s, k, h[k]);
    assert (h + [seg])[k] == h[k];
  }

  /** A writer keeps its segment through someone else's start unless its own chunk is next. */
  lemma OtherWriterAfterStart(d: Dev, h: seq<Seg>, w: Wr, w': Wr, k': nat)
    requires DiskInv(d, h) && EpochRoom(d) && StartOn(d, w).status.Ok? && WriterAt(d, h, w', k')
    requires |h| < k' + DataChunks(d)
    ensures WriterAt(StartOn(d, w).dev, h + [FreshSeg(d, w)], w', k')
  {
    hide StartOn, DiskInv, SameStatic, Span, PayloadBytes, EpochRoom;
    StartKeepsInv(d, h, w);
    StaticFacts(d, StartOn(d, w).dev);
  }

  // ---- replay ----

  /** What a viewer should see of frames `from` up to `n` of a segment. */
  function Played(d: Dev, seg: Seg, from: nat, n: nat): (r: seq<(FrameHdr, seq<byte>)>)
    requires from <= n <= |seg.frames| <= U32_MAX
    ensures |r| == n - from
  {
    seq(n - from, i requires 0 <= i < n - from =>
      (HdrFor(d, seg.segId, from + i, seg.frames[from + i]), seg.frames[from + i].data))
  }

  /** The player standing at frame `j` of segment `k`, told to play the first `n`. */
  ghost predicate StandsAt(d: Dev, p: Pl, k: nat, seg: Seg, n: nat, j: nat)
  {
    && 0 < n <= |seg.frames| && j <= n
    && p.baseOff == Base(d, k) && p.curOff == Span(seg.frames[..j]) && p.endOff == Span(seg.frames[..n - 1])
  }

  lemma HdrReads(d: Dev, p: Pl, off: u32, segId: u32, frameSeq: u32, f: Frame)
    requires RecordAt(d, p.baseOff + off, segId, frameSeq, f)
    ensures ReadHdr(d, p, off) == GoodHdr(HdrFor(d, segId, frameSeq, f))
  {
    hide EncodeHdr, DecodeHdr, Read, Nonce, Protect;
    var h := HdrFor(d, segId, frameSeq, f);
    HdrRoundTrip(h);
    assert h.(crc := 0).(crc := h.crc) == h;
  }

  lemma PayloadReads(d: Dev, segId: u32, frameSeq: u32, f: Frame)
    ensures var h := HdrFor(d, segId, frameSeq, f); var raw := Protect(d, segId, frameSeq, f.data);
      && (h.enc != 0 <==> d.dek.HasKey?) && h.segId == segId && h.frameSeq == frameSeq && h.payloadLen == |f.data|
      && h.pts == f.pts
      && (d.dek.HasKey? ==> Xcrypt(d.prims.aes, d.dek.key, segId, frameSeq, 0, raw) == f.data)
      && (d.dek.NoKey? ==> raw == f.data)
  {
    hide EncodeHdr, Nonce, Xcrypt;
    if d.dek.HasKey? {
      XcryptTwice(d.prims.aes, d.dek.key, segId, frameSeq, 0, f.data);
    }
  }

  lemma AlignShift(off: nat, v: nat, a: nat)
    requires a > 0 && off % a == 0
    ensures AlignUp(off + v, a) == off + AlignUp(v, a)
  {
    var q, n := off / a, (v + a - 1) / a;
    assert off == a * q;
    assert v + a - 1 == a * n + (v + a - 1) % a;
    assert a * (q + n) == a * q + a * n;
    ModUnique(off + v + a - 1, a, q + n, (v + a - 1) % a);
    assert (q + n) * a == off + n * a;
  }

  lemma NextOffExact(off: nat, f: Frame)
    requires off % FRAME_ALIGN == 0 && off + Need(f) < 0x8000_0000
    ensures NextOff(off, |f.data|) == off + Need(f)
  {
    hide AlignUp;
    NeedBounds(f);
    AlignShift(off, HDR_SIZE + |f.data|, FRAME_ALIGN);
    assert U32(off + HDR_SIZE + |f.data|) == off + (HDR_SIZE + |f.data|);
  }

  lemma FrameReads(d: Dev, p: Pl, k: nat, seg: Seg, n: nat, j: nat)
    requires SegOk(d, k, seg) && ChunkBytes(d) < 0x8000_0000 && StandsAt(d, p, k, seg, n, j)
    requires j < n
    ensures Span(seg.frames[..j + 1]) <= U32_MAX
    ensures NextFrame(d, p) == Got(HdrFor(d, seg.segId, j, seg.frames[j]), seg.frames[j].data,
                                   p.(curOff := Span(seg.frames[..j + 1])))
  {
    hide HdrFor, Protect, Span, Need, EncodeHdr, Xcrypt, ReadHdr, NextOff, Read, Recorded;
    var f := seg.frames[j];
    StepTo(seg.frames, j);
    SpanPrefix(seg.frames, j + 1);
    SpanAligned(seg.frames[..j]);
    NextOffExact(p.curOff, f);
    SpanMonotone(seg.frames, j, n - 1);
    RecordOf(d, k, seg, j);
    HdrReads(d, p, p.curOff, seg.segId, j, f);
    PayloadReads(d, seg.segId, j, f);
  }

  lemma RecordOf(d: Dev, k: nat, seg: Seg, j: nat)
    requires SegOk(d, k, seg) && j < |seg.frames|
    ensures j <= U32_MAX && RecordAt(d, Base(d, k) + Span(seg.frames[..j]), seg.segId, j, seg.frames[j])
  {
    hide RecordAt, Span;
  }

  lemma SpanMonotone(fs: seq<Frame>, i: nat, j: nat)
    requires i <= j <= |fs|
    ensures Span(fs[..i]) <= Span(fs[..j])
  {
    SpanPrefix(fs[..j], i);
    assert fs[..j][..i] == fs[..i];
  }

  lemma StepTo(fs: seq<Frame>, j: nat)
    requires j < |fs|
    ensures Span(fs[..j + 1]) == Span(fs[..j]) + Need(fs[j])
  {
    assert fs[..j + 1] == fs[..j] + [fs[j]];
    SpanSnoc(fs[..j], fs[j]);
  }

  lemma EndReached(d: Dev, p: Pl, k: nat, seg: Seg, n: nat)
    requires StandsAt(d, p, k, seg, n, n)
    ensures NextFrame(d, p) == Stop(NotFound)
  {
    hide Need, ReadHdr;
    StepTo(seg.frames, n - 1);
    NeedBounds(seg.frames[n - 1]);
  }

  /** Calling the player more than `n - j` times delivers the rest of the frames, then the end. */
  lemma {:induction false} ReplayFrom(d: Dev, p: Pl, k: nat, seg: Seg, n: nat, j: nat, m: nat)
    requires SegOk(d, k, seg) && ChunkBytes(d) < 0x8000_0000 && StandsAt(d, p, k, seg, n, j)
    requires m > n - j
    ensures |seg.frames| <= U32_MAX && Replay(d, p, m) == Played(d, seg, j, n)
    decreases n - j
  {
    hide HdrFor, Span, NextFrame, Recorded;
    RecordedLength(d, k, seg);
    if j == n {
      EndReached(d, p, k, seg, n);
      assert Replay(d, p, m) == [];
    } else {
      FrameReads(d, p, k, seg, n, j);
      var p' := p.(curOff := SpanTo(d, seg, j + 1));
      ReplayFrom(d, p', k, seg, n, j + 1, m - 1);
      assert Played(d, seg, j, n) == [(HdrFor(d, seg.segId, j, seg.frames[j]), seg.frames[j].data)] + Played(d, seg, j + 1, n);
    }
  }

  function SpanTo(d: Dev, seg: Seg, j: nat): u32
    requires j <= |seg.frames| && Span(seg.frames) <= ChunkBytes(d) < 0x8000_0000
  {
    SpanPrefix(seg.frames, j);
    Span(seg.frames[..j])
  }

  lemma RecordedLength(d: Dev, k: nat, seg: Seg)
    requires SegOk(d, k, seg)
    ensures |seg.frames| <= U32_MAX
  {
  }

  /** Header and payload are those of frame `i` of the segment. */
  predicate Carries(seg: Seg, i: nat, h: FrameHdr, data: seq<byte>) {
    && i < |seg.frames|
    && var f := seg.frames[i];
    && h.chn == f.chn && h.stream == f.stream && h.codec == f.codec && h.frameType == f.frameType
    && h.pts == f.pts && h.wallTime == f.wallTime && h.payloadLen == |f.data| && data == f.data
    && h.segId == seg.segId && h.frameSeq == i
  }

  /** The first `n` frames of the segment, one after the other, and nothing else. */
  ghost predicate Delivers(seg: Seg, n: nat, rest: seq<(FrameHdr, seq<byte>)>) {
    n <= |seg.frames| && |rest| == n && forall i :: 0 <= i < n ==> Carries(seg, i, rest[i].0, rest[i].1)
  }

  lemma HeaderCarries(d: Dev, seg: Seg, i: nat)
    requires i < |seg.frames| <= U32_MAX
    ensures Carries(seg, i, HdrFor(d, seg.segId, i, seg.frames[i]), seg.frames[i].data)
  {
    hide EncodeHdr, Nonce;
  }

  lemma PlayedDelivers(d: Dev, seg: Seg, n: nat)
    requires n <= |seg.frames| <= U32_MAX
    ensures Delivers(seg, n, Played(d, seg, 0, n))
  {
    hide HdrFor, Carries;
    forall i | 0 <= i < n
      ensures Carries(seg, i, Played(d, seg, 0, n)[i].0, Played(d, seg, 0, n)[i].1)
    {
      HeaderCarries(d, seg, i);
    }
  }

  /** The heart of the recorder: a slot that describes a live segment replays exactly the
      leading frames it counts, whole and in order, each with its own fields. */
  lemma SlotReplays(d: Dev, h: seq<Seg>, s: Slot, k: nat, m: nat)
    requires DiskInv(d, h) && k < |h| && Live(d, |h|, k) && Describes(d, s, k, h[k]) && m > s.frameCount
    ensures s.frameCount <= |h[k].frames| <= U32_MAX
    ensures Replay(d, PlayOpen(d, s), m) == Played(d, h[k], 0, s.frameCount) && Delivers(h[k], s.frameCount, Played(d, h[k], 0, s.frameCount))
  {
    hide EncodeSlot, SlotCrc, Replay, Played, Recorded, RingOk, SlotsOk, Delivers;
    assert SegOk(d, k, h[k]);
    GeoHasSlots(d);
    var p := PlayOpen(d, s);
    assert h[k].frames[..0] == [];
    ReplayFrom(d, p, k, h[k], s.frameCount, 0, m);
    PlayedDelivers(d, h[k], s.frameCount);
  }
}
