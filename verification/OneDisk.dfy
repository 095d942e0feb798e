/** Runs on one overwriting disk, followed step by step while the slots have not gone round their
    ring. */
module OneDisk {
  import opened Bytes
  import opened RecorderFormat
  import opened StorageDev
  import opened Index
  import opened Recorder
  import opened Faithful
  import opened Group
  import opened Recording
  import opened FiniteSets
  import opened SlotOrder
  import opened IndexRing
  import Retention

  // ---- the disk ----

  const MAX_STARTS: nat := 2 * SEQ_END

  /** A disk that records over its oldest segments, of at most 2^24 chunks, with its history and
      the order of its slots, which have not gone round the ring. */
  ghost predicate DiskAt(d: Dev, h: seq<Seg>, o: Order) {
    && DiskInv(d, h) && IdsOk(d, h) && |h| <= MAX_STARTS
    && d.sb.hddFull != HDD_STOP && 0 < DataChunks(d) <= SEQ_END && SlotCount(d) > 0
    && Distinct(o) && IndexOk(d, h, o) && |o.slots| <= SlotCount(d)
  }

  ghost predicate SameSize(d: Dev, e: Dev) { DataChunks(e) == DataChunks(d) && SlotCount(e) == SlotCount(d) }

  lemma DiskPlaced(d: Dev, h: seq<Seg>, o: Order)
    requires DiskAt(d, h, o)
    ensures Placed(d, h, o) && (|o.slots| < SlotCount(d) ==> RoomForNext(d, h, o))
  {
    hide IndexOk, RingOk, SegsOk, SlotsOk, GeoOk, DataChunks, Live;
  }

  lemma DiskStatic(d: Dev, e: Dev, h: seq<Seg>, o: Order)
    requires DiskAt(d, h, o) && SameStatic(d, e)
    ensures SameSize(d, e) && e.sb.hddFull == d.sb.hddFull
  {
    hide DiskInv, IdsOk, IndexOk, SameStatic, DataChunks;
    StaticFacts(d, e);
  }

  lemma RingRoom(d: Dev, h: seq<Seg>, o: Order)
    requires DiskAt(d, h, o)
    ensures EpochRoom(d) && !Exhausted(d, |h|) && d.sb.writePtrChunk == |h| % DataChunks(d) && Load(d) <= 2.0
  {
    hide SegsOk, SlotsOk, GeoOk, IdsOk, IndexOk, DataChunks, Load;
    RingLoad(d, |h|);
    QuotientBelow(|h|, DataChunks(d));
  }

  lemma QuotientBelow(n: nat, m: nat)
    requires m > 0
    ensures n / m <= n
  {
    assert n == m * (n / m) + n % m;
    Layout.MulMono(1, m, n / m);
  }

  lemma StartAt(d: Dev, h: seq<Seg>, w: Wr, o: Order)
    requires DiskAt(d, h, o) && |h| < MAX_STARTS
    ensures EpochRoom(d) && StartOn(d, w).status.Ok? && SameSize(d, StartOn(d, w).dev)
    ensures DiskAt(StartOn(d, w).dev, h + [FreshSeg(d, w)], SlotOrder.Started(o, {}, |h|))
  {
    hide DiskInv, IdsOk, IndexOk, EpochRoom, DataChunks, StartOn, FreshSeg, SameStatic, Distinct, Exhausted;
    RingRoom(d, h, o);
    StartKeepsInv(d, h, w);
    IdsAfterStartOn(d, h, w);
    IndexAfterStart(d, h, w, o, {});
    DiskStatic(d, StartOn(d, w).dev, h, o);
    StartedDistinct(o, |h|);
  }

  lemma StartedDistinct(o: Order, n: nat)
    requires Distinct(o)
    ensures Distinct(SlotOrder.Started(o, {}, n)) && SlotOrder.Started(o, {}, n).slots == o.slots
  {
  }

  lemma FirstAt(d: Dev, h: seq<Seg>, w: Wr, k: nat, f: Frame, o: Order)
    requires DiskAt(d, h, o) && WriterAt(d, h, w, k) && w.frameCount == 0 && h[k].closed == 0 && |o.slots| < SlotCount(d)
    requires Faithful.Fits(d, w, f)
    ensures SameSize(d, PutFrame(d, w, f).0) && DiskAt(PutFrame(d, w, f).0, h[k := Extend(h[k], f)], Appended(o, k))
  {
    hide GeoOk, RingOk, SegsOk, SlotsOk, IdsOk, IndexOk, DataChunks, WriteIndex, WriteRecord, FillSlot, SameStatic, Distinct, Span, PayloadBytes, Faithful.Fits, Extend, Placed, RoomForNext;
    var w1 := w.(startTime := U32(f.wallTime));
    DiskPlaced(d, h, o);
    PutFrameKeepsInv(d, h, w, k, f);
    IdsAfterPut(d, h, w, k, f);
    Retention.WaitsForSlot(d, h, w, k, o);
    Retention.FirstPlaced(d, h, w1, k, f, o);
    DiskStatic(d, PutFrame(d, w, f).0, h, o);
    AppendedDistinct(o, k);
  }

  lemma AppendedDistinct(o: Order, k: nat)
    requires Distinct(o) && k !in o.slots
    ensures Distinct(Appended(o, k))
  {
  }

  /** Closing the segment whose slot came last. */
  lemma CloseAt(d: Dev, h: seq<Seg>, w: Wr, k: nat, o: Order)
    requires DiskAt(d, h, o) && WriterAt(d, h, w, k) && w.frameCount > 0 && o.slots != [] && o.slots[|o.slots| - 1] == k
    ensures Retention.Reached(d, w) && SameSize(d, Finalize(d, w)) && DiskAt(Finalize(d, w), h[k := Faithful.Close(h[k], w.rectype)], o)
  {
    hide GeoOk, RingOk, SegsOk, SlotsOk, IdsOk, IndexOk, DataChunks, Finalize, SameStatic, Distinct, Span, PayloadBytes, Placed, FindSlot, PosOf;
    DiskPlaced(d, h, o);
    LastHasSlot(d, h, w, k, o);
    SearchExact(d, h, o, |o.slots| - 1, 1);
    FinalizeKeepsInv(d, h, w, k);
    IdsAfterFinalize(d, h, w, k);
    IndexAfterClose(d, h, o, w, k);
    DiskStatic(d, Finalize(d, w), h, o);
  }

  lemma LastHasSlot(d: Dev, h: seq<Seg>, w: Wr, k: nat, o: Order)
    requires WriterAt(d, h, w, k) && o.slots != [] && o.slots[|o.slots| - 1] == k
    ensures HasSlot(d, h, o, |o.slots| - 1) && w.segId == h[k].segId
  {
    hide Span, PayloadBytes;
  }

  lemma FlushAt(d: Dev, h: seq<Seg>, o: Order)
    requires DiskAt(d, h, o)
    ensures SameSize(d, Flush(d)) && DiskAt(Flush(d), h, o)
  {
    hide GeoOk, RingOk, SegsOk, SlotsOk, IdsOk, IndexOk, DataChunks, SameStatic, Distinct, Flush, SlotAt;
    FlushKeepsDisk(d, h);
    FlushChannels(d);
    IdsKept(d, Flush(d), h);
    DiskStatic(d, Flush(d), h, o);
    forall i | 0 <= i < SlotCount(d)
      ensures SlotAt(Flush(d), i) == SlotAt(d, i)
    {
      FlushSlotAt(d, i);
    }
    FlushSlotAt(d, 0);
    Retention.IndexKept(d, Flush(d), h, o);
  }

  // ---- the system ----

  /** One such disk, and only writers of their own on it: writer `id` has segment `open[id]` open. */
  ghost predicate Stage(s: Sys, o: Order, open: map<nat, nat>) {
    && SysInv(s) && |s.pool.devs| == |s.hist| == 1 && DiskAt(s.pool.devs[0], s.hist[0], o)
    && s.writers.Keys == open.Keys
    && forall id :: id in open ==> On(s, id, open[id])
  }

  ghost predicate On(s: Sys, id: nat, k: nat) {
    Known(s, id) && s.writers[id].dev == 0 && !s.writers[id].grouped && s.at[id] == k && s.writers[id].rectype == REC_CONTINUOUS
  }

  lemma StageReady(s: Sys, o: Order, open: map<nat, nat>)
    requires Stage(s, o, open)
    ensures Ready(s.pool)
  {
    hide SysInv, DiskAt, Load;
    RingRoom(s.pool.devs[0], s.hist[0], o);
    DiskSlots(s.pool.devs[0], s.hist[0], o);
  }

  lemma DiskSlots(d: Dev, h: seq<Seg>, o: Order)
    requires DiskAt(d, h, o)
    ensures SlotCount(d) > 0 && DiskInv(d, h) && IdsOk(d, h) && 0 < DataChunks(d) <= SEQ_END
  {
    hide DiskInv, IdsOk, IndexOk, DataChunks;
  }

  lemma OnFacts(s: Sys, o: Order, open: map<nat, nat>, id: nat)
    requires Stage(s, o, open) && id in open
    ensures On(s, id, open[id]) && open[id] < |s.hist[0]|
    ensures WriterAt(s.pool.devs[0], s.hist[0], s.writers[id], open[id]) && Live(s.pool.devs[0], |s.hist[0]|, open[id])
    ensures s.writers[id].frameCount == |s.hist[0][open[id]].frames|
    ensures s.writers[id].chunk == ChunkNo(s.pool.devs[0], open[id])
  {
    hide DiskAt, Span, PayloadBytes, Separate;
    KnownDisks(s);
    assert WriterOk(s, id);
  }

  /** No other writer has the chunk that is next. */
  ghost predicate NoneNext(s: Sys, open: map<nat, nat>, id: nat) {
    |s.hist| == |s.pool.devs| == 1 && forall x :: x in open && x != id ==> |s.hist[0]| < open[x] + DataChunks(s.pool.devs[0])
  }

  lemma BeginAllowed(s: Sys, o: Order, open: map<nat, nat>, id: nat, w: Wr)
    requires Stage(s, o, open) && w.dev == 0 && !w.grouped && NoneNext(s, open, id)
    ensures Ready(s.pool) && MayBegin(s, id, w) && Target(s.pool, w) == 0
  {
    hide DiskAt, Load, Pick, EpochRoom, SysInv, Alloc, DataChunks, DiskInv, IdsOk, WriterAt;
    StageReady(s, o, open);
    RingRoom(s.pool.devs[0], s.hist[0], o);
    DiskSlots(s.pool.devs[0], s.hist[0], o);
    forall x | x in s.writers && x != id
      ensures s.pool.devs[0].sb.writePtrChunk != s.writers[x].chunk
    {
      OnFacts(s, o, open, x);
      RecycledChunk(s.pool.devs[0], |s.hist[0]|, open[x]);
    }
    TargetOf(s.pool, w);
  }

  /** What a start does to such a system, whether or not it laps another writer. */
  lemma BeginDisk(s: Sys, o: Order, open: map<nat, nat>, id: nat, w: Wr)
    requires Stage(s, o, open) && |s.hist[0]| < MAX_STARTS && w.dev == 0 && !w.grouped
    ensures Ready(s.pool)
    ensures var b, n, r := Begin(s, id, w), |s.hist[0]|, StartOn(s.pool.devs[0], w);
      && b.status.Ok? && b.sys.pool.devs == [r.dev] && b.sys.hist == [s.hist[0] + [FreshSeg(s.pool.devs[0], w)]]
      && b.sys.writers == s.writers[id := r.wr] && r.wr.dev == 0 && !r.wr.grouped && r.wr.rectype == w.rectype && b.sys.at == s.at[id := n]
      && SameSize(s.pool.devs[0], r.dev) && DiskAt(r.dev, b.sys.hist[0], SlotOrder.Started(o, {}, n))
  {
    hide DiskAt, StartOn, Load, Pick, Begin, FreshSeg, EpochRoom, SysInv, DiskInv, IdsOk;
    StageReady(s, o, open);
    KnownDisks(s);
    BeginOn(s, id, w);
    TargetOf(s.pool, w);
    assert w.(dev := 0) == w;
    StartAt(s.pool.devs[0], s.hist[0], w, o);
    StartGrouped(s.pool.devs[0], w);
  }

  lemma StartGrouped(d: Dev, w: Wr)
    ensures StartOn(d, w).wr.grouped == w.grouped && StartOn(d, w).wr.dev == w.dev && StartOn(d, w).wr.rectype == w.rectype
  {
    hide Alloc, Invalidate, BumpSeq, NextSeq;
  }

  lemma BeginStage(s: Sys, o: Order, open: map<nat, nat>, id: nat, w: Wr)
    requires Stage(s, o, open) && |s.hist[0]| < MAX_STARTS && w.dev == 0 && !w.grouped && w.rectype == REC_CONTINUOUS && NoneNext(s, open, id)
    ensures Ready(s.pool) && MayBegin(s, id, w)
    ensures var b, n := Begin(s, id, w), |s.hist[0]|;
      && b.status.Ok? && Stage(b.sys, SlotOrder.Started(o, {}, n), open[id := n]) && SameSize(s.pool.devs[0], b.sys.pool.devs[0])
      && b.sys.hist[0] == s.hist[0] + [FreshSeg(s.pool.devs[0], w)]
  {
    hide DiskAt, StartOn, Load, Pick, Begin, FreshSeg, EpochRoom, SysInv, DiskInv, IdsOk, MayBegin, DataChunks;
    BeginAllowed(s, o, open, id, w);
    BeginDisk(s, o, open, id, w);
    BeginKeepsInv(s, id, w);
  }

  const PICTURE := Recorder.Frame(0, 0, 0, 0, 0, 0, [0])

  lemma PictureFits(d: Dev, w: Wr, f: Frame)
    requires GeoOk(d) && w.frameCount == 0 && |f.data| == 1
    ensures Refusal(d, f).Ok? && !MustRotate(d, w, f)
    ensures w.curOff == 0 ==> Faithful.Fits(d, w, f)
  {
  }

  /** A first frame of one byte never makes its writer move on. */
  lemma FirstAccepted(s: Sys, o: Order, open: map<nat, nat>, id: nat, f: Frame)
    requires Stage(s, o, open) && id in open && open[id] < |s.hist[0]| && s.hist[0][open[id]].frames == [] && |f.data| == 1
    ensures Ready(s.pool) && Known(s, id) && Indexed(s, id) && s.writers[id].frameCount == 0
    ensures Faithful.Fits(s.pool.devs[0], s.writers[id], f)
    ensures !Rotates(s, id, f) && Step(s, Give(id, f)).sys == Accept(s, id, f)
  {
    hide DiskAt, Load, Accept, SysInv, Refusal, MustRotate, WriterAt, Faithful.Fits, Begin, Finish, DiskInv, IdsOk;
    StageReady(s, o, open);
    OnFacts(s, o, open, id);
    DiskSlots(s.pool.devs[0], s.hist[0], o);
    WriterGeo(s.pool.devs[0], s.hist[0], s.writers[id], open[id]);
    PictureFits(s.pool.devs[0], s.writers[id], f);
  }

  lemma WriterGeo(d: Dev, h: seq<Seg>, w: Wr, k: nat)
    requires DiskInv(d, h) && WriterAt(d, h, w, k)
    ensures GeoOk(d) && (w.frameCount == 0 ==> w.curOff == 0)
  {
    hide GeoOk, SegsOk, SlotsOk, RingOk, PayloadBytes;
  }

  lemma FirstStage(s: Sys, o: Order, open: map<nat, nat>, id: nat, f: Frame)
    requires Stage(s, o, open) && id in open && open[id] < |s.hist[0]| && s.hist[0][open[id]].frames == [] && s.hist[0][open[id]].closed == 0
    requires |f.data| == 1 && |o.slots| < SlotCount(s.pool.devs[0])
    ensures Ready(s.pool) && Allowed(s, Give(id, f)) && !Retention.Closes(s, Give(id, f))
    ensures var t := Step(s, Give(id, f)).sys;
      && Stage(t, Appended(o, open[id]), open) && SameSize(s.pool.devs[0], t.pool.devs[0])
      && t.hist[0] == s.hist[0][open[id] := Extend(s.hist[0][open[id]], f)]
  {
    hide Stage, Step, Load, Accept, Rotates, Extend, Indexed, Faithful.Fits, SameSize;
    FirstAccepted(s, o, open, id, f);
    FirstAfter(s, o, open, id, f);
  }

  lemma FirstAfter(s: Sys, o: Order, open: map<nat, nat>, id: nat, f: Frame)
    requires Stage(s, o, open) && id in open && open[id] < |s.hist[0]| && s.hist[0][open[id]].frames == [] && s.hist[0][open[id]].closed == 0
    requires |o.slots| < SlotCount(s.pool.devs[0])
    requires Known(s, id) && Indexed(s, id) && s.writers[id].frameCount == 0 && Faithful.Fits(s.pool.devs[0], s.writers[id], f)
    ensures var t := Accept(s, id, f);
      && Stage(t, Appended(o, open[id]), open) && SameSize(s.pool.devs[0], t.pool.devs[0])
      && t.hist[0] == s.hist[0][open[id] := Extend(s.hist[0][open[id]], f)]
  {
    hide DiskAt, PutFrame, Load, Accept, SysInv, Extend, WriterAt, Faithful.Fits;
    FirstDisk(s, o, open, id, f);
    var t := Accept(s, id, f);
    forall x | x in open
      ensures On(t, x, open[x])
    {
      assert On(s, x, open[x]);
    }
  }

  lemma FirstDisk(s: Sys, o: Order, open: map<nat, nat>, id: nat, f: Frame)
    requires Stage(s, o, open) && id in open && open[id] < |s.hist[0]| && s.hist[0][open[id]].frames == [] && s.hist[0][open[id]].closed == 0
    requires |o.slots| < SlotCount(s.pool.devs[0])
    requires Known(s, id) && Indexed(s, id) && s.writers[id].frameCount == 0 && Faithful.Fits(s.pool.devs[0], s.writers[id], f)
    ensures var t, r := Accept(s, id, f), PutFrame(s.pool.devs[0], s.writers[id], f);
      && SysInv(t) && t.pool.devs == [r.0] && t.hist == [s.hist[0][open[id] := Extend(s.hist[0][open[id]], f)]]
      && t.writers == s.writers[id := r.1] && r.1.dev == 0 && !r.1.grouped && r.1.rectype == s.writers[id].rectype && t.at == s.at
      && SameSize(s.pool.devs[0], r.0) && DiskAt(r.0, t.hist[0], Appended(o, open[id]))
  {
    hide DiskAt, PutFrame, Load, Accept, SysInv, Extend, WriterAt, Faithful.Fits;
    OnFacts(s, o, open, id);
    FirstAt(s.pool.devs[0], s.hist[0], s.writers[id], open[id], f, o);
    AcceptOn(s, id, f);
    AcceptKeepsInv(s, id, f);
    PutKeepsPlace(s.pool.devs[0], s.writers[id], f);
  }

  /** Closing the segment whose slot came last. */
  lemma FinishStage(s: Sys, o: Order, open: map<nat, nat>, id: nat)
    requires Stage(s, o, open) && id in open && o.slots != [] && o.slots[|o.slots| - 1] == open[id]
    requires open[id] < |s.hist[0]| && s.hist[0][open[id]].frames != []
    ensures Ready(s.pool) && Known(s, id) && Retention.Reached(s.pool.devs[0], s.writers[id])
    ensures var t := Finish(s, id);
      && Stage(t, o, open) && t.writers == s.writers && SameSize(s.pool.devs[0], t.pool.devs[0])
      && t.hist[0] == s.hist[0][open[id] := Faithful.Close(s.hist[0][open[id]], REC_CONTINUOUS)]
  {
    hide DiskAt, Finalize, Load, Finish, SysInv, FindSlot, WriterAt, Retention.Reached;
    StageReady(s, o, open);
    OnFacts(s, o, open, id);
    CloseAt(s.pool.devs[0], s.hist[0], s.writers[id], open[id], o);
    FinishOn(s, id);
    FinishKeepsInv(s, id);
  }

  lemma CloseStage(s: Sys, o: Order, open: map<nat, nat>, id: nat)
    requires Stage(s, o, open) && id in open && o.slots != [] && o.slots[|o.slots| - 1] == open[id]
    requires open[id] < |s.hist[0]| && s.hist[0][open[id]].frames != []
    ensures Ready(s.pool) && Known(s, id) && Retention.Reached(s.pool.devs[0], s.writers[id])
    ensures var t := CloseW(s, id);
      && Stage(t, o, open - {id}) && SameSize(s.pool.devs[0], t.pool.devs[0])
      && t.hist[0] == s.hist[0][open[id] := Faithful.Close(s.hist[0][open[id]], REC_CONTINUOUS)]
  {
    hide DiskAt, Finalize, Load, Finish, SysInv, FindSlot, WriterAt, CloseW, Retention.Reached, Flush, SameSize;
    FinishStage(s, o, open, id);
    ClosingKeepsInv(s, id);
    CloseIs(s, id);
    var t, u := Finish(s, id), CloseW(s, id);
    FlushAt(t.pool.devs[0], t.hist[0], o);
    SizesJoin(s.pool.devs[0], t.pool.devs[0], u.pool.devs[0]);
    forall x | x in open - {id}
      ensures On(u, x, (open - {id})[x])
    {
      assert On(t, x, open[x]);
    }
  }

  lemma SizesJoin(d: Dev, e: Dev, g: Dev)
    requires SameSize(d, e) && SameSize(e, g)
    ensures SameSize(d, g)
  {
  }

  /** Closing a writer of its own disk: that disk is flushed. */
  lemma CloseIs(s: Sys, id: nat)
    requires Ready(s.pool) && Known(s, id) && !s.writers[id].grouped && |s.pool.devs| == 1
    ensures var t, u := Finish(s, id), CloseW(s, id);
      && |t.pool.devs| == 1 && u.pool.devs == [Flush(t.pool.devs[0])] && u.hist == t.hist
      && u.writers == t.writers - {id} && u.at == t.at - {id}
  {
    hide Finalize, Flush, Load;
  }

  // ---- runs ----

  /** The step is allowed, ends a segment only within reach of the search, and leads to a state with
      at most so many writers. */
  ghost predicate Goes(s: Sys, e: Event, t: Sys, writers: nat) {
    && Ready(s.pool) && |s.hist| == |s.pool.devs| && Allowed(s, e) && Retention.InTime(s, e)
    && Step(s, e).sys == t && Retention.AtMost(t, writers)
  }

  lemma AtMostKeys(s: Sys, o: Order, open: map<nat, nat>, writers: nat)
    requires Stage(s, o, open) && forall id :: id in open ==> id < writers
    ensures Retention.AtMost(s, writers)
  {
    hide SysInv, DiskAt;
    forall i | 0 <= i < |s.hist|
      ensures |Retention.WritersOn(s, i)| <= writers
    {
      SubsetSize(Retention.WritersOn(s, i), Below(writers));
    }
  }

  function OpenEvent(id: nat): Event { OpenWriter(id, false, 0, id % 0x1_0000, REC_CONTINUOUS) }

  lemma GoOpen(s: Sys, o: Order, open: map<nat, nat>, id: nat, writers: nat) returns (t: Sys, p: Order)
    requires Stage(s, o, open) && |s.hist[0]| < MAX_STARTS && id !in open && NoneNext(s, open, id)
    requires id < writers && forall x :: x in open ==> x < writers
    ensures Goes(s, OpenEvent(id), t, writers) && Stage(t, p, open[id := |s.hist[0]|]) && p.slots == o.slots
    ensures SameSize(s.pool.devs[0], t.pool.devs[0])
    ensures |t.hist[0]| == |s.hist[0]| + 1 && t.hist[0][..|s.hist[0]|] == s.hist[0] && t.hist[0][|s.hist[0]|].frames == []
    ensures t.hist[0][|s.hist[0]|].closed == 0
  {
    hide DiskAt, SysInv, Begin, MayBegin, Load, FreshSeg, DataChunks;
    var w := NewWriter(false, 0, id % 0x1_0000, REC_CONTINUOUS);
    BeginStage(s, o, open, id, w);
    t, p := Begin(s, id, w).sys, SlotOrder.Started(o, {}, |s.hist[0]|);
    assert t == Step(s, OpenEvent(id)).sys;
    FreshEmpty(s.pool.devs[0], w);
    AtMostKeys(t, p, open[id := |s.hist[0]|], writers);
  }

  lemma FreshEmpty(d: Dev, w: Wr)
    ensures FreshSeg(d, w).frames == [] && FreshSeg(d, w).closed == 0
  {
  }

  lemma GoFirst(s: Sys, o: Order, open: map<nat, nat>, id: nat, writers: nat) returns (t: Sys, p: Order)
    requires Stage(s, o, open) && id in open && open[id] < |s.hist[0]| && |o.slots| < SlotCount(s.pool.devs[0])
    requires s.hist[0][open[id]].frames == [] && s.hist[0][open[id]].closed == 0
    requires forall x :: x in open ==> x < writers
    ensures Goes(s, Give(id, PICTURE), t, writers) && Stage(t, p, open) && p.slots == o.slots + [open[id]]
    ensures SameSize(s.pool.devs[0], t.pool.devs[0])
    ensures t.hist[0] == s.hist[0][open[id] := s.hist[0][open[id]].(frames := [PICTURE])]
  {
    hide DiskAt, SysInv, Load, Step, Allowed, Retention.Closes;
    FirstStage(s, o, open, id, PICTURE);
    assert [] + [PICTURE] == [PICTURE];
    t, p := Step(s, Give(id, PICTURE)).sys, Appended(o, open[id]);
    AtMostKeys(t, p, open, writers);
  }

  lemma GoClose(s: Sys, o: Order, open: map<nat, nat>, id: nat, writers: nat) returns (t: Sys)
    requires Stage(s, o, open) && id in open && open[id] < |s.hist[0]| && s.hist[0][open[id]].frames != []
    requires o.slots != [] && o.slots[|o.slots| - 1] == open[id]
    requires forall x :: x in open ==> x < writers
    ensures Goes(s, CloseWriter(id), t, writers) && Stage(t, o, open - {id}) && SameSize(s.pool.devs[0], t.pool.devs[0])
    ensures t.hist[0] == s.hist[0][open[id] := Faithful.Close(s.hist[0][open[id]], REC_CONTINUOUS)]
  {
    hide DiskAt, SysInv, Load, CloseW, Retention.Reached;
    CloseStage(s, o, open, id);
    t := CloseW(s, id);
    AtMostKeys(t, o, open - {id}, writers);
  }

  lemma GoRetype(s: Sys, o: Order, open: map<nat, nat>, id: nat, writers: nat) returns (t: Sys, p: Order)
    requires Stage(s, o, open) && id in open && open[id] < |s.hist[0]| < MAX_STARTS && s.hist[0][open[id]].frames != []
    requires o.slots != [] && o.slots[|o.slots| - 1] == open[id] && NoneNext(s, open, id)
    requires forall x :: x in open ==> x < writers
    ensures Goes(s, Retype(id, REC_CONTINUOUS), t, writers) && Stage(t, p, open[id := |s.hist[0]|]) && p.slots == o.slots
    ensures SameSize(s.pool.devs[0], t.pool.devs[0])
    ensures |t.hist[0]| == |s.hist[0]| + 1 && t.hist[0][|s.hist[0]|].frames == [] && t.hist[0][|s.hist[0]|].closed == 0
    ensures t.hist[0][..|s.hist[0]|] == s.hist[0][open[id] := Faithful.Close(s.hist[0][open[id]], REC_CONTINUOUS)]
  {
    hide DiskAt, SysInv, Load, Begin, Finish, MayBegin, Retention.Reached, FreshSeg, SameSize;
    FinishStage(s, o, open, id);
    var m, w := Finish(s, id), s.writers[id].(rectype := REC_CONTINUOUS);
    assert DataChunks(m.pool.devs[0]) == DataChunks(s.pool.devs[0]) by { SizeFacts(s.pool.devs[0], m.pool.devs[0]); }
    hide DataChunks;
    BeginStage(m, o, open, id, w);
    t, p := Begin(m, id, w).sys, SlotOrder.Started(o, {}, |s.hist[0]|);
    assert t == Step(s, Retype(id, REC_CONTINUOUS)).sys;
    SizesJoin(s.pool.devs[0], m.pool.devs[0], t.pool.devs[0]);
    FreshEmpty(m.pool.devs[0], w);
    AtMostKeys(t, p, open[id := |s.hist[0]|], writers);
  }

  lemma SizeFacts(d: Dev, e: Dev)
    requires SameSize(d, e)
    ensures DataChunks(e) == DataChunks(d) && SlotCount(e) == SlotCount(d)
  {
  }

  /** One more step behind a run. */
  lemma {:induction false} RunSnoc(s: Sys, es: seq<Event>, e: Event, t: Sys, writers: nat)
    requires AllowedRun(s, es) && Retention.SharedRun(s, es, writers) && Goes(Run(s, es), e, t, writers)
    ensures AllowedRun(s, es + [e]) && Retention.SharedRun(s, es + [e], writers) && Run(s, es + [e]) == t
    decreases |es|
  {
    hide Step, Allowed, Load, Retention.InTime, Retention.AtMost;
    if es == [] {
      assert ([] + [e])[1..] == [];
    } else {
      assert (es + [e])[1..] == es[1..] + [e];
      RunSnoc(Step(s, es[0]).sys, es[1..], e, t, writers);
    }
  }

  /** The state `s` is what the run `es` from `s0` leads to. */
  ghost predicate Reaches(s0: Sys, es: seq<Event>, s: Sys, writers: nat) {
    AllowedRun(s0, es) && Retention.SharedRun(s0, es, writers) && Run(s0, es) == s
  }

  lemma GoOn(s0: Sys, es: seq<Event>, s: Sys, e: Event, t: Sys, writers: nat)
    requires Reaches(s0, es, s, writers) && Goes(s, e, t, writers)
    ensures Reaches(s0, es + [e], t, writers)
  {
    RunSnoc(s0, es, e, t, writers);
  }

  /** A blank disk of this kind. */
  ghost predicate BlankOverwriting(s: Sys) {
    Blank(s) && |s.pool.devs| == 1 && s.pool.devs[0].sb.hddFull != HDD_STOP && 0 < DataChunks(s.pool.devs[0]) <= SEQ_END
  }

  lemma BlankStage(s: Sys, writers: nat)
    requires BlankOverwriting(s)
    ensures Reaches(s, [], s, writers) && Stage(s, Order([], []), map[]) && s.hist[0] == []
  {
    hide SysInv, SlotAt, GeoOk, RingOk, DataChunks;
    BlankInv(s);
    KnownDisks(s);
    assert BlankDisk(s.pool.devs[0]);
    var d := s.pool.devs[0];
    GeoHasSlots(d);
    ModUnique(0, SlotCount(d), 0, 0);
    assert PosOf(d, 0) == 0;
    assert !Flagged(ZERO_SLOT);
    assert IndexOk(d, [], Order([], []));
  }

  // ---- runs and what is recorded by them ----

  function H(s: Sys): seq<Seg> { if |s.hist| == 1 then s.hist[0] else [] }

  function Chunks(s: Sys): nat { if |s.pool.devs| == 1 then DataChunks(s.pool.devs[0]) else 0 }

  function Slots(s: Sys): nat { if |s.pool.devs| == 1 then SlotCount(s.pool.devs[0]) else 0 }

  /** The run leads from the blank disk to a stage of it with `n` segments. */
  ghost predicate Comes(s0: Sys, es: seq<Event>, s: Sys, o: Order, open: map<nat, nat>, writers: nat) {
    && Reaches(s0, es, s, writers) && Stage(s, o, open) && Chunks(s) == Chunks(s0) && Slots(s) == Slots(s0)
    && forall id :: id in open ==> id < writers
  }

  lemma ComesStart(s0: Sys, writers: nat)
    requires BlankOverwriting(s0)
    ensures Comes(s0, [], s0, Order([], []), map[], writers) && H(s0) == []
  {
    hide Reaches, Stage;
    BlankStage(s0, writers);
  }

  lemma StageOne(s: Sys, o: Order, open: map<nat, nat>)
    requires Stage(s, o, open)
    ensures |s.hist| == |s.pool.devs| == 1
  {
    hide SysInv, DiskAt;
  }

  /** Writer `id` opens; the other open segments are not next on the ring. */
  lemma ComesOpen(s0: Sys, es: seq<Event>, s: Sys, o: Order, open: map<nat, nat>, writers: nat, id: nat) returns (t: Sys, p: Order)
    requires Comes(s0, es, s, o, open, writers) && |H(s)| < MAX_STARTS && id !in open && id < writers
    requires forall x :: x in open ==> |H(s)| < open[x] + Chunks(s0)
    ensures Comes(s0, es + [OpenEvent(id)], t, p, open[id := |H(s)|], writers) && p.slots == o.slots
    ensures |H(t)| == |H(s)| + 1 && H(t)[..|H(s)|] == H(s) && H(t)[|H(s)|].frames == [] && H(t)[|H(s)|].closed == 0
  {
    hide Reaches, Stage, Goes, DataChunks;
    StageOne(s, o, open);
    t, p := GoOpen(s, o, open, id, writers);
    StageOne(t, p, open[id := |s.hist[0]|]);
    GoOn(s0, es, s, OpenEvent(id), t, writers);
  }

  lemma ComesFirst(s0: Sys, es: seq<Event>, s: Sys, o: Order, open: map<nat, nat>, writers: nat, id: nat) returns (t: Sys, p: Order)
    requires Comes(s0, es, s, o, open, writers) && id in open && open[id] < |H(s)| && |o.slots| < Slots(s0)
    requires H(s)[open[id]].frames == [] && H(s)[open[id]].closed == 0
    ensures Comes(s0, es + [Give(id, PICTURE)], t, p, open, writers) && p.slots == o.slots + [open[id]]
    ensures H(t) == H(s)[open[id] := H(s)[open[id]].(frames := [PICTURE])]
  {
    hide Reaches, Stage, Goes, DataChunks;
    StageOne(s, o, open);
    t, p := GoFirst(s, o, open, id, writers);
    StageOne(t, p, open);
    GoOn(s0, es, s, Give(id, PICTURE), t, writers);
  }

  lemma ComesClose(s0: Sys, es: seq<Event>, s: Sys, o: Order, open: map<nat, nat>, writers: nat, id: nat) returns (t: Sys)
    requires Comes(s0, es, s, o, open, writers) && id in open && open[id] < |H(s)| && H(s)[open[id]].frames != []
    requires o.slots != [] && o.slots[|o.slots| - 1] == open[id]
    ensures Comes(s0, es + [CloseWriter(id)], t, o, open - {id}, writers)
    ensures H(t) == H(s)[open[id] := Faithful.Close(H(s)[open[id]], REC_CONTINUOUS)]
  {
    hide Reaches, Stage, Goes, DataChunks;
    StageOne(s, o, open);
    t := GoClose(s, o, open, id, writers);
    StageOne(t, o, open - {id});
    GoOn(s0, es, s, CloseWriter(id), t, writers);
  }

  /** The only writer moves on. */
  lemma ComesOn(s0: Sys, es: seq<Event>, s: Sys, o: Order, writers: nat, id: nat, k: nat) returns (t: Sys, p: Order)
    requires Comes(s0, es, s, o, map[id := k], writers) && k < |H(s)| < MAX_STARTS && H(s)[k].frames != []
    requires o.slots != [] && o.slots[|o.slots| - 1] == k
    ensures Comes(s0, es + [Retype(id, REC_CONTINUOUS)], t, p, map[id := |H(s)|], writers) && p.slots == o.slots
    ensures |H(t)| == |H(s)| + 1 && H(t)[|H(s)|].frames == [] && H(t)[|H(s)|].closed == 0
    ensures H(t)[..|H(s)|] == H(s)[k := Faithful.Close(H(s)[k], REC_CONTINUOUS)]
  {
    hide Reaches, Stage, Goes, DataChunks;
    StageOne(s, o, map[id := k]);
    t, p := GoRetype(s, o, map[id := k], id, writers);
    assert map[id := k][id := |s.hist[0]|] == map[id := |s.hist[0]|];
    StageOne(t, p, map[id := |s.hist[0]|]);
    GoOn(s0, es, s, Retype(id, REC_CONTINUOUS), t, writers);
  }
}
