/** Runs lose nothing while the index has one slot per chunk and one for every further writer on the
    disk: a segment stays in the index, once, from the moment it is closed until its chunk is handed
    out again. */
module Retention {
  import opened Bytes
  import opened RecorderFormat
  import opened StorageDev
  import opened Index
  import opened Recorder
  import opened Faithful
  import opened Group
  import opened Recording
  import opened FiniteSets
  import opened SlotOrder
  import opened IndexRing

  ghost predicate DiskTidy(d: Dev, h: seq<Seg>, open: set<nat>, writers: nat) {
    exists o :: TidyWith(d, h, open, writers, o)
  }

  /** The segments writers have open on disk `i`. */
  function OpenOn(s: Sys, i: nat): set<nat> {
    set id | id in s.writers && id in s.at && s.writers[id].dev == i :: s.at[id]
  }

  function WritersOn(s: Sys, i: nat): set<nat> { set id | id in s.writers && s.writers[id].dev == i }

  ghost predicate DisksTidy(s: Sys, writers: nat) {
    && |s.hist| == |s.pool.devs|
    && forall i :: 0 <= i < |s.hist| ==> DiskTidy(s.pool.devs[i], s.hist[i], OpenOn(s, i), writers)
  }

  ghost predicate OpenBy(s: Sys, id: nat, i: nat, k: nat) {
    id in s.writers && id in s.at && s.writers[id].dev == i && s.at[id] == k
  }

  /** A segment no writer has open is closed with all its frames. */
  ghost predicate Settled(s: Sys) {
    forall i, k :: 0 <= i < |s.hist| && 0 <= k < |s.hist[i]| ==>
      (exists id :: OpenBy(s, id, i, k)) || s.hist[i][k].closed == |s.hist[i][k].frames|
  }

  ghost predicate TidyInv(s: Sys, writers: nat) { SysInv(s) && DisksTidy(s, writers) && Settled(s) }

  /** Each disk has at most so many writers. */
  ghost predicate AtMost(s: Sys, writers: nat) {
    forall i :: 0 <= i < |s.hist| ==> |WritersOn(s, i)| <= writers
  }

  function SegmentsOf(ids: set<nat>, at: map<nat, nat>): set<nat> { set id | id in ids && id in at :: at[id] }

  lemma {:induction false} SegmentsCount(ids: set<nat>, at: map<nat, nat>)
    ensures |SegmentsOf(ids, at)| <= |ids|
    decreases |ids|
  {
    if id :| id in ids {
      SegmentsCount(ids - {id}, at);
      assert SegmentsOf(ids, at) <= SegmentsOf(ids - {id}, at) + if id in at then {at[id]} else {};
      SubsetSize(SegmentsOf(ids, at), SegmentsOf(ids - {id}, at) + if id in at then {at[id]} else {});
    } else {
      assert SegmentsOf(ids, at) == {};
    }
  }

  lemma OpenCount(s: Sys, i: nat)
    ensures |OpenOn(s, i)| <= |WritersOn(s, i)|
  {
    SegmentsCount(WritersOn(s, i), s.at);
    assert OpenOn(s, i) == SegmentsOf(WritersOn(s, i), s.at);
  }

  lemma FewerOpen(d: Dev, h: seq<Seg>, open: set<nat>, open': set<nat>, writers: nat)
    requires DiskTidy(d, h, open, writers) && open' <= open
    ensures DiskTidy(d, h, open', writers)
  {
    hide RoomyIndex, IndexOk, Ordered;
    var o :| TidyWith(d, h, open, writers, o);
    CloseOrdered(|h|, open, open', writers, o);
    assert TidyWith(d, h, open', writers, o);
  }

  /** One disk and its history replaced; on the others nothing is newly open. */
  lemma DisksTidyAfter(s: Sys, t: Sys, i: nat, writers: nat)
    requires DisksTidy(s, writers) && i < |s.hist|
    requires |t.pool.devs| == |s.pool.devs| && t.pool.devs == s.pool.devs[i := t.pool.devs[i]]
    requires |t.hist| == |s.hist| && t.hist == s.hist[i := t.hist[i]]
    requires forall j :: 0 <= j < |s.hist| && j != i ==> OpenOn(t, j) <= OpenOn(s, j)
    requires DiskTidy(t.pool.devs[i], t.hist[i], OpenOn(t, i), writers)
    ensures DisksTidy(t, writers)
  {
    hide DiskTidy, OpenOn;
    forall j | 0 <= j < |t.hist|
      ensures DiskTidy(t.pool.devs[j], t.hist[j], OpenOn(t, j), writers)
    {
      if j != i {
        assert t.pool.devs[j] == s.pool.devs[j] && t.hist[j] == s.hist[j];
        FewerOpen(s.pool.devs[j], s.hist[j], OpenOn(s, j), OpenOn(t, j), writers);
      }
    }
  }

  lemma RoomySame(d: Dev, e: Dev, writers: nat)
    requires SameStatic(d, e) && GeoOk(e) && RoomyIndex(d, writers)
    ensures RoomyIndex(e, writers)
  {
    hide GeoOk, DataChunks, SameStatic;
    StaticFacts(d, e);
  }

  // ---- per disk ----

  lemma StartTidy(d: Dev, h: seq<Seg>, w: Wr, open: set<nat>, open': set<nat>, writers: nat)
    requires DiskInv(d, h) && DiskTidy(d, h, open, writers) && EpochRoom(d) && StartOn(d, w).status.Ok?
    requires open' <= open + {|h|} && |h| in open' && |open'| <= writers
    ensures DiskTidy(StartOn(d, w).dev, h + [FreshSeg(d, w)], open', writers)
  {
    hide GeoOk, RingOk, SegsOk, SlotsOk, IndexOk, IdsOk, SameStatic, EpochRoom, FreshSeg, StartOn, RoomyIndex, Ordered;
    StartKeepsInv(d, h, w);
    var o :| TidyWith(d, h, open, writers, o);
    IndexAfterStart(d, h, w, o, open');
    StartOrdered(|h|, open, open', writers, o);
    RoomySame(d, StartOn(d, w).dev, writers);
    assert TidyWith(StartOn(d, w).dev, h + [FreshSeg(d, w)], open', writers, SlotOrder.Started(o, open', |h|));
  }

  /** The search from the write position gets to the writer's slot, if it has one. */
  ghost predicate Reached(d: Dev, w: Wr) {
    SlotCount(d) > 0 && (w.frameCount > 0 ==> FindSlot(d, w.segId, 1).Found?)
  }

  lemma FinalizeTidy(d: Dev, h: seq<Seg>, w: Wr, k: nat, open: set<nat>, writers: nat)
    requires DiskInv(d, h) && IdsOk(d, h) && DiskTidy(d, h, open, writers) && WriterAt(d, h, w, k) && Reached(d, w)
    ensures DiskTidy(Finalize(d, w), h[k := Faithful.Close(h[k], w.rectype)], open, writers)
  {
    hide GeoOk, RingOk, SegsOk, SlotsOk, IndexOk, IdsOk, SameStatic, RoomyIndex, WriteIndex, FillSlot, Span, PayloadBytes, SlotAt, Ordered, FindSlot;
    var e, h' := Finalize(d, w), h[k := Faithful.Close(h[k], w.rectype)];
    FinalizeKeepsInv(d, h, w, k);
    RoomySame(d, e, writers);
    var o :| TidyWith(d, h, open, writers, o);
    if w.frameCount > 0 {
      TidyPlaced(d, h, open, writers, o);
      IndexAfterClose(d, h, o, w, k);
    } else {
      WriterSeg(d, h, w, k);
      SameStaticRefl(d);
      IndexSame(d, d, h, o, k, Faithful.Close(h[k], w.rectype));
    }
    assert TidyWith(e, h', open, writers, o);
  }

  lemma WriterSeg(d: Dev, h: seq<Seg>, w: Wr, k: nat)
    requires DiskInv(d, h) && WriterAt(d, h, w, k)
    ensures h[k].closed <= |h[k].frames| == w.frameCount
  {
    hide GeoOk, RingOk, SlotsOk, Recorded, Span, PayloadBytes;
  }

  lemma RecordLeavesIndex(d: Dev, h: seq<Seg>, w: Wr, k: nat, f: Frame)
    requires GeoOk(d) && WriterAt(d, h, w, k)
    ensures var e := WriteRecord(d, w, f);
      && SameStatic(d, e) && e.st == d.st && (forall i :: 0 <= i < SlotCount(d) ==> SlotAt(e, i) == SlotAt(d, i))
  {
    hide WriteRecord, SlotAt, GeoOk, Span, PayloadBytes;
    BaseInData(d, k);
    WriteRecordElsewhere(d, w, f, 0, 0);
    forall i | 0 <= i < SlotCount(d)
      ensures SlotAt(WriteRecord(d, w, f), i) == SlotAt(d, i)
    {
      WriteRecordSlots(d, w, f, i);
    }
  }

  lemma PutTidy(d: Dev, h: seq<Seg>, w: Wr, k: nat, f: Frame, open: set<nat>, writers: nat)
    requires DiskInv(d, h) && IdsOk(d, h) && DiskTidy(d, h, open, writers) && WriterAt(d, h, w, k) && k in open
    requires Faithful.Fits(d, w, f)
    ensures DiskTidy(PutFrame(d, w, f).0, h[k := Extend(h[k], f)], open, writers)
  {
    hide GeoOk, RingOk, SegsOk, SlotsOk, IndexOk, IdsOk, SameStatic, RoomyIndex, WriteIndex, FillSlot, Span, PayloadBytes, SlotAt, WriteRecord, Need, Ordered;
    var e, h' := PutFrame(d, w, f).0, h[k := Extend(h[k], f)];
    PutFrameKeepsInv(d, h, w, k, f);
    RoomySame(d, e, writers);
    WriterSeg(d, h, w, k);
    var o :| TidyWith(d, h, open, writers, o);
    if w.frameCount > 0 {
      RecordLeavesIndex(d, h, w, k, f);
      IndexSame(d, e, h, o, k, Extend(h[k], f));
      assert TidyWith(e, h', open, writers, o);
    } else {
      FirstTidy(d, h, w.(startTime := U32(f.wallTime)), k, f, open, writers, o);
      assert TidyWith(e, h', open, writers, Appended(o, k));
    }
  }

  lemma FirstTidy(d: Dev, h: seq<Seg>, w: Wr, k: nat, f: Frame, open: set<nat>, writers: nat, o: Order)
    requires DiskInv(d, h) && IdsOk(d, h) && TidyWith(d, h, open, writers, o) && WriterAt(d, h, w, k) && k in open
    requires w.frameCount == 0 && h[k].closed == 0
    ensures var e, h' := WriteRecord(WriteIndex(d, FillSlot(d, w, false)), w, f), h[k := Extend(h[k], f)];
      SlotCount(e) > 0 && IndexOk(e, h', Appended(o, k)) && Ordered(|h'|, open, writers, Appended(o, k))
  {
    hide GeoOk, RingOk, SegsOk, SlotsOk, IndexOk, IdsOk, RoomyIndex, WriteIndex, FillSlot, Span, PayloadBytes, WriteRecord, Ordered, Placed, RoomForNext;
    TidyPlaced(d, h, open, writers, o);
    WaitsForSlot(d, h, w, k, o);
    TidyRoom(d, h, open, writers, o, k);
    FirstPlaced(d, h, w, k, f, o);
    AppendOrdered(|h|, open, writers, o, k);
  }

  /** The record behind the slot leaves the index as the slot made it. */
  lemma FirstPlaced(d: Dev, h: seq<Seg>, w: Wr, k: nat, f: Frame, o: Order)
    requires DiskInv(d, h) && IdsOk(d, h) && Placed(d, h, o) && RoomForNext(d, h, o) && WriterAt(d, h, w, k)
    requires w.frameCount == 0 && h[k].closed == 0
    ensures var e, h' := WriteRecord(WriteIndex(d, FillSlot(d, w, false)), w, f), h[k := Extend(h[k], f)];
      SlotCount(e) > 0 && IndexOk(e, h', Appended(o, k))
  {
    hide GeoOk, RingOk, SegsOk, SlotsOk, IndexOk, IdsOk, SameStatic, WriteIndex, FillSlot, Span, PayloadBytes, SlotAt, WriteRecord, Need, RoomForNext, Unovertaken, Distinct;
    var s := FillSlot(d, w, false);
    var d1, h' := WriteIndex(d, s), h[k := Extend(h[k], f)];
    WriteIndexStatic(d, s);
    WriterAtSame(d, d1, h, w, k);
    IndexAfterFirst(d, h, o, w, k, f);
    RecordLeavesIndex(d1, h, w, k, f);
    IndexSame(d1, WriteRecord(d1, w, f), h', Appended(o, k), k, h'[k]);
    assert h'[k := h'[k]] == h';
  }

  lemma WaitsForSlot(d: Dev, h: seq<Seg>, w: Wr, k: nat, o: Order)
    requires SlotCount(d) > 0 && IndexOk(d, h, o) && WriterAt(d, h, w, k) && w.frameCount == 0
    ensures k !in o.slots
  {
    hide IndexOk, Span, PayloadBytes;
    IndexFacts(d, h, o);
  }

  lemma FlushTidy(d: Dev, h: seq<Seg>, open: set<nat>, writers: nat)
    requires DiskInv(d, h) && DiskTidy(d, h, open, writers)
    ensures DiskTidy(Flush(d), h, open, writers)
  {
    hide GeoOk, RingOk, SegsOk, SlotsOk, IndexOk, IdsOk, SameStatic, RoomyIndex, SlotAt, WriteTables, EncodeSb, EncodeSt, Ordered;
    var e := Flush(d);
    FlushKeepsDisk(d, h);
    RoomySame(d, e, writers);
    forall i | 0 <= i < SlotCount(d)
      ensures SlotAt(e, i) == SlotAt(d, i)
    {
      FlushSlotAt(d, i);
    }
    var o :| TidyWith(d, h, open, writers, o);
    IndexKept(d, e, h, o);
    assert TidyWith(e, h, open, writers, o);
  }

  lemma IndexKept(d: Dev, e: Dev, h: seq<Seg>, o: Order)
    requires SlotCount(d) > 0 && IndexOk(d, h, o) && SameStatic(d, e) && e.st.indexNext == d.st.indexNext
    requires forall i :: 0 <= i < SlotCount(d) ==> SlotAt(e, i) == SlotAt(d, i)
    ensures SlotCount(e) > 0 && IndexOk(e, h, o)
  {
    hide SlotAt, SameStatic, IndexOk;
    if h != [] {
      IndexSame(d, e, h, o, 0, h[0]);
      assert h[0 := h[0]] == h;
    } else {
      StaticFacts(d, e);
      EmptyIndex(d, e, o);
    }
  }

  lemma EmptyIndex(d: Dev, e: Dev, o: Order)
    requires SlotCount(d) > 0 && IndexOk(d, [], o) && SlotCount(e) == SlotCount(d) && e.st.indexNext == d.st.indexNext
    requires forall i :: 0 <= i < SlotCount(d) ==> SlotAt(e, i) == SlotAt(d, i)
    ensures IndexOk(e, [], o)
  {
    hide SlotAt;
  }

  // ---- per step ----

  /** What one writer's step leaves open on disk `i`, and with whom. */
  ghost predicate OthersKeep(s: Sys, t: Sys, id: nat) {
    forall x :: x != id && x in s.writers && x in s.at ==>
      x in t.writers && x in t.at && t.writers[x].dev == s.writers[x].dev && t.at[x] == s.at[x]
  }

  /** Everything not touched by writer `id` stays settled. */
  lemma SettledAfter(s: Sys, t: Sys, id: nat)
    requires Settled(s) && |t.hist| == |s.hist| && OthersKeep(s, t, id)
    requires id in s.writers && id in s.at ==>
      OpenBy(t, id, s.writers[id].dev, s.at[id]) ||
      (s.writers[id].dev < |t.hist| && s.at[id] < |t.hist[s.writers[id].dev]| ==>
        t.hist[s.writers[id].dev][s.at[id]].closed == |t.hist[s.writers[id].dev][s.at[id]].frames|)
    requires forall j, k :: 0 <= j < |t.hist| && 0 <= k < |t.hist[j]| && !OpenBy(t, id, j, k) ==>
      k < |s.hist[j]| && (t.hist[j][k] == s.hist[j][k] || t.hist[j][k].closed == |t.hist[j][k].frames|)
    ensures Settled(t)
  {
    forall j, k | 0 <= j < |t.hist| && 0 <= k < |t.hist[j]|
      ensures (exists x :: OpenBy(t, x, j, k)) || t.hist[j][k].closed == |t.hist[j][k].frames|
    {
      if !OpenBy(t, id, j, k) {
        if x :| OpenBy(s, x, j, k) {
          if x != id {
            assert OpenBy(t, x, j, k);
          }
        }
      }
    }
  }

  /** Only the disk of the new segment gets something newly open, and only that segment. */
  lemma BeginOpens(s: Sys, t: Sys, id: nat, i: nat, n: nat)
    requires id in t.writers && t.writers == s.writers[id := t.writers[id]] && t.writers[id].dev == i
    requires t.at == s.at[id := n]
    ensures n in OpenOn(t, i) && OpenOn(t, i) <= OpenOn(s, i) + {n}
    ensures forall j: nat :: j != i ==> OpenOn(t, j) <= OpenOn(s, j)
  {
    assert OpenBy(t, id, i, n);
  }

  /** A start by writer `id`, whose previous segment on record, if any, is closed. */
  lemma BeginTidy(s: Sys, id: nat, w: Wr, writers: nat)
    requires TidyInv(s, writers)
    requires Ready(s.pool) && w.dev < |s.pool.devs| && MayBegin(s, id, w) && Begin(s, id, w).status.Ok?
    requires id in s.writers ==> Known(s, id) && SegOf(s, id).closed == |SegOf(s, id).frames|
    requires AtMost(Begin(s, id, w).sys, writers)
    ensures TidyInv(Begin(s, id, w).sys, writers)
  {
    hide SysInv, StartOn, Pick, Load, Begin, Target, EpochRoom, DiskInv, DiskTidy, FreshSeg, WriterOk, IdsOk, OpenOn, WritersOn, Settled, MayBegin;
    KnownDisks(s);
    BeginOn(s, id, w);
    BeginKeepsInv(s, id, w);
    var i, t := Target(s.pool, w), Begin(s, id, w).sys;
    assert DiskInv(s.pool.devs[i], s.hist[i]);
    OpenCount(t, i);
    BeginOpens(s, t, id, i, |s.hist[i]|);
    MayBeginRoom(s, id, w);
    StartTidy(s.pool.devs[i], s.hist[i], w.(dev := i), OpenOn(s, i), OpenOn(t, i), writers);
    DisksTidyAfter(s, t, i, writers);
    BeginSettled(s, id, w);
  }

  lemma MayBeginRoom(s: Sys, id: nat, w: Wr)
    requires Ready(s.pool) && w.dev < |s.pool.devs| && MayBegin(s, id, w)
    ensures EpochRoom(s.pool.devs[Target(s.pool, w)])
  {
    hide Pick, Load, EpochRoom, Alloc;
  }

  lemma BeginSettled(s: Sys, id: nat, w: Wr)
    requires DisksOk(s) && WritersOk(s) && Settled(s) && Ready(s.pool) && w.dev < |s.pool.devs| && Begin(s, id, w).status.Ok?
    requires id in s.writers ==> Known(s, id) && SegOf(s, id).closed == |SegOf(s, id).frames|
    ensures Settled(Begin(s, id, w).sys)
  {
    hide StartOn, Pick, Load, Begin, Target, DiskInv, FreshSeg, WriterOk, IdsOk, Settled;
    BeginOn(s, id, w);
    SettledAfter(s, Begin(s, id, w).sys, id);
  }

  lemma SameOpen(s: Sys, t: Sys, id: nat)
    requires id in s.writers && id in t.writers && t.writers == s.writers[id := t.writers[id]]
    requires t.writers[id].dev == s.writers[id].dev && t.at == s.at
    ensures forall i: nat :: OpenOn(t, i) == OpenOn(s, i)
  {
  }

  lemma FinishTidy(s: Sys, id: nat, writers: nat)
    requires TidyInv(s, writers) && Ready(s.pool) && id in s.writers && Known(s, id)
    requires Reached(s.pool.devs[s.writers[id].dev], s.writers[id])
    ensures TidyInv(Finish(s, id), writers) && Known(Finish(s, id), id)
    ensures SegOf(Finish(s, id), id).closed == |SegOf(Finish(s, id), id).frames|
  {
    hide SysInv, Finalize, Load, Finish, DiskInv, DiskTidy, WriterAt, IdsOk, OpenOn, Settled, Reached;
    KnownDisks(s);
    assert WriterOk(s, id);
    FinishOn(s, id);
    FinishKeepsInv(s, id);
    var i, t := s.writers[id].dev, Finish(s, id);
    var d, h := s.pool.devs[i], s.hist[i];
    assert DiskInv(d, h) && IdsOk(d, h);
    assert DiskTidy(d, h, OpenOn(s, i), writers);
    assert s.writers[id := s.writers[id]] == s.writers;
    SameOpen(s, t, id);
    FinalizeTidy(d, h, s.writers[id], s.at[id], OpenOn(s, i), writers);
    DisksTidyAfter(s, t, i, writers);
    FinishSettled(s, id);
  }

  lemma FinishSettled(s: Sys, id: nat)
    requires Settled(s) && Ready(s.pool) && Known(s, id)
    ensures Settled(Finish(s, id))
  {
    hide Finalize, Load, Finish, Settled;
    FinishOn(s, id);
    SettledAfter(s, Finish(s, id), id);
  }

  lemma AcceptTidy(s: Sys, id: nat, f: Frame, writers: nat)
    requires TidyInv(s, writers) && id in s.writers && Known(s, id) && Indexed(s, id)
    requires Faithful.Fits(s.pool.devs[s.writers[id].dev], s.writers[id], f)
    ensures TidyInv(Accept(s, id, f), writers)
  {
    hide SysInv, PutFrame, Load, Accept, DiskInv, DiskTidy, WriterAt, Faithful.Fits, IdsOk, Extend, OpenOn, Settled;
    KnownDisks(s);
    assert WriterOk(s, id);
    AcceptOn(s, id, f);
    AcceptKeepsInv(s, id, f);
    var i, t := s.writers[id].dev, Accept(s, id, f);
    var d, h := s.pool.devs[i], s.hist[i];
    PutKeepsPlace(d, s.writers[id], f);
    assert DiskInv(d, h) && IdsOk(d, h);
    assert DiskTidy(d, h, OpenOn(s, i), writers);
    SameOpen(s, t, id);
    OwnIsOpen(s, id);
    PutTidy(d, h, s.writers[id], s.at[id], f, OpenOn(s, i), writers);
    DisksTidyAfter(s, t, i, writers);
    AcceptSettled(s, id, f);
  }

  lemma OwnIsOpen(s: Sys, id: nat)
    requires Known(s, id)
    ensures s.at[id] in OpenOn(s, s.writers[id].dev)
  {
  }

  lemma AcceptSettled(s: Sys, id: nat, f: Frame)
    requires Settled(s) && Known(s, id) && Indexed(s, id)
    ensures Settled(Accept(s, id, f))
  {
    hide PutFrame, Load, Accept, Extend, Settled;
    AcceptOn(s, id, f);
    PutKeepsPlace(s.pool.devs[s.writers[id].dev], s.writers[id], f);
    SettledAfter(s, Accept(s, id, f), id);
  }

  lemma CloseTidy(s: Sys, id: nat, writers: nat)
    requires TidyInv(s, writers) && Ready(s.pool) && id in s.writers && Known(s, id)
    requires Reached(s.pool.devs[s.writers[id].dev], s.writers[id])
    ensures TidyInv(CloseW(s, id), writers)
  {
    hide SysInv, Finalize, Load, Finish, DiskInv, DiskTidy, WriterAt, Flush, Group.Close, CloseW, OpenOn, Settled, Reached;
    FinishTidy(s, id, writers);
    ClosingKeepsInv(s, id);
    var t, u := Finish(s, id), CloseW(s, id);
    FinishOn(s, id);
    KnownDisks(t);
    ClosePool(s, id);
    forall i | 0 <= i < |u.hist|
      ensures DiskTidy(u.pool.devs[i], u.hist[i], OpenOn(u, i), writers)
    {
      assert DiskInv(t.pool.devs[i], t.hist[i]);
      assert DiskTidy(t.pool.devs[i], t.hist[i], OpenOn(t, i), writers);
      FewerOpen(t.pool.devs[i], t.hist[i], OpenOn(t, i), OpenOn(u, i), writers);
      FlushTidy(t.pool.devs[i], t.hist[i], OpenOn(u, i), writers);
    }
    LeaveSettled(t, u, id);
  }

  lemma LeaveSettled(t: Sys, u: Sys, id: nat)
    requires Settled(t) && Known(t, id) && SegOf(t, id).closed == |SegOf(t, id).frames| && u.hist == t.hist
    requires (forall x :: x in u.writers <==> x in t.writers && x != id) && (forall x :: x in u.at <==> x in t.at && x != id)
    requires (forall x :: x in u.writers ==> u.writers[x] == t.writers[x]) && (forall x :: x in u.at ==> u.at[x] == t.at[x])
    ensures Settled(u)
  {
    hide Settled;
    SettledAfter(t, u, id);
  }

  lemma ClosePool(s: Sys, id: nat)
    requires Ready(s.pool) && Known(s, id)
    ensures var t, u := Finish(s, id), CloseW(s, id);
      && |u.pool.devs| == |t.pool.devs| && u.hist == t.hist
      && (forall x :: x in u.writers <==> x in t.writers && x != id)
      && (forall x :: x in u.at <==> x in t.at && x != id)
      && (forall x :: x in u.writers ==> u.writers[x] == t.writers[x])
      && (forall x :: x in u.at ==> u.at[x] == t.at[x])
      && (forall i: nat :: OpenOn(u, i) <= OpenOn(t, i))
      && forall i :: 0 <= i < |t.pool.devs| ==> u.pool.devs[i] == t.pool.devs[i] || u.pool.devs[i] == Flush(t.pool.devs[i])
  {
    hide Finalize, Flush, Load;
  }

  lemma RetypedTidy(s: Sys, id: nat, w: Wr, writers: nat)
    requires TidyInv(s, writers) && id in s.writers && w == s.writers[id].(rectype := w.rectype)
    ensures TidyInv(s.(writers := s.writers[id := w]), writers)
  {
    hide DiskInv, DiskTidy, WriterAt, SysInv, OpenOn;
    RetypedOk(s, id, w);
    var t := s.(writers := s.writers[id := w]);
    SameOpen(s, t, id);
    forall j, k | 0 <= j < |t.hist| && 0 <= k < |t.hist[j]|
      ensures (exists x :: OpenBy(t, x, j, k)) || t.hist[j][k].closed == |t.hist[j][k].frames|
    {
      if x :| OpenBy(s, x, j, k) {
        assert OpenBy(t, x, j, k);
      }
    }
  }

  lemma TurnTidy(s: Sys, p: Pool, writers: nat)
    requires TidyInv(s, writers) && p.devs == s.pool.devs
    ensures TidyInv(s.(pool := p), writers)
  {
    hide DiskTidy, SysInv;
    var t := s.(pool := p);
    TurnKept(s, p);
    assert forall i :: 0 <= i < |s.hist| ==> OpenOn(t, i) == OpenOn(s, i);
    forall i, k | 0 <= i < |t.hist| && 0 <= k < |t.hist[i]|
      ensures (exists id :: OpenBy(t, id, i, k)) || t.hist[i][k].closed == |t.hist[i][k].frames|
    {
      if id :| OpenBy(s, id, i, k) {
        assert OpenBy(t, id, i, k);
      }
    }
  }

  /** A writer whose segment is closed tries to start the next one. */
  lemma ContinueTidy(s: Sys, id: nat, w: Wr, writers: nat)
    requires TidyInv(s, writers) && Ready(s.pool) && id in s.writers && w == s.writers[id].(rectype := w.rectype)
    requires Known(s, id) && SegOf(s, id).closed == |SegOf(s, id).frames|
    requires MayBegin(s, id, w) && AtMost(Begin(s, id, w).sys, writers)
    ensures TidyInv(Begin(s, id, w).sys, writers)
  {
    hide SysInv, Begin, MayBegin, Load, DisksTidy, Settled, AtMost, SegOf, Target;
    KnownDisks(s);
    if Begin(s, id, w).status.Ok? {
      BeginTidy(s, id, w, writers);
    } else {
      FailedBegin(s, id, w);
      RetypedTidy(s, id, w, writers);
      TurnTidy(s.(writers := s.writers[id := w]), Begin(s, id, w).sys.pool, writers);
    }
  }

  lemma AcceptWriters(s: Sys, id: nat, f: Frame, writers: nat)
    requires Known(s, id) && Indexed(s, id)
    ensures AtMost(s, writers) <==> AtMost(Accept(s, id, f), writers)
  {
    hide PutFrame, Load;
    AcceptOn(s, id, f);
    PutKeepsPlace(s.pool.devs[s.writers[id].dev], s.writers[id], f);
    var t := Accept(s, id, f);
    forall i | 0 <= i < |s.hist|
      ensures WritersOn(t, i) == WritersOn(s, i)
    {
    }
  }

  lemma GiveTidy(s: Sys, id: nat, f: Frame, writers: nat)
    requires TidyInv(s, writers) && Ready(s.pool) && Known(s, id) && id in s.writers && Allowed(s, Give(id, f))
    requires Closes(s, Give(id, f)) ==> Reached(s.pool.devs[s.writers[id].dev], s.writers[id])
    requires AtMost(GiveFrame(s, id, f).sys, writers)
    ensures TidyInv(GiveFrame(s, id, f).sys, writers)
  {
    hide SysInv, Begin, Finish, Accept, MayBegin, Load, MustRotate, Refusal, DiskInv, DisksTidy, Settled, AtMost, SegOf, Reached;
    KnownDisks(s);
    var w := s.writers[id];
    var d := s.pool.devs[w.dev];
    assert WriterOk(s, id);
    assert DiskInv(d, s.hist[w.dev]);
    if Refusal(d, f).Ok? {
      if MustRotate(d, w, f) {
        FinishTidy(s, id, writers);
        FinishReady(s, id);
        var o := Begin(Finish(s, id), id, w);
        if o.status.Ok? {
          AcceptWriters(o.sys, id, f, writers);
        }
        ContinueTidy(Finish(s, id), id, w, writers);
        if o.status.Ok? {
          FreshFits(s, id, f);
          AcceptTidy(o.sys, id, f, writers);
        }
      } else {
        DiskSeg(d, s.hist[w.dev], w, s.at[id]);
        FitsHere(d, s.hist[w.dev], w, s.at[id], f);
        AcceptTidy(s, id, f, writers);
      }
    }
  }

  /** The event ends the segment of its writer. */
  predicate Closes(s: Sys, e: Event) {
    match e
    case OpenWriter(_, _, _, _, _) => false
    case Give(id, f) =>
      Known(s, id) && Rotates(s, id, f)
    case Retype(id, _) => Known(s, id)
    case CloseWriter(id) => Known(s, id)
  }

  /** When the event ends a segment, the search gets to the segment's slot. */
  ghost predicate InTime(s: Sys, e: Event) {
    Closes(s, e) ==> Reached(s.pool.devs[s.writers[e.id].dev], s.writers[e.id])
  }

  lemma StepTidy(s: Sys, e: Event, writers: nat)
    requires TidyInv(s, writers) && Ready(s.pool) && Allowed(s, e) && InTime(s, e) && AtMost(Step(s, e).sys, writers)
    ensures TidyInv(Step(s, e).sys, writers)
  {
    hide SysInv, Begin, Finish, Accept, CloseW, MayBegin, Load, GiveFrame, DisksTidy, Settled, AtMost, SegOf, Reached, Refusal, MustRotate;
    if Sensible(s, e) {
      KnownDisks(s);
      match e
      case OpenWriter(id, grouped, dev, chn, rectype) =>
        var w := NewWriter(grouped, dev, chn, rectype);
        OpenKeepsInv(s, id, w);
        if Begin(s, id, w).status.Ok? {
          BeginTidy(s, id, w, writers);
        } else {
          TurnTidy(s, Begin(s, id, w).sys.pool, writers);
        }
      case Give(id, f) =>
        GiveTidy(s, id, f, writers);
      case Retype(id, rectype) =>
        FinishTidy(s, id, writers);
        FinishReady(s, id);
        ContinueTidy(Finish(s, id), id, s.writers[id].(rectype := rectype), writers);
      case CloseWriter(id) =>
        CloseTidy(s, id, writers);
    }
  }

  // ---- runs ----

  /** Every state of the run has at most so many writers on each disk, and every segment is closed while
      its slot is in reach. */
  ghost predicate SharedRun(s: Sys, es: seq<Event>, writers: nat)
    requires AllowedRun(s, es)
    decreases |es|
  {
    es == [] || (InTime(s, es[0]) && AtMost(Step(s, es[0]).sys, writers) && SharedRun(Step(s, es[0]).sys, es[1..], writers))
  }

  lemma {:induction false} RunTidy(s: Sys, es: seq<Event>, writers: nat)
    requires TidyInv(s, writers) && AllowedRun(s, es) && SharedRun(s, es, writers)
    ensures TidyInv(Run(s, es), writers)
    decreases |es|
  {
    hide TidyInv, Step, Allowed, AtMost, InTime;
    if es != [] {
      StepTidy(s, es[0], writers);
      RunTidy(Step(s, es[0]).sys, es[1..], writers);
    }
  }

  /** Disks with one index slot per chunk and one for every further writer, and at most 2^24 chunks. */
  ghost predicate Roomy(s: Sys, writers: nat) {
    forall i :: 0 <= i < |s.pool.devs| ==> RoomyIndex(s.pool.devs[i], writers)
  }

  lemma BlankTidy(s: Sys, writers: nat)
    requires Blank(s) && Roomy(s, writers)
    ensures TidyInv(s, writers)
  {
    hide SlotAt, SysInv, GeoOk, DataChunks, RoomyIndex;
    BlankInv(s);
    forall i | 0 <= i < |s.hist|
      ensures DiskTidy(s.pool.devs[i], s.hist[i], OpenOn(s, i), writers)
    {
      assert BlankDisk(s.pool.devs[i]) && RoomyIndex(s.pool.devs[i], writers);
      BlankDiskTidy(s.pool.devs[i], writers);
      assert OpenOn(s, i) == {};
    }
  }

  lemma BlankDiskTidy(d: Dev, writers: nat)
    requires BlankDisk(d) && RoomyIndex(d, writers)
    ensures DiskTidy(d, [], {}, writers)
  {
    hide SlotAt, DataChunks, GeoOk, RingOk, RoomyIndex;
    GeoHasSlots(d);
    ModUnique(0, SlotCount(d), 0, 0);
    assert PosOf(d, 0) == 0;
    assert !Flagged(ZERO_SLOT);
    assert TidyWith(d, [], {}, writers, Order([], []));
  }

  /** Slot `p` is valid, describes the whole segment under the type it was last closed with, and is the only
      one that describes it. */
  ghost predicate OnlySlot(d: Dev, seg: Seg, k: nat, p: nat) {
    && p < SlotCount(d) && Describes(d, SlotAt(d, p), k, seg) && SlotAt(d, p).frameCount == |seg.frames| && SlotAt(d, p).rectype == seg.rectype
    && forall p' :: 0 <= p' < SlotCount(d) && IsValid(SlotAt(d, p')) && Describes(d, SlotAt(d, p'), k, seg) ==> p' == p
  }

  /** The one slot a settled live segment has: valid, complete, and nobody else's. */
  lemma SettledSlot(d: Dev, h: seq<Seg>, k: nat, open: set<nat>, writers: nat) returns (p: nat)
    requires DiskInv(d, h) && IdsOk(d, h) && DiskTidy(d, h, open, writers) && k < |h| && Live(d, |h|, k)
    requires h[k].frames != [] && h[k].closed == |h[k].frames|
    ensures OnlySlot(d, h[k], k, p)
  {
    hide SlotAt, GeoOk, RingOk, SegsOk, IdsOk, DataChunks, ClosedSlot, IndexOk, Listed, Ordered;
    var o :| TidyWith(d, h, open, writers, o);
    IndexFacts(d, h, o);
    var r := RankOf(h, o, k);
    p := PosOf(d, r);
    SlotOf(d, h, o, r);
    var k' :| 0 <= k' < |h| && Live(d, |h|, k') && Describes(d, SlotAt(d, p), k', h[k']);
    DescribedId(d, SlotAt(d, p), k', h[k']);
    if k' != k {
      LiveIdsDiffer(d, h, k, k');
    }
    forall i | 0 <= i < SlotCount(d) && IsValid(SlotAt(d, i)) && Describes(d, SlotAt(d, i), k, h[k])
      ensures i == p
    {
      DescribedId(d, SlotAt(d, i), k, h[k]);
      TidyPlaced(d, h, open, writers, o);
      OwnSlot(d, h, o, r, i);
    }
  }

  lemma RankOf(h: seq<Seg>, o: Order, k: nat) returns (r: nat)
    requires Listed(h, o) && k < |h| && h[k].frames != []
    ensures r < |o.slots| && o.slots[r] == k
  {
    r :| 0 <= r < |o.slots| && o.slots[r] == k;
  }

  lemma DescribedMatches(d: Dev, s: Slot, k: nat, seg: Seg)
    requires Describes(d, s, k, seg)
    ensures Matches(d.prims, s, EVERYTHING)
  {
    hide EncodeSlot, Span, PayloadBytes;
    assert s.(crc := 0) == ClosedSlot(d, k, seg, s.frameCount, s.rectype).(crc := 0);
  }

  /** A query for everything returns the segment with all its frames, and by one slot only. */
  ghost predicate Retained(d: Dev, seg: Seg, k: nat, cap: nat) {
    exists p :: OnlySlot(d, seg, k, p) && SlotAt(d, p) in Collect(d, EVERYTHING, 0, cap)
  }

  lemma TidyFinds(s: Sys, writers: nat, i: nat, k: nat, cap: nat)
    requires TidyInv(s, writers)
    requires i < |s.hist| && i < |s.pool.devs| && k < |s.hist[i]| && Live(s.pool.devs[i], |s.hist[i]|, k)
    requires s.hist[i][k].frames != [] && !(exists id :: OpenBy(s, id, i, k))
    requires |Collect(s.pool.devs[i], EVERYTHING, 0, cap)| < cap
    ensures Retained(s.pool.devs[i], s.hist[i][k], k, cap)
  {
    hide SysInv, Collect, SlotAt, Describes, DiskInv, DiskTidy, Matches, Live, IdsOk, OpenOn;
    KnownDisks(s);
    var d, h := s.pool.devs[i], s.hist[i];
    assert DiskInv(d, h) && IdsOk(d, h) && DiskTidy(d, h, OpenOn(s, i), writers);
    var p := SettledSlot(d, h, k, OpenOn(s, i), writers);
    DescribedMatches(d, SlotAt(d, p), k, h[k]);
    CollectSound(d, EVERYTHING, 0, cap);
  }

  /** Segment `k` of disk `i` has frames and still owns its chunk, no writer has it open, and a query
      for everything does not fill up. */
  ghost predicate Asked(s: Sys, i: nat, k: nat, cap: nat) {
    && i < |s.hist| && i < |s.pool.devs| && k < |s.hist[i]| && Live(s.pool.devs[i], |s.hist[i]|, k)
    && s.hist[i][k].frames != [] && !(exists id :: OpenBy(s, id, i, k))
    && |Collect(s.pool.devs[i], EVERYTHING, 0, cap)| < cap
  }

  /** Nothing recorded is lost before its chunk comes round again: in every reachable state, a
      live segment that no writer has open is returned by a query for everything (given room
      for the answer) with all its frames, and by one slot only. */
  lemma LiveSegmentsAreFound(s0: Sys, es: seq<Event>, writers: nat, i: nat, k: nat, cap: nat)
    requires Blank(s0) && Roomy(s0, writers) && AllowedRun(s0, es) && SharedRun(s0, es, writers)
    requires Asked(Run(s0, es), i, k, cap)
    ensures Retained(Run(s0, es).pool.devs[i], Run(s0, es).hist[i][k], k, cap)
  {
    hide TidyInv, Blank, Roomy, Run, Collect, AllowedRun, SharedRun, Live, OpenBy, Retained;
    BlankTidy(s0, writers);
    RunTidy(s0, es, writers);
    TidyFinds(Run(s0, es), writers, i, k, cap);
  }

  // ---- when the search always gets there ----

  ghost predicate CrowdRun(s: Sys, es: seq<Event>, writers: nat)
    requires AllowedRun(s, es)
    decreases |es|
  {
    es == [] || (AtMost(Step(s, es[0]).sys, writers) && CrowdRun(Step(s, es[0]).sys, es[1..], writers))
  }

  lemma WriterSlot(s: Sys, writers: nat, id: nat) returns (o: Order, r: nat)
    requires TidyInv(s, writers) && Known(s, id) && s.writers[id].frameCount > 0
    ensures var i := s.writers[id].dev; var d, h := s.pool.devs[i], s.hist[i];
      && IdsOk(d, h) && TidyWith(d, h, OpenOn(s, i), writers, o) && HasSlot(d, h, o, r) && o.slots[r] == s.at[id] < |h|
      && s.at[id] in OpenOn(s, i) && h[s.at[id]].segId == s.writers[id].segId
  {
    hide SysInv, DiskInv, IdsOk, RoomyIndex, Ordered, IndexOk, Settled, Span, PayloadBytes;
    KnownDisks(s);
    assert WriterOk(s, id);
    var i := s.writers[id].dev;
    var d, h := s.pool.devs[i], s.hist[i];
    assert DiskTidy(d, h, OpenOn(s, i), writers) && IdsOk(d, h);
    o :| TidyWith(d, h, OpenOn(s, i), writers, o);
    IndexFacts(d, h, o);
    r := WriterRank(d, h, o, s.writers[id], s.at[id]);
    OwnIsOpen(s, id);
  }

  lemma TidySlots(s: Sys, writers: nat, id: nat)
    requires TidyInv(s, writers) && Known(s, id)
    ensures SlotCount(s.pool.devs[s.writers[id].dev]) > 0
  {
    hide SysInv, Settled, OpenOn, IndexOk, Ordered;
    assert DiskTidy(s.pool.devs[s.writers[id].dev], s.hist[s.writers[id].dev], OpenOn(s, s.writers[id].dev), writers);
  }

  lemma AloneInTime(s: Sys, e: Event)
    requires TidyInv(s, 1)
    ensures InTime(s, e)
  {
    hide TidyInv, SlotAt, FindSlot, OpenOn, Live, Refusal, MustRotate, IdsOk, TidyWith;
    if Closes(s, e) {
      TidySlots(s, 1, e.id);
      if s.writers[e.id].frameCount > 0 {
        var o, r := WriterSlot(s, 1, e.id);
        var i := s.writers[e.id].dev;
        FoundAtOnce(s.pool.devs[i], s.hist[i], OpenOn(s, i), o, r);
      }
    }
  }

  lemma {:induction false} AloneIsShared(s: Sys, es: seq<Event>)
    requires TidyInv(s, 1) && AllowedRun(s, es) && CrowdRun(s, es, 1)
    ensures SharedRun(s, es, 1)
    decreases |es|
  {
    hide TidyInv, Step, Allowed, AtMost, InTime;
    if es != [] {
      AloneInTime(s, es[0]);
      StepTidy(s, es[0], 1);
      AloneIsShared(Step(s, es[0]).sys, es[1..]);
    }
  }

  /** With one writer at a time on each disk, one slot per chunk is enough. */
  lemma OneWriterLosesNothing(s0: Sys, es: seq<Event>, i: nat, k: nat, cap: nat)
    requires Blank(s0) && Roomy(s0, 1) && AllowedRun(s0, es) && CrowdRun(s0, es, 1)
    requires Asked(Run(s0, es), i, k, cap)
    ensures Retained(Run(s0, es).pool.devs[i], Run(s0, es).hist[i][k], k, cap)
  {
    hide TidyInv, Blank, Roomy, Run, AllowedRun, CrowdRun, Asked, Retained;
    BlankTidy(s0, 1);
    AloneIsShared(s0, es);
    LiveSegmentsAreFound(s0, es, 1, i, k, cap);
  }

  /** The search can get around every ring, and no id has come round to 0. */
  ghost predicate Small(s: Sys, writers: nat) {
    forall i :: 0 <= i < |s.hist| && i < |s.pool.devs| ==>
      DataChunks(s.pool.devs[i]) + writers <= 8193 && |s.hist[i]| < 0x100_0000
  }

  ghost predicate SmallRun(s: Sys, es: seq<Event>, writers: nat)
    requires AllowedRun(s, es)
    decreases |es|
  {
    Small(s, writers) && (es == [] || SmallRun(Step(s, es[0]).sys, es[1..], writers))
  }

  lemma SmallInTime(s: Sys, e: Event, writers: nat)
    requires TidyInv(s, writers) && Small(s, writers)
    ensures InTime(s, e)
  {
    hide TidyInv, SlotAt, FindSlot, OpenOn, Live, Refusal, MustRotate, IdsOk, TidyWith, DataChunks;
    if Closes(s, e) {
      TidySlots(s, writers, e.id);
      if s.writers[e.id].frameCount > 0 {
        var o, r := WriterSlot(s, writers, e.id);
        var i := s.writers[e.id].dev;
        SmallInReach(s.pool.devs[i], s.hist[i], OpenOn(s, i), writers, o, r);
      }
    }
  }

  lemma {:induction false} SmallIsShared(s: Sys, es: seq<Event>, writers: nat)
    requires TidyInv(s, writers) && AllowedRun(s, es) && CrowdRun(s, es, writers) && SmallRun(s, es, writers)
    ensures SharedRun(s, es, writers)
    decreases |es|
  {
    hide TidyInv, Step, Allowed, AtMost, InTime, Small;
    if es != [] {
      SmallInTime(s, es[0], writers);
      StepTidy(s, es[0], writers);
      SmallIsShared(Step(s, es[0]).sys, es[1..], writers);
    }
  }

  /** Several writers lose nothing on rings of up to 8192 chunks and further writers, until 2^24
      segments have been started on a disk. */
  lemma SmallRingsLoseNothing(s0: Sys, es: seq<Event>, writers: nat, i: nat, k: nat, cap: nat)
    requires Blank(s0) && Roomy(s0, writers) && AllowedRun(s0, es) && CrowdRun(s0, es, writers) && SmallRun(s0, es, writers)
    requires Asked(Run(s0, es), i, k, cap)
    ensures Retained(Run(s0, es).pool.devs[i], Run(s0, es).hist[i][k], k, cap)
  {
    hide TidyInv, Blank, Roomy, Run, AllowedRun, CrowdRun, SmallRun, Asked, Retained;
    BlankTidy(s0, writers);
    SmallIsShared(s0, es, writers);
    LiveSegmentsAreFound(s0, es, writers, i, k, cap);
  }
}
