/** Whole runs: any number of writers over a pool of disks, with the history of segments
    kept beside the images, and the theorems about every reachable state. */
module Recording {
  import opened Bytes
  import opened RecorderFormat
  import opened StorageDev
  import opened Index
  import opened Recorder
  import opened Player
  import opened Faithful
  import opened Group
  import opened IndexRing
  import opened Playback
  import Crypto

  /** `hist[i]` lists the segments ever started on disk i; `at[id]` is the number of the
      segment writer `id` has open on its disk. */
  datatype Sys = Sys(pool: Pool, writers: map<nat, Wr>, hist: seq<seq<Seg>>, at: map<nat, nat>)

  datatype Outcome = Outcome(sys: Sys, status: Status)

  // ---- the elementary steps, with their effect on the history ----

  predicate Known(s: Sys, id: nat) {
    id in s.writers && id in s.at && |s.hist| == |s.pool.devs|
    && s.writers[id].dev < |s.hist| && s.at[id] < |s.hist[s.writers[id].dev]|
  }

  /** The writer's disk has an index. */
  predicate Indexed(s: Sys, id: nat)
    requires Known(s, id)
  {
    SlotCount(s.pool.devs[s.writers[id].dev]) > 0
  }

  function UpdateSeg(s: Sys, id: nat, seg: Seg): Sys
    requires Known(s, id)
  {
    var i := s.writers[id].dev;
    s.(hist := s.hist[i := s.hist[i][s.at[id] := seg]])
  }

  function SegOf(s: Sys, id: nat): Seg
    requires Known(s, id)
  {
    s.hist[s.writers[id].dev][s.at[id]]
  }

  /** Writer `id`, with fields `w`, starts a segment; on success it joins the history. */
  function Begin(s: Sys, id: nat, w: Wr): (o: Outcome)
    requires Ready(s.pool) && w.dev < |s.pool.devs| == |s.hist|
    ensures o.status.Ok? ==> Known(o.sys, id) && Indexed(o.sys, id)
  {
    hide StartOn, Pick, Load, FreshSeg;
    var r := StartSeg(s.pool, w);
    var i := r.wr.dev;
    var t := s.(pool := r.pool, writers := s.writers[id := r.wr]);
    if r.status.Fail? then Outcome(t, r.status)
    else Outcome(t.(hist := t.hist[i := t.hist[i] + [FreshSeg(s.pool.devs[i], w)]], at := t.at[id := |s.hist[i]|]), Ok)
  }

  function Finish(s: Sys, id: nat): Sys
    requires Ready(s.pool) && Known(s, id)
  {
    UpdateSeg(s, id, Faithful.Close(SegOf(s, id), s.writers[id].rectype)).(pool := FinalizeSeg(s.pool, s.writers[id]))
  }

  function Accept(s: Sys, id: nat, f: Frame): Sys
    requires Known(s, id) && Indexed(s, id)
  {
    var r := PutOn(s.pool, s.writers[id], f);
    UpdateSeg(s, id, Extend(SegOf(s, id), f)).(pool := r.pool, writers := s.writers[id := r.wr])
  }

  // ---- the invariant ----

  ghost predicate DisksOk(s: Sys) {
    && s.pool.devs != [] && |s.hist| == |s.pool.devs|
    && forall i :: 0 <= i < |s.hist| ==> DiskInv(s.pool.devs[i], s.hist[i]) && IdsOk(s.pool.devs[i], s.hist[i])
  }

  ghost predicate WriterOk(s: Sys, id: nat) {
    && Known(s, id)
    && WriterAt(s.pool.devs[s.writers[id].dev], s.hist[s.writers[id].dev], s.writers[id], s.at[id])
  }

  ghost predicate WritersOk(s: Sys) {
    && s.writers.Keys == s.at.Keys
    && forall id :: id in s.writers ==> WriterOk(s, id)
  }

  /** No two writers share a segment. */
  ghost predicate Separate(s: Sys) {
    forall a, b :: a in s.writers && b in s.writers && a in s.at && b in s.at && a != b ==>
      s.writers[a].dev != s.writers[b].dev || s.at[a] != s.at[b]
  }

  ghost predicate SysInv(s: Sys) { DisksOk(s) && WritersOk(s) && Separate(s) }

  // ---- what a run may do ----

  /** The disk on which writer `w` would start its next segment. */
  function Target(p: Pool, w: Wr): (i: nat)
    requires Ready(p) && w.dev < |p.devs|
    ensures i < |p.devs|
  {
    if w.grouped then Pick(p) else w.dev
  }

  /** The ring of disk `i` is not about to hand out a chunk that a writer other than `id`
      still has open. */
  ghost predicate NotLapping(s: Sys, i: nat, id: nat)
    requires i < |s.pool.devs|
  {
    forall other :: other in s.writers && other != id && s.writers[other].dev == i ==>
      s.pool.devs[i].sb.writePtrChunk != s.writers[other].chunk || Alloc(s.pool.devs[i]).1.NoRoom?
  }

  /** A start that respects the recorder's edges: no open segment is lapped, a group writer with a
      segment is not refused on another disk, and the lap counter has room. */
  ghost predicate MayBegin(s: Sys, id: nat, w: Wr)
    requires Ready(s.pool) && w.dev < |s.pool.devs|
  {
    var i := Target(s.pool, w);
    && EpochRoom(s.pool.devs[i]) && NotLapping(s, i, id)
    && (id in s.writers && i != w.dev ==> Alloc(s.pool.devs[i]).1.Chunk?)
  }

  /** The frame fits a chunk of the disk on which writer `w` would start its next segment. */
  ghost predicate FitsNext(p: Pool, w: Wr, f: Frame)
    requires Ready(p) && w.dev < |p.devs|
  {
    HDR_SIZE + |f.data| <= ChunkBytes(p.devs[Target(p, w)])
  }

  // ---- consequences for the pool ----

  lemma RingLoad(d: Dev, n: nat)
    requires RingOk(d, n)
    ensures Load(d) <= 2.0
  {
    if DataChunks(d) > 0 {
      var m := DataChunks(d);
      assert d.sb.writePtrChunk <= m;
      RatioAtMostOne(d.sb.writePtrChunk, m);
    }
  }

  lemma RatioAtMostOne(a: nat, b: nat)
    requires a <= b && b > 0
    ensures a as real / b as real <= 1.0
  {
    var x, y := a as real, b as real;
    var q := x / y;
    assert q * y == x;
    assert (q - 1.0) * y == x - y;
  }

  /** For a live segment, its chunk being next on the ring means it is the one to be lapped. */
  lemma LappedIffNext(d: Dev, n: nat, k: nat)
    requires RingOk(d, n) && Live(d, n, k) && Alloc(d).1.Chunk? && EpochRoom(d)
    ensures d.sb.writePtrChunk == ChunkNo(d, k) <==> n == k + DataChunks(d)
  {
    hide ChunkOff;
    var m := DataChunks(d);
    AllocNth(d, n);
    ModSame(k, m);
    if n != k + m {
      ModDiffers(n, k, m);
    }
  }

  // ---- every step keeps the invariant ----

  /** Replacing one disk and its history: the other disks are as they were. */
  lemma DisksAfter(s: Sys, t: Sys, i: nat)
    requires DisksOk(s) && i < |s.hist|
    requires |t.pool.devs| == |s.pool.devs| && t.pool.devs == s.pool.devs[i := t.pool.devs[i]]
    requires |t.hist| == |s.hist| && t.hist == s.hist[i := t.hist[i]]
    requires DiskInv(t.pool.devs[i], t.hist[i]) && IdsOk(t.pool.devs[i], t.hist[i])
    ensures DisksOk(t)
  {
    hide DiskInv, IdsOk;
    forall j | 0 <= j < |t.hist|
      ensures DiskInv(t.pool.devs[j], t.hist[j]) && IdsOk(t.pool.devs[j], t.hist[j])
    {
      if j != i {
        assert t.pool.devs[j] == s.pool.devs[j] && t.hist[j] == s.hist[j];
      }
    }
  }

  /** What `Begin` does on the target disk. */
  lemma BeginOn(s: Sys, id: nat, w: Wr)
    requires DisksOk(s) && Ready(s.pool) && w.dev < |s.pool.devs|
    ensures var i := Target(s.pool, w); var r := StartOn(s.pool.devs[i], w.(dev := i)); var t := Begin(s, id, w);
      && t.status == r.status && t.sys.pool.devs == s.pool.devs[i := r.dev]
      && t.sys.writers == s.writers[id := r.wr] && r.wr.dev == i
      && (t.status.Ok? ==> t.sys.hist == s.hist[i := s.hist[i] + [FreshSeg(s.pool.devs[i], w.(dev := i))]]
                           && t.sys.at == s.at[id := |s.hist[i]|])
      && (t.status.Fail? ==> t.sys.hist == s.hist && t.sys.at == s.at)
  {
    hide StartOn, Pick, Load, DiskInv;
  }

  lemma OtherWritersAfterBegin(s: Sys, id: nat, w: Wr, other: nat)
    requires DisksOk(s) && Ready(s.pool) && w.dev < |s.pool.devs| && MayBegin(s, id, w)
    requires Begin(s, id, w).status.Ok?
    requires other != id && other in s.writers && WriterOk(s, other)
    ensures WriterOk(Begin(s, id, w).sys, other)
    ensures s.writers[other].dev == Target(s.pool, w) ==> s.at[other] < |s.hist[Target(s.pool, w)]|
  {
    hide StartOn, Pick, Load, Begin, FreshSeg, SameStatic, Target, WriterAt, EpochRoom, Alloc, DataChunks, IdsOk;
    BeginOn(s, id, w);
    var i, t := Target(s.pool, w), Begin(s, id, w).sys;
    var d, h, w', k' := s.pool.devs[i], s.hist[i], s.writers[other], s.at[other];
    assert DiskInv(d, h);
    StartKeepsInv(d, h, w.(dev := i));
    AllocNth(d, |h|);
    if w'.dev == i {
      WriterIsLive(d, h, w', k');
      WriterChunk(d, h, w', k');
      LappedIffNext(d, |h|, k');
      OtherWriterAfterStart(d, h, w.(dev := i), w', k');
    }
  }

  lemma WriterChunk(d: Dev, h: seq<Seg>, w: Wr, k: nat)
    requires WriterAt(d, h, w, k)
    ensures w.chunk == ChunkNo(d, k)
  {
  }

  lemma BeginOwnWriter(s: Sys, id: nat, w: Wr)
    requires DisksOk(s) && Ready(s.pool) && w.dev < |s.pool.devs| && MayBegin(s, id, w)
    requires Begin(s, id, w).status.Ok?
    ensures WriterOk(Begin(s, id, w).sys, id) && DisksOk(Begin(s, id, w).sys)
  {
    hide StartOn, Pick, Load, Begin, SameStatic, Target, WriterAt, EpochRoom, Alloc, DiskInv, FreshSeg, IdsOk;
    BeginOn(s, id, w);
    var i, t := Target(s.pool, w), Begin(s, id, w).sys;
    var d, h := s.pool.devs[i], s.hist[i];
    assert DiskInv(d, h) && IdsOk(d, h);
    StartKeepsInv(d, h, w.(dev := i));
    IdsAfterStartOn(d, h, w.(dev := i));
    DisksAfter(s, t, i);
  }

  /** A start that succeeds keeps the invariant, whether the writer is new or moves on. */
  lemma BeginKeepsInv(s: Sys, id: nat, w: Wr)
    requires SysInv(s) && Ready(s.pool) && w.dev < |s.pool.devs| && MayBegin(s, id, w)
    requires Begin(s, id, w).status.Ok?
    ensures SysInv(Begin(s, id, w).sys)
  {
    hide StartOn, Pick, Load, Begin, SameStatic, Target, WriterAt, EpochRoom, Alloc, DiskInv, FreshSeg, WriterOk;
    BeginOn(s, id, w);
    var i, t := Target(s.pool, w), Begin(s, id, w).sys;
    BeginOwnWriter(s, id, w);
    forall other | other in t.writers
      ensures WriterOk(t, other)
      ensures other != id && s.writers[other].dev == i ==> s.at[other] < |s.hist[i]|
    {
      if other != id {
        assert WriterOk(s, other);
        OtherWritersAfterBegin(s, id, w, other);
      }
    }
  }

  /** Not lapping an open segment is exactly what a start has to respect. */
  lemma StartExact(s: Sys, id: nat, w: Wr)
    requires SysInv(s) && Ready(s.pool) && w.dev < |s.pool.devs| && EpochRoom(s.pool.devs[Target(s.pool, w)])
    requires Begin(s, id, w).status.Ok?
    ensures SysInv(Begin(s, id, w).sys) <==> NotLapping(s, Target(s.pool, w), id)
  {
    hide SysInv, StartOn, Pick, Load, Begin, Target, WriterAt, EpochRoom, Alloc, DiskInv, FreshSeg, WriterOk, IdsOk;
    KnownDisks(s);
    BeginOn(s, id, w);
    var i, t := Target(s.pool, w), Begin(s, id, w).sys;
    var d, h := s.pool.devs[i], s.hist[i];
    assert DiskInv(d, h);
    StartedRing(d, h, w.(dev := i));
    if NotLapping(s, i, id) {
      BeginKeepsInv(s, id, w);
    } else if SysInv(t) {
      var other :| other in s.writers && other != id && s.writers[other].dev == i && d.sb.writePtrChunk == s.writers[other].chunk;
      assert WriterOk(s, other);
      WriterPlace(s, other);
      LappedIffNext(d, |h|, s.at[other]);
      KnownDisks(t);
      assert WriterOk(t, other);
      WriterPlace(t, other);
    }
  }

  lemma StartedRing(d: Dev, h: seq<Seg>, w: Wr)
    requires DiskInv(d, h) && EpochRoom(d) && StartOn(d, w).status.Ok?
    ensures RingOk(d, |h|) && Alloc(d).1.Chunk? && DataChunks(StartOn(d, w).dev) == DataChunks(d)
  {
    hide GeoOk, SegsOk, SlotsOk, StartOn, Alloc, EpochRoom, RingOk, SameStatic;
    StartKeepsInv(d, h, w);
    AllocNth(d, |h|);
    StaticFacts(d, StartOn(d, w).dev);
  }

  lemma WriterPlace(s: Sys, id: nat)
    requires WriterOk(s, id)
    ensures Known(s, id)
    ensures var i := s.writers[id].dev;
      Live(s.pool.devs[i], |s.hist[i]|, s.at[id]) && s.writers[id].chunk == ChunkNo(s.pool.devs[i], s.at[id])
  {
    hide Span, PayloadBytes;
  }

  lemma FinishOn(s: Sys, id: nat)
    requires Ready(s.pool) && Known(s, id)
    ensures var i := s.writers[id].dev; var t := Finish(s, id);
      && t.pool.devs == s.pool.devs[i := Finalize(s.pool.devs[i], s.writers[id])]
      && t.hist == s.hist[i := s.hist[i][s.at[id] := Faithful.Close(s.hist[i][s.at[id]], s.writers[id].rectype)]]
      && t.writers == s.writers && t.at == s.at
  {
    hide Finalize, Load;
  }

  /** After closing a segment whatever a query returns still belongs to a live segment, and so plays
      what was recorded there, exactly when the segment closed still owns its chunk. */
  lemma CloseExact(d: Dev, h: seq<Seg>, w: Wr, k: nat)
    requires DiskInv(d, h) && IdsOk(d, h) && k < |h| <= k + SEQ_END && DataChunks(d) <= SEQ_END && w.segId == h[k].segId && w.frameCount > 0
    requires Live(d, |h|, k) ==> WriterAt(d, h, w, k)
    ensures SlotCount(d) > 0
    ensures var e, h' := Finalize(d, w), h[k := Faithful.Close(h[k], w.rectype)];
      (forall q, cap, x :: x in Collect(e, q, 0, cap) ==> SlotOwned(e, h', x)) <==> Live(d, |h|, k)
  {
    hide GeoOk, RingOk, SegsOk, IdsOk, SlotAt, Collect, DataChunks, WriterAt, Finalize, Matches, SlotOwned;
    GeoHasSlots(d);
    var e, h' := Finalize(d, w), h[k := Faithful.Close(h[k], w.rectype)];
    if Live(d, |h|, k) {
      FinalizeKeepsInv(d, h, w, k);
      forall q, cap, x | x in Collect(e, q, 0, cap)
        ensures SlotOwned(e, h', x)
      {
        CollectSound(e, q, 0, cap);
        MatchIsValid(e.prims, x, q);
      }
    } else {
      StaleAnswer(d, h, w, k);
    }
  }

  lemma MatchIsValid(p: Prims, s: Slot, q: Filter)
    ensures Matches(p, s, q) ==> IsValid(s)
  {
  }

  lemma ClosedMatches(p: Prims, d: Dev, w: Wr)
    requires d.prims == p
    ensures Matches(p, SealSlot(p, FillSlot(d, w, true)), EVERYTHING)
  {
    hide EncodeSlot;
  }

  /** Closing a segment that was lapped publishes a slot of a segment that is no longer there. */
  lemma StaleAnswer(d: Dev, h: seq<Seg>, w: Wr, k: nat)
    requires DiskInv(d, h) && IdsOk(d, h) && k < |h| <= k + SEQ_END && DataChunks(d) <= SEQ_END && w.segId == h[k].segId && w.frameCount > 0
    requires !Live(d, |h|, k)
    ensures SlotCount(d) > 0
    ensures var e, x := Finalize(d, w), SealSlot(d.prims, FillSlot(d, w, true));
      && SameStatic(d, e) && SameData(d, e) && GeoOk(e) && RingOk(e, |h|)
      && x in Collect(e, EVERYTHING, 0, SlotCount(e) + 1) && !SlotOwned(e, h[k := Faithful.Close(h[k], w.rectype)], x)
  {
    hide GeoOk, RingOk, SegsOk, SlotsOk, IdsOk, WriteIndex, FillSlot, SealSlot, SlotAt, Describes, DataChunks, SameStatic, SameData, Collect, Matches;
    GeoHasSlots(d);
    var s, h' := FillSlot(d, w, true), h[k := Faithful.Close(h[k], w.rectype)];
    var e, x := Finalize(d, w), SealSlot(d.prims, s);
    WriteIndexStatic(d, s);
    StaticFacts(d, e);
    WriteIndexAt(d, s, 0);
    WriteIndexAt(d, s, WritePos(d, s));
    assert e.prims == d.prims by { StaticParts(d, e); }
    ClosedMatches(e.prims, d, w);
    CollectSize(e, EVERYTHING, 0, SlotCount(e) + 1);
    CollectSound(e, EVERYTHING, 0, SlotCount(e) + 1);
    FilledId(d, w, true);
    ClosedSlotSealed(d, w);
    forall j | 0 <= j < |h'| && Live(e, |h'|, j)
      ensures !Describes(e, x, j, h'[j])
    {
      if Describes(e, x, j, h'[j]) {
        DescribedId(e, x, j, h'[j]);
        NearIdDiffers(d, h, k, j);
      }
    }
  }

  lemma DescribedId(d: Dev, s: Slot, k: nat, seg: Seg)
    requires Describes(d, s, k, seg)
    ensures s.segId == seg.segId
  {
    hide EncodeSlot, Span, PayloadBytes;
  }

  /** What a start does to another writer of the disk, as a query sees it: once that writer has closed,
      all answers still belong to live segments exactly when the start did not take its chunk. */
  lemma LapShows(s: Sys, id: nat, w: Wr, other: nat)
    requires SysInv(s) && Ready(s.pool) && w.dev < |s.pool.devs| && EpochRoom(s.pool.devs[Target(s.pool, w)])
    requires Begin(s, id, w).status.Ok? && other in s.writers && other != id && Known(s, other)
    requires s.writers[other].dev == Target(s.pool, w) && s.writers[other].frameCount > 0
    requires DataChunks(s.pool.devs[Target(s.pool, w)]) < SEQ_END
    ensures var i, t, k := Target(s.pool, w), Begin(s, id, w).sys, s.at[other];
      && Known(t, other) && t.writers[other] == s.writers[other] && t.at[other] == k && SlotCount(t.pool.devs[i]) > 0
      && var e, h := Finalize(t.pool.devs[i], t.writers[other]), t.hist[i][k := Faithful.Close(t.hist[i][k], t.writers[other].rectype)];
      ((forall q, cap, x :: x in Collect(e, q, 0, cap) ==> SlotOwned(e, h, x)) <==> s.pool.devs[i].sb.writePtrChunk != s.writers[other].chunk)
  {
    hide SysInv, StartOn, Pick, Load, Begin, Target, EpochRoom, Alloc, DiskInv, FreshSeg, IdsOk, WriterAt, Finalize, Collect, SlotOwned, SameStatic, DataChunks;
    KnownDisks(s);
    assert WriterOk(s, other);
    BeginOn(s, id, w);
    var i, k, v := Target(s.pool, w), s.at[other], w.(dev := Target(s.pool, w));
    var d, h := s.pool.devs[i], s.hist[i];
    assert DiskInv(d, h) && IdsOk(d, h);
    StartKeepsInv(d, h, v);
    StartedRing(d, h, v);
    IdsAfterStartOn(d, h, v);
    WriterPlace(s, other);
    LappedIffNext(d, |h|, k);
    WriterIsIt(d, h, s.writers[other], k);
    var e, g := StartOn(d, v).dev, h + [FreshSeg(d, v)];
    if |h| < k + DataChunks(d) {
      OtherWriterAfterStart(d, h, v, s.writers[other], k);
    }
    CloseExact(e, g, s.writers[other], k);
  }

  lemma WriterIsIt(d: Dev, h: seq<Seg>, w: Wr, k: nat)
    requires WriterAt(d, h, w, k)
    ensures w.segId == h[k].segId
  {
    hide Span, PayloadBytes;
  }

  lemma AcceptOn(s: Sys, id: nat, f: Frame)
    requires Known(s, id) && Indexed(s, id)
    ensures var i := s.writers[id].dev; var (e, w') := PutFrame(s.pool.devs[i], s.writers[id], f); var t := Accept(s, id, f);
      && t.pool.devs == s.pool.devs[i := e]
      && t.hist == s.hist[i := s.hist[i][s.at[id] := Extend(s.hist[i][s.at[id]], f)]]
      && t.writers == s.writers[id := w'] && t.at == s.at
  {
    hide PutFrame, Load;
  }

  /** Replacing the segment of writer `id`, its disk and the writer, the rest stays. */
  lemma OtherWritersKept(s: Sys, t: Sys, id: nat, seg: Seg)
    requires WritersOk(s) && Separate(s) && id in s.writers
    requires var i := s.writers[id].dev;
      && Known(s, id) && |t.pool.devs| == |s.pool.devs|
      && t.pool.devs == s.pool.devs[i := t.pool.devs[i]] && SameStatic(s.pool.devs[i], t.pool.devs[i])
      && t.hist == s.hist[i := s.hist[i][s.at[id] := seg]]
      && t.at == s.at && id in t.writers && t.writers == s.writers[id := t.writers[id]]
      && t.writers[id].dev == i && t.writers[id].grouped == s.writers[id].grouped
      && WriterAt(t.pool.devs[i], t.hist[i], t.writers[id], t.at[id])
    ensures WritersOk(t) && Separate(t)
  {
    hide WriterAt, SameStatic;
    var i := s.writers[id].dev;
    forall other | other in t.writers
      ensures WriterOk(t, other)
    {
      assert WriterOk(s, other);
      if other != id && s.writers[other].dev == i {
        OtherWriterAt(s.pool.devs[i], s.hist[i], t.pool.devs[i], s.at[id], seg, s.writers[other], s.at[other]);
      }
    }
  }

  lemma FinishKeepsInv(s: Sys, id: nat)
    requires SysInv(s) && Ready(s.pool) && id in s.writers
    ensures Known(s, id) && SysInv(Finish(s, id))
  {
    hide Finalize, Load, Finish, SegsOk, SlotsOk, RingOk, GeoOk, SameStatic, WriterAt, IdsOk;
    assert WriterOk(s, id);
    FinishOn(s, id);
    var i, t := s.writers[id].dev, Finish(s, id);
    assert DiskInv(s.pool.devs[i], s.hist[i]) && IdsOk(s.pool.devs[i], s.hist[i]);
    FinalizeKeepsInv(s.pool.devs[i], s.hist[i], s.writers[id], s.at[id]);
    IdsAfterFinalize(s.pool.devs[i], s.hist[i], s.writers[id], s.at[id]);
    DisksAfter(s, t, i);
    OtherWritersKept(s, t, id, Faithful.Close(s.hist[i][s.at[id]], s.writers[id].rectype));
  }

  lemma AcceptKeepsInv(s: Sys, id: nat, f: Frame)
    requires SysInv(s) && id in s.writers && Known(s, id) && Indexed(s, id)
    requires Fits(s.pool.devs[s.writers[id].dev], s.writers[id], f)
    ensures SysInv(Accept(s, id, f))
  {
    hide PutFrame, Load, Accept, SegsOk, SlotsOk, RingOk, GeoOk, SameStatic, WriterAt, Need, Fits, IdsOk;
    assert WriterOk(s, id);
    AcceptOn(s, id, f);
    var i, t := s.writers[id].dev, Accept(s, id, f);
    assert DiskInv(s.pool.devs[i], s.hist[i]) && IdsOk(s.pool.devs[i], s.hist[i]);
    IdsAfterPut(s.pool.devs[i], s.hist[i], s.writers[id], s.at[id], f);
    PutFrameKeepsInv(s.pool.devs[i], s.hist[i], s.writers[id], s.at[id], f);
    PutKeepsPlace(s.pool.devs[i], s.writers[id], f);
    DisksAfter(s, t, i);
    OtherWritersKept(s, t, id, Extend(s.hist[i][s.at[id]], f));
  }

  lemma PutKeepsPlace(d: Dev, w: Wr, f: Frame)
    requires SlotCount(d) > 0
    ensures var w' := PutFrame(d, w, f).1; w'.dev == w.dev && w'.grouped == w.grouped && w'.chn == w.chn && w'.rectype == w.rectype
  {
    hide WriteIndex, WriteRecord;
  }

  // ---- events ----

  datatype Event =
    | OpenWriter(id: nat, grouped: bool, dev: nat, chn: u16, rectype: u8)
    | Give(id: nat, frame: Frame)
    | Retype(id: nat, rectype: u8)
    | CloseWriter(id: nat)

  function NewWriter(grouped: bool, dev: nat, chn: u16, rectype: u8): Wr {
    Wr(grouped, if grouped then 0 else dev, chn, rectype, 0, 0, 0, 0, 0, 0, 0, 0, 0, 0)
  }

  /** Events on unknown writers, or opening a writer twice, are refused. */
  predicate Sensible(s: Sys, e: Event) {
    match e
    case OpenWriter(id, grouped, dev, _, _) => id !in s.writers && (grouped || dev < |s.pool.devs|)
    case Give(id, _) => Known(s, id)
    case Retype(id, _) => Known(s, id)
    case CloseWriter(id) => Known(s, id)
  }

  function GiveFrame(s: Sys, id: nat, f: Frame): Outcome
    requires Ready(s.pool) && Known(s, id)
  {
    var w := s.writers[id];
    var d := s.pool.devs[w.dev];
    var refusal := Refusal(d, f);
    if refusal.Fail? then Outcome(s, refusal)
    else if MustRotate(d, w, f) then
      var o := Begin(Finish(s, id), id, w);
      if o.status.Fail? then o else Outcome(Accept(o.sys, id, f), Ok)
    else Outcome(Accept(s, id, f), Ok)
  }

  function Leave(s: Sys, id: nat): Sys {
    s.(writers := map k | k in s.writers && k != id :: s.writers[k], at := map k | k in s.at && k != id :: s.at[k])
  }

  function CloseW(s: Sys, id: nat): Sys
    requires Ready(s.pool) && Known(s, id)
  {
    Leave(Finish(s, id), id).(pool := Group.Close(s.pool, s.writers[id]))
  }

  function Step(s: Sys, e: Event): Outcome
    requires Ready(s.pool) && |s.hist| == |s.pool.devs|
  {
    if !Sensible(s, e) then Outcome(s, Fail(Param))
    else match e
      case OpenWriter(id, grouped, dev, chn, rectype) =>
        var o := Begin(s, id, NewWriter(grouped, dev, chn, rectype));
        if o.status.Fail? then Outcome(s.(pool := o.sys.pool), o.status) else o
      case Give(id, f) => GiveFrame(s, id, f)
      case Retype(id, rectype) => Begin(Finish(s, id), id, s.writers[id].(rectype := rectype))
      case CloseWriter(id) => Outcome(CloseW(s, id), Ok)
  }

  /** The steps of a run are the writer's own operations: same disks, same writer, same status. */
  lemma StepIsOperation(s: Sys, e: Event)
    requires Ready(s.pool) && |s.hist| == |s.pool.devs| && Sensible(s, e)
    ensures var o := Step(s, e);
      match e
      case OpenWriter(id, grouped, dev, chn, rectype) =>
        var r := StartSeg(s.pool, NewWriter(grouped, dev, chn, rectype));
        o.sys.pool == r.pool && o.status == r.status && (r.status.Ok? ==> o.sys.writers == s.writers[id := r.wr])
      case Give(id, f) =>
        var r := WriteFrame(s.pool, s.writers[id], f);
        o.sys.pool == r.pool && o.status == r.status && o.sys.writers == s.writers[id := r.wr]
      case Retype(id, rectype) =>
        var r := ChangeType(s.pool, s.writers[id], rectype);
        o.sys.pool == r.pool && o.status == r.status && o.sys.writers == s.writers[id := r.wr]
      case CloseWriter(id) =>
        o.sys.pool == Group.Close(s.pool, s.writers[id]) && o.status == Ok && id !in o.sys.writers
  {
    hide StartSeg, FinalizeSeg, PutOn, Group.Close, Load, FreshSeg, MustRotate, Refusal;
    if e.Give? {
      GiveIsWriteFrame(s, e.id, e.frame);
    }
  }

  lemma GiveIsWriteFrame(s: Sys, id: nat, f: Frame)
    requires Ready(s.pool) && Known(s, id)
    ensures var o, r := GiveFrame(s, id, f), WriteFrame(s.pool, s.writers[id], f);
      o.sys.pool == r.pool && o.status == r.status && o.sys.writers == s.writers[id := r.wr]
  {
    hide StartSeg, FinalizeSeg, PutOn, Load, FreshSeg, MustRotate, Refusal;
    var w, r, o := s.writers[id], WriteFrame(s.pool, s.writers[id], f), GiveFrame(s, id, f);
    var d := s.pool.devs[w.dev];
    assert s.writers[id := w] == s.writers;
    if Refusal(d, f).Ok? && MustRotate(d, w, f) {
      var m := MakeRoom(s.pool, w, f);
      var b := Begin(Finish(s, id), id, w);
      assert b.sys.pool == m.pool && b.status == m.status && b.sys.writers == s.writers[id := m.wr];
      if m.status.Ok? {
        assert s.writers[id := m.wr][id := r.wr] == s.writers[id := r.wr];
        assert b.sys.writers[id] == m.wr;
        assert o.sys == Accept(b.sys, id, f);
      }
    }
  }

  /** The frame makes its writer move to a new segment. */
  predicate Rotates(s: Sys, id: nat, f: Frame)
    requires Known(s, id)
  {
    var d := s.pool.devs[s.writers[id].dev];
    Refusal(d, f).Ok? && MustRotate(d, s.writers[id], f)
  }

  /** The event respects the recorder's edges where it starts a segment. */
  ghost predicate Allowed(s: Sys, e: Event)
    requires Ready(s.pool) && |s.hist| == |s.pool.devs|
  {
    Sensible(s, e) ==>
      match e
      case OpenWriter(id, grouped, dev, chn, rectype) => MayBegin(s, id, NewWriter(grouped, dev, chn, rectype))
      case Give(id, f) =>
        Rotates(s, id, f) ==>
          MayBegin(Finish(s, id), id, s.writers[id]) && (s.writers[id].grouped ==> FitsNext(Finish(s, id).pool, s.writers[id], f))
      case Retype(id, rectype) => MayBegin(Finish(s, id), id, s.writers[id].(rectype := rectype))
      case CloseWriter(id) => true
  }

  // ---- a failed start changes nothing that matters ----

  lemma RetypedOk(s: Sys, id: nat, w: Wr)
    requires SysInv(s) && id in s.writers && w == s.writers[id].(rectype := w.rectype)
    ensures SysInv(s.(writers := s.writers[id := w]))
  {
    hide DiskInv, WriterAt, IdsOk;
    var t := s.(writers := s.writers[id := w]);
    forall other | other in t.writers
      ensures WriterOk(t, other)
    {
      assert WriterOk(s, other);
      RetypedAt(s.pool.devs[w.dev], s.hist[w.dev], s.writers[id], s.at[id], w.rectype);
    }
  }

  lemma RetypedAt(d: Dev, h: seq<Seg>, w: Wr, k: nat, rectype: u8)
    requires WriterAt(d, h, w, k)
    ensures WriterAt(d, h, w.(rectype := rectype), k)
  {
    hide Span, PayloadBytes;
  }

  lemma FailedBegin(s: Sys, id: nat, w: Wr)
    requires SysInv(s) && Ready(s.pool) && w.dev < |s.pool.devs| && MayBegin(s, id, w)
    requires Begin(s, id, w).status.Fail?
    ensures var t := Begin(s, id, w).sys;
      && t == s.(pool := t.pool, writers := s.writers[id := w.(dev := Target(s.pool, w))]) && t.pool.devs == s.pool.devs
    ensures id in s.writers ==> w.(dev := Target(s.pool, w)) == w
  {
    hide StartOn, Pick, Load, Alloc, GeoOk, SegsOk, SlotsOk, RingOk, FreshSeg, WriterOk, EpochRoom, Begin, IdsOk, Target;
    KnownDisks(s);
    BeginOn(s, id, w);
    var i := Target(s.pool, w);
    assert DiskInv(s.pool.devs[i], s.hist[i]);
    StartKeepsInv(s.pool.devs[i], s.hist[i], w.(dev := i));
    AllocNth(s.pool.devs[i], |s.hist[i]|);
    assert s.pool.devs[i := s.pool.devs[i]] == s.pool.devs;
  }

  /** The group's turn is nothing the invariant depends on. */
  lemma TurnKept(s: Sys, p: Pool)
    requires SysInv(s) && p.devs == s.pool.devs
    ensures SysInv(s.(pool := p))
  {
    hide DiskInv, WriterAt, IdsOk;
    forall id | id in s.writers
      ensures WriterOk(s.(pool := p), id)
    {
      assert WriterOk(s, id);
    }
  }

  // ---- closing ----

  lemma FlushKeepsDisk(d: Dev, h: seq<Seg>)
    requires DiskInv(d, h)
    ensures DiskInv(Flush(d), h) && SameStatic(d, Flush(d))
  {
    hide GeoOk, SlotAt, WriteTables, Read, SlotOwned, RingOk, SegsOk, SealSb, SealSt;
    var e := Flush(d);
    FlushStatic(d, |h|);
    StaticFacts(d, e);
    SegsOkSame(d, e, h);
    forall i | 0 <= i < SlotCount(e) && IsValid(SlotAt(e, i))
      ensures SlotOwned(e, h, SlotAt(e, i))
    {
      FlushSlotAt(d, i);
      SlotOwnedSame(d, e, h, SlotAt(d, i));
    }
  }

  lemma FlushStatic(d: Dev, n: nat)
    requires GeoOk(d) && RingOk(d, n)
    ensures SameStatic(d, Flush(d)) && SameData(d, Flush(d)) && RingOk(Flush(d), n) && GeoOk(Flush(d))
  {
    hide WriteTables, Read, EncodeSb, EncodeSt;
    var e := Flush(d);
    forall off: nat, m: nat | DataStart(d) <= off
      ensures Read(e.disk, off, m) == Read(d.disk, off, m)
    {
      FlushKeeps(d, off, m);
    }
    FlushSlotAt(d, 0);
  }

  lemma FlushChannels(d: Dev)
    ensures Flush(d).st.chn == d.st.chn
  {
    hide WriteTables, EncodeSb, EncodeSt;
  }

  /** Flushing any of the disks keeps the invariant. */
  lemma FlushedOk(s: Sys, t: Sys)
    requires SysInv(s) && t == s.(pool := t.pool) && t.pool.rr == s.pool.rr && |t.pool.devs| == |s.pool.devs|
    requires forall i :: 0 <= i < |s.pool.devs| ==> t.pool.devs[i] == s.pool.devs[i] || t.pool.devs[i] == Flush(s.pool.devs[i])
    ensures SysInv(t)
  {
    hide Flush, DiskInv, WriterAt, SameStatic, ChunkBytes, IdsOk;
    forall i | 0 <= i < |t.pool.devs|
      ensures DiskInv(t.pool.devs[i], t.hist[i]) && IdsOk(t.pool.devs[i], t.hist[i]) && SameStatic(s.pool.devs[i], t.pool.devs[i])
      ensures ChunkBytes(t.pool.devs[i]) == ChunkBytes(s.pool.devs[i])
    {
      assert DiskInv(s.pool.devs[i], s.hist[i]) && IdsOk(s.pool.devs[i], s.hist[i]);
      FlushKeepsDisk(s.pool.devs[i], s.hist[i]);
      FlushChannels(s.pool.devs[i]);
      IdsKept(s.pool.devs[i], t.pool.devs[i], s.hist[i]);
      SameStaticRefl(s.pool.devs[i]);
      StaticFacts(s.pool.devs[i], t.pool.devs[i]);
    }
    forall id | id in t.writers
      ensures WriterOk(t, id)
    {
      assert WriterOk(s, id);
      var i := s.writers[id].dev;
      WriterAtSame(s.pool.devs[i], t.pool.devs[i], s.hist[i], s.writers[id], s.at[id]);
    }
  }

  lemma LeaveOk(s: Sys, id: nat)
    requires SysInv(s)
    ensures SysInv(Leave(s, id))
  {
    hide DiskInv, WriterAt, IdsOk;
    var t := Leave(s, id);
    forall other | other in t.writers
      ensures WriterOk(t, other)
    {
      assert WriterOk(s, other);
    }
    assert t.writers.Keys == s.writers.Keys - {id} && t.at.Keys == s.at.Keys - {id};
  }

  lemma ClosingKeepsInv(s: Sys, id: nat)
    requires SysInv(s) && Ready(s.pool) && id in s.writers && Known(s, id)
    ensures SysInv(CloseW(s, id))
  {
    hide DiskInv, Finalize, Flush, Load, SysInv, Leave;
    FinishKeepsInv(s, id);
    var t := Finish(s, id);
    LeaveOk(t, id);
    var u := Leave(t, id);
    assert u.pool == t.pool by { LeavePool(t, id); }
    FlushedOk(u, CloseW(s, id));
  }

  lemma LeavePool(s: Sys, id: nat)
    ensures Leave(s, id).pool == s.pool && Leave(s, id).hist == s.hist
  {
  }

  // ---- accepting a frame ----

  lemma RoomAligned(len: nat, c: nat)
    requires c % FRAME_ALIGN == 0 && HDR_SIZE + len <= c
    ensures AlignUp(HDR_SIZE + len, FRAME_ALIGN) <= c
  {
  }

  /** A frame that does not force a rotation fits behind the writer's last record. */
  lemma FitsHere(d: Dev, h: seq<Seg>, w: Wr, k: nat, f: Frame)
    requires GeoOk(d) && WriterAt(d, h, w, k) && SegOk(d, k, h[k])
    requires Refusal(d, f).Ok? && !MustRotate(d, w, f)
    ensures Faithful.Fits(d, w, f)
  {
    hide GeoOk, Recorded, Span, AlignUp, Need32;
    GeoHasSlots(d);
    Need32Exact(d, f);
    RoomAligned(|f.data|, ChunkBytes(d));
    if w.frameCount == 0 {
      EmptySpan(h[k].frames);
    }
  }

  lemma EmptySpan(fs: seq<Frame>)
    ensures fs == [] ==> Span(fs) == 0
  {
  }

  /** Every step of an allowed run keeps the invariant. */
  lemma StepKeepsInv(s: Sys, e: Event)
    requires SysInv(s) && Ready(s.pool) && Allowed(s, e)
    ensures SysInv(Step(s, e).sys)
  {
    hide SysInv, Begin, Finish, Accept, CloseW, MayBegin, Load, GiveFrame;
    if Sensible(s, e) {
      match e
      case OpenWriter(id, grouped, dev, chn, rectype) =>
        OpenKeepsInv(s, id, NewWriter(grouped, dev, chn, rectype));
      case Give(id, f) =>
        KnownDisks(s);
        GiveKeepsInv(s, id, f);
      case Retype(id, rectype) =>
        FinishKeepsInv(s, id);
        FinishReady(s, id);
        RetypeKeepsInv(s, id, rectype);
      case CloseWriter(id) =>
        ClosingKeepsInv(s, id);
    }
  }

  lemma KnownDisks(s: Sys)
    requires SysInv(s)
    ensures DisksOk(s) && WritersOk(s) && Separate(s)
  {
  }

  lemma OpenKeepsInv(s: Sys, id: nat, w: Wr)
    requires SysInv(s) && Ready(s.pool) && w.dev < |s.pool.devs| && id !in s.writers && MayBegin(s, id, w)
    ensures var o := Begin(s, id, w);
      if o.status.Ok? then SysInv(o.sys) else o.sys.pool.devs == s.pool.devs && SysInv(s.(pool := o.sys.pool))
  {
    hide SysInv, Begin, MayBegin, Load, Target;
    KnownDisks(s);
    if Begin(s, id, w).status.Ok? {
      BeginKeepsInv(s, id, w);
    } else {
      FailedBegin(s, id, w);
      TurnKept(s, Begin(s, id, w).sys.pool);
    }
  }

  lemma ContinueKeepsInv(s: Sys, id: nat, w: Wr)
    requires SysInv(s) && Ready(s.pool) && id in s.writers && w == s.writers[id].(rectype := w.rectype)
    requires w.dev < |s.pool.devs| && MayBegin(s, id, w)
    ensures SysInv(Begin(s, id, w).sys)
  {
    hide SysInv, Begin, MayBegin, Load, Target;
    KnownDisks(s);
    if Begin(s, id, w).status.Ok? {
      BeginKeepsInv(s, id, w);
    } else {
      FailedBegin(s, id, w);
      RetypedOk(s, id, w);
      TurnKept(s.(writers := s.writers[id := w]), Begin(s, id, w).sys.pool);
    }
  }

  lemma RetypeKeepsInv(s: Sys, id: nat, rectype: u8)
    requires SysInv(s) && Ready(s.pool) && id in s.writers && Known(s, id)
    requires var w := s.writers[id].(rectype := rectype);
      SysInv(Finish(s, id)) && Ready(Finish(s, id).pool) && MayBegin(Finish(s, id), id, w)
    ensures SysInv(Begin(Finish(s, id), id, s.writers[id].(rectype := rectype)).sys)
  {
    hide SysInv, Begin, MayBegin, Load, Finalize;
    FinishOn(s, id);
    ContinueKeepsInv(Finish(s, id), id, s.writers[id].(rectype := rectype));
  }

  lemma GiveKeepsInv(s: Sys, id: nat, f: Frame)
    requires SysInv(s) && Ready(s.pool) && Known(s, id) && Allowed(s, Give(id, f)) && id in s.writers
    ensures SysInv(GiveFrame(s, id, f).sys)
  {
    hide SysInv, Begin, Finish, Accept, MayBegin, Load, MustRotate, Refusal, DiskInv;
    KnownDisks(s);
    var w := s.writers[id];
    var d := s.pool.devs[w.dev];
    assert WriterOk(s, id);
    assert DiskInv(d, s.hist[w.dev]);
    if Refusal(d, f).Ok? {
      if MustRotate(d, w, f) {
        RotateKeepsInv(s, id, f);
      } else {
        DiskSeg(d, s.hist[w.dev], w, s.at[id]);
        FitsHere(d, s.hist[w.dev], w, s.at[id], f);
        AcceptKeepsInv(s, id, f);
      }
    }
  }

  lemma DiskSeg(d: Dev, h: seq<Seg>, w: Wr, k: nat)
    requires DiskInv(d, h) && WriterAt(d, h, w, k)
    ensures GeoOk(d) && k < |h| && SegOk(d, k, h[k])
  {
    hide GeoOk, SegOk;
  }

  lemma FinishReady(s: Sys, id: nat)
    requires Ready(s.pool) && Known(s, id)
    ensures Ready(Finish(s, id).pool) && Known(Finish(s, id), id)
    ensures Finish(s, id).writers == s.writers
  {
    hide Finalize, Load;
  }

  /** The writer moves to a fresh chunk, where the frame fits. */
  lemma RotateKeepsInv(s: Sys, id: nat, f: Frame)
    requires SysInv(s) && Ready(s.pool) && Known(s, id) && id in s.writers
    requires Refusal(s.pool.devs[s.writers[id].dev], f).Ok? && MayBegin(Finish(s, id), id, s.writers[id])
    requires s.writers[id].grouped ==> FitsNext(Finish(s, id).pool, s.writers[id], f)
    ensures var o := Begin(Finish(s, id), id, s.writers[id]);
      SysInv(o.sys) && (o.status.Ok? ==> SysInv(Accept(o.sys, id, f)))
  {
    hide SysInv, Begin, Finish, Accept, MayBegin, Load, MustRotate, DiskInv, Finalize, Refusal, WriterOk, Ready;
    var w := s.writers[id];
    FinishKeepsInv(s, id);
    FinishReady(s, id);
    var t := Finish(s, id);
    KnownDisks(t);
    ContinueKeepsInv(t, id, w);
    var o := Begin(t, id, w);
    if o.status.Ok? {
      KnownDisks(o.sys);
      FreshFits(s, id, f);
      AcceptKeepsInv(o.sys, id, f);
    }
  }

  /** On the fresh chunk the frame fits exactly when it is not longer than that disk's chunks; a writer
      that stays on its disk need not ask. */
  lemma FreshFits(s: Sys, id: nat, f: Frame)
    requires SysInv(s) && Ready(s.pool) && Known(s, id) && id in s.writers
    requires Refusal(s.pool.devs[s.writers[id].dev], f).Ok?
    requires SysInv(Finish(s, id)) && MayBegin(Finish(s, id), id, s.writers[id])
    requires Begin(Finish(s, id), id, s.writers[id]).status.Ok?
    ensures var o := Begin(Finish(s, id), id, s.writers[id]);
      Faithful.Fits(o.sys.pool.devs[o.sys.writers[id].dev], o.sys.writers[id], f) <==> FitsNext(Finish(s, id).pool, s.writers[id], f)
    ensures !s.writers[id].grouped ==> FitsNext(Finish(s, id).pool, s.writers[id], f)
  {
    hide SysInv, Begin, Finish, Load, DiskInv, Finalize, Refusal, WriterOk, Ready, StartOn, Target, EpochRoom, Need, ChunkBytes, MustRotate;
    var w := s.writers[id];
    FinishReady(s, id);
    var t := Finish(s, id);
    KnownDisks(t);
    KnownDisks(s);
    BeginOn(t, id, w);
    var i := Target(t.pool, w);
    assert DiskInv(t.pool.devs[i], t.hist[i]);
    StartedEmpty(t.pool.devs[i], t.hist[i], w.(dev := i));
    NeedWithin(t.pool.devs[i], t.hist[i], f);
    if !w.grouped {
      TargetOf(t.pool, w);
      SameChunkBytes(s, id);
      WithinChunk(s.pool.devs[w.dev], f);
    }
  }

  lemma WithinChunk(d: Dev, f: Frame)
    requires Refusal(d, f).Ok?
    ensures HDR_SIZE + |f.data| <= ChunkBytes(d)
  {
  }

  lemma TargetOf(p: Pool, w: Wr)
    requires Ready(p) && w.dev < |p.devs| && !w.grouped
    ensures Target(p, w) == w.dev
  {
  }

  lemma NeedWithin(d: Dev, h: seq<Seg>, f: Frame)
    requires DiskInv(d, h)
    ensures Need(f) <= ChunkBytes(d) <==> HDR_SIZE + |f.data| <= ChunkBytes(d)
  {
    hide RingOk, SegsOk, SlotsOk, AlignUp;
    NeedBounds(f);
    if HDR_SIZE + |f.data| <= ChunkBytes(d) {
      RoomAligned(|f.data|, ChunkBytes(d));
    }
  }

  lemma StartedEmpty(d: Dev, h: seq<Seg>, w: Wr)
    requires DiskInv(d, h) && EpochRoom(d) && StartOn(d, w).status.Ok?
    ensures StartOn(d, w).wr.curOff == 0 && ChunkBytes(StartOn(d, w).dev) == ChunkBytes(d)
  {
    hide DiskInv, EpochRoom, Recycled, Alloc, BumpSeq, SameStatic;
    StartKeepsInv(d, h, w);
    StaticFacts(d, StartOn(d, w).dev);
  }

  lemma SameChunkBytes(s: Sys, id: nat)
    requires SysInv(s) && Ready(s.pool) && Known(s, id) && id in s.writers
    ensures ChunkBytes(Finish(s, id).pool.devs[s.writers[id].dev]) == ChunkBytes(s.pool.devs[s.writers[id].dev])
  {
    hide DiskInv, Finish, Finalize, SameStatic, WriterAt, Load;
    assert WriterOk(s, id);
    FinishOn(s, id);
    var i := s.writers[id].dev;
    assert DiskInv(s.pool.devs[i], s.hist[i]);
    FinalizeKeepsInv(s.pool.devs[i], s.hist[i], s.writers[id], s.at[id]);
    StaticFacts(s.pool.devs[i], Finish(s, id).pool.devs[i]);
  }

  // ---- runs ----

  ghost predicate AllowedRun(s: Sys, es: seq<Event>)
    decreases |es|
  {
    es == [] ||
    (Ready(s.pool) && |s.hist| == |s.pool.devs| && Allowed(s, es[0]) && AllowedRun(Step(s, es[0]).sys, es[1..]))
  }

  ghost function Run(s: Sys, es: seq<Event>): Sys
    requires AllowedRun(s, es)
    decreases |es|
  {
    if es == [] then s else Run(Step(s, es[0]).sys, es[1..])
  }

  lemma {:induction false} RunKeepsInv(s: Sys, es: seq<Event>)
    requires SysInv(s) && AllowedRun(s, es)
    ensures SysInv(Run(s, es))
    decreases |es|
  {
    hide SysInv, Step, Allowed;
    if es != [] {
      StepKeepsInv(s, es[0]);
      RunKeepsInv(Step(s, es[0]).sys, es[1..]);
    }
  }

  /** A disk on which nothing has been recorded yet. */
  ghost predicate BlankDisk(d: Dev) {
    && GeoOk(d) && RingOk(d, 0) && d.st.indexNext == 0
    && (forall i :: 0 <= i < SlotCount(d) ==> SlotAt(d, i) == ZERO_SLOT)
    && forall x :: 0 <= x < 32 ==> d.st.chn[x].segSeq == 0
  }

  ghost predicate Blank(s: Sys) {
    && s.pool.devs != [] && s.writers == map[] && s.at == map[]
    && s.hist == seq(|s.pool.devs|, _ => [])
    && forall i :: 0 <= i < |s.pool.devs| ==> BlankDisk(s.pool.devs[i])
  }

  lemma BlankInv(s: Sys)
    requires Blank(s)
    ensures SysInv(s)
  {
    hide GeoOk, RingOk, SlotAt;
    forall i | 0 <= i < |s.hist|
      ensures DiskInv(s.pool.devs[i], s.hist[i]) && IdsOk(s.pool.devs[i], s.hist[i])
    {
      assert s.hist[i] == [];
      assert BlankDisk(s.pool.devs[i]);
    }
  }

  /** Whatever a query on a disk of a system in order returns, replays. */
  lemma AnswerReplays(s: Sys, i: nat, q: Filter, cap: nat, slot: Slot)
    requires SysInv(s) && i < |s.hist| && i < |s.pool.devs| && slot in Collect(s.pool.devs[i], q, 0, cap)
    ensures var d, h := s.pool.devs[i], s.hist[i];
      exists k :: 0 <= k < |h| && Live(d, |h|, k) && Describes(d, slot, k, h[k])
        && slot.frameCount <= |h[k].frames| <= U32_MAX && Delivers(h[k], slot.frameCount, Played(d, h[k], 0, slot.frameCount))
        && Plays(d, PlayOpen(d, slot), Played(d, h[k], 0, slot.frameCount))
  {
    hide SysInv, Collect, SlotAt, Describes, Replay, Played, PlayOpen, RingOk, SegsOk, GeoOk, Delivers;
    KnownDisks(s);
    var d, h := s.pool.devs[i], s.hist[i];
    assert DiskInv(d, h);
    CollectSound(d, q, 0, cap);
    assert Matches(d.prims, slot, q);
    var j :| 0 <= j < SlotCount(d) && SlotAt(d, j) == slot;
    assert SlotOwned(d, h, slot);
    var k :| 0 <= k < |h| && Live(d, |h|, k) && Describes(d, slot, k, h[k]);
    SlotReplays(d, h, slot, k, slot.frameCount + 1);
    forall m: nat | m > slot.frameCount
      ensures Replay(d, PlayOpen(d, slot), m) == Played(d, h[k], 0, slot.frameCount)
    {
      SlotReplays(d, h, slot, k, m);
    }
    assert Plays(d, PlayOpen(d, slot), Played(d, h[k], 0, slot.frameCount));
  }

  /** Whatever a query on any disk of any reachable state returns, replays: the slot belongs
      to a segment that still owns its chunk, and the player delivers exactly the frames of
      that segment the slot counts, with their payloads and headers, in order, then stops. */
  lemma QueryReplays(s0: Sys, es: seq<Event>, i: nat, q: Filter, cap: nat, slot: Slot)
    requires Blank(s0) && AllowedRun(s0, es) && i < |Run(s0, es).hist|
    requires i < |Run(s0, es).pool.devs| && slot in Collect(Run(s0, es).pool.devs[i], q, 0, cap)
    ensures var d, h := Run(s0, es).pool.devs[i], Run(s0, es).hist[i];
      exists k :: 0 <= k < |h| && Live(d, |h|, k) && Describes(d, slot, k, h[k])
        && slot.frameCount <= |h[k].frames| <= U32_MAX && Delivers(h[k], slot.frameCount, Played(d, h[k], 0, slot.frameCount))
        && Plays(d, PlayOpen(d, slot), Played(d, h[k], 0, slot.frameCount))
  {
    hide SysInv, Blank, Run, AllowedRun, Collect, Describes, Plays, Played, PlayOpen, Live, Delivers;
    BlankInv(s0);
    RunKeepsInv(s0, es);
    AnswerReplays(Run(s0, es), i, q, cap, slot);
  }

  /** A block of a recorded frame: live segment, frame number, block number. */
  ghost predicate HasBlock(d: Dev, h: seq<Seg>, k: nat, j: nat, b: u64) {
    k < |h| && Live(d, |h|, k) && j < |h[k].frames| <= U32_MAX && 16 * b < |h[k].frames[j].data|
  }

  /** On disks of at most 2^24 chunks no two blocks recorded in live segments share a counter
      block, so no key-stream block is in use twice. */
  lemma CountersUnique(s0: Sys, es: seq<Event>, i: nat, k1: nat, j1: nat, b1: u64, k2: nat, j2: nat, b2: u64)
    requires Blank(s0) && AllowedRun(s0, es) && i < |Run(s0, es).hist| && i < |Run(s0, es).pool.devs|
    requires var d, h := Run(s0, es).pool.devs[i], Run(s0, es).hist[i];
      HasBlock(d, h, k1, j1, b1) && HasBlock(d, h, k2, j2, b2) && DataChunks(d) <= SEQ_END
    ensures var h := Run(s0, es).hist[i];
      Crypto.Counter(h[k1].segId, j1, b1) == Crypto.Counter(h[k2].segId, j2, b2) ==> k1 == k2 && j1 == j2 && b1 == b2
  {
    hide SysInv, Blank, Run, AllowedRun, DiskInv, IdsOk, DataChunks, Crypto.Counter;
    BlankInv(s0);
    RunKeepsInv(s0, es);
    var s := Run(s0, es);
    KnownDisks(s);
    var d, h := s.pool.devs[i], s.hist[i];
    assert DiskInv(d, h) && IdsOk(d, h);
    Crypto.CounterInjective(h[k1].segId, j1, b1, h[k2].segId, j2, b2);
    if k1 != k2 {
      LiveIdsDiffer(d, h, k1, k2);
    }
  }

  lemma MatchStands(s: Sys, q: Filter, slot: Slot) returns (k: nat)
    requires SysInv(s) && MatchOn(s.pool.devs, q, slot.startDisk, slot)
    ensures StandsFor(s.pool.devs, s.hist, slot, k)
  {
    hide SlotAt, Describes, GeoOk, RingOk, SegsOk, IdsOk, WritersOk, Separate;
    var j := slot.startDisk;
    var d, h := s.pool.devs[j], s.hist[j];
    assert DiskInv(d, h);
    var p :| 0 <= p < SlotCount(d) && Matches(d.prims, SlotAt(d, p), q) && slot == SlotAt(d, p).(startDisk := j);
    var t := SlotAt(d, p);
    assert SlotOwned(d, h, t);
    k :| 0 <= k < |h| && Live(d, |h|, k) && Describes(d, t, k, h[k]);
    assert slot.(startDisk := t.startDisk) == t;
  }

  lemma {:induction false} AnswersStand(s: Sys, q: Filter, segs: seq<Slot>) returns (ks: seq<nat>)
    requires SysInv(s) && forall x :: x in segs ==> MatchOn(s.pool.devs, q, x.startDisk, x)
    ensures AllStandFor(s.pool.devs, s.hist, segs, ks)
    decreases |segs|
  {
    hide SysInv, MatchOn, StandsFor;
    if segs == [] {
      ks := [];
    } else {
      var rest := segs[..|segs| - 1];
      var ks' := AnswersStand(s, q, rest);
      var k := MatchStands(s, q, segs[|segs| - 1]);
      ks := ks' + [k];
      forall j | 0 <= j < |segs|
        ensures StandsFor(s.pool.devs, s.hist, segs[j], ks[j])
      {
        if j < |rest| {
          assert rest[j] == segs[j] && StandsFor(s.pool.devs, s.hist, rest[j], ks'[j]);
        }
      }
    }
  }

  /** Playing back, across disks, any answers of a group query in any order shows exactly the
      frames recorded in the segments they stand for, one segment after the other. */
  lemma GroupQueryReplays(s0: Sys, es: seq<Event>, q: Filter, cap: nat, segs: seq<Slot>)
    requires Blank(s0) && AllowedRun(s0, es) && |Run(s0, es).pool.devs| <= 0x1_0000
    requires forall x :: x in segs ==> x in GroupCollect(Run(s0, es).pool.devs, q, 0, cap)
    ensures var s := Run(s0, es);
      exists ks :: AllStandFor(s.pool.devs, s.hist, segs, ks) && Shows(s.hist, segs, ks, 0, ShownFrom(s.pool.devs, s.hist, segs, ks, 0))
        && PlaysAcross(s.pool.devs, segs, OpenAt(s.pool.devs, segs, 0), ShownFrom(s.pool.devs, s.hist, segs, ks, 0))
  {
    hide SysInv, Blank, Run, AllowedRun, MatchOn, StandsFor, GroupCollect, ReplayAcross, OpenAt, ShownFrom, Shows;
    BlankInv(s0);
    RunKeepsInv(s0, es);
    var s := Run(s0, es);
    GroupCollectExact(s.pool.devs, q, 0, cap);
    var ks := AnswersStand(s, q, segs);
    forall n: nat | n > |ShownFrom(s.pool.devs, s.hist, segs, ks, 0)|
      ensures ReplayAcross(s.pool.devs, segs, OpenAt(s.pool.devs, segs, 0), n) == ShownFrom(s.pool.devs, s.hist, segs, ks, 0)
    {
      GroupPlaysAll(s.pool.devs, s.hist, segs, ks, n);
    }
    ShownShows(s.pool.devs, s.hist, segs, ks, 0);
    assert PlaysAcross(s.pool.devs, segs, OpenAt(s.pool.devs, segs, 0), ShownFrom(s.pool.devs, s.hist, segs, ks, 0));
  }
}
