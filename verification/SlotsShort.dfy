/** The number of index slots cannot be less: with one slot fewer than one per chunk and one per further
    writer there is, for every number of chunks and writers, a run that loses a closed segment
    whose chunk has not come round again. */
module SlotsShort {
  import opened Bytes
  import opened RecorderFormat
  import opened StorageDev
  import opened Index
  import opened Recorder
  import opened Faithful
  import opened Group
  import opened Recording
  import opened FiniteSets
  import opened SlotOrder
  import opened IndexRing
  import opened OneDisk
  import Retention

  /** A blank disk with one slot too few for so many writers. */
  ghost predicate Short(s: Sys, writers: nat) {
    && BlankOverwriting(s) && var d := s.pool.devs[0];
    2 <= writers <= DataChunks(d) && SlotCount(d) + 2 == DataChunks(d) + writers
  }

  lemma ShortFacts(s: Sys, writers: nat)
    requires Short(s, writers)
    ensures 2 <= writers <= Chunks(s) <= SEQ_END && Slots(s) + 2 == Chunks(s) + writers
  {
    hide Blank;
  }

  // ---- all writers start a segment ----

  /** Writers `from` up to `to`, each on the segment of its own number. */
  function Each(from: nat, to: nat): (m: map<nat, nat>)
    ensures forall id: nat :: id in m <==> from <= id < to
    ensures forall id: nat :: id in m ==> m[id] == id
  {
    if to <= from then map[] else Each(from, to - 1)[to - 1 := to - 1]
  }

  ghost predicate Empty(h: seq<Seg>, k: nat) { k < |h| && h[k].frames == [] && h[k].closed == 0 }

  ghost predicate Recorded(h: seq<Seg>, k: nat) { k < |h| && h[k].frames == [PICTURE] && h[k].closed == 1 }

  lemma {:induction false} OpenAll(s0: Sys, writers: nat, k: nat) returns (es: seq<Event>, s: Sys, o: Order)
    requires Short(s0, writers) && k <= writers
    ensures Comes(s0, es, s, o, Each(0, k), writers) && |H(s)| == k && o.slots == []
    ensures forall j :: 0 <= j < k ==> Empty(H(s), j)
    decreases k
  {
    hide Comes, DataChunks;
    if k == 0 {
      es, s, o := [], s0, Order([], []);
      ComesStart(s0, writers);
      assert Each(0, 0) == map[];
    } else {
      var before, m, p := OpenAll(s0, writers, k - 1);
      hide H;
      s, o := ComesOpen(s0, before, m, p, Each(0, k - 1), writers, k - 1);
      es := before + [OpenEvent(k - 1)];
      assert Each(0, k - 1)[k - 1 := k - 1] == Each(0, k);
      forall j | 0 <= j < k - 1
        ensures Empty(H(s), j)
      {
        assert Empty(H(m), j) && H(s)[j] == H(s)[..k - 1][j];
      }
    }
  }

  // ---- the last one gets its slot first, and all but one close ----

  /** One writer's first frame and close. */
  lemma GiveAndClose(s0: Sys, es: seq<Event>, s: Sys, o: Order, open: map<nat, nat>, writers: nat, id: nat) returns (fs: seq<Event>, t: Sys, p: Order)
    requires Comes(s0, es, s, o, open, writers) && id in open && Empty(H(s), open[id]) && |o.slots| < Slots(s0)
    ensures Comes(s0, fs, t, p, open - {id}, writers) && p.slots == o.slots + [open[id]]
    ensures |H(t)| == |H(s)| && Recorded(H(t), open[id]) && forall x :: 0 <= x < |H(s)| && x != open[id] ==> H(t)[x] == H(s)[x]
  {
    hide Comes, H;
    var m;
    m, p := ComesFirst(s0, es, s, o, open, writers, id);
    t := ComesClose(s0, es + [Give(id, PICTURE)], m, p, open, writers, id);
    fs := es + [Give(id, PICTURE)] + [CloseWriter(id)];
  }

  /** The segment started last has the first slot and is closed, and so are the first `j` others. */
  lemma {:induction false} CloseFirst(s0: Sys, writers: nat, j: nat) returns (es: seq<Event>, s: Sys, o: Order)
    requires Short(s0, writers) && j <= writers - 2
    ensures Comes(s0, es, s, o, Each(j, writers - 1), writers)
    ensures |H(s)| == writers && |o.slots| == j + 1 && o.slots[0] == writers - 1
    ensures Recorded(H(s), writers - 1) && forall x :: j <= x < writers - 1 ==> Empty(H(s), x)
    decreases j
  {
    hide Comes, H, Short, Chunks, Slots;
    ShortFacts(s0, writers);
    var before, m, p;
    if j == 0 {
      before, m, p := OpenAll(s0, writers, writers);
      es, s, o := GiveAndClose(s0, before, m, p, Each(0, writers), writers, writers - 1);
      assert Each(0, writers) - {writers - 1} == Each(0, writers - 1);
    } else {
      before, m, p := CloseFirst(s0, writers, j - 1);
      es, s, o := GiveAndClose(s0, before, m, p, Each(j - 1, writers - 1), writers, j - 1);
      assert Each(j - 1, writers - 1) - {j - 1} == Each(j, writers - 1);
      assert Recorded(H(m), writers - 1) && H(s)[writers - 1] == H(m)[writers - 1];
    }
    forall x | j <= x < writers - 1
      ensures Empty(H(s), x)
    {
      assert Empty(H(m), x) && H(s)[x] == H(m)[x];
    }
  }

  // ---- the one left goes on ----

  /** After `i` further segments: the writer left is on segment `last`, which has the last slot. */
  lemma {:induction false} GoRound(s0: Sys, writers: nat, i: nat) returns (es: seq<Event>, s: Sys, o: Order, last: nat)
    requires Short(s0, writers) && i + 2 <= Chunks(s0)
    ensures Comes(s0, es, s, o, map[writers - 2 := last], writers)
    ensures |H(s)| == writers + i == |o.slots| && o.slots[0] == writers - 1 && o.slots[|o.slots| - 1] == last
    ensures last < |H(s)| && last != writers - 1 && H(s)[last].frames != [] && Recorded(H(s), writers - 1)
    decreases i
  {
    hide Comes, H, Short, Chunks, Slots;
    ShortFacts(s0, writers);
    if i == 0 {
      var before, m, p := CloseFirst(s0, writers, writers - 2);
      last := writers - 2;
      assert Empty(H(m), last);
      assert Each(writers - 2, writers - 1) == map[last := last];
      s, o := ComesFirst(s0, before, m, p, map[last := last], writers, last);
      es := before + [Give(last, PICTURE)];
    } else {
      var before, m, p, was := GoRound(s0, writers, i - 1);
      var n, q := ComesOn(s0, before, m, p, writers, writers - 2, was);
      last := writers + i - 1;
      assert H(n)[writers - 1] == H(n)[..last][writers - 1];
      s, o := ComesFirst(s0, before + [Retype(writers - 2, REC_CONTINUOUS)], n, q, map[writers - 2 := last], writers, writers - 2);
      es := before + [Retype(writers - 2, REC_CONTINUOUS)] + [Give(writers - 2, PICTURE)];
    }
  }

  // ---- the slot that comes round ----

  /** A closed segment with frames that still owns its chunk and that no writer has open is described by no
      valid slot, so no query returns it. */
  ghost predicate Lost(s: Sys, i: nat, k: nat) {
    && i < |s.hist| && i < |s.pool.devs| && k < |s.hist[i]| && Live(s.pool.devs[i], |s.hist[i]|, k)
    && s.hist[i][k].frames != [] && s.hist[i][k].closed == |s.hist[i][k].frames| && !(exists id :: Retention.OpenBy(s, id, i, k))
    && forall p :: 0 <= p < SlotCount(s.pool.devs[i]) && IsValid(SlotAt(s.pool.devs[i], p)) ==>
         !Describes(s.pool.devs[i], SlotAt(s.pool.devs[i], p), k, s.hist[i][k])
  }

  /** With the ring of slots full, the next first frame takes the oldest slot, whosever it is. */
  lemma OldestOverwritten(d: Dev, h: seq<Seg>, w: Wr, k: nat, f: Frame, o: Order, v: nat)
    requires DiskAt(d, h, o) && |o.slots| == SlotCount(d) && WriterAt(d, h, w, k) && w.frameCount == 0 && k != v && v < |h|
    requires o.slots[0] == v && Live(d, |h|, v)
    ensures var e := PutFrame(d, w, f).0;
      SameStatic(d, e) && forall p :: 0 <= p < SlotCount(e) && IsValid(SlotAt(e, p)) ==> !Describes(e, SlotAt(e, p), v, h[v])
  {
    hide GeoOk, RingOk, SegsOk, SlotsOk, IdsOk, IndexOk, DataChunks, WriteIndex, WriteRecord, FillSlot, SealSlot, SameStatic, Distinct, Span, PayloadBytes, Placed, SlotAt, Describes, Flagged;
    var w1 := w.(startTime := U32(f.wallTime));
    var s := FillSlot(d, w1, false);
    var d1, e := WriteIndex(d, s), PutFrame(d, w, f).0;
    DiskPlaced(d, h, o);
    FirstAppends(d, h, o, w1, k);
    ModUnique(SlotCount(d), SlotCount(d), 1, 0);
    ModUnique(0, SlotCount(d), 0, 0);
    StaticFacts(d, d1);
    assert GeoOk(d1) by { WriteIndexStatic(d, s); }
    WriterAtSame(d, d1, h, w1, k);
    Retention.RecordLeavesIndex(d1, h, w1, k, f);
    SameStaticTrans(d, d1, e);
    StaticFacts(d, e);
    forall p | 0 <= p < SlotCount(e) && IsValid(SlotAt(e, p))
      ensures !Describes(e, SlotAt(e, p), v, h[v])
    {
      OpenSlotNotValid(d, w1);
      SealedFlags(d.prims, s);
      if Describes(e, SlotAt(e, p), v, h[v]) {
        DescribedId(e, SlotAt(e, p), v, h[v]);
        ValidIsFlagged(SlotAt(e, p));
        OwnSlot(d, h, o, 0, p);
      }
    }
  }

  lemma SealedFlags(p: Prims, s: Slot)
    ensures IsValid(SealSlot(p, s)) <==> IsValid(s)
  {
  }

  /** The writer left gives a first frame when every slot has been used once. */
  lemma LastFrame(s0: Sys, es: seq<Event>, s: Sys, o: Order, id: nat, k: nat, v: nat, writers: nat) returns (t: Sys)
    requires Comes(s0, es, s, o, map[id := k], writers) && |H(s)| == k + 1 <= v + Chunks(s0) && |o.slots| == Slots(s0)
    requires v < k && Recorded(H(s), v) && Empty(H(s), k) && o.slots != [] && o.slots[0] == v
    ensures AllowedRun(s0, es + [Give(id, PICTURE)]) && Retention.SharedRun(s0, es + [Give(id, PICTURE)], writers)
    ensures Run(s0, es + [Give(id, PICTURE)]) == t && Lost(t, 0, v)
  {
    hide Stage, Goes, DataChunks, Lost;
    assert id in map[id := k];
    StageOne(s, o, map[id := k]);
    t := LastStep(s, o, id, k, v, writers);
    hide Stage;
    GoOn(s0, es, s, Give(id, PICTURE), t, writers);
  }

  lemma LastStep(s: Sys, o: Order, id: nat, k: nat, v: nat, writers: nat) returns (t: Sys)
    requires Stage(s, o, map[id := k]) && |s.hist[0]| == k + 1 <= v + DataChunks(s.pool.devs[0]) && |o.slots| == SlotCount(s.pool.devs[0])
    requires v < k && Recorded(s.hist[0], v) && Empty(s.hist[0], k) && o.slots != [] && o.slots[0] == v && id < writers
    ensures Goes(s, Give(id, PICTURE), t, writers) && Lost(t, 0, v)
  {
    hide DiskAt, Step, Load, Accept, SysInv, Rotates, Extend, Describes, SlotAt, Faithful.Fits, SameStatic, DataChunks, WriterAt;
    var open := map[id := k];
    assert id in open;
    FirstAccepted(s, o, open, id, PICTURE);
    OnFacts(s, o, open, id);
    t := Accept(s, id, PICTURE);
    AcceptOn(s, id, PICTURE);
    PutKeepsPlace(s.pool.devs[0], s.writers[id], PICTURE);
    OldestOverwritten(s.pool.devs[0], s.hist[0], s.writers[id], k, PICTURE, o, v);
    StaticFacts(s.pool.devs[0], t.pool.devs[0]);
    OneWriterLeft(t, id, writers);
  }

  lemma OneWriterLeft(t: Sys, id: nat, writers: nat)
    requires t.writers.Keys == {id} && id < writers
    ensures Retention.AtMost(t, writers)
  {
    forall j | 0 <= j < |t.hist|
      ensures |Retention.WritersOn(t, j)| <= writers
    {
      SubsetSize(Retention.WritersOn(t, j), Below(writers));
    }
  }

  /** For every number of chunks from two on and every number of writers up to it: on a blank disk with one
      slot fewer than it takes there is a run that laps no open segment and closes every segment while
      its slot is in reach, and yet loses a closed segment that still owns its chunk. */
  lemma OneSlotShort(s0: Sys, writers: nat) returns (es: seq<Event>)
    requires Short(s0, writers)
    ensures Retention.Roomy(s0, writers - 1) && !Retention.Roomy(s0, writers)
    ensures AllowedRun(s0, es) && Retention.SharedRun(s0, es, writers) && Lost(Run(s0, es), 0, writers - 1)
  {
    hide AllowedRun, Retention.SharedRun, Lost, Retention.Roomy, Comes, Short, H, Empty, Recorded;
    RoomForOneLess(s0, writers);
    var before, m, o := AllUsed(s0, writers);
    var t := LastFrame(s0, before, m, o, writers - 2, |H(m)| - 1, writers - 1, writers);
    es := before + [Give(writers - 2, PICTURE)];
  }

  /** All slots have been used once, and the oldest segment with a slot is the last one the ring would
      hand out the chunk of. */
  lemma AllUsed(s0: Sys, writers: nat) returns (es: seq<Event>, s: Sys, o: Order)
    requires Short(s0, writers)
    ensures writers >= 2 && |H(s)| == writers - 1 + Chunks(s0) > writers && |o.slots| == Slots(s0) > 0 && o.slots[0] == writers - 1
    ensures Comes(s0, es, s, o, map[writers - 2 := |H(s)| - 1], writers)
    ensures Recorded(H(s), writers - 1) && Empty(H(s), |H(s)| - 1)
  {
    hide Comes, Short, Chunks, Slots, H;
    ShortFacts(s0, writers);
    var i := Chunks(s0) - 2;
    var before, m, p, last := GoRound(s0, writers, i);
    s, o := ComesOn(s0, before, m, p, writers, writers - 2, last);
    assert H(s)[writers - 1] == H(s)[..writers + i][writers - 1];
    es := before + [Retype(writers - 2, REC_CONTINUOUS)];
  }

  lemma RoomForOneLess(s: Sys, writers: nat)
    requires Short(s, writers)
    ensures Retention.Roomy(s, writers - 1) && !Retention.Roomy(s, writers)
  {
    hide GeoOk, RingOk, SlotAt, DataChunks;
    assert BlankDisk(s.pool.devs[0]);
  }
}
