/** A run in which the ring hands out a chunk that a writer still has open, and what a viewer then
    gets for the segment of that writer. */
module Lapping {
  import opened Bytes
  import opened RecorderFormat
  import opened StorageDev
  import opened Index
  import opened Recorder
  import opened Player
  import opened Faithful
  import opened Group
  import opened Recording
  import opened SlotOrder
  import opened IndexRing
  import opened OneDisk
  import Retention

  // ---- every chunk is taken ----

  /** Writer 0 records a frame, and further writers take the other chunks. */
  lemma {:induction false} TakeAll(s0: Sys, k: nat) returns (es: seq<Event>, s: Sys, o: Order, open: map<nat, nat>)
    requires BlankOverwriting(s0) && Slots(s0) >= 2 && 1 <= k <= Chunks(s0)
    ensures Comes(s0, es, s, o, open, Chunks(s0) + 1) && |H(s)| == k && |o.slots| == 1
    ensures 0 in open && open[0] == 0 && H(s)[0].frames == [PICTURE] && forall x :: x in open ==> x < k
    decreases k
  {
    hide Comes, Chunks, Slots, H, BlankOverwriting;
    ChunkBound(s0);
    if k == 1 {
      ComesStart(s0, Chunks(s0) + 1);
      var m, p := ComesOpen(s0, [], s0, Order([], []), map[], Chunks(s0) + 1, 0);
      open := map[][0 := 0];
      s, o := ComesFirst(s0, [] + [OpenEvent(0)], m, p, open, Chunks(s0) + 1, 0);
      es := [] + [OpenEvent(0)] + [Give(0, PICTURE)];
    } else {
      var before, m, p, was := TakeAll(s0, k - 1);
      s, o := ComesOpen(s0, before, m, p, was, Chunks(s0) + 1, k - 1);
      es, open := before + [OpenEvent(k - 1)], was[k - 1 := k - 1];
      assert H(s)[0] == H(s)[..k - 1][0];
    }
  }

  lemma ChunkBound(s: Sys)
    requires BlankOverwriting(s)
    ensures 1 <= Chunks(s) <= SEQ_END < MAX_STARTS
  {
    hide Blank, DataChunks;
  }

  // ---- the disk ----

  lemma FlushAnswers(d: Dev, q: Filter, i: nat, cap: nat)
    requires GeoOk(d)
    ensures Collect(Flush(d), q, i, cap) == Collect(d, q, i, cap)
    decreases SlotCount(d) - i
  {
    hide SlotAt, Matches, Flush, GeoOk;
    FlushSlotAt(d, i);
    assert SlotCount(Flush(d)) == SlotCount(d) && Flush(d).prims == d.prims by { SameDeviceFacts(d, Flush(d)); }
    if i < SlotCount(d) && cap > 0 {
      FlushAnswers(d, q, i + 1, if Matches(d.prims, SlotAt(d, i), q) then cap - 1 else cap);
    }
  }

  lemma SameDeviceFacts(d: Dev, e: Dev)
    requires SameDevice(d, e)
    ensures SlotCount(e) == SlotCount(d) && e.prims == d.prims
  {
    assert d.st.(crc := 0, indexNext := 0).slotCount == d.st.slotCount;
  }

  /** The slot a lapped writer publishes, on the disk `e`. */
  ghost predicate Stale(e: Dev, g: seq<Seg>, x: Slot, j: nat) {
    && GeoOk(e) && RingOk(e, |g|) && DataChunks(e) > 0 && j < |g| && SegOk(e, j, g[j])
    && x in Collect(e, EVERYTHING, 0, SlotCount(e) + 1) && !SlotOwned(e, g, x) && StandsAt(e, PlayOpen(e, x), j, g[j], 1, 0)
  }

  lemma PublishedStale(d: Dev, h: seq<Seg>, w: Wr, k: nat, j: nat)
    requires DiskInv(d, h) && IdsOk(d, h) && k < |h| <= k + SEQ_END && DataChunks(d) <= SEQ_END
    requires !Live(d, |h|, k) && w.segId == h[k].segId && w.frameCount > 0 && w.endOff == 0 && w.chunk == ChunkNo(d, k)
    requires j < |h| && j != k && Live(d, |h|, j) && ChunkNo(d, j) == ChunkNo(d, k) && h[j].frames != []
    ensures SlotCount(d) > 0 && SlotCount(Finalize(d, w)) == SlotCount(d)
    ensures Stale(Finalize(d, w), h[k := Faithful.Close(h[k], w.rectype)], SealSlot(d.prims, FillSlot(d, w, true)), j)
  {
    hide GeoOk, RingOk, SegOk, SlotsOk, IdsOk, Finalize, FillSlot, SealSlot, Collect, DataChunks, SameStatic, SameData, SlotOwned, StandsAt, PlayOpen;
    GeoHasSlots(d);
    StaleAnswer(d, h, w, k);
    StaticFacts(d, Finalize(d, w));
    LiveSegOk(d, h, j);
    SegOkSame(d, Finalize(d, w), j, h[j]);
    StaleStands(d, Finalize(d, w), h, w, k, j);
  }

  lemma FlushedStale(e: Dev, g: seq<Seg>, x: Slot, j: nat)
    requires Stale(e, g, x, j)
    ensures Stale(Flush(e), g, x, j) && SlotCount(Flush(e)) == SlotCount(e)
  {
    hide GeoOk, RingOk, SegOk, Collect, DataChunks, SameStatic, SameData, SlotOwned, Flush;
    FlushStatic(e, |g|);
    FlushAnswers(e, EVERYTHING, 0, SlotCount(e) + 1);
    StaticFacts(e, Flush(e));
    NotOwnedStays(e, Flush(e), g, x);
    SegOkSame(e, Flush(e), j, g[j]);
  }

  lemma StalePlays(e: Dev, g: seq<Seg>, x: Slot, j: nat)
    requires Stale(e, g, x, j)
    ensures 0 < |g[j].frames| <= U32_MAX && Plays(e, PlayOpen(e, x), Played(e, g[j], 0, 1))
  {
    hide GeoOk, RingOk, Collect, DataChunks, SlotOwned, Replay, Played, Recorded, Span, PlayOpen;
    GeoHasSlots(e);
    RecordedLength(e, j, g[j]);
    forall n: nat | n > 1
      ensures Replay(e, PlayOpen(e, x), n) == Played(e, g[j], 0, 1)
    {
      ReplayFrom(e, PlayOpen(e, x), j, g[j], 1, 0, n);
    }
  }

  lemma LiveSegOk(d: Dev, h: seq<Seg>, j: nat)
    requires DiskInv(d, h) && j < |h| && Live(d, |h|, j)
    ensures SegOk(d, j, h[j])
  {
    hide SegOk, GeoOk, RingOk, SlotsOk;
  }

  lemma NotOwnedStays(d: Dev, e: Dev, h: seq<Seg>, x: Slot)
    requires SameStatic(d, e) && !SlotOwned(d, h, x)
    ensures !SlotOwned(e, h, x)
  {
    hide SameStatic, SlotOwned;
    if SlotOwned(e, h, x) {
      SameStaticBack(d, e);
      SlotOwnedSame(e, d, h, x);
    }
  }

  lemma SameStaticBack(d: Dev, e: Dev)
    requires SameStatic(d, e)
    ensures SameStatic(e, d)
  {
    assert d.st.(crc := 0, indexNext := 0, chn := e.st.chn) == e.st.(crc := 0, indexNext := 0, chn := d.st.chn).(chn := e.st.chn);
  }

  /** The slot says the segment has one frame, at the beginning of the chunk. */
  lemma StaleStands(d: Dev, f: Dev, h: seq<Seg>, w: Wr, k: nat, j: nat)
    requires k < |h| && j < |h| && w.endOff == 0 && w.chunk == ChunkNo(d, k) && ChunkNo(d, j) == ChunkNo(d, k) && h[j].frames != []
    requires ChunkNo(f, j) == ChunkNo(d, j)
    ensures StandsAt(f, PlayOpen(f, SealSlot(d.prims, FillSlot(d, w, true))), j, h[j], 1, 0)
  {
    hide EncodeSlot;
    assert h[j].frames[..0] == [] && Span([]) == 0;
  }

  // ---- the run ----

  const OTHER := Recorder.Frame(0, 0, 0, 0, 1, 0, [1])

  /** What a writer's place says after one frame. */
  lemma OneFrame(d: Dev, h: seq<Seg>, w: Wr, k: nat)
    requires WriterAt(d, h, w, k) && h[k].frames == [PICTURE]
    ensures w.frameCount == 1 && w.endOff == 0 && w.segId == h[k].segId && w.chunk == ChunkNo(d, k)
  {
    assert h[k].frames[..0] == [] && Span([]) == 0;
  }

  lemma ChunkWraps(d: Dev, n: nat)
    requires n == DataChunks(d) > 0
    ensures ChunkNo(d, n) == 0 && ChunkNo(d, 0) == 0
  {
    ModUnique(n, n, 1, 0);
    ModUnique(0, n, 0, 0);
  }

  /** A query for everything returns a slot of segment `k` that stands for no live segment, and playing it
      shows the first frame of segment `j`, another writer's. */
  ghost predicate Shown(s: Sys, k: nat, j: nat) {
    && |s.hist| == |s.pool.devs| == 1 && k < |s.hist[0]| && j < |s.hist[0]| && s.hist[0][j].segId != s.hist[0][k].segId
    && var d, h := s.pool.devs[0], s.hist[0];
    0 < |h[j].frames| <= U32_MAX && h[k].frames != [] && h[j].frames[0] != h[k].frames[0] &&
    exists x :: x in Collect(d, EVERYTHING, 0, SlotCount(d) + 1) && x.segId == h[k].segId && !SlotOwned(d, h, x)
      && Plays(d, PlayOpen(d, x), Played(d, h[j], 0, 1))
  }

  // ---- the three steps that lap ----

  /** Writer 0 still holds its place on segment 0; writer `c` has segment `c`. */
  ghost predicate Lapped(s: Sys, o: Order, a: Wr, c: nat) {
    && |s.hist| == |s.pool.devs| == 1 && DiskAt(s.pool.devs[0], s.hist[0], o)
    && DataChunks(s.pool.devs[0]) == c && |s.hist[0]| == c + 1
    && On(s, 0, 0) && s.writers[0] == a && On(s, c, c) && WriterAt(s.pool.devs[0], s.hist[0], s.writers[c], c)
  }

  lemma LappedReady(s: Sys, o: Order, a: Wr, c: nat)
    requires Lapped(s, o, a, c)
    ensures Ready(s.pool) && DiskInv(s.pool.devs[0], s.hist[0]) && IdsOk(s.pool.devs[0], s.hist[0])
  {
    hide DiskAt, Load, WriterAt, DiskInv, IdsOk;
    RingRoom(s.pool.devs[0], s.hist[0], o);
    DiskSlots(s.pool.devs[0], s.hist[0], o);
  }

  lemma LapOpens(s: Sys, o: Order, open: map<nat, nat>, c: nat) returns (p: Order)
    requires Stage(s, o, open) && |s.hist| == |s.pool.devs| == 1 && 0 in open && open[0] == 0 && c !in open
    requires 0 < c == DataChunks(s.pool.devs[0]) == |s.hist[0]| < SEQ_END
    ensures Ready(s.pool) && Step(s, OpenEvent(c)).status.Ok?
    ensures var t := Step(s, OpenEvent(c)).sys;
      && Lapped(t, p, s.writers[0], c) && t.hist[0][..c] == s.hist[0] && t.hist[0][c].frames == [] && t.hist[0][c].closed == 0
      && SlotCount(t.pool.devs[0]) == SlotCount(s.pool.devs[0]) && p.slots == o.slots
  {
    hide DiskAt, SysInv, Begin, Load, FreshSeg, DataChunks, StartOn, WriterAt, DiskInv, EpochRoom, IdsOk;
    OnFacts(s, o, open, 0);
    var w := NewWriter(false, 0, c % 0x1_0000, REC_CONTINUOUS);
    StageReady(s, o, open);
    BeginDisk(s, o, open, c, w);
    StartAt(s.pool.devs[0], s.hist[0], w, o);
    DiskSlots(s.pool.devs[0], s.hist[0], o);
    StartKeepsInv(s.pool.devs[0], s.hist[0], w);
    FreshEmpty(s.pool.devs[0], w);
    p := SlotOrder.Started(o, {}, c);
    assert Step(s, OpenEvent(c)).sys == Begin(s, c, w).sys;
  }

  lemma LapGives(s: Sys, o: Order, a: Wr, c: nat) returns (p: Order)
    requires Lapped(s, o, a, c) && c > 0 && s.hist[0][c].frames == [] && s.hist[0][c].closed == 0 && |o.slots| < SlotCount(s.pool.devs[0])
    ensures Ready(s.pool) && Step(s, Give(c, OTHER)).status.Ok?
    ensures var t := Step(s, Give(c, OTHER)).sys;
      && Lapped(t, p, a, c) && t.hist[0] == s.hist[0][c := Extend(s.hist[0][c], OTHER)]
  {
    hide DiskAt, Load, Accept, Refusal, MustRotate, Faithful.Fits, Begin, Finish, DiskInv, IdsOk, PutFrame, WriterAt, Extend, DataChunks;
    LappedReady(s, o, a, c);
    var d, w := s.pool.devs[0], s.writers[c];
    EmptyWriter(d, s.hist[0], w, c);
    WriterGeo(d, s.hist[0], w, c);
    PictureFits(d, w, OTHER);
    FirstAt(d, s.hist[0], w, c, OTHER, o);
    PutFrameKeepsInv(d, s.hist[0], w, c, OTHER);
    DiskSlots(d, s.hist[0], o);
    AcceptOn(s, c, OTHER);
    PutKeepsPlace(d, w, OTHER);
    p := Appended(o, c);
    assert Step(s, Give(c, OTHER)).sys == Accept(s, c, OTHER);
  }

  lemma EmptyWriter(d: Dev, h: seq<Seg>, w: Wr, k: nat)
    requires WriterAt(d, h, w, k)
    ensures w.frameCount == |h[k].frames| && Live(d, |h|, k)
  {
    hide Span, PayloadBytes;
  }

  lemma LapCloses(s: Sys, o: Order, a: Wr, c: nat)
    requires Lapped(s, o, a, c) && 0 < c < SEQ_END && s.hist[0][0].frames == [PICTURE] && s.hist[0][c].frames == [OTHER]
    requires a.segId == s.hist[0][0].segId && a.frameCount == 1 && a.endOff == 0 && a.chunk == 0
    ensures Ready(s.pool) && Shown(Step(s, CloseWriter(0)).sys, 0, c)
  {
    hide DiskAt, Load, DiskInv, IdsOk, WriterAt, DataChunks, Finalize, Flush, FillSlot, SealSlot, CloseW, Finish, Stale, Collect, SlotOwned, Plays, Played;
    LappedReady(s, o, a, c);
    var d, h := s.pool.devs[0], s.hist[0];
    CloseIs(s, 0);
    FinishOn(s, 0);
    EmptyWriter(d, h, s.writers[c], c);
    ChunkWraps(d, c);
    var g, x, e := h[0 := Faithful.Close(h[0], a.rectype)], SealSlot(d.prims, FillSlot(d, a, true)), Finalize(d, a);
    PublishedStale(d, h, a, 0, c);
    FlushedStale(e, g, x, c);
    StalePlays(Flush(e), g, x, c);
    StaleFacts(Flush(e), g, x, c);
    FilledId(d, a, true);
    SealedId(d.prims, FillSlot(d, a, true));
    NearIdDiffers(d, h, 0, c);
  }

  lemma StaleFacts(e: Dev, g: seq<Seg>, x: Slot, j: nat)
    requires Stale(e, g, x, j)
    ensures x in Collect(e, EVERYTHING, 0, SlotCount(e) + 1) && !SlotOwned(e, g, x)
  {
  }

  lemma SealedId(p: Prims, s: Slot)
    ensures SealSlot(p, s).segId == s.segId
  {
  }

  /** On any blank overwriting disk there is an allowed run, one writer for every chunk, after which one
      more writer opens and takes the chunk of the first; it records a frame, the first writer closes,
      and a viewer of the first writer's segment then gets the other writer's frame. */
  lemma LappedViewer(s0: Sys) returns (es: seq<Event>, s: Sys)
    requires BlankOverwriting(s0) && Slots(s0) >= 2 && Chunks(s0) < SEQ_END
    ensures AllowedRun(s0, es) && Run(s0, es) == s && |s.hist| == |s.pool.devs| == 1 && Ready(s.pool)
    ensures var c := Chunks(s0); !NotLapping(s, 0, c) && !Allowed(s, OpenEvent(c)) && Step(s, OpenEvent(c)).status.Ok?
    ensures var c := Chunks(s0); var s1 := Step(s, OpenEvent(c)).sys;
      Ready(s1.pool) && |s1.hist| == |s1.pool.devs| && Step(s1, Give(c, OTHER)).status.Ok?
    ensures var c := Chunks(s0); var s2 := Step(Step(s, OpenEvent(c)).sys, Give(c, OTHER)).sys;
      Ready(s2.pool) && |s2.hist| == |s2.pool.devs| && Shown(Step(s2, CloseWriter(0)).sys, 0, c)
  {
    var c := Chunks(s0);
    var o, open;
    ChunkBound(s0);
    es, s, o, open := TakeAll(s0, c);
    hide Stage, Step, AllowedRun, Run, Allowed, NotLapping, Shown, Lapped, BlankOverwriting, Retention.SharedRun;
    StageOne(s, o, open);
    Laps(s, o, open, c);
    OpenPlace(s, o, open);
    var p := LapOpens(s, o, open, c);
    var s1 := Step(s, OpenEvent(c)).sys;
    assert s1.hist[0][0] == s1.hist[0][..c][0];
    LappedReady(s1, p, s.writers[0], c);
    var q := LapGives(s1, p, s.writers[0], c);
    var s2 := Step(s1, Give(c, OTHER)).sys;
    LappedReady(s2, q, s.writers[0], c);
    assert [] + [OTHER] == [OTHER];
    LapCloses(s2, q, s.writers[0], c);
  }

  /** Writer 0 has the chunk that is next. */
  lemma Laps(s: Sys, o: Order, open: map<nat, nat>, c: nat)
    requires Stage(s, o, open) && |s.hist| == |s.pool.devs| == 1 && 0 in open && open[0] == 0 && c !in open
    requires 0 < c == DataChunks(s.pool.devs[0]) == |s.hist[0]|
    ensures Ready(s.pool) && !NotLapping(s, 0, c) && !Allowed(s, OpenEvent(c))
  {
    hide DiskAt, SysInv, Load, DataChunks, WriterAt, Alloc, DiskInv, IdsOk, EpochRoom;
    StageReady(s, o, open);
    OnFacts(s, o, open, 0);
    RingRoom(s.pool.devs[0], s.hist[0], o);
    DiskSlots(s.pool.devs[0], s.hist[0], o);
    ChunkWraps(s.pool.devs[0], c);
    RingOfDisk(s.pool.devs[0], s.hist[0]);
    AllocNth(s.pool.devs[0], |s.hist[0]|);
  }

  lemma RingOfDisk(d: Dev, h: seq<Seg>)
    requires DiskInv(d, h)
    ensures RingOk(d, |h|)
  {
  }

  lemma OpenPlace(s: Sys, o: Order, open: map<nat, nat>)
    requires Stage(s, o, open) && |s.hist| == |s.pool.devs| == 1 && 0 in open && open[0] == 0
    requires s.hist[0] != [] && s.hist[0][0].frames == [PICTURE]
    ensures 0 in s.writers && var a := s.writers[0]; a.segId == s.hist[0][0].segId && a.frameCount == 1 && a.endOff == 0 && a.chunk == 0
  {
    hide DiskAt, SysInv, WriterAt, DataChunks;
    OnFacts(s, o, open, 0);
    OneFrame(s.pool.devs[0], s.hist[0], s.writers[0], 0);
    ModZero(DataChunks(s.pool.devs[0]));
  }

  lemma ModZero(m: nat)
    ensures m > 0 ==> 0 % m == 0
  {
  }
}
