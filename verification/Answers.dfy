/** What queries return and players show, said of the recorded frames alone: the channel, type and times
    asked for, and every field of every frame delivered. */
module Answers {
  import opened Bytes
  import opened RecorderFormat
  import opened StorageDev
  import opened Index
  import opened Recorder
  import opened Player
  import opened Faithful
  import opened Playback
  import opened Recording
  import Group
  import IndexRing
  import Retention

  // ---- what a query asks for ----

  /** Frames from time `first` to time `last` meet the span from `t0` to `t1`, where 0 for `t1` is the end
      of time. Times are kept in 32 bits, and a last time of 2^32 - 1 counts as the end of the span. */
  predicate Meets(first: u64, last: u64, t0: u32, t1: u32) {
    var end := if t1 == 0 then 0xFFFF_FFFF else t1;
    var a, b := first % 0x1_0000_0000, last % 0x1_0000_0000;
    a <= end && t0 <= if b == 0xFFFF_FFFF then end else b
  }

  /** The first `c.count` frames of the segment, closed under type `c.rectype`, are what is asked for;
      channel and type count when they are not negative. */
  predicate Wanted(seg: Seg, c: Closing, q: Filter) {
    && 0 < c.count <= |seg.frames|
    && (q.chn >= 0 ==> seg.chn == q.chn)
    && (q.rectype >= 0 ==> c.rectype == q.rectype)
    && Meets(seg.frames[0].wallTime, seg.frames[c.count - 1].wallTime, q.t0, q.t1)
  }

  function Volume(fs: seq<Frame>): nat { if fs == [] then 0 else |fs[0].data| + Volume(fs[1..]) }

  /** The answer says so. */
  ghost predicate Tells(x: Slot, seg: Seg, c: Closing) {
    && 0 < c.count <= |seg.frames|
    && x.segId == seg.segId && x.chn == seg.chn && x.rectype == c.rectype && x.frameCount == c.count
    && x.startTime == seg.frames[0].wallTime % 0x1_0000_0000 && x.endTime == seg.frames[c.count - 1].wallTime % 0x1_0000_0000
    && x.totalBytes == Volume(seg.frames[..c.count])
  }

  lemma {:induction false} BytesAre(fs: seq<Frame>)
    ensures PayloadBytes(fs) == Volume(fs)
    decreases |fs|
  {
    if fs != [] {
      var n := |fs| - 1;
      if n == 0 {
        assert fs[..0] == [] && fs[1..] == [];
      } else {
        BytesAre(fs[..n]);
        BytesAre(fs[1..]);
        BytesAre(fs[1..][..n - 1]);
        assert fs[..n][1..] == fs[1..][..n - 1] && fs[..n][0] == fs[0] && fs[1..][n - 1] == fs[n];
      }
    }
  }

  /** A slot that describes a closing tells it. */
  lemma DescribedTells(d: Dev, x: Slot, k: nat, seg: Seg)
    requires Describes(d, x, k, seg)
    ensures Closing(x.frameCount, x.rectype) in seg.closings && Tells(x, seg, Closing(x.frameCount, x.rectype))
  {
    hide EncodeSlot, Span, Live, PayloadBytes;
    BytesAre(seg.frames[..x.frameCount]);
  }

  /** It matches a query exactly when it is wanted. */
  lemma MatchIsWanted(d: Dev, x: Slot, k: nat, seg: Seg, q: Filter)
    requires Describes(d, x, k, seg)
    ensures Matches(d.prims, x, q) <==> Wanted(seg, Closing(x.frameCount, x.rectype), q)
  {
    hide EncodeSlot, Span, PayloadBytes;
    assert x.(crc := 0) == ClosedSlot(d, k, seg, x.frameCount, x.rectype).(crc := 0);
    MatchIsTimes(d.prims, x, q);
  }

  /** A slot matches exactly when it is marked valid, carries its own checksum and its fields are what is asked
      for. */
  lemma MatchIsTimes(p: Prims, x: Slot, q: Filter)
    ensures Matches(p, x, q) <==>
      && x.flags % 2 == 1 && p.crc(EncodeSlot(x.(crc := 0))) == x.crc
      && Meets(x.startTime, x.endTime, q.t0, q.t1) && (q.chn >= 0 ==> x.chn == q.chn) && (q.rectype >= 0 ==> x.rectype == q.rectype)
  {
    hide EncodeSlot;
  }

  // ---- the answers of a disk ----

  /** Answer `x` stands for a closing of live segment `k` that is wanted, and playing it delivers the frames. */
  ghost predicate Told(d: Dev, h: seq<Seg>, q: Filter, x: Slot, k: nat, c: Closing, rest: seq<(FrameHdr, seq<byte>)>) {
    && k < |h| && Live(d, |h|, k) && c in h[k].closings && Wanted(h[k], c, q) && Tells(x, h[k], c)
    && Plays(d, PlayOpen(d, x), rest) && Delivers(h[k], c.count, rest)
  }

  lemma AnswerIs(d: Dev, h: seq<Seg>, q: Filter, cap: nat, x: Slot) returns (k: nat, c: Closing, rest: seq<(FrameHdr, seq<byte>)>)
    requires DiskInv(d, h) && x in Collect(d, q, 0, cap)
    ensures Told(d, h, q, x, k, c, rest)
  {
    hide Collect, SlotAt, Describes, Replay, Played, PlayOpen, RingOk, SegsOk, GeoOk, Wanted, Tells, Delivers, Matches, Live;
    CollectSound(d, q, 0, cap);
    var j :| 0 <= j < SlotCount(d) && SlotAt(d, j) == x;
    MatchIsValid(d.prims, x, q);
    assert SlotOwned(d, h, x);
    k :| 0 <= k < |h| && Live(d, |h|, k) && Describes(d, x, k, h[k]);
    c := Closing(x.frameCount, x.rectype);
    DescribedTells(d, x, k, h[k]);
    MatchIsWanted(d, x, k, h[k], q);
    SlotReplays(d, h, x, k, x.frameCount + 1);
    rest := Played(d, h[k], 0, x.frameCount);
    forall m: nat | m > x.frameCount
      ensures Replay(d, PlayOpen(d, x), m) == rest
    {
      SlotReplays(d, h, x, k, m);
    }
    PlayedDelivers(d, h[k], x.frameCount);
  }

  /** In every reachable state every answer to a query stands for a segment that still owns its chunk, closed
      under the type asked for, of the channel asked for, with frames that meet the time asked for; it
      says when they begin and end, how many they are and their bytes; and playing it delivers exactly
      these frames in order, each with its own channel, stream, codec, kind, times and payload. */
  lemma QueryAnswers(s0: Sys, es: seq<Event>, i: nat, q: Filter, cap: nat, x: Slot)
    requires Blank(s0) && AllowedRun(s0, es) && i < |Run(s0, es).hist|
    requires i < |Run(s0, es).pool.devs| && x in Collect(Run(s0, es).pool.devs[i], q, 0, cap)
    ensures var d, h := Run(s0, es).pool.devs[i], Run(s0, es).hist[i]; exists k, c, rest :: Told(d, h, q, x, k, c, rest)
  {
    hide SysInv, Blank, Run, AllowedRun, Collect, Told, DiskInv;
    BlankInv(s0);
    RunKeepsInv(s0, es);
    KnownDisks(Run(s0, es));
    var k, c, rest := AnswerIs(Run(s0, es).pool.devs[i], Run(s0, es).hist[i], q, cap, x);
  }

  // ---- every wanted segment is found ----

  /** Segment `k` of disk `i` has frames and still owns its chunk, no writer has it open, and the answer to the
      query does not fill up. */
  ghost predicate Asked(s: Sys, i: nat, k: nat, q: Filter, cap: nat) {
    && i < |s.hist| && i < |s.pool.devs| && k < |s.hist[i]| && Live(s.pool.devs[i], |s.hist[i]|, k)
    && s.hist[i][k].frames != [] && !(exists id :: Retention.OpenBy(s, id, i, k))
    && |Collect(s.pool.devs[i], q, 0, cap)| < cap
  }

  function LastClosing(seg: Seg): Closing { Closing(|seg.frames|, seg.rectype) }

  lemma WantedIsFound(s: Sys, writers: nat, i: nat, k: nat, q: Filter, cap: nat)
    requires Retention.TidyInv(s, writers) && Asked(s, i, k, q, cap)
    ensures var d, seg := s.pool.devs[i], s.hist[i][k];
      (exists x :: x in Collect(d, q, 0, cap) && Tells(x, seg, LastClosing(seg))) <==> Wanted(seg, LastClosing(seg), q)
  {
    hide SysInv, Collect, SlotAt, Describes, DiskInv, Retention.DiskTidy, Matches, Live, IndexRing.IdsOk, Retention.OpenOn, Wanted, Tells;
    KnownDisks(s);
    var d, h, seg := s.pool.devs[i], s.hist[i], s.hist[i][k];
    assert DiskInv(d, h) && IndexRing.IdsOk(d, h) && Retention.DiskTidy(d, h, Retention.OpenOn(s, i), writers);
    var p := Retention.SettledSlot(d, h, k, Retention.OpenOn(s, i), writers);
    DescribedTells(d, SlotAt(d, p), k, seg);
    MatchIsWanted(d, SlotAt(d, p), k, seg, q);
    CollectSound(d, q, 0, cap);
    if Wanted(seg, LastClosing(seg), q) {
      assert SlotAt(d, p) in Collect(d, q, 0, cap);
    } else if x :| x in Collect(d, q, 0, cap) && Tells(x, seg, LastClosing(seg)) {
      TellsOnce(s, writers, i, k, x, q, cap);
    }
  }

  /** An answer that tells the closing of a segment is that segment's. */
  lemma TellsOnce(s: Sys, writers: nat, i: nat, k: nat, x: Slot, q: Filter, cap: nat)
    requires Retention.TidyInv(s, writers) && Asked(s, i, k, q, cap)
    requires x in Collect(s.pool.devs[i], q, 0, cap) && Tells(x, s.hist[i][k], LastClosing(s.hist[i][k]))
    ensures Wanted(s.hist[i][k], LastClosing(s.hist[i][k]), q)
  {
    hide SysInv, Collect, SlotAt, DiskInv, Matches, IndexRing.IdsOk, Retention.OpenOn, Describes, IndexRing.RoomyIndex, IndexRing.IndexOk;
    KnownDisks(s);
    var d, h := s.pool.devs[i], s.hist[i];
    assert DiskInv(d, h) && IndexRing.IdsOk(d, h) && Retention.DiskTidy(d, h, Retention.OpenOn(s, i), writers);
    var j, c, rest := AnswerIs(d, h, q, cap, x);
    var o :| IndexRing.TidyWith(d, h, Retention.OpenOn(s, i), writers, o);
    RoomyIds(d, writers);
    if j != k {
      IndexRing.LiveIdsDiffer(d, h, j, k);
    }
  }

  lemma RoomyIds(d: Dev, writers: nat)
    requires IndexRing.RoomyIndex(d, writers)
    ensures DataChunks(d) <= SEQ_END
  {
  }

  /** No two of the answers tell it. */
  lemma ToldByOne(s: Sys, writers: nat, i: nat, k: nat, q: Filter, cap: nat, a: nat, b: nat)
    requires Retention.TidyInv(s, writers) && Asked(s, i, k, q, cap)
    requires var found, seg := Collect(s.pool.devs[i], q, 0, cap), s.hist[i][k];
      a < |found| && b < |found| && Tells(found[a], seg, LastClosing(seg)) && Tells(found[b], seg, LastClosing(seg))
    ensures a == b
  {
    hide SysInv, Collect, SlotAt, Describes, DiskInv, Retention.DiskTidy, Matches, Live, IndexRing.IdsOk, Retention.OpenOn, Tells, Wanted, Told;
    KnownDisks(s);
    var d, h := s.pool.devs[i], s.hist[i];
    assert DiskInv(d, h) && IndexRing.IdsOk(d, h) && Retention.DiskTidy(d, h, Retention.OpenOn(s, i), writers);
    var p := Retention.SettledSlot(d, h, k, Retention.OpenOn(s, i), writers);
    var ps := CollectPlaces(d, q, 0, cap);
    AtOwnPlace(s, writers, i, k, q, cap, ps[a], p);
    AtOwnPlace(s, writers, i, k, q, cap, ps[b], p);
  }

  lemma AtOwnPlace(s: Sys, writers: nat, i: nat, k: nat, q: Filter, cap: nat, r: nat, p: nat)
    requires Retention.TidyInv(s, writers) && Asked(s, i, k, q, cap) && r < SlotCount(s.pool.devs[i])
    requires var d, seg := s.pool.devs[i], s.hist[i][k];
      Matches(d.prims, SlotAt(d, r), q) && Tells(SlotAt(d, r), seg, LastClosing(seg)) && Retention.OnlySlot(d, seg, k, p)
    ensures r == p
  {
    hide SysInv, Collect, SlotAt, DiskInv, Matches, IndexRing.IdsOk, Describes, Retention.DiskTidy, Live, Tells;
    KnownDisks(s);
    var d, h := s.pool.devs[i], s.hist[i];
    assert DiskInv(d, h) && IndexRing.IdsOk(d, h);
    MatchIsValid(d.prims, SlotAt(d, r), q);
    var j := OwnerIs(d, h, r);
    TidyRoom(s, i, writers);
    TellsId(SlotAt(d, r), h[k], LastClosing(h[k]));
    DescribedId(d, SlotAt(d, r), j, h[j]);
    if j != k {
      IndexRing.LiveIdsDiffer(d, h, j, k);
    }
  }

  lemma TellsId(x: Slot, seg: Seg, c: Closing)
    requires Tells(x, seg, c)
    ensures x.segId == seg.segId
  {
  }

  lemma OwnerIs(d: Dev, h: seq<Seg>, r: nat) returns (j: nat)
    requires DiskInv(d, h) && r < SlotCount(d) && IsValid(SlotAt(d, r))
    ensures j < |h| && Live(d, |h|, j) && Describes(d, SlotAt(d, r), j, h[j])
  {
    hide SlotAt, Describes, GeoOk, RingOk, SegsOk, Live;
    assert SlotOwned(d, h, SlotAt(d, r));
    j :| 0 <= j < |h| && Live(d, |h|, j) && Describes(d, SlotAt(d, r), j, h[j]);
  }

  lemma TidyRoom(s: Sys, i: nat, writers: nat)
    requires Retention.TidyInv(s, writers) && i < |s.hist| == |s.pool.devs|
    ensures DataChunks(s.pool.devs[i]) <= SEQ_END
  {
    hide SysInv, IndexRing.IndexOk, Retention.OpenOn, IndexRing.RoomyIndex;
    assert Retention.DiskTidy(s.pool.devs[i], s.hist[i], Retention.OpenOn(s, i), writers);
    var o :| IndexRing.TidyWith(s.pool.devs[i], s.hist[i], Retention.OpenOn(s, i), writers, o);
    RoomyIds(s.pool.devs[i], writers);
  }

  /** Under the conditions under which nothing is lost, every closed segment that still owns its chunk is among
      the answers to a query that does not fill up exactly when it is of the channel, type and time asked for;
      and it is there once. */
  lemma QueryFinds(s0: Sys, es: seq<Event>, writers: nat, i: nat, k: nat, q: Filter, cap: nat)
    requires Blank(s0) && Retention.Roomy(s0, writers) && AllowedRun(s0, es) && Retention.SharedRun(s0, es, writers)
    requires Asked(Run(s0, es), i, k, q, cap)
    ensures var found, seg := Collect(Run(s0, es).pool.devs[i], q, 0, cap), Run(s0, es).hist[i][k];
      && ((exists x :: x in found && Tells(x, seg, LastClosing(seg))) <==> Wanted(seg, LastClosing(seg), q))
      && forall a, b :: 0 <= a < |found| && 0 <= b < |found| && Tells(found[a], seg, LastClosing(seg)) && Tells(found[b], seg, LastClosing(seg)) ==> a == b
  {
    hide Retention.TidyInv, Blank, Retention.Roomy, Run, Collect, AllowedRun, Retention.SharedRun, Live, Wanted, Tells;
    Retention.BlankTidy(s0, writers);
    Retention.RunTidy(s0, es, writers);
    WantedIsFound(Run(s0, es), writers, i, k, q, cap);
    var s := Run(s0, es);
    var found, seg := Collect(s.pool.devs[i], q, 0, cap), s.hist[i][k];
    forall a, b | 0 <= a < |found| && 0 <= b < |found| && Tells(found[a], seg, LastClosing(seg)) && Tells(found[b], seg, LastClosing(seg))
      ensures a == b
    {
      ToldByOne(s, writers, i, k, q, cap, a, b);
    }
  }

  // ---- across disks ----

  /** An answer of the pool stands for a wanted closing of live segment `k` of the disk it names. */
  ghost predicate GroupAnswer(s: Sys, q: Filter, x: Slot, k: nat) {
    && x.startDisk < |s.hist| == |s.pool.devs| && k < |s.hist[x.startDisk]|
    && Live(s.pool.devs[x.startDisk], |s.hist[x.startDisk]|, k)
    && exists c :: c in s.hist[x.startDisk][k].closings && Wanted(s.hist[x.startDisk][k], c, q) && Tells(x, s.hist[x.startDisk][k], c)
  }

  lemma GroupAnswerIs(s: Sys, q: Filter, x: Slot, k: nat)
    requires SysInv(s) && MatchOn(s.pool.devs, q, x.startDisk, x) && StandsFor(s.pool.devs, s.hist, x, k)
    ensures GroupAnswer(s, q, x, k)
  {
    hide SysInv, SlotAt, Describes, DiskInv, Matches, Wanted, Tells, Live;
    KnownDisks(s);
    var d, seg := s.pool.devs[x.startDisk], s.hist[x.startDisk][k];
    var p :| 0 <= p < SlotCount(d) && Matches(d.prims, SlotAt(d, p), q) && x == SlotAt(d, p).(startDisk := x.startDisk);
    var disk: u16 :| Describes(d, x.(startDisk := disk), k, seg);
    var y, c := x.(startDisk := disk), Closing(x.frameCount, x.rectype);
    DescribedTells(d, y, k, seg);
    MatchIsWanted(d, y, k, seg, q);
    RenamedTells(y, x, seg, c);
    SameTimes(d, SlotAt(d, p), y, k, seg, q);
  }

  lemma RenamedTells(y: Slot, x: Slot, seg: Seg, c: Closing)
    requires Tells(y, seg, c) && x == y.(startDisk := x.startDisk)
    ensures Tells(x, seg, c)
  {
  }

  /** A slot that says the same but for the disk matches as well. */
  lemma SameTimes(d: Dev, x: Slot, y: Slot, k: nat, seg: Seg, q: Filter)
    requires Matches(d.prims, x, q) && Describes(d, y, k, seg) && y == x.(startDisk := y.startDisk)
    ensures Matches(d.prims, y, q)
  {
    hide EncodeSlot, Span, PayloadBytes;
    assert y.(crc := 0) == ClosedSlot(d, k, seg, y.frameCount, y.rectype).(crc := 0);
  }

  lemma {:induction false} AnswersAre(s: Sys, q: Filter, segs: seq<Slot>, ks: seq<nat>)
    requires SysInv(s) && (forall x :: x in segs ==> MatchOn(s.pool.devs, q, x.startDisk, x)) && AllStandFor(s.pool.devs, s.hist, segs, ks)
    ensures forall j :: 0 <= j < |segs| ==> GroupAnswer(s, q, segs[j], ks[j])
  {
    hide SysInv, MatchOn, StandsFor, GroupAnswer;
    forall j | 0 <= j < |segs|
      ensures GroupAnswer(s, q, segs[j], ks[j])
    {
      GroupAnswerIs(s, q, segs[j], ks[j]);
    }
  }

  /** In every reachable state any answers to a query of the pool, played in any order, stand for wanted segments
      of the disks they name, and playing delivers exactly the frames of these, one segment after the other,
      each with its own channel, stream, codec, kind, times and payload. */
  lemma GroupQueryAnswers(s0: Sys, es: seq<Event>, q: Filter, cap: nat, segs: seq<Slot>)
    requires Blank(s0) && AllowedRun(s0, es) && |Run(s0, es).pool.devs| <= 0x1_0000
    requires forall x :: x in segs ==> x in GroupCollect(Run(s0, es).pool.devs, q, 0, cap)
    ensures var s := Run(s0, es);
      exists ks: seq<nat>, shown :: |ks| == |segs| && (forall j :: 0 <= j < |segs| ==> GroupAnswer(s, q, segs[j], ks[j]))
        && PlaysAcross(s.pool.devs, segs, OpenAt(s.pool.devs, segs, 0), shown) && Shows(s.hist, segs, ks, 0, shown)
  {
    hide SysInv, Blank, Run, AllowedRun, MatchOn, StandsFor, GroupCollect, ReplayAcross, OpenAt, ShownFrom, GroupAnswer, Shows, PlaysAcross;
    BlankInv(s0);
    RunKeepsInv(s0, es);
    var s := Run(s0, es);
    GroupCollectExact(s.pool.devs, q, 0, cap);
    var ks := AnswersStand(s, q, segs);
    AnswersAre(s, q, segs, ks);
    PlaysShown(s, segs, ks);
    ShownShows(s.pool.devs, s.hist, segs, ks, 0);
  }

  lemma PlaysShown(s: Sys, segs: seq<Slot>, ks: seq<nat>)
    requires AllStandFor(s.pool.devs, s.hist, segs, ks)
    ensures PlaysAcross(s.pool.devs, segs, OpenAt(s.pool.devs, segs, 0), ShownFrom(s.pool.devs, s.hist, segs, ks, 0))
  {
    hide StandsFor, ReplayAcross, OpenAt, ShownFrom;
    forall n: nat | n > |ShownFrom(s.pool.devs, s.hist, segs, ks, 0)|
      ensures ReplayAcross(s.pool.devs, segs, OpenAt(s.pool.devs, segs, 0), n) == ShownFrom(s.pool.devs, s.hist, segs, ks, 0)
    {
      GroupPlaysAll(s.pool.devs, s.hist, segs, ks, n);
    }
  }

  /** And a closed segment that still owns its chunk is among the answers of its disk exactly when it is wanted,
      if the answer of the pool does not fill up. */
  lemma GroupQueryFinds(s0: Sys, es: seq<Event>, writers: nat, i: nat, k: nat, q: Filter, cap: nat)
    requires Blank(s0) && Retention.Roomy(s0, writers) && AllowedRun(s0, es) && Retention.SharedRun(s0, es, writers)
    requires |Run(s0, es).pool.devs| <= 0x1_0000 && |GroupCollect(Run(s0, es).pool.devs, q, 0, cap)| < cap
    requires i < |Run(s0, es).pool.devs| && Asked(Run(s0, es), i, k, q, SlotCount(Run(s0, es).pool.devs[i]) + 1)
    ensures var seg := Run(s0, es).hist[i][k];
      (exists x :: x in GroupCollect(Run(s0, es).pool.devs, q, 0, cap) && x.startDisk == i && Tells(x, seg, LastClosing(seg))) <==>
         Wanted(seg, LastClosing(seg), q)
  {
    hide Retention.TidyInv, Blank, Retention.Roomy, Run, Collect, GroupCollect, AllowedRun, Retention.SharedRun, Live, Wanted, Tells, MatchOn;
    var s := Run(s0, es);
    var d, seg, n := s.pool.devs[i], s.hist[i][k], SlotCount(s.pool.devs[i]) + 1;
    QueryFinds(s0, es, writers, i, k, q, n);
    GroupCollectExact(s.pool.devs, q, 0, cap);
    CollectSize(d, q, 0, n);
    if Wanted(seg, LastClosing(seg), q) {
      var x :| x in Collect(d, q, 0, n) && Tells(x, seg, LastClosing(seg));
      var y := FoundOn(s.pool.devs, q, i, n, x);
      RenamedTells(x, y, seg, LastClosing(seg));
    } else if x :| x in GroupCollect(s.pool.devs, q, 0, cap) && x.startDisk == i && Tells(x, seg, LastClosing(seg)) {
      var y := FoundBy(s.pool.devs, q, i, n, x);
      RenamedTells(x, y, seg, LastClosing(seg));
    }
  }

  lemma FoundOn(devs: seq<Dev>, q: Filter, i: nat, cap: nat, x: Slot) returns (y: Slot)
    requires i < |devs| <= 0x1_0000 && x in Collect(devs[i], q, 0, cap)
    ensures MatchOn(devs, q, i, y) && y.startDisk == i && y == x.(startDisk := i)
  {
    hide Collect, SlotAt, Matches;
    CollectSound(devs[i], q, 0, cap);
    y := x.(startDisk := i);
  }

  lemma FoundBy(devs: seq<Dev>, q: Filter, i: nat, cap: nat, x: Slot) returns (y: Slot)
    requires i < |devs| && MatchOn(devs, q, i, x) && |Collect(devs[i], q, 0, cap)| < cap
    ensures y in Collect(devs[i], q, 0, cap) && y == x.(startDisk := y.startDisk)
  {
    hide Collect, SlotAt, Matches;
    CollectSound(devs[i], q, 0, cap);
    var p :| 0 <= p < SlotCount(devs[i]) && Matches(devs[i].prims, SlotAt(devs[i], p), q) && x == SlotAt(devs[i], p).(startDisk := i);
    y := SlotAt(devs[i], p);
  }
}
