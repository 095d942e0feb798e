/** Seeking within a segment, and query and playback across the disks of a group. */
module Playback {
  import opened Bytes
  import opened RecorderFormat
  import opened StorageDev
  import opened Index
  import opened Recorder
  import opened Player
  import opened Faithful

  // ---- seeking ----

  /** Frames from `j` on, among the first `n`, that belong to the leading run with pts at
      most the target end before this number. */
  function RunEnd(fs: seq<Frame>, pts: u64, j: nat, n: nat): (r: nat)
    requires j <= n <= |fs|
    ensures j <= r <= n && (forall i :: j <= i < r ==> fs[i].pts <= pts) && (r < n ==> fs[r].pts > pts)
    decreases n - j
  {
    if j == n || fs[j].pts > pts then j else RunEnd(fs, pts, j + 1, n)
  }

  /** The frame a seek lands on: the last one of the leading run, or the first frame. */
  function SeekTarget(fs: seq<Frame>, pts: u64, n: nat): (r: nat)
    requires 0 < n <= |fs|
    ensures r < n
  {
    if RunEnd(fs, pts, 0, n) == 0 then 0 else RunEnd(fs, pts, 0, n) - 1
  }

  /** For frames in pts order the target is the last frame not later than the request, if
      there is one. */
  lemma SeekTargetNearest(fs: seq<Frame>, pts: u64, n: nat, i: nat)
    requires 0 < n <= |fs| && (forall a, b :: 0 <= a < b < n ==> fs[a].pts <= fs[b].pts)
    requires i < n
    ensures fs[i].pts <= pts ==> i <= SeekTarget(fs, pts, n) && fs[SeekTarget(fs, pts, n)].pts <= pts
    ensures fs[0].pts > pts ==> SeekTarget(fs, pts, n) == 0
  {
  }

  // ---- across disks ----

  function Tagged(s: seq<Slot>, disk: u16): (r: seq<Slot>)
    ensures |r| == |s|
  {
    seq(|s|, i requires 0 <= i < |s| => s[i].(startDisk := disk))
  }

  /** The matches of disks `i` and on, each renamed to its disk's position, as many as fit. */
  function GroupCollect(devs: seq<Dev>, q: Filter, i: nat, cap: nat): (r: seq<Slot>)
    ensures |r| <= cap
    decreases |devs| - i
  {
    if i >= |devs| || cap == 0 then []
    else
      var here := Tagged(Collect(devs[i], q, 0, cap), i % 0x1_0000);
      here + GroupCollect(devs, q, i + 1, cap - |here|)
  }

  /** `s` is a matching slot of disk `j`, renamed to that disk. */
  ghost predicate MatchOn(devs: seq<Dev>, q: Filter, j: nat, s: Slot) {
    j < |devs| && s.startDisk == j
    && exists p :: 0 <= p < SlotCount(devs[j]) && Matches(devs[j].prims, SlotAt(devs[j], p), q) && s == SlotAt(devs[j], p).(startDisk := j)
  }

  /** One disk's answers are exactly its matches, all of them when the cap is not reached. */
  lemma TaggedExact(devs: seq<Dev>, q: Filter, i: nat, cap: nat)
    requires i < |devs| <= 0x1_0000
    ensures var here := Tagged(Collect(devs[i], q, 0, cap), i);
      && (forall s :: s in here ==> s.startDisk == i && MatchOn(devs, q, i, s))
      && (|here| < cap ==> forall s :: MatchOn(devs, q, i, s) ==> s in here)
  {
    hide Collect, SlotAt, Matches;
    var found := Collect(devs[i], q, 0, cap);
    var here := Tagged(found, i);
    CollectSound(devs[i], q, 0, cap);
    forall s | s in here
      ensures s.startDisk == i && MatchOn(devs, q, i, s)
    {
      var k :| 0 <= k < |here| && here[k] == s;
      assert found[k] in found;
    }
    forall s | MatchOn(devs, q, i, s) && |here| < cap
      ensures s in here
    {
      var p :| 0 <= p < SlotCount(devs[i]) && Matches(devs[i].prims, SlotAt(devs[i], p), q) && s == SlotAt(devs[i], p).(startDisk := i);
      assert SlotAt(devs[i], p) in found;
      var k :| 0 <= k < |found| && found[k] == SlotAt(devs[i], p);
      assert here[k] == s;
    }
  }

  /** Every answer is a match of the disk it names; and every match of every disk is there
      when the answer did not fill up. */
  lemma {:induction false} GroupCollectExact(devs: seq<Dev>, q: Filter, i: nat, cap: nat)
    requires |devs| <= 0x1_0000
    ensures forall s :: s in GroupCollect(devs, q, i, cap) ==> i <= s.startDisk && MatchOn(devs, q, s.startDisk, s)
    ensures |GroupCollect(devs, q, i, cap)| < cap ==>
      forall j, s :: i <= j && MatchOn(devs, q, j, s) ==> s in GroupCollect(devs, q, i, cap)
    decreases |devs| - i
  {
    hide Collect, Tagged, SlotAt, Matches, MatchOn;
    if i >= |devs| {
      NoMatchBeyond(devs, q);
    } else if cap > 0 {
      var here := Tagged(Collect(devs[i], q, 0, cap), i);
      HereFits(devs, q, i, cap);
      TaggedExact(devs, q, i, cap);
      GroupCollectExact(devs, q, i + 1, cap - |here|);
      var rest := GroupCollect(devs, q, i + 1, cap - |here|);
      forall j, s | i <= j && MatchOn(devs, q, j, s) && |here + rest| < cap
        ensures s in here + rest
      {
      }
    }
  }

  lemma NoMatchBeyond(devs: seq<Dev>, q: Filter)
    ensures forall j: nat, s :: MatchOn(devs, q, j, s) ==> j < |devs|
  {
  }

  lemma HereFits(devs: seq<Dev>, q: Filter, i: nat, cap: nat)
    requires i < |devs| <= 0x1_0000 && cap > 0
    ensures var here := Tagged(Collect(devs[i], q, 0, cap), i);
      |here| <= cap && GroupCollect(devs, q, i, cap) == here + GroupCollect(devs, q, i + 1, cap - |here|)
  {
    hide Collect;
  }

  /** A place in the index of a disk. */
  datatype Spot = Spot(disk: nat, pos: nat)

  predicate Before(a: Spot, b: Spot) { a.disk < b.disk || (a.disk == b.disk && a.pos < b.pos) }

  ghost predicate MatchAt(devs: seq<Dev>, q: Filter, i: nat, p: Spot) {
    i <= p.disk < |devs| && p.pos < SlotCount(devs[p.disk]) && Matches(devs[p.disk].prims, SlotAt(devs[p.disk], p.pos), q)
  }

  /** The answer is one slot for each of these places, disk by disk from disk `i` on, naming its disk; every
      matching place is among them, up to the last one once the answer is full. */
  ghost predicate Spots(devs: seq<Dev>, q: Filter, i: nat, cap: nat, ps: seq<Spot>, found: seq<Slot>)
    requires |devs| <= 0x1_0000
  {
    && |found| == |ps| <= cap
    && (forall a, b :: 0 <= a < b < |ps| ==> Before(ps[a], ps[b]))
    && (forall a :: 0 <= a < |ps| ==>
          MatchAt(devs, q, i, ps[a]) && found[a] == SlotAt(devs[ps[a].disk], ps[a].pos).(startDisk := ps[a].disk))
    && (forall p :: MatchAt(devs, q, i, p) ==> p in ps || (|ps| == cap && forall a :: 0 <= a < cap ==> Before(ps[a], p)))
  }

  function OnDisk(i: nat, ps: seq<nat>): (r: seq<Spot>)
    ensures |r| == |ps|
  {
    seq(|ps|, a requires 0 <= a < |ps| => Spot(i, ps[a]))
  }

  lemma {:induction false} GroupPlaces(devs: seq<Dev>, q: Filter, i: nat, cap: nat) returns (ps: seq<Spot>)
    requires |devs| <= 0x1_0000
    ensures Spots(devs, q, i, cap, ps, GroupCollect(devs, q, i, cap))
    decreases |devs| - i
  {
    hide Collect, Spots, Places, Tagged;
    if i >= |devs| || cap == 0 {
      ps := [];
      NoSpots(devs, q, i, cap);
    } else {
      var here := CollectPlaces(devs[i], q, 0, cap);
      var found := Collect(devs[i], q, 0, cap);
      assert |found| == |here| by { PlacesCount(devs[i], q, cap, here, found); }
      HereFits(devs, q, i, cap);
      var later := GroupPlaces(devs, q, i + 1, cap - |here|);
      JoinSpots(devs, q, i, cap, here, found, later, GroupCollect(devs, q, i + 1, cap - |here|));
      ps := OnDisk(i, here) + later;
    }
  }

  lemma PlacesCount(d: Dev, q: Filter, cap: nat, ps: seq<nat>, found: seq<Slot>)
    requires Places(d, q, 0, cap, ps, found)
    ensures |found| == |ps|
  {
  }

  lemma NoSpots(devs: seq<Dev>, q: Filter, i: nat, cap: nat)
    requires |devs| <= 0x1_0000 && (i >= |devs| || cap == 0)
    ensures Spots(devs, q, i, cap, [], [])
  {
    hide SlotAt, Matches;
  }

  lemma JoinSpots(devs: seq<Dev>, q: Filter, i: nat, cap: nat, here: seq<nat>, found: seq<Slot>, later: seq<Spot>, rest: seq<Slot>)
    requires i < |devs| <= 0x1_0000 && |here| <= cap && Places(devs[i], q, 0, cap, here, found)
    requires Spots(devs, q, i + 1, cap - |here|, later, rest)
    ensures Spots(devs, q, i, cap, OnDisk(i, here) + later, Tagged(found, i) + rest)
  {
    hide SlotAt, Matches;
    var ps := OnDisk(i, here) + later;
    forall p | MatchAt(devs, q, i, p) && p !in ps
      ensures |ps| == cap && forall a :: 0 <= a < cap ==> Before(ps[a], p)
    {
      if p.disk == i {
        HereOrFull(devs, q, i, cap, here, found, p);
        assert |here| == cap && later == [];
      } else {
        assert p !in later;
      }
    }
  }

  lemma HereOrFull(devs: seq<Dev>, q: Filter, i: nat, cap: nat, here: seq<nat>, found: seq<Slot>, p: Spot)
    requires i < |devs| && Places(devs[i], q, 0, cap, here, found) && MatchAt(devs, q, i, p) && p.disk == i && p !in OnDisk(i, here)
    ensures |here| == cap && forall a :: 0 <= a < cap ==> here[a] < p.pos
  {
    hide SlotAt, Matches;
    assert forall a :: 0 <= a < |here| ==> OnDisk(i, here)[a] == Spot(i, here[a]) && OnDisk(i, here)[a] in OnDisk(i, here);
    assert p.pos !in here;
  }

  // ---- the group player ----

  datatype GroupPl = Ended | Playing(cur: nat, pl: Pl)

  /** Opens segment `cur` on the disk its slot names. */
  function OpenAt(devs: seq<Dev>, segs: seq<Slot>, cur: nat): GroupPl {
    if cur >= |segs| || segs[cur].startDisk >= |devs| then Ended
    else Playing(cur, PlayOpen(devs[segs[cur].startDisk], segs[cur]))
  }

  datatype GroupResult = NoMore | GroupGot(hdr: FrameHdr, data: seq<byte>, disk: u16, rest: GroupPl)

  /** The next frame; when the current segment is over, that of the next one. */
  function NextAcross(devs: seq<Dev>, segs: seq<Slot>, g: GroupPl): GroupResult
    decreases if g.Ended? then 0 else if g.cur < |segs| then |segs| - g.cur + 1 else 1
  {
    if g.Ended? || g.cur >= |segs| || segs[g.cur].startDisk >= |devs| then NoMore
    else match NextFrame(devs[segs[g.cur].startDisk], g.pl)
      case Got(h, data, rest) => GroupGot(h, data, segs[g.cur].startDisk, Playing(g.cur, rest))
      case Stop(_) => NextAcross(devs, segs, OpenAt(devs, segs, g.cur + 1))
  }

  function ReplayAcross(devs: seq<Dev>, segs: seq<Slot>, g: GroupPl, n: nat): seq<(FrameHdr, seq<byte>, u16)>
    decreases n
  {
    if n == 0 then []
    else match NextAcross(devs, segs, g)
      case NoMore => []
      case GroupGot(h, data, disk, rest) => [(h, data, disk)] + ReplayAcross(devs, segs, rest, n - 1)
  }

  /** From here the group player delivers `rest` and then nothing more. */
  ghost predicate PlaysAcross(devs: seq<Dev>, segs: seq<Slot>, g: GroupPl, rest: seq<(FrameHdr, seq<byte>, u16)>) {
    forall n: nat :: n > |rest| ==> ReplayAcross(devs, segs, g, n) == rest
  }

  // ---- what the group player shows ----

  /** Segment `k` of disk `s.startDisk` is the one `s` stands for. */
  ghost predicate StandsFor(devs: seq<Dev>, hist: seq<seq<Seg>>, s: Slot, k: nat) {
    && s.startDisk < |devs| == |hist| && k < |hist[s.startDisk]|
    && var d, h := devs[s.startDisk], hist[s.startDisk];
    && DiskInv(d, h) && Live(d, |h|, k)
    && exists disk: u16 :: Describes(d, s.(startDisk := disk), k, h[k])
  }

  ghost predicate AllStandFor(devs: seq<Dev>, hist: seq<seq<Seg>>, segs: seq<Slot>, ks: seq<nat>) {
    |ks| == |segs| && forall j :: 0 <= j < |segs| ==> StandsFor(devs, hist, segs[j], ks[j])
  }

  function WithDisk(s: seq<(FrameHdr, seq<byte>)>, disk: u16): (r: seq<(FrameHdr, seq<byte>, u16)>)
    ensures |r| == |s|
  {
    seq(|s|, i requires 0 <= i < |s| => (s[i].0, s[i].1, disk))
  }

  /** The frames of the segments from number `j` on, one segment after the other. */
  ghost function ShownFrom(devs: seq<Dev>, hist: seq<seq<Seg>>, segs: seq<Slot>, ks: seq<nat>, j: nat): seq<(FrameHdr, seq<byte>, u16)>
    requires AllStandFor(devs, hist, segs, ks) && j <= |segs|
    decreases |segs| - j
  {
    if j == |segs| then []
    else
      assert StandsFor(devs, hist, segs[j], ks[j]);
      var d, seg := devs[segs[j].startDisk], hist[segs[j].startDisk][ks[j]];
      WithDisk(Played(d, seg, 0, segs[j].frameCount), segs[j].startDisk) + ShownFrom(devs, hist, segs, ks, j + 1)
  }

  lemma StandsFacts(devs: seq<Dev>, hist: seq<seq<Seg>>, s: Slot, k: nat)
    requires StandsFor(devs, hist, s, k)
    ensures var d, seg := devs[s.startDisk], hist[s.startDisk][k];
      && SegOk(d, k, seg) && ChunkBytes(d) < 0x8000_0000 && 0 < s.frameCount <= |seg.frames| <= U32_MAX
      && StandsAt(d, PlayOpen(d, s), k, seg, s.frameCount, 0)
  {
    hide EncodeSlot, Recorded, RingOk, SlotsOk, SlotCrc;
    var d, h := devs[s.startDisk], hist[s.startDisk];
    GeoHasSlots(d);
    assert h[k].frames[..0] == [];
  }

  /** From frame `i` of segment `j` on: the rest of that segment, then all later ones. */
  lemma {:induction false} AcrossFrom(devs: seq<Dev>, hist: seq<seq<Seg>>, segs: seq<Slot>, ks: seq<nat>, j: nat, i: nat, p: Pl, n: nat)
    requires AllStandFor(devs, hist, segs, ks) && j < |segs| && StandsFor(devs, hist, segs[j], ks[j])
    requires StandsAt(devs[segs[j].startDisk], p, ks[j], hist[segs[j].startDisk][ks[j]], segs[j].frameCount, i)
    requires |hist[segs[j].startDisk][ks[j]].frames| <= U32_MAX
    requires n > segs[j].frameCount - i + |ShownFrom(devs, hist, segs, ks, j + 1)|
    ensures ReplayAcross(devs, segs, Playing(j, p), n)
         == WithDisk(Played(devs[segs[j].startDisk], hist[segs[j].startDisk][ks[j]], i, segs[j].frameCount), segs[j].startDisk)
            + ShownFrom(devs, hist, segs, ks, j + 1)
    decreases |segs| - j, segs[j].frameCount - i
  {
    hide HdrFor, Span, NextFrame, Recorded, StandsFor, PlayOpen, DiskInv;
    StandsDisk(devs, hist, segs[j], ks[j]);
    var d, seg, c := devs[segs[j].startDisk], hist[segs[j].startDisk][ks[j]], segs[j].frameCount;
    StandsFacts(devs, hist, segs[j], ks[j]);
    if i < c {
      FrameReads(d, p, ks[j], seg, c, i);
      var p' := p.(curOff := SpanTo(d, seg, i + 1));
      AcrossFrom(devs, hist, segs, ks, j, i + 1, p', n - 1);
      PlayedStep(d, seg, i, c, segs[j].startDisk);
    } else {
      EndReached(d, p, ks[j], seg, c);
      AcrossNext(devs, hist, segs, ks, j, n, p);
    }
  }

  lemma ShownStep(devs: seq<Dev>, hist: seq<seq<Seg>>, segs: seq<Slot>, ks: seq<nat>, j: nat)
    requires AllStandFor(devs, hist, segs, ks) && j < |segs|
    ensures StandsFor(devs, hist, segs[j], ks[j]) && segs[j].startDisk < |devs| == |hist| && ks[j] < |hist[segs[j].startDisk]|
    ensures var d, seg := devs[segs[j].startDisk], hist[segs[j].startDisk][ks[j]];
      && segs[j].frameCount <= |seg.frames| <= U32_MAX
      && ShownFrom(devs, hist, segs, ks, j) ==
           WithDisk(Played(d, seg, 0, segs[j].frameCount), segs[j].startDisk) + ShownFrom(devs, hist, segs, ks, j + 1)
      && |ShownFrom(devs, hist, segs, ks, j)| == segs[j].frameCount + |ShownFrom(devs, hist, segs, ks, j + 1)|
  {
    hide HdrFor, StandsFor;
    assert StandsFor(devs, hist, segs[j], ks[j]);
    StandsDisk(devs, hist, segs[j], ks[j]);
    StandsFacts(devs, hist, segs[j], ks[j]);
  }

  lemma ShownEnd(devs: seq<Dev>, hist: seq<seq<Seg>>, segs: seq<Slot>, ks: seq<nat>)
    requires AllStandFor(devs, hist, segs, ks)
    ensures segs == [] ==> forall n :: ReplayAcross(devs, segs, OpenAt(devs, segs, 0), n) == ShownFrom(devs, hist, segs, ks, 0)
  {
    hide StandsFor;
  }

  lemma StandsDisk(devs: seq<Dev>, hist: seq<seq<Seg>>, s: Slot, k: nat)
    requires StandsFor(devs, hist, s, k)
    ensures s.startDisk < |devs| == |hist| && k < |hist[s.startDisk]|
  {
  }

  lemma PlayedStep(d: Dev, seg: Seg, i: nat, c: nat, disk: u16)
    requires i < c <= |seg.frames| <= U32_MAX
    ensures WithDisk(Played(d, seg, i, c), disk)
         == [(HdrFor(d, seg.segId, i, seg.frames[i]), seg.frames[i].data, disk)] + WithDisk(Played(d, seg, i + 1, c), disk)
  {
    hide HdrFor;
  }

  /** At the end of a segment the player goes on with the next one. */
  lemma {:induction false} AcrossNext(devs: seq<Dev>, hist: seq<seq<Seg>>, segs: seq<Slot>, ks: seq<nat>, j: nat, n: nat, p: Pl)
    requires AllStandFor(devs, hist, segs, ks) && j < |segs| && segs[j].startDisk < |devs|
    requires NextFrame(devs[segs[j].startDisk], p).Stop? && n > |ShownFrom(devs, hist, segs, ks, j + 1)|
    ensures ReplayAcross(devs, segs, Playing(j, p), n) == ShownFrom(devs, hist, segs, ks, j + 1)
    decreases |segs| - j, -1
  {
    hide HdrFor, Span, NextFrame, Recorded, StandsFor, PlayOpen, DiskInv, Played;
    assert NextAcross(devs, segs, Playing(j, p)) == NextAcross(devs, segs, OpenAt(devs, segs, j + 1));
    if j + 1 < |segs| {
      var s := segs[j + 1];
      assert StandsFor(devs, hist, s, ks[j + 1]);
      StandsDisk(devs, hist, s, ks[j + 1]);
      StandsFacts(devs, hist, s, ks[j + 1]);
      var p1 := PlayOpen(devs[s.startDisk], s);
      ShownStep(devs, hist, segs, ks, j + 1);
      AcrossFrom(devs, hist, segs, ks, j + 1, 0, p1, n);
      assert ReplayAcross(devs, segs, Playing(j, p), n) == ReplayAcross(devs, segs, Playing(j + 1, p1), n);
    }
  }

  /** Group playback is the concatenation of the segments' frames, each read from the disk its
      slot names, and it ends. */
  lemma GroupPlaysAll(devs: seq<Dev>, hist: seq<seq<Seg>>, segs: seq<Slot>, ks: seq<nat>, n: nat)
    requires AllStandFor(devs, hist, segs, ks) && n > |ShownFrom(devs, hist, segs, ks, 0)|
    ensures ReplayAcross(devs, segs, OpenAt(devs, segs, 0), n) == ShownFrom(devs, hist, segs, ks, 0)
  {
    hide HdrFor, NextFrame, StandsFor, PlayOpen, Played, ShownFrom, StandsAt, SegOk, NextAcross, ReplayAcross;
    ShownEnd(devs, hist, segs, ks);
    if segs != [] {
      assert StandsFor(devs, hist, segs[0], ks[0]);
      StandsDisk(devs, hist, segs[0], ks[0]);
      StandsFacts(devs, hist, segs[0], ks[0]);
      ShownStep(devs, hist, segs, ks, 0);
      AcrossFrom(devs, hist, segs, ks, 0, 0, PlayOpen(devs[segs[0].startDisk], segs[0]), n);
    }
  }

  /** The leading frames of segments `j` and on, as many as each answer counts, from the disks named. */
  ghost predicate Shows(hist: seq<seq<Seg>>, segs: seq<Slot>, ks: seq<nat>, j: nat, shown: seq<(FrameHdr, seq<byte>, u16)>)
    decreases |segs| - j
  {
    if j >= |segs| then shown == []
    else
      && j < |ks| && segs[j].startDisk < |hist| && ks[j] < |hist[segs[j].startDisk]| && segs[j].frameCount <= |shown|
      && (forall i :: 0 <= i < segs[j].frameCount ==>
            Carries(hist[segs[j].startDisk][ks[j]], i, shown[i].0, shown[i].1) && shown[i].2 == segs[j].startDisk)
      && Shows(hist, segs, ks, j + 1, shown[segs[j].frameCount..])
  }

  lemma {:induction false} ShownShows(devs: seq<Dev>, hist: seq<seq<Seg>>, segs: seq<Slot>, ks: seq<nat>, j: nat)
    requires AllStandFor(devs, hist, segs, ks) && j <= |segs|
    ensures Shows(hist, segs, ks, j, ShownFrom(devs, hist, segs, ks, j))
    decreases |segs| - j
  {
    hide HdrFor, StandsFor, Carries, Played;
    if j < |segs| {
      ShownStep(devs, hist, segs, ks, j);
      ShownShows(devs, hist, segs, ks, j + 1);
      var d, seg, n := devs[segs[j].startDisk], hist[segs[j].startDisk][ks[j]], segs[j].frameCount;
      PlayedDelivers(d, seg, n);
      var here, rest := WithDisk(Played(d, seg, 0, n), segs[j].startDisk), ShownFrom(devs, hist, segs, ks, j + 1);
      var shown := ShownFrom(devs, hist, segs, ks, j);
      assert shown == here + rest;
      assert shown[n..] == rest;
      forall i | 0 <= i < n
        ensures Carries(seg, i, shown[i].0, shown[i].1) && shown[i].2 == segs[j].startDisk
      {
        assert shown[i] == here[i];
      }
    }
  }
}
