/** Seeking across the segments of a group player. */
module GroupSeek {
  import opened Bytes
  import opened RecorderFormat
  import opened StorageDev
  import opened Recorder
  import opened Player
  import opened Faithful
  import opened Playback
  import opened PlaybackEnds
  import opened Walks

  ghost function SegAt(hist: seq<seq<Seg>>, segs: seq<Slot>, ks: seq<nat>, i: nat): Seg
    requires i < |segs| == |ks| && segs[i].startDisk < |hist| && ks[i] < |hist[segs[i].startDisk]|
  {
    hist[segs[i].startDisk][ks[i]]
  }

  /** The time of the first frame of segment number `i`. */
  ghost function FirstPts(devs: seq<Dev>, hist: seq<seq<Seg>>, segs: seq<Slot>, ks: seq<nat>, i: nat): u64
    requires AllStandFor(devs, hist, segs, ks) && i < |segs|
  {
    assert StandsFor(devs, hist, segs[i], ks[i]);
    SegAt(hist, segs, ks, i).frames[0].pts
  }

  ghost function Firsts(devs: seq<Dev>, hist: seq<seq<Seg>>, segs: seq<Slot>, ks: seq<nat>): (r: seq<u64>)
    requires AllStandFor(devs, hist, segs, ks)
    ensures |r| == |segs| && forall i :: 0 <= i < |segs| ==> r[i] == FirstPts(devs, hist, segs, ks, i)
  {
    seq(|segs|, i requires 0 <= i < |segs| => FirstPts(devs, hist, segs, ks, i))
  }

  /** Those from number `j` on that belong to the leading run of times at most the target end before
      this number. */
  function LeadingEnd(firsts: seq<u64>, pts: u64, j: nat): (r: nat)
    requires j <= |firsts|
    ensures j <= r <= |firsts| && (forall i :: j <= i < r ==> firsts[i] <= pts) && (r < |firsts| ==> firsts[r] > pts)
    decreases |firsts| - j
  {
    if j == |firsts| || firsts[j] > pts then j else LeadingEnd(firsts, pts, j + 1)
  }

  /** The segment a seek lands in: the last one of the leading run, or the first. */
  ghost function TargetSeg(devs: seq<Dev>, hist: seq<seq<Seg>>, segs: seq<Slot>, ks: seq<nat>, pts: u64): (r: nat)
    requires AllStandFor(devs, hist, segs, ks) && segs != []
    ensures r < |segs|
  {
    var e := LeadingEnd(Firsts(devs, hist, segs, ks), pts, 0);
    if e == 0 then 0 else e - 1
  }

  /** A look at the first frame of a segment. */
  lemma FirstFrameReads(devs: seq<Dev>, hist: seq<seq<Seg>>, segs: seq<Slot>, ks: seq<nat>, i: nat)
    requires AllStandFor(devs, hist, segs, ks) && i < |segs|
    ensures segs[i].startDisk < |devs|
    ensures var r := NextFrame(devs[segs[i].startDisk], PlayOpen(devs[segs[i].startDisk], segs[i]));
      r.Got? && r.hdr.pts == FirstPts(devs, hist, segs, ks, i)
  {
    hide NextFrame, StandsFor, HdrFor, Span, Recorded, DiskInv;
    assert StandsFor(devs, hist, segs[i], ks[i]);
    StandsDisk(devs, hist, segs[i], ks[i]);
    StandsFacts(devs, hist, segs[i], ks[i]);
    var d, seg := devs[segs[i].startDisk], SegAt(hist, segs, ks, i);
    FrameReads(d, PlayOpen(d, segs[i]), ks[i], seg, segs[i].frameCount, 0);
    PayloadReads(d, seg.segId, 0, seg.frames[0]);
  }

  // ---- on any answers ----

  /** The segment a seek looks for, from number `i` on with `idx` found so far: the last one of the leading
      run whose first frame is not later than the request; those whose first frame does not read are
      passed over. */
  function Landing(devs: seq<Dev>, segs: seq<Slot>, pts: u64, i: nat, idx: nat): nat
    decreases |segs| - i
  {
    if i >= |segs| then idx
    else if segs[i].startDisk >= |devs| then Landing(devs, segs, pts, i + 1, idx)
    else match NextFrame(devs[segs[i].startDisk], PlayOpen(devs[segs[i].startDisk], segs[i]))
      case Stop(_) => Landing(devs, segs, pts, i + 1, idx)
      case Got(h, _, _) => if h.pts <= pts then Landing(devs, segs, pts, i + 1, i) else idx
  }

  /** The walk over the headers of segment `i` comes to an end. */
  ghost predicate SeekEndsAt(devs: seq<Dev>, segs: seq<Slot>, pts: u64, i: nat) {
    i < |segs| && segs[i].startDisk < |devs| ==>
      var d := devs[segs[i].startDisk]; Ends(SeekStep(d, PlayOpen(d, segs[i]), pts), segs[i].startOff)
  }

  /** The group player stands where that walk ended, or has ended where there is no such segment or disk. */
  ghost predicate SeeksTo(devs: seq<Dev>, segs: seq<Slot>, pts: u64, i: nat, g: GroupPl) {
    if i < |segs| && segs[i].startDisk < |devs| then
      var d := devs[segs[i].startDisk]; var p := PlayOpen(d, segs[i]);
      g.Playing? && g.cur == i && forall n: nat :: After(SeekStep(d, p, pts), segs[i].startOff, n) == Halt ==>
        g.pl == p.(curOff := SeekRest(SeekStep(d, p, pts), segs[i].startOff, segs[i].startOff, n))
    else g.Ended?
  }

  lemma {:induction false} LandingFrom(devs: seq<Dev>, hist: seq<seq<Seg>>, segs: seq<Slot>, ks: seq<nat>, pts: u64, i: nat)
    requires AllStandFor(devs, hist, segs, ks) && i <= |segs|
    ensures var e := LeadingEnd(Firsts(devs, hist, segs, ks), pts, i);
      Landing(devs, segs, pts, i, if i == 0 then 0 else i - 1) == if e == 0 then 0 else e - 1
    decreases |segs| - i
  {
    hide StandsFor, FirstPts, NextFrame, PlayOpen;
    if i < |segs| {
      FirstFrameReads(devs, hist, segs, ks, i);
      LandingFrom(devs, hist, segs, ks, pts, i + 1);
    }
  }

  /** On answers that stand for recorded segments seeking ends, in the target segment and there on the
      target frame. */
  lemma GroupSeekLands(devs: seq<Dev>, hist: seq<seq<Seg>>, segs: seq<Slot>, ks: seq<nat>, pts: u64, g: GroupPl)
    requires AllStandFor(devs, hist, segs, ks) && segs != []
    ensures var i := Landing(devs, segs, pts, 0, 0);
      && i == TargetSeg(devs, hist, segs, ks, pts) && SeekEndsAt(devs, segs, pts, i)
      && segs[i].startDisk < |devs| && segs[i].startDisk < |hist| && ks[i] < |hist[segs[i].startDisk]|
      && var seg, n := SegAt(hist, segs, ks, i), segs[i].frameCount;
      && 0 < n <= |seg.frames|
      && (SeeksTo(devs, segs, pts, i, g) ==>
            g.Playing? && g.cur == i && StandsAt(devs[segs[i].startDisk], g.pl, ks[i], seg, n, SeekTarget(seg.frames, pts, n)))
  {
    hide StandsFor, FirstPts, NextFrame, Landing, StandsAt, SeekStep, After, SeekRest, LeadingEnd, SegOk;
    LandingFrom(devs, hist, segs, ks, pts, 0);
    var i := TargetSeg(devs, hist, segs, ks, pts);
    StandsDisk(devs, hist, segs[i], ks[i]);
    SegmentFacts(devs, hist, segs, ks, i);
    StandsFacts(devs, hist, segs[i], ks[i]);
    var d := devs[segs[i].startDisk];
    SeekLands(d, PlayOpen(d, segs[i]), ks[i], SegAt(hist, segs, ks, i), segs[i].frameCount, pts);
  }

  // ---- what is shown from there on ----

  ghost function Shown(devs: seq<Dev>, hist: seq<seq<Seg>>, segs: seq<Slot>, ks: seq<nat>): seq<(FrameHdr, seq<byte>, u16)>
    requires AllStandFor(devs, hist, segs, ks)
  {
    ShownFrom(devs, hist, segs, ks, 0)
  }

  /** How many frames come before segment number `j`. */
  ghost function Before(devs: seq<Dev>, hist: seq<seq<Seg>>, segs: seq<Slot>, ks: seq<nat>, j: nat): (r: nat)
    requires AllStandFor(devs, hist, segs, ks) && j <= |segs|
  {
    if j == 0 then 0 else Before(devs, hist, segs, ks, j - 1) + segs[j - 1].frameCount
  }

  lemma {:induction false} ShownTail(devs: seq<Dev>, hist: seq<seq<Seg>>, segs: seq<Slot>, ks: seq<nat>, j: nat)
    requires AllStandFor(devs, hist, segs, ks) && j <= |segs|
    ensures Before(devs, hist, segs, ks, j) <= |Shown(devs, hist, segs, ks)|
    ensures Shown(devs, hist, segs, ks)[Before(devs, hist, segs, ks, j)..] == ShownFrom(devs, hist, segs, ks, j)
    decreases j
  {
    hide StandsFor, ShownFrom, WithDisk, Played;
    if j > 0 {
      ShownTail(devs, hist, segs, ks, j - 1);
      ShownStep(devs, hist, segs, ks, j - 1);
      var all, b, n := Shown(devs, hist, segs, ks), Before(devs, hist, segs, ks, j - 1), segs[j - 1].frameCount;
      assert all[b + n..] == all[b..][n..];
    }
  }

  /** Frame `x` of segment number `j` in the whole list. */
  lemma ShownAt(devs: seq<Dev>, hist: seq<seq<Seg>>, segs: seq<Slot>, ks: seq<nat>, j: nat, x: nat)
    requires AllStandFor(devs, hist, segs, ks) && j < |segs| && x < segs[j].frameCount
    ensures segs[j].startDisk < |hist| && ks[j] < |hist[segs[j].startDisk]| && x < |SegAt(hist, segs, ks, j).frames|
    ensures var all, at := Shown(devs, hist, segs, ks), Before(devs, hist, segs, ks, j) + x;
      at < |all| && all[at].0.pts == SegAt(hist, segs, ks, j).frames[x].pts
  {
    hide StandsFor, ShownFrom, HdrFor;
    ShownTail(devs, hist, segs, ks, j);
    ShownStep(devs, hist, segs, ks, j);
    var d, seg := devs[segs[j].startDisk], SegAt(hist, segs, ks, j);
    PayloadReads(d, seg.segId, x, seg.frames[x]);
    var all, b := Shown(devs, hist, segs, ks), Before(devs, hist, segs, ks, j);
    assert all[b + x] == all[b..][x];
  }

  ghost predicate InOrder(all: seq<(FrameHdr, seq<byte>, u16)>) {
    forall a, b :: 0 <= a < b < |all| ==> all[a].0.pts <= all[b].0.pts
  }

  /** Where a seek lands in the whole list. */
  ghost function TargetFrame(devs: seq<Dev>, hist: seq<seq<Seg>>, segs: seq<Slot>, ks: seq<nat>, pts: u64): nat
    requires AllStandFor(devs, hist, segs, ks) && segs != []
  {
    var i := TargetSeg(devs, hist, segs, ks, pts);
    assert StandsFor(devs, hist, segs[i], ks[i]);
    Before(devs, hist, segs, ks, i) + SeekTarget(SegAt(hist, segs, ks, i).frames, pts, segs[i].frameCount)
  }

  /** Playback after a seek shows the whole list from the target on. */
  lemma SeekShows(devs: seq<Dev>, hist: seq<seq<Seg>>, segs: seq<Slot>, ks: seq<nat>, pts: u64, p: Pl)
    requires AllStandFor(devs, hist, segs, ks) && segs != []
    requires var i := TargetSeg(devs, hist, segs, ks, pts);
      StandsFor(devs, hist, segs[i], ks[i]) && var seg, n := SegAt(hist, segs, ks, i), segs[i].frameCount;
      StandsAt(devs[segs[i].startDisk], p, ks[i], seg, n, SeekTarget(seg.frames, pts, n))
    ensures TargetFrame(devs, hist, segs, ks, pts) < |Shown(devs, hist, segs, ks)|
    ensures PlaysAcross(devs, segs, Playing(TargetSeg(devs, hist, segs, ks, pts), p),
                        Shown(devs, hist, segs, ks)[TargetFrame(devs, hist, segs, ks, pts)..])
  {
    hide StandsFor, ShownFrom, HdrFor, StandsAt, ReplayAcross, Span, TargetSeg, Recorded;
    var i := TargetSeg(devs, hist, segs, ks, pts);
    StandsFacts(devs, hist, segs[i], ks[i]);
    ShownStep(devs, hist, segs, ks, i);
    ShownTail(devs, hist, segs, ks, i);
    var d, seg, n := devs[segs[i].startDisk], SegAt(hist, segs, ks, i), segs[i].frameCount;
    var x, b, all := SeekTarget(seg.frames, pts, n), Before(devs, hist, segs, ks, i), Shown(devs, hist, segs, ks);
    var rest := all[b + x..];
    TailFrom(d, seg, x, n, segs[i].startDisk, ShownFrom(devs, hist, segs, ks, i + 1));
    assert rest == all[b..][x..];
    forall m: nat | m > |rest|
      ensures ReplayAcross(devs, segs, Playing(i, p), m) == rest
    {
      AcrossFrom(devs, hist, segs, ks, i, x, p, m);
    }
  }

  lemma TailFrom(d: Dev, seg: Seg, x: nat, n: nat, disk: u16, more: seq<(FrameHdr, seq<byte>, u16)>)
    requires x <= n <= |seg.frames| <= U32_MAX
    ensures (WithDisk(Played(d, seg, 0, n), disk) + more)[x..] == WithDisk(Played(d, seg, x, n), disk) + more
  {
    hide HdrFor;
  }

  /** Where the times of all the frames rise, a seek lands on the last frame not later than the
      request, or, when all are later, on the first. */
  lemma SeekIsNearest(devs: seq<Dev>, hist: seq<seq<Seg>>, segs: seq<Slot>, ks: seq<nat>, pts: u64, u: nat)
    requires AllStandFor(devs, hist, segs, ks) && segs != [] && InOrder(Shown(devs, hist, segs, ks))
    requires u < |Shown(devs, hist, segs, ks)|
    ensures var all, t := Shown(devs, hist, segs, ks), TargetFrame(devs, hist, segs, ks, pts);
      && t < |all| && (t < u ==> all[u].0.pts > pts) && (u <= t && all[0].0.pts <= pts ==> all[u].0.pts <= pts)
      && (all[0].0.pts > pts ==> t == 0)
  {
    hide StandsFor, ShownFrom, Shown, InOrder;
    var i := TargetSeg(devs, hist, segs, ks, pts);
    var all, t := Shown(devs, hist, segs, ks), TargetFrame(devs, hist, segs, ks, pts);
    SegmentFacts(devs, hist, segs, ks, i);
    SegmentFacts(devs, hist, segs, ks, 0);
    var seg, n := SegAt(hist, segs, ks, i), segs[i].frameCount;
    var x := SeekTarget(seg.frames, pts, n);
    ShownAt(devs, hist, segs, ks, i, x);
    ShownAt(devs, hist, segs, ks, 0, 0);
    var e := RunEnd(seg.frames, pts, 0, n);
    if e < n {
      ShownAt(devs, hist, segs, ks, i, e);
      Later(all, Before(devs, hist, segs, ks, i) + e, u, pts);
    } else if i + 1 < |segs| {
      SegmentFacts(devs, hist, segs, ks, i + 1);
      ShownAt(devs, hist, segs, ks, i + 1, 0);
      Later(all, Before(devs, hist, segs, ks, i + 1), u, pts);
    } else {
      ShownTail(devs, hist, segs, ks, i + 1);
      ShownEnds(devs, hist, segs, ks);
    }
    Earlier(all, t, u, pts);
  }

  lemma SegmentFacts(devs: seq<Dev>, hist: seq<seq<Seg>>, segs: seq<Slot>, ks: seq<nat>, i: nat)
    requires AllStandFor(devs, hist, segs, ks) && i < |segs|
    ensures StandsFor(devs, hist, segs[i], ks[i]) && segs[i].startDisk < |hist| && ks[i] < |hist[segs[i].startDisk]|
    ensures 0 < segs[i].frameCount <= |SegAt(hist, segs, ks, i).frames|
    ensures FirstPts(devs, hist, segs, ks, i) == SegAt(hist, segs, ks, i).frames[0].pts
  {
    assert StandsFor(devs, hist, segs[i], ks[i]);
  }

  lemma ShownEnds(devs: seq<Dev>, hist: seq<seq<Seg>>, segs: seq<Slot>, ks: seq<nat>)
    requires AllStandFor(devs, hist, segs, ks)
    ensures ShownFrom(devs, hist, segs, ks, |segs|) == []
  {
    hide StandsFor;
  }

  lemma Later(all: seq<(FrameHdr, seq<byte>, u16)>, at: nat, u: nat, pts: u64)
    requires InOrder(all) && at < |all| && all[at].0.pts > pts && u < |all|
    ensures at <= u ==> all[u].0.pts > pts
  {
  }

  lemma Earlier(all: seq<(FrameHdr, seq<byte>, u16)>, at: nat, u: nat, pts: u64)
    requires InOrder(all) && at < |all| && u < |all|
    ensures u <= at && all[at].0.pts <= pts ==> all[u].0.pts <= pts
  {
  }
}
