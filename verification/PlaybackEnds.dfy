/** When playing, seeking and group playback come to an end, on any contents of the disk. */
module PlaybackEnds {
  import opened Bytes
  import opened RecorderFormat
  import opened StorageDev
  import opened Recorder
  import opened Player
  import opened Faithful
  import opened Playback
  import opened Walks
  import Crypto
  import Layout

  // ---- where the next frame is looked for ----

  /** The multiple of 128 that 32-bit arithmetic gives for the place behind a frame. */
  lemma NextOffIs(off: u32, len: u32)
    requires off % FRAME_ALIGN == 0
    ensures var x := if off + HDR_SIZE + len < 0x1_0000_0000 then off + HDR_SIZE + len else off + HDR_SIZE + len - 0x1_0000_0000;
      x < 0x1_0000_0000 && NextOff(off, len) == if AlignUp(x, FRAME_ALIGN) == 0x1_0000_0000 then 0 else AlignUp(x, FRAME_ALIGN)
    ensures NextOff(off, len) % FRAME_ALIGN == 0
  {
    hide AlignUp;
    var t := off + HDR_SIZE + len;
    var x := if t < 0x1_0000_0000 then t else t - 0x1_0000_0000;
    ModUnique(t, 0x1_0000_0000, if t < 0x1_0000_0000 then 0 else 1, x);
    Layout.AlignUpLeast(x, FRAME_ALIGN, 0x200_0000);
    assert 0x200_0000 * FRAME_ALIGN == 0x1_0000_0000;
  }

  /** In 32 bits the next offset is the same one exactly for these lengths. */
  lemma StandsStill(off: u32, len: u32)
    requires off % FRAME_ALIGN == 0
    ensures NextOff(off, len) == off <==> 0x1_0000_0000 - HDR_SIZE - FRAME_ALIGN < len <= 0x1_0000_0000 - HDR_SIZE
  {
    hide AlignUp, NextOff;
    NextOffIs(off, len);
    var t := off + HDR_SIZE + len;
    var x := if t < 0x1_0000_0000 then t else t - 0x1_0000_0000;
    Multiples(x, off);
    Multiples(x, 0x1_0000_0000);
    assert off == 0 || off >= FRAME_ALIGN;
  }

  /** It is a later one exactly when the frame ends early enough below 2^32, or is so long that only
      the header counts. */
  lemma LeadsOn(off: u32, len: u32)
    requires off % FRAME_ALIGN == 0
    ensures NextOff(off, len) > off <==>
      off + HDR_SIZE + len <= 0x1_0000_0000 - FRAME_ALIGN || (len > 0x1_0000_0000 - HDR_SIZE && off < 0x1_0000_0000 - FRAME_ALIGN)
  {
    hide AlignUp, NextOff;
    NextOffIs(off, len);
    var t := off + HDR_SIZE + len;
    var x := if t < 0x1_0000_0000 then t else t - 0x1_0000_0000;
    Multiples(x, off);
    Multiples(x, 0x1_0000_0000 - FRAME_ALIGN);
  }

  /** Rounding up against a multiple. */
  lemma Multiples(x: nat, m: nat)
    requires m % FRAME_ALIGN == 0
    ensures AlignUp(x, FRAME_ALIGN) <= m <==> x <= m
    ensures AlignUp(x, FRAME_ALIGN) == m <==> m < x + FRAME_ALIGN && x <= m
    ensures AlignUp(x, FRAME_ALIGN) <= m + FRAME_ALIGN <==> x <= m + FRAME_ALIGN
    ensures AlignUp(x, FRAME_ALIGN) % FRAME_ALIGN == 0
  {
    hide AlignUp;
    var q := m / FRAME_ALIGN;
    assert m == q * FRAME_ALIGN;
    Layout.AlignUpLeast(x, FRAME_ALIGN, q);
    Layout.AlignUpLeast(x, FRAME_ALIGN, q + 1);
  }

  // ---- playing ----

  function PlayStep(d: Dev, p: Pl): Step {
    (off: u32) => match NextFrame(d, p.(curOff := off)) case Stop(_) => Halt case Got(_, _, rest) => Go(rest.curOff)
  }

  /** The player stops delivering after finitely many frames. */
  ghost predicate PlayEnds(d: Dev, p: Pl) { exists n: nat :: |Replay(d, p, n)| < n }

  lemma NextFrameMoves(d: Dev, p: Pl)
    ensures var r := NextFrame(d, p); r.Got? ==> p.curOff <= p.endOff && r.rest == p.(curOff := r.rest.curOff)
    ensures PlayStep(d, p)(p.curOff) == match NextFrame(d, p) case Stop(_) => Halt case Got(_, _, rest) => Go(rest.curOff)
  {
    hide ReadHdr, NextOff, Crypto.Xcrypt;
    assert p.(curOff := p.curOff) == p;
  }

  lemma SameStep(d: Dev, p: Pl, off: u32)
    ensures forall o: u32 :: PlayStep(d, p.(curOff := off))(o) == PlayStep(d, p)(o)
  {
    hide NextFrame;
    forall o: u32
      ensures PlayStep(d, p.(curOff := off))(o) == PlayStep(d, p)(o)
    {
      assert p.(curOff := off).(curOff := o) == p.(curOff := o);
    }
  }

  lemma {:induction false} SameWalk(f: Step, g: Step, off: u32, n: nat)
    requires forall o: u32 :: f(o) == g(o)
    ensures After(f, off, n) == After(g, off, n)
    decreases n
  {
    if n > 0 {
      match f(off)
      case Halt =>
      case Go(next) => SameWalk(f, g, next, n - 1);
    }
  }

  lemma {:induction false} ReplayWalks(d: Dev, p: Pl, n: nat)
    ensures |Replay(d, p, n)| <= n
    ensures |Replay(d, p, n)| == n <==> After(PlayStep(d, p), p.curOff, n).Go?
    decreases n
  {
    hide NextFrame, PlayStep;
    if n > 0 {
      NextFrameMoves(d, p);
      match NextFrame(d, p)
      case Stop(_) =>
      case Got(h, data, rest) =>
        ReplayWalks(d, rest, n - 1);
        SameStep(d, p, rest.curOff);
        SameWalk(PlayStep(d, rest), PlayStep(d, p), rest.curOff, n - 1);
    }
  }

  lemma PlayEndsWalk(d: Dev, p: Pl)
    ensures PlayEnds(d, p) <==> Ends(PlayStep(d, p), p.curOff)
  {
    hide Replay, PlayStep, After;
    if PlayEnds(d, p) {
      var n: nat :| |Replay(d, p, n)| < n;
      ReplayWalks(d, p, n);
    }
    if Ends(PlayStep(d, p), p.curOff) {
      var n: nat :| After(PlayStep(d, p), p.curOff, n) == Halt;
      ReplayWalks(d, p, n);
    }
  }

  /** On any disk: playing a slot ends if and only if the player never stands at the same offset twice. */
  lemma PlayEndsExactly(d: Dev, p: Pl)
    ensures PlayEnds(d, p) <==> !Repeats(PlayStep(d, p), p.curOff)
  {
    hide PlayEnds, Ends, Repeats, PlayStep;
    PlayEndsWalk(d, p);
    EndsExactly(PlayStep(d, p), p.curOff);
  }

  /** A readable frame whose length stands still in 32 bits is delivered for ever. */
  lemma StuckForEver(d: Dev, p: Pl, n: nat)
    requires var r := NextFrame(d, p); r.Got? && NextOff(p.curOff, r.hdr.payloadLen) == p.curOff
    ensures |Replay(d, p, n)| == n
    decreases n
  {
    hide NextOff, ReadHdr, Crypto.Xcrypt;
    if n > 0 {
      assert p.(curOff := p.curOff) == p;
      assert NextFrame(d, p).rest == p;
      StuckForEver(d, p, n - 1);
    }
  }

  /** Every good header up to the slot's end leads on. */
  ghost predicate Forward(d: Dev, p: Pl) {
    forall off: u32 :: off <= p.endOff && ReadHdr(d, p, off).GoodHdr? ==> NextOff(off, ReadHdr(d, p, off).hdr.payloadLen) > off
  }

  lemma SameHeaders(d: Dev, p: Pl, cur: u32, off: u32)
    ensures ReadHdr(d, p.(curOff := cur), off) == ReadHdr(d, p, off)
  {
    hide DecodeHdr, EncodeHdr, Read;
  }

  lemma ForwardPlayEnds(d: Dev, p: Pl)
    requires Forward(d, p)
    ensures PlayEnds(d, p)
  {
    hide ReadHdr, NextOff, PlayEnds, Ends, Crypto.Xcrypt;
    forall o: u32
      ensures PlayStep(d, p)(o).Go? ==> o <= p.endOff && PlayStep(d, p)(o).off > o
    {
      SameHeaders(d, p, o, o);
    }
    ForwardEnds(PlayStep(d, p), p.curOff, p.endOff);
    PlayEndsWalk(d, p);
  }

  lemma {:induction false} ReplaySettles(d: Dev, p: Pl, n: nat, m: nat)
    requires |Replay(d, p, n)| < n && m > |Replay(d, p, n)|
    ensures Replay(d, p, m) == Replay(d, p, n)
    decreases n
  {
    hide NextFrame;
    match NextFrame(d, p)
    case Stop(_) =>
    case Got(h, data, rest) => ReplaySettles(d, rest, n - 1, m - 1);
  }

  /** Then there is a list of all frames it delivers. */
  lemma PlayEndsPlays(d: Dev, p: Pl) returns (all: seq<(FrameHdr, seq<byte>)>)
    requires PlayEnds(d, p)
    ensures Plays(d, p, all)
  {
    hide Replay;
    var n: nat :| |Replay(d, p, n)| < n;
    all := Replay(d, p, n);
    forall m: nat | m > |all|
      ensures Replay(d, p, m) == all
    {
      ReplaySettles(d, p, n, m);
    }
  }

  lemma PlaysEnds(d: Dev, p: Pl, all: seq<(FrameHdr, seq<byte>)>)
    requires Plays(d, p, all)
    ensures PlayEnds(d, p)
  {
    hide Replay;
    assert Replay(d, p, |all| + 1) == all;
  }

  // ---- seeking ----

  /** Seeking looks at headers only, up to the first one later than the request. */
  function SeekStep(d: Dev, p: Pl, pts: u64): Step {
    (off: u32) =>
      if off > p.endOff then Halt
      else match ReadHdr(d, p, off)
        case BadHdr(_) => Halt
        case GoodHdr(h) => if h.pts <= pts then Go(NextOff(off, h.payloadLen)) else Halt
  }

  /** The last offset left behind in `n` steps. */
  function SeekRest(f: Step, off: u32, best: u32, n: nat): u32
    decreases n
  {
    if n == 0 then best
    else match f(off)
      case Halt => best
      case Go(next) => SeekRest(f, next, off, n - 1)
  }

  lemma {:induction false} SeekRestSame(f: Step, off: u32, best: u32, n: nat, m: nat)
    requires After(f, off, n) == Halt && After(f, off, m) == Halt
    ensures SeekRest(f, off, best, n) == SeekRest(f, off, best, m)
    decreases n
  {
    match f(off)
    case Halt =>
    case Go(next) => SeekRestSame(f, next, off, n - 1, m - 1);
  }

  lemma ForwardSeekEnds(d: Dev, p: Pl, pts: u64, off: u32)
    requires Forward(d, p)
    ensures Ends(SeekStep(d, p, pts), off)
  {
    hide ReadHdr, NextOff, Ends;
    ForwardEnds(SeekStep(d, p, pts), off, p.endOff);
  }

  // ---- seeking in a recorded segment ----

  function Back(j: nat): nat { if j == 0 then 0 else j - 1 }

  lemma {:induction false} SeekRuns(d: Dev, p: Pl, k: nat, sg: Seg, n: nat, j: nat, pts: u64)
    requires SegOk(d, k, sg) && ChunkBytes(d) < 0x8000_0000 && 0 < n <= |sg.frames| && j <= n && Span(sg.frames[..j]) <= U32_MAX
    requires p.baseOff == Base(d, k) && p.endOff == Span(sg.frames[..n - 1])
    ensures Span(sg.frames[..Back(j)]) <= U32_MAX && After(SeekStep(d, p, pts), Span(sg.frames[..j]), n + 1 - j) == Halt
    ensures SeekRest(SeekStep(d, p, pts), Span(sg.frames[..j]), Span(sg.frames[..Back(j)]), n + 1 - j)
      == Span(sg.frames[..Back(RunEnd(sg.frames, pts, j, n))])
    decreases n - j
  {
    hide ReadHdr, NextOff, Span, SegOk;
    SpanMonotone(sg.frames, Back(j), j);
    SeekHeader(d, p, k, sg, n, j, pts);
    if j < n && sg.frames[j].pts <= pts {
      SeekRuns(d, p, k, sg, n, j + 1, pts);
    }
  }

  lemma SeekHeader(d: Dev, p: Pl, k: nat, sg: Seg, n: nat, j: nat, pts: u64)
    requires SegOk(d, k, sg) && ChunkBytes(d) < 0x8000_0000 && 0 < n <= |sg.frames| && j <= n && Span(sg.frames[..j]) <= U32_MAX
    requires p.baseOff == Base(d, k) && p.endOff == Span(sg.frames[..n - 1])
    ensures j < n ==> Span(sg.frames[..j + 1]) <= U32_MAX
    ensures SeekStep(d, p, pts)(Span(sg.frames[..j])) == if j < n && sg.frames[j].pts <= pts then Go(Span(sg.frames[..j + 1])) else Halt
  {
    hide HdrFor, Protect, Span, Need, EncodeHdr, Crypto.Xcrypt, ReadHdr, NextOff, Read, Recorded;
    if j == n {
      StepTo(sg.frames, n - 1);
      NeedBounds(sg.frames[n - 1]);
    } else {
      var f := sg.frames[j];
      SpanMonotone(sg.frames, j, n - 1);
      StepTo(sg.frames, j);
      SpanPrefix(sg.frames, j + 1);
      SpanAligned(sg.frames[..j]);
      NextOffExact(Span(sg.frames[..j]), f);
      RecordOf(d, k, sg, j);
      HdrReads(d, p, Span(sg.frames[..j]), sg.segId, j, f);
      PayloadReads(d, sg.segId, j, f);
    }
  }

  /** On a slot that counts `n` frames of a recorded segment seeking ends, on the target frame. */
  lemma SeekLands(d: Dev, p: Pl, k: nat, sg: Seg, n: nat, pts: u64)
    requires SegOk(d, k, sg) && ChunkBytes(d) < 0x8000_0000 && StandsAt(d, p, k, sg, n, 0)
    ensures var f := SeekStep(d, p, pts);
      After(f, p.curOff, n + 1) == Halt
      && StandsAt(d, p.(curOff := SeekRest(f, p.curOff, p.curOff, n + 1)), k, sg, n, SeekTarget(sg.frames, pts, n))
  {
    hide SegOk, SeekStep, After, SeekRest;
    assert sg.frames[..0] == [] && Span([]) == 0;
    hide Span;
    SeekRuns(d, p, k, sg, n, 0, pts);
  }

  // ---- across disks ----

  ghost predicate AcrossEnds(devs: seq<Dev>, segs: seq<Slot>, g: GroupPl) { exists n: nat :: |ReplayAcross(devs, segs, g, n)| < n }

  lemma AcrossLater(devs: seq<Dev>, segs: seq<Slot>, g: GroupPl)
    requires NextAcross(devs, segs, g).GroupGot?
    ensures AcrossEnds(devs, segs, g) <==> AcrossEnds(devs, segs, NextAcross(devs, segs, g).rest)
  {
    hide NextAcross;
    var rest := NextAcross(devs, segs, g).rest;
    if AcrossEnds(devs, segs, g) {
      var n: nat :| |ReplayAcross(devs, segs, g, n)| < n;
      assert |ReplayAcross(devs, segs, rest, n - 1)| < n - 1;
    }
    if AcrossEnds(devs, segs, rest) {
      var n: nat :| |ReplayAcross(devs, segs, rest, n)| < n;
      assert |ReplayAcross(devs, segs, g, n + 1)| < n + 1;
    }
  }

  lemma AcrossSame(devs: seq<Dev>, segs: seq<Slot>, g: GroupPl, h: GroupPl)
    requires NextAcross(devs, segs, g) == NextAcross(devs, segs, h)
    ensures AcrossEnds(devs, segs, g) <==> AcrossEnds(devs, segs, h)
  {
    hide NextAcross;
    assert forall n: nat :: ReplayAcross(devs, segs, g, n) == ReplayAcross(devs, segs, h, n);
  }

  /** A segment whose playback does not end is never left. */
  lemma {:induction false} NeverLeft(devs: seq<Dev>, segs: seq<Slot>, j: nat, p: Pl, n: nat)
    requires j < |segs| && segs[j].startDisk < |devs| && !PlayEnds(devs[segs[j].startDisk], p)
    ensures |ReplayAcross(devs, segs, Playing(j, p), n)| == n
    decreases n
  {
    hide NextFrame;
    if n > 0 {
      var d := devs[segs[j].startDisk];
      assert !(|Replay(d, p, 1)| < 1);
      var rest := NextFrame(d, p).rest;
      if PlayEnds(d, rest) {
        var m: nat :| |Replay(d, rest, m)| < m;
        assert |Replay(d, p, m + 1)| < m + 1;
      }
      NeverLeft(devs, segs, j, rest, n - 1);
    }
  }

  /** One whose playback ends is left for the next one. */
  lemma {:induction false} LeftOnce(devs: seq<Dev>, segs: seq<Slot>, j: nat, p: Pl, n: nat)
    requires j < |segs| && segs[j].startDisk < |devs| && |Replay(devs[segs[j].startDisk], p, n)| < n
    ensures AcrossEnds(devs, segs, Playing(j, p)) <==> AcrossEnds(devs, segs, OpenAt(devs, segs, j + 1))
    decreases n
  {
    hide NextFrame, OpenAt, AcrossEnds;
    match NextFrame(devs[segs[j].startDisk], p)
    case Stop(_) =>
      AcrossSame(devs, segs, Playing(j, p), OpenAt(devs, segs, j + 1));
    case Got(h, data, rest) =>
      AcrossLater(devs, segs, Playing(j, p));
      LeftOnce(devs, segs, j, rest, n - 1);
  }

  /** Segments `j` and on that a group player can come to: those before the first whose disk is not there. */
  function Reached(devs: seq<Dev>, segs: seq<Slot>, j: nat): (r: nat)
    ensures j <= |segs| ==> j <= r <= |segs| && forall i :: j <= i < r ==> segs[i].startDisk < |devs|
    decreases |segs| - j
  {
    if j >= |segs| || segs[j].startDisk >= |devs| then j else Reached(devs, segs, j + 1)
  }

  ghost predicate SlotEnds(devs: seq<Dev>, s: Slot) {
    s.startDisk < |devs| ==> PlayEnds(devs[s.startDisk], PlayOpen(devs[s.startDisk], s))
  }

  /** On any disks: group playback ends if and only if every segment it can come to does. */
  lemma {:induction false} AcrossEndsExactly(devs: seq<Dev>, segs: seq<Slot>, j: nat)
    requires j <= |segs|
    ensures AcrossEnds(devs, segs, OpenAt(devs, segs, j)) <==>
      forall i :: j <= i < Reached(devs, segs, j) ==> SlotEnds(devs, segs[i])
    decreases |segs| - j
  {
    hide PlayEnds, AcrossEnds, PlayOpen, NextFrame, Replay;
    var g := OpenAt(devs, segs, j);
    if g.Ended? {
      NothingAcross(devs, segs, g);
    } else {
      AcrossEndsExactly(devs, segs, j + 1);
      OneSegment(devs, segs, j);
      assert SlotEnds(devs, segs[j]) || !SlotEnds(devs, segs[j]);
    }
  }

  lemma NothingAcross(devs: seq<Dev>, segs: seq<Slot>, g: GroupPl)
    requires g.Ended?
    ensures AcrossEnds(devs, segs, g)
  {
    assert |ReplayAcross(devs, segs, g, 1)| < 1;
  }

  lemma OneSegment(devs: seq<Dev>, segs: seq<Slot>, j: nat)
    requires j < |segs| && segs[j].startDisk < |devs|
    ensures AcrossEnds(devs, segs, OpenAt(devs, segs, j)) <==>
      SlotEnds(devs, segs[j]) && AcrossEnds(devs, segs, OpenAt(devs, segs, j + 1))
  {
    hide PlayOpen, Replay, ReplayAcross;
    var d, p := devs[segs[j].startDisk], PlayOpen(devs[segs[j].startDisk], segs[j]);
    if PlayEnds(d, p) {
      var n: nat :| |Replay(d, p, n)| < n;
      LeftOnce(devs, segs, j, p, n);
    } else {
      forall n: nat
        ensures |ReplayAcross(devs, segs, Playing(j, p), n)| == n
      {
        NeverLeft(devs, segs, j, p, n);
      }
    }
  }

  lemma {:induction false} AcrossSettles(devs: seq<Dev>, segs: seq<Slot>, g: GroupPl, n: nat, m: nat)
    requires |ReplayAcross(devs, segs, g, n)| < n && m > |ReplayAcross(devs, segs, g, n)|
    ensures ReplayAcross(devs, segs, g, m) == ReplayAcross(devs, segs, g, n)
    decreases n
  {
    hide NextAcross;
    match NextAcross(devs, segs, g)
    case NoMore =>
    case GroupGot(h, data, disk, rest) => AcrossSettles(devs, segs, rest, n - 1, m - 1);
  }

  lemma AcrossEndsPlays(devs: seq<Dev>, segs: seq<Slot>, g: GroupPl) returns (all: seq<(FrameHdr, seq<byte>, u16)>)
    requires AcrossEnds(devs, segs, g)
    ensures PlaysAcross(devs, segs, g, all)
  {
    hide ReplayAcross;
    var n: nat :| |ReplayAcross(devs, segs, g, n)| < n;
    all := ReplayAcross(devs, segs, g, n);
    forall m: nat | m > |all|
      ensures ReplayAcross(devs, segs, g, m) == all
    {
      AcrossSettles(devs, segs, g, n, m);
    }
  }
}
