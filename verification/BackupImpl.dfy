/** The export drivers: a player feeding the muxer of the chosen format until it has no more. */
module BackupImpl {
  import opened Bytes
  import opened RecorderFormat
  import opened StorageDev
  import opened Index
  import opened Player
  import opened Playback
  import opened PlaybackEnds
  import opened Device
  import opened GroupImpl
  import opened PlayerImpl
  import opened Backup
  import opened Faithful
  import opened Recording
  import Boxes
  import FragMp4
  import FragWriter
  import IndexImpl
  import Mp4
  import Mp4File
  import Mp4Writer

  const MAX_SEGMENTS: nat := 256

  /** One of the two muxers, by the format asked for. */
  class Mux {
    const o: Options
    const whole: Mp4Writer.Muxer?
    const frag: FragWriter.FragMuxer?
    ghost var added: seq<Mp4.Frame>
    ghost var Repr: set<object>

    /** The muxer has taken the frames added. */
    ghost predicate Valid()
      reads this, Repr
    {
      && this in Repr
      && (o.fragmented ==> Fragments())
      && (!o.fragmented ==> Whole())
    }

    ghost predicate Fragments()
      reads this, Repr
    {
      && frag != null && frag in Repr && frag.frag in Repr && frag.frag.p in Repr
      && frag.moov == o.moov && frag.dflt == Mp4File.DefaultDuration(o.settings) && frag.Valid()
      && frag.Value() == FragMp4.AddFrames(FRAG_FTYP_BOX, added, frag.moov, frag.dflt)
    }

    ghost predicate Whole()
      reads this, Repr
    {
      && whole != null && whole in Repr && whole.settings == o.settings && whole.Valid()
      && whole.Value() == Mp4.AddAll(Boxes.BoxBytes(Mp4File.FTYP_BOX), added)
    }

    constructor (o: Options)
      ensures Valid() && this.o == o && added == [] && fresh(Repr)
    {
      hide Boxes.BoxBytes, FragMp4.Start;
      this.o, added := o, [];
      var w: Mp4Writer.Muxer?, f: FragWriter.FragMuxer? := null, null;
      ghost var repr: set<object> := {};
      if o.fragmented {
        f := new FragWriter.FragMuxer(FRAG_FTYP_BOX, o.moov, Mp4File.DefaultDuration(o.settings));
        repr := {f, f.frag, f.frag.p};
      } else {
        w := new Mp4Writer.Muxer(o.settings);
        repr := {w};
      }
      whole, frag, Repr := w, f, {this} + repr;
    }

    method Add(f: Mp4.Frame)
      requires Valid()
      modifies Repr
      ensures Valid() && added == old(added) + [f] && fresh(Repr - old(Repr))
    {
      hide Boxes.BoxBytes, FragMp4.AddFrame, Mp4.Add, FragWriter.FragMuxer.Valid, Mp4Writer.Muxer.Valid, FragWriter.FragMuxer.Value, Mp4Writer.Muxer.Value;
      AddedOne(o, added, f);
      if o.fragmented {
        frag.AddOne(f);
        Repr := Repr + {frag.frag.p};
      } else {
        whole.AddFrame(f);
      }
      added := added + [f];
    }

    method Finish() returns (file: seq<byte>)
      requires Valid()
      modifies Repr
      ensures file == FileFor(o, old(added))
    {
      hide Boxes.BoxBytes, Boxes.BoxList, FragMp4.AddFrames, FragMp4.Finish, Mp4.AddAll, Mp4File.FileOf;
      if o.fragmented {
        frag.FinishFile();
        file := frag.file;
      } else {
        whole.Finish(o.entry);
        file := whole.file;
      }
    }
  }

  lemma AddedOne(o: Options, added: seq<Mp4.Frame>, f: Mp4.Frame)
    ensures var all := added + [f]; var head := Boxes.BoxBytes(Mp4File.FTYP_BOX); var dflt := Mp4File.DefaultDuration(o.settings);
      && Mp4.AddAll(head, all) == Mp4.Add(Mp4.AddAll(head, added), f)
      && FragMp4.AddFrames(FRAG_FTYP_BOX, all, o.moov, dflt) == FragMp4.AddFrame(FragMp4.AddFrames(FRAG_FTYP_BOX, added, o.moov, dflt), f, o.moov, dflt)
  {
    hide Boxes.BoxBytes, Mp4.Add, FragMp4.AddFrame;
    assert (added + [f])[..|added|] == added;
  }

  /** All frames of one player; an export without frames fails. It returns whenever playback ends. */
  method Drive(o: Options, p: SegPlayer) returns (status: Status, file: seq<byte>, ghost all: seq<(FrameHdr, seq<byte>)>)
    requires PlayEnds(p.d.State(), p.Value())
    modifies p
    ensures Plays(old(p.d.State()), old(p.Value()), all)
    ensures file == FileFor(o, HandedAll(all)) && status == if all == [] then Fail(NotFound) else Ok
  {
    hide Plays, NextFrame, Handed, FileFor, Mux.Valid, HandedAll, PlayEnds;
    all := PlayEndsPlays(p.d.State(), p.Value());
    var mux := new Mux(o);
    var frames := 0;
    ghost var rest := all;
    ghost var d := p.d.State();
    assert mux.added + HandedAll(rest) == HandedAll(rest);
    var more := true;
    while more
      invariant mux.Valid() && mux.o == o && fresh(mux.Repr) && p.d.State() == d
      invariant Plays(d, p.Value(), rest) && frames + |rest| == |all| && HandedAll(all) == mux.added + HandedAll(rest)
      invariant !more ==> rest == []
      decreases more, |rest|
    {
      PlaysStep(d, p.Value(), rest);
      var got := p.Next();
      match got {
        case Nothing(_) =>
          more := false;
        case Delivered(h, data) =>
          HandedNext(mux.added, rest);
          mux.Add(Handed(h, data));
          frames, rest := frames + 1, rest[1..];
      }
    }
    HandedEnd(mux.added, rest);
    file := mux.Finish();
    status := if frames > 0 then Ok else Fail(NotFound);
  }

  lemma HandedNext(before: seq<Mp4.Frame>, r: seq<(FrameHdr, seq<byte>)>)
    requires r != []
    ensures before + HandedAll(r) == before + [Handed(r[0].0, r[0].1)] + HandedAll(r[1..])
  {
    hide Handed;
    assert before + ([Handed(r[0].0, r[0].1)] + HandedAll(r[1..])) == before + [Handed(r[0].0, r[0].1)] + HandedAll(r[1..]);
  }

  lemma HandedEnd(before: seq<Mp4.Frame>, r: seq<(FrameHdr, seq<byte>)>)
    ensures r == [] ==> before + HandedAll(r) == before
  {
  }

  method ExportSegment(d: Device, slot: Slot, o: Options) returns (status: Status, file: seq<byte>, ghost all: seq<(FrameHdr, seq<byte>)>)
    requires PlayEnds(d.State(), PlayOpen(d.State(), slot))
    ensures Plays(old(d.State()), PlayOpen(old(d.State()), slot), all)
    ensures file == FileFor(o, HandedAll(all)) && status == if all == [] then Fail(NotFound) else Ok
  {
    hide Plays, PlayOpen, FileFor, HandedAll, PlayEnds;
    var p := new SegPlayer(d, slot);
    status, file, all := Drive(o, p);
  }

  /** In every reachable state of the recorder whatever a query returns plays to an end. */
  lemma ReachableSlotEnds(s0: Sys, es: seq<Event>, i: nat, q: Filter, cap: nat, slot: Slot)
    requires Blank(s0) && AllowedRun(s0, es) && i < |Run(s0, es).hist|
    requires i < |Run(s0, es).pool.devs| && slot in Collect(Run(s0, es).pool.devs[i], q, 0, cap)
    ensures PlayEnds(Run(s0, es).pool.devs[i], PlayOpen(Run(s0, es).pool.devs[i], slot))
  {
    hide Blank, AllowedRun, Run, Collect, Plays, PlayEnds, PlayOpen, Played, Live, Describes;
    var d, h := Run(s0, es).pool.devs[i], Run(s0, es).hist[i];
    QueryReplays(s0, es, i, q, cap, slot);
    var k :| 0 <= k < |h| && Live(d, |h|, k) && Describes(d, slot, k, h[k])
        && slot.frameCount <= |h[k].frames| <= U32_MAX
        && Plays(d, PlayOpen(d, slot), Played(d, h[k], 0, slot.frameCount));
    PlaysEnds(d, PlayOpen(d, slot), Played(d, h[k], 0, slot.frameCount));
  }

  // ---- across disks ----

  /** All frames of a group player. */
  method DriveGroup(o: Options, gp: GroupPlayer) returns (status: Status, file: seq<byte>, ghost all: seq<(FrameHdr, seq<byte>, u16)>)
    requires gp.Valid() && AcrossEnds(States(gp.devs), gp.segs, gp.Value())
    modifies gp, gp.pl
    ensures PlaysAcross(old(States(gp.devs)), gp.segs, old(gp.Value()), all)
    ensures file == FileFor(o, HandedAcross(all)) && status == if all == [] then Fail(Io) else Ok
  {
    hide PlaysAcross, NextAcross, Handed, FileFor, Mux.Valid, HandedAcross, AcrossEnds;
    ghost var s := States(gp.devs);
    all := AcrossEndsPlays(s, gp.segs, gp.Value());
    var mux := new Mux(o);
    assert States(gp.devs) == s;
    var frames := 0;
    ghost var rest := all;
    assert mux.added + HandedAcross(rest) == HandedAcross(rest);
    var more := true;
    while more
      invariant mux.Valid() && mux.o == o && fresh(mux.Repr) && States(gp.devs) == s
      invariant gp.Valid() && (gp.pl == old(gp.pl) || gp.pl == null || fresh(gp.pl))
      invariant gp !in mux.Repr && (gp.pl != null ==> gp.pl !in mux.Repr)
      invariant (more ==> PlaysAcross(s, gp.segs, gp.Value(), rest)) && frames + |rest| == |all| && HandedAcross(all) == mux.added + HandedAcross(rest)
      invariant !more ==> rest == []
      decreases more, |rest|
    {
      PlaysAcrossStep(s, gp.segs, gp.Value(), rest);
      var got := gp.Next();
      match got {
        case NothingLeft =>
          more := false;
        case FromDisk(h, data, disk) =>
          HandedNextAcross(mux.added, rest);
          mux.Add(Handed(h, data));
          assert States(gp.devs) == s;
          frames, rest := frames + 1, rest[1..];
      }
    }
    HandedEndAcross(mux.added, rest);
    file := mux.Finish();
    status := if frames > 0 then Ok else Fail(Io);
  }

  lemma HandedNextAcross(before: seq<Mp4.Frame>, r: seq<(FrameHdr, seq<byte>, u16)>)
    requires r != []
    ensures before + HandedAcross(r) == before + [Handed(r[0].0, r[0].1)] + HandedAcross(r[1..])
  {
    hide Handed;
    assert before + ([Handed(r[0].0, r[0].1)] + HandedAcross(r[1..])) == before + [Handed(r[0].0, r[0].1)] + HandedAcross(r[1..]);
  }

  lemma HandedEndAcross(before: seq<Mp4.Frame>, r: seq<(FrameHdr, seq<byte>, u16)>)
    ensures r == [] ==> before + HandedAcross(r) == before
  {
  }

  /** Each of these answers plays to an end. */
  ghost predicate AnswersEnd(s: seq<Dev>, q: Filter) {
    forall x :: x in GroupCollect(s, q, 0, MAX_SEGMENTS) ==> SlotEnds(s, x)
  }

  ghost predicate AllIn(segs: seq<Slot>, answers: seq<Slot>) { forall x :: x in segs ==> x in answers }

  /** They do in every reachable state of the recorder. */
  lemma ReachableAnswersEnd(s0: Sys, es: seq<Event>, q: Filter)
    requires Blank(s0) && AllowedRun(s0, es) && |Run(s0, es).pool.devs| <= 0x1_0000
    ensures AnswersEnd(Run(s0, es).pool.devs, q)
  {
    hide Blank, AllowedRun, Run, GroupCollect, PlaysAcross, OpenAt, AcrossEnds, SlotEnds;
    var s := Run(s0, es);
    forall x | x in GroupCollect(s.pool.devs, q, 0, MAX_SEGMENTS)
      ensures SlotEnds(s.pool.devs, x)
    {
      GroupQueryReplays(s0, es, q, MAX_SEGMENTS, [x]);
      AnswerEnds(s.pool.devs, s.hist, x);
    }
  }

  lemma AnswerEnds(devs: seq<Dev>, hist: seq<seq<Seg>>, x: Slot)
    requires exists ks :: AllStandFor(devs, hist, [x], ks) && PlaysAcross(devs, [x], OpenAt(devs, [x], 0), ShownFrom(devs, hist, [x], ks, 0))
    ensures SlotEnds(devs, x)
  {
    hide OpenAt, ReplayAcross, SlotEnds, AllStandFor, ShownFrom;
    var ks :| AllStandFor(devs, hist, [x], ks) && PlaysAcross(devs, [x], OpenAt(devs, [x], 0), ShownFrom(devs, hist, [x], ks, 0));
    var all := ShownFrom(devs, hist, [x], ks, 0);
    assert |ReplayAcross(devs, [x], OpenAt(devs, [x], 0), |all| + 1)| < |all| + 1;
    AcrossEndsExactly(devs, [x], 0);
    OneReached(devs, x);
  }

  lemma OneReached(devs: seq<Dev>, x: Slot)
    ensures x.startDisk < |devs| ==> Reached(devs, [x], 0) == 1 && [x][0] == x
    ensures x.startDisk >= |devs| ==> SlotEnds(devs, x)
  {
  }

  /** The segments of a channel in a span of time, by start time, at most 256 of them. */
  method ExportGroup(devs: seq<Device>, q: Filter, o: Options)
    returns (status: Status, file: seq<byte>, ghost segs: seq<Slot>, ghost all: seq<(FrameHdr, seq<byte>, u16)>)
    requires |devs| <= 0x1_0000 && AnswersEnd(States(devs), q)
    ensures IndexImpl.Sorted(segs) && multiset(segs) == multiset(GroupCollect(old(States(devs)), q, 0, MAX_SEGMENTS))
    ensures segs == [] ==> status == Fail(NotFound)
    ensures segs != [] ==>
      && PlaysAcross(old(States(devs)), segs, OpenAt(old(States(devs)), segs, 0), all)
      && file == FileFor(o, HandedAcross(all)) && status == if all == [] then Fail(Io) else Ok
  {
    hide GroupCollect, PlaysAcross, FileFor, HandedAcross, OpenAt, AcrossEnds, SlotEnds;
    ghost var s := States(devs);
    var out := new Slot[MAX_SEGMENTS](_ => ZERO_SLOT);
    assert States(devs) == s;
    var n := GroupQuery(devs, q, out, MAX_SEGMENTS);
    segs, all := out[..n], [];
    file := [];
    if n == 0 {
      return Fail(NotFound), file, segs, all;
    }
    SameMembers(segs, GroupCollect(s, q, 0, MAX_SEGMENTS));
    AcrossEndsExactly(s, segs, 0);
    assert States(devs) == s;
    var gp := new GroupPlayer(devs, out[..n]);
    assert States(devs) == s;
    status, file, all := DriveGroup(o, gp);
  }

  lemma SameMembers(a: seq<Slot>, b: seq<Slot>)
    requires multiset(a) == multiset(b)
    ensures AllIn(a, b)
  {
    forall x | x in a
      ensures x in b
    {
      assert x in multiset(a);
    }
  }
}
