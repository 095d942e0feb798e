/** Exporting what was recorded: what the players deliver goes into a file, and what a reader of that
    file finds is what was recorded. */
module Backup {
  import opened Bytes
  import opened RecorderFormat
  import opened StorageDev
  import opened Index
  import opened Recorder
  import opened Player
  import opened Faithful
  import opened Playback
  import opened Recording
  import Boxes
  import FragMp4
  import FragRun
  import Mp4
  import Mp4File
  import Rtp

  const CODEC_H265: u8 := 1
  const FRAME_I: u8 := 0

  const FRAG_FTYP_BOX: Boxes.Box :=
    Boxes.Box(Mp4File.FTYP, [0x69, 0x73, 0x6f, 0x35] + Mp4.Words([0x200])
      + [0x69, 0x73, 0x6f, 0x35, 0x69, 0x73, 0x6f, 0x36, 0x6d, 0x70, 0x34, 0x31, 0x64, 0x61, 0x73, 0x68])

  /** The format asked for, and the parts of the file that hold the parameter sets. */
  datatype Options = Options(fragmented: bool, settings: Mp4File.Settings, entry: seq<byte>, moov: Boxes.Box)

  // ---- from players to exporters ----

  /** What the exporter is handed for a frame that was played. */
  function Handed(h: FrameHdr, data: seq<byte>): Mp4.Frame {
    Mp4.Frame(data, h.pts, h.frameType == FRAME_I, if h.codec == CODEC_H265 then Rtp.H265 else Rtp.H264)
  }

  function HandedAll(r: seq<(FrameHdr, seq<byte>)>): seq<Mp4.Frame> {
    if r == [] then [] else [Handed(r[0].0, r[0].1)] + HandedAll(r[1..])
  }

  function HandedAcross(r: seq<(FrameHdr, seq<byte>, u16)>): seq<Mp4.Frame> {
    if r == [] then [] else [Handed(r[0].0, r[0].1)] + HandedAcross(r[1..])
  }

  /** A recorded frame as a frame of the file. */
  function Shot(f: Frame): Mp4.Frame {
    Mp4.Frame(f.data, f.pts, f.frameType == FRAME_I, if f.codec == CODEC_H265 then Rtp.H265 else Rtp.H264)
  }

  function Shots(fs: seq<Frame>): seq<Mp4.Frame> { if fs == [] then [] else [Shot(fs[0])] + Shots(fs[1..]) }

  function FileFor(o: Options, fs: seq<Mp4.Frame>): seq<byte> {
    if o.fragmented then FragRun.ExportFragments(FRAG_FTYP_BOX, fs, o.moov, Mp4File.DefaultDuration(o.settings))
    else Mp4File.Export(fs, o.settings, o.entry)
  }

  /** What a reader finds in the file: every frame that has coded pictures once, in order, with its
      data and its key mark, and nothing else. */
  ghost predicate Holds(file: seq<byte>, o: Options, fs: seq<Mp4.Frame>) {
    if o.fragmented then
      var rs := FragMp4.ReadFragments(Boxes.ReadBoxes(file));
      && (fs != [] ==> FragRun.Shows(fs[0].codec, FragRun.AllSamples(rs), Mp4.Kept(fs))) && (fs == [] ==> rs == [])
      && forall k :: 0 <= k < |rs| ==> FragRun.FragmentOk(rs, k)
    else
      && (fs != [] ==> |Mp4File.Ranges(file)| == |Mp4.Kept(fs)|)
      && (fs != [] ==> forall j :: 0 <= j < |Mp4.Kept(fs)| ==> Mp4File.SampleReads(file, j, fs[0].codec, Mp4.Kept(fs)[j]))
      && Mp4.ReadStts(Mp4File.Table(file, Mp4File.STTS)) == Mp4.Durations(Mp4File.KeptPts(fs), Mp4File.DefaultDuration(o.settings))
  }

  lemma FileHolds(o: Options, fs: seq<Mp4.Frame>)
    requires o.moov.kind == Mp4File.MOOV && |FileFor(o, fs)| < Boxes.U32_END
    ensures Holds(FileFor(o, fs), o, fs)
  {
    hide FragRun.ExportFragments, Mp4File.Export, FragMp4.ReadFragments, Boxes.ReadBoxes, FragRun.Shows, FragRun.FragmentOk;
    hide Mp4File.SampleReads, Mp4File.Ranges, Mp4.ReadStts, Mp4File.Table, Mp4.Durations, Mp4.Kept;
    if o.fragmented {
      FragRun.FragmentsReadBack(FRAG_FTYP_BOX, fs, o.moov, Mp4File.DefaultDuration(o.settings));
    } else {
      Mp4File.ExportReadsBack(fs, o.settings, o.entry);
    }
  }

  // ---- what was recorded ----

  lemma HandedIsShot(d: Dev, segId: u32, j: u32, f: Frame)
    ensures Handed(HdrFor(d, segId, j, f), f.data) == Shot(f)
  {
    hide EncodeHdr, Nonce;
  }

  lemma {:induction false} PlayedIsShot(d: Dev, seg: Seg, from: nat, n: nat)
    requires from <= n <= |seg.frames| <= U32_MAX
    ensures HandedAll(Played(d, seg, from, n)) == Shots(seg.frames[from..n])
    decreases n - from
  {
    hide HdrFor, Handed, Shot;
    if from < n {
      var r := Played(d, seg, from, n);
      assert r[1..] == Played(d, seg, from + 1, n);
      assert seg.frames[from..n][1..] == seg.frames[from + 1..n];
      HandedIsShot(d, seg.segId, from, seg.frames[from]);
      PlayedIsShot(d, seg, from + 1, n);
    }
  }

  lemma {:induction false} HandedDisks(r: seq<(FrameHdr, seq<byte>)>, disk: u16)
    ensures HandedAcross(WithDisk(r, disk)) == HandedAll(r)
    decreases |r|
  {
    hide Handed;
    if r != [] {
      assert WithDisk(r, disk)[1..] == WithDisk(r[1..], disk);
      HandedDisks(r[1..], disk);
    }
  }

  lemma {:induction false} HandedJoin(a: seq<(FrameHdr, seq<byte>, u16)>, b: seq<(FrameHdr, seq<byte>, u16)>)
    ensures HandedAcross(a + b) == HandedAcross(a) + HandedAcross(b)
    decreases |a|
  {
    hide Handed;
    if a == [] {
      assert a + b == b;
    } else {
      assert (a + b)[1..] == a[1..] + b;
      HandedJoin(a[1..], b);
    }
  }

  /** The recorded frames the slots count, segment after segment from number `j` on. */
  ghost function ShotsFrom(devs: seq<Dev>, hist: seq<seq<Seg>>, segs: seq<Slot>, ks: seq<nat>, j: nat): seq<Mp4.Frame>
    requires AllStandFor(devs, hist, segs, ks) && j <= |segs|
    decreases |segs| - j
  {
    if j == |segs| then []
    else
      ShownStep(devs, hist, segs, ks, j);
      Shots(hist[segs[j].startDisk][ks[j]].frames[..segs[j].frameCount]) + ShotsFrom(devs, hist, segs, ks, j + 1)
  }

  lemma {:induction false} ShownIsShots(devs: seq<Dev>, hist: seq<seq<Seg>>, segs: seq<Slot>, ks: seq<nat>, j: nat)
    requires AllStandFor(devs, hist, segs, ks) && j <= |segs|
    ensures HandedAcross(ShownFrom(devs, hist, segs, ks, j)) == ShotsFrom(devs, hist, segs, ks, j)
    decreases |segs| - j
  {
    hide Handed, Shots, Played, StandsFor, WithDisk, HandedAcross, ShownFrom;
    if j < |segs| {
      ShownStep(devs, hist, segs, ks, j);
      var disk, n := segs[j].startDisk, segs[j].frameCount;
      PlayedOnDisk(devs[disk], hist[disk][ks[j]], n, disk, ShownFrom(devs, hist, segs, ks, j + 1));
      ShownIsShots(devs, hist, segs, ks, j + 1);
    } else {
      NothingShown(devs, hist, segs, ks);
    }
  }

  lemma PlayedOnDisk(d: Dev, seg: Seg, n: nat, disk: u16, more: seq<(FrameHdr, seq<byte>, u16)>)
    requires n <= |seg.frames| <= U32_MAX
    ensures HandedAcross(WithDisk(Played(d, seg, 0, n), disk) + more) == Shots(seg.frames[..n]) + HandedAcross(more)
  {
    hide Handed, Shots, Played, WithDisk, HandedAcross;
    HandedJoin(WithDisk(Played(d, seg, 0, n), disk), more);
    HandedDisks(Played(d, seg, 0, n), disk);
    PlayedIsShot(d, seg, 0, n);
    assert seg.frames[0..n] == seg.frames[..n];
  }

  lemma NothingShown(devs: seq<Dev>, hist: seq<seq<Seg>>, segs: seq<Slot>, ks: seq<nat>)
    requires AllStandFor(devs, hist, segs, ks)
    ensures HandedAcross(ShownFrom(devs, hist, segs, ks, |segs|)) == []
  {
    hide StandsFor;
  }

  // ---- playback that ends ----

  lemma PlaysStep(d: Dev, p: Pl, rest: seq<(FrameHdr, seq<byte>)>)
    requires Plays(d, p, rest)
    ensures match NextFrame(d, p)
      case Stop(_) => rest == []
      case Got(h, data, q) => rest != [] && rest[0] == (h, data) && Plays(d, q, rest[1..])
  {
    hide NextFrame;
    assert Replay(d, p, |rest| + 1) == rest;
    match NextFrame(d, p)
    case Stop(_) =>
    case Got(h, data, q) =>
      forall n: nat | n > |rest[1..]|
        ensures Replay(d, q, n) == rest[1..]
      {
        assert Replay(d, p, n + 1) == rest;
        assert Replay(d, p, n + 1) == [(h, data)] + Replay(d, q, n);
      }
  }

  lemma PlaysAcrossStep(devs: seq<Dev>, segs: seq<Slot>, g: GroupPl, rest: seq<(FrameHdr, seq<byte>, u16)>)
    requires PlaysAcross(devs, segs, g, rest)
    ensures match NextAcross(devs, segs, g)
      case NoMore => rest == []
      case GroupGot(h, data, disk, q) => rest != [] && rest[0] == (h, data, disk) && PlaysAcross(devs, segs, q, rest[1..])
  {
    hide NextAcross;
    assert ReplayAcross(devs, segs, g, |rest| + 1) == rest;
    match NextAcross(devs, segs, g)
    case NoMore =>
    case GroupGot(h, data, disk, q) =>
      forall n: nat | n > |rest[1..]|
        ensures ReplayAcross(devs, segs, q, n) == rest[1..]
      {
        assert ReplayAcross(devs, segs, g, n + 1) == rest;
        assert ReplayAcross(devs, segs, g, n + 1) == [(h, data, disk)] + ReplayAcross(devs, segs, q, n);
      }
  }

  // ---- from the recorder to the file ----

  /** Exporting any slot a query returns, in any reachable state of the recorder: playback ends, the
      exporter is handed the recorded frames the slot counts, and a reader of the file, if it stays
      below 4 GiB, finds them. */
  lemma ExportedSegment(s0: Sys, es: seq<Event>, i: nat, q: Filter, cap: nat, slot: Slot, o: Options)
    requires Blank(s0) && AllowedRun(s0, es) && i < |Run(s0, es).hist|
    requires i < |Run(s0, es).pool.devs| && slot in Collect(Run(s0, es).pool.devs[i], q, 0, cap)
    requires o.moov.kind == Mp4File.MOOV
    ensures var d, h := Run(s0, es).pool.devs[i], Run(s0, es).hist[i];
      exists k, rest :: 0 <= k < |h| && Live(d, |h|, k) && Describes(d, slot, k, h[k]) && Plays(d, PlayOpen(d, slot), rest)
        && slot.frameCount <= |h[k].frames| && HandedAll(rest) == Shots(h[k].frames[..slot.frameCount])
        && (|FileFor(o, HandedAll(rest))| < Boxes.U32_END ==> Holds(FileFor(o, HandedAll(rest)), o, Shots(h[k].frames[..slot.frameCount])))
  {
    hide Plays, Blank, Run, Collect, Describes, Replay, Played, AllowedRun, PlayOpen, FileFor, Holds, Shots, HandedAll;
    var d, h := Run(s0, es).pool.devs[i], Run(s0, es).hist[i];
    QueryReplays(s0, es, i, q, cap, slot);
    var k :| 0 <= k < |h| && Live(d, |h|, k) && Describes(d, slot, k, h[k])
        && slot.frameCount <= |h[k].frames| <= U32_MAX
        && Plays(d, PlayOpen(d, slot), Played(d, h[k], 0, slot.frameCount));
    var rest := Played(d, h[k], 0, slot.frameCount);
    PlayedIsShot(d, h[k], 0, slot.frameCount);
    assert h[k].frames[0..slot.frameCount] == h[k].frames[..slot.frameCount];
    if |FileFor(o, HandedAll(rest))| < Boxes.U32_END {
      FileHolds(o, HandedAll(rest));
    }
    assert Plays(d, PlayOpen(d, slot), rest);
  }

  /** The same for any answers of a group query, in any order, across disks. */
  lemma ExportedGroup(s0: Sys, es: seq<Event>, q: Filter, cap: nat, segs: seq<Slot>, o: Options)
    requires Blank(s0) && AllowedRun(s0, es) && |Run(s0, es).pool.devs| <= 0x1_0000
    requires forall x :: x in segs ==> x in GroupCollect(Run(s0, es).pool.devs, q, 0, cap)
    requires o.moov.kind == Mp4File.MOOV
    ensures var s := Run(s0, es);
      exists ks, rest :: AllStandFor(s.pool.devs, s.hist, segs, ks)
        && PlaysAcross(s.pool.devs, segs, OpenAt(s.pool.devs, segs, 0), rest)
        && HandedAcross(rest) == ShotsFrom(s.pool.devs, s.hist, segs, ks, 0)
        && (|FileFor(o, HandedAcross(rest))| < Boxes.U32_END ==>
              Holds(FileFor(o, HandedAcross(rest)), o, ShotsFrom(s.pool.devs, s.hist, segs, ks, 0)))
  {
    hide PlaysAcross, Blank, Run, AllowedRun, StandsFor, GroupCollect, ReplayAcross, OpenAt, ShownFrom, ShotsFrom, FileFor, Holds, HandedAcross, AllStandFor;
    var s := Run(s0, es);
    GroupQueryReplays(s0, es, q, cap, segs);
    var ks :| AllStandFor(s.pool.devs, s.hist, segs, ks)
        && PlaysAcross(s.pool.devs, segs, OpenAt(s.pool.devs, segs, 0), ShownFrom(s.pool.devs, s.hist, segs, ks, 0));
    var rest := ShownFrom(s.pool.devs, s.hist, segs, ks, 0);
    ShownIsShots(s.pool.devs, s.hist, segs, ks, 0);
    if |FileFor(o, HandedAcross(rest))| < Boxes.U32_END {
      FileHolds(o, HandedAcross(rest));
    }
    assert PlaysAcross(s.pool.devs, segs, OpenAt(s.pool.devs, segs, 0), rest);
  }
}
