/** The exported file, said of what was recorded. */
module ExportTells {
  import opened Bytes
  import opened RecorderFormat
  import opened StorageDev
  import opened Index
  import opened Recorder
  import opened Player
  import opened Faithful
  import opened Recording
  import opened Answers
  import opened Backup
  import Boxes
  import Mp4
  import Mp4File
  import Mp4Tells
  import Rtp

  /** The frame a recorded one is in a film: codec 1 is H.265, and frame type 0 a key frame. */
  function Still(f: Frame): Mp4.Frame { Mp4.Frame(f.data, f.pts, f.frameType == 0, if f.codec == 1 then Rtp.H265 else Rtp.H264) }

  function Film(fs: seq<Frame>): (r: seq<Mp4.Frame>)
    ensures |r| == |fs|
  {
    seq(|fs|, i requires 0 <= i < |fs| => Still(fs[i]))
  }

  lemma {:induction false} HandedAt(r: seq<(FrameHdr, seq<byte>)>)
    ensures |HandedAll(r)| == |r| && forall i :: 0 <= i < |r| ==> HandedAll(r)[i] == Handed(r[i].0, r[i].1)
    decreases |r|
  {
    hide Handed;
    if r != [] {
      HandedAt(r[1..]);
    }
  }

  /** What is delivered is handed on as the film. */
  lemma DeliveredIsFilm(seg: Seg, n: nat, rest: seq<(FrameHdr, seq<byte>)>)
    requires Delivers(seg, n, rest)
    ensures HandedAll(rest) == Film(seg.frames[..n])
  {
    hide HandedAll;
    HandedAt(rest);
    forall i | 0 <= i < n
      ensures HandedAll(rest)[i] == Film(seg.frames[..n])[i]
    {
      assert Carries(seg, i, rest[i].0, rest[i].1);
    }
  }

  /** In every reachable state, what an answer plays becomes a file from which a player gets the pictures of exactly
      the recorded frames the answer counts, and the key frames to begin at. */
  lemma ExportShows(s0: Sys, es: seq<Event>, i: nat, q: Filter, cap: nat, x: Slot, o: Options)
    requires Blank(s0) && AllowedRun(s0, es) && i < |Run(s0, es).hist|
    requires i < |Run(s0, es).pool.devs| && x in Collect(Run(s0, es).pool.devs[i], q, 0, cap) && !o.fragmented
    ensures var d, h := Run(s0, es).pool.devs[i], Run(s0, es).hist[i];
      exists k: nat, c, rest :: Told(d, h, q, x, k, c, rest) && k < |h| && c.count <= |h[k].frames| && Film(h[k].frames[..c.count]) != []
        && (|FileFor(o, HandedAll(rest))| < 0x1_0000_0000 ==> Mp4Tells.Tells(FileFor(o, HandedAll(rest)), Film(h[k].frames[..c.count])))
  {
    hide Blank, Run, AllowedRun, Collect, Told, HandedAll, Film, Mp4Tells.Tells, FileFor;
    QueryAnswers(s0, es, i, q, cap, x);
    var d, h := Run(s0, es).pool.devs[i], Run(s0, es).hist[i];
    var k: nat, c, rest :| Told(d, h, q, x, k, c, rest);
    AnswerParts(d, h, q, x, k, c, rest);
    DeliveredIsFilm(h[k], c.count, rest);
    if |FileFor(o, HandedAll(rest))| < 0x1_0000_0000 {
      PlainFile(o, Film(h[k].frames[..c.count]));
    }
  }

  lemma AnswerParts(d: Dev, h: seq<Seg>, q: Filter, x: Slot, k: nat, c: Closing, rest: seq<(FrameHdr, seq<byte>)>)
    requires Told(d, h, q, x, k, c, rest)
    ensures k < |h| && 0 < c.count <= |h[k].frames| && Delivers(h[k], c.count, rest)
  {
    hide Plays, Delivers, Live;
  }

  lemma PlainFile(o: Options, fs: seq<Mp4.Frame>)
    requires !o.fragmented && fs != [] && |FileFor(o, fs)| < 0x1_0000_0000
    ensures Mp4Tells.Tells(FileFor(o, fs), fs)
  {
    hide Mp4File.Export, Mp4Tells.Tells;
    Mp4Tells.FileTells(fs, o.settings, o.entry);
  }
}
