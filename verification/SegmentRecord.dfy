/** The recording engine that turns a stream of frames and detections into segments: rotation in
    continuous mode, pre-roll and post-roll around detections in event mode, and the index of
    closed segments that deletes the oldest file when it is full. */
module SegmentRecord {
  import opened Ring

  datatype Mode = Continuous | OnEvent | Off

  /** Times in milliseconds; `preCapacity` is the size of the pre-roll ring in frames. */
  datatype Config = Config(mode: Mode, segmentMs: nat, maxSegments: nat, postMs: nat, eventMaxMs: nat, preCapacity: nat)

  /** What the application asks for; zero or less means the default. */
  datatype Asked = Asked(mode: Mode, segmentSeconds: int, maxSegments: int, preSeconds: int, postSeconds: int, eventMaxSeconds: int)

  const DEFAULT_SEGMENT_SECONDS: nat := 60
  const DEFAULT_MAX_SEGMENTS: nat := 48
  const DEFAULT_POST_SECONDS: nat := 30
  const EVENT_MAX_SECONDS: nat := 600
  const ASSUMED_FPS: nat := 30
  const PRE_FRAMES_MAX: nat := 900

  function Resolve(a: Asked): (c: Config)
    ensures c.maxSegments > 0 && c.segmentMs > 0 && c.preCapacity <= PRE_FRAMES_MAX
    ensures 0 < c.eventMaxMs <= EVENT_MAX_SECONDS * 1000
  {
    Config(a.mode,
           (if a.segmentSeconds <= 0 then DEFAULT_SEGMENT_SECONDS else a.segmentSeconds) * 1000,
           if a.maxSegments <= 0 then DEFAULT_MAX_SEGMENTS else a.maxSegments,
           (if a.postSeconds <= 0 then DEFAULT_POST_SECONDS else a.postSeconds) * 1000,
           (if a.eventMaxSeconds <= 0 || a.eventMaxSeconds > EVENT_MAX_SECONDS then EVENT_MAX_SECONDS else a.eventMaxSeconds) * 1000,
           if a.preSeconds <= 0 then 0
           else if a.preSeconds * ASSUMED_FPS > PRE_FRAMES_MAX then PRE_FRAMES_MAX else a.preSeconds * ASSUMED_FPS)
  }

  /** Without wishes: a minute a segment, 48 of them, 30 seconds after a detection, 10 minutes at most, and no
      pre-roll; every wish above zero counts, up to 10 minutes for a clip and 900 frames of pre-roll, at 30
      frames a second. */
  lemma Wishes(mode: Mode, seconds: int, segments: int, pre: int, post: int, most: int)
    ensures Resolve(Asked(mode, 0, 0, 0, 0, 0)) == Config(mode, 60000, 48, 30000, 600000, 0)
    ensures var c := Resolve(Asked(mode, seconds, segments, pre, post, most));
      && c.mode == mode
      && c.segmentMs == (if seconds > 0 then 1000 * seconds else 60000) && c.maxSegments == (if segments > 0 then segments else 48)
      && c.postMs == (if post > 0 then 1000 * post else 30000) && c.eventMaxMs == (if 0 < most < 600 then 1000 * most else 600000)
      && c.preCapacity == (if pre >= 30 then 900 else if pre > 0 then 30 * pre else 0)
  {
  }

  /** A frame of the recorded channel and stream. */
  datatype VFrame = VFrame(key: bool, ts: nat, data: seq<int>)

  /** One index entry. */
  datatype Segment = Segment(start: nat, end: nat, events: set<nat>)

  // ---- the multiplexer and its files ----

  /** What the multiplexer holds: the contents of the segments closed so far and of the one open,
      and the files by name; a file is named by the start time of its segment. */
  datatype Muxer = Muxer(done: seq<seq<VFrame>>, open: bool, cur: seq<VFrame>, path: nat, files: map<nat, seq<VFrame>>)

  function MuxOpen(m: Muxer, path: nat): Muxer { m.(open := true, cur := [], path := path, files := m.files[path := []]) }

  function MuxWrite(m: Muxer, f: VFrame): Muxer { m.(cur := m.cur + [f], files := m.files[m.path := m.cur + [f]]) }

  function MuxClose(m: Muxer): Muxer { m.(done := m.done + [m.cur], open := false, cur := []) }

  function Remove(m: Muxer, path: nat): Muxer { m.(files := m.files - {path}) }

  // ---- the engine ----

  /** `closed` lists every segment ever indexed; the index itself is the last of them. */
  datatype Rec = Rec(
    cfg: Config, mux: Muxer, open: bool, cur: Segment, lastFrameMs: nat,
    recording: bool, lastTrigger: nat, pending: bool, pendingEvents: set<nat>,
    closed: seq<Segment>, pre: seq<VFrame>)

  function Fresh(cfg: Config): Rec {
    Rec(cfg, Muxer([], false, [], 0, map[]), false, Segment(0, 0, {}), 0, false, 0, false, {}, [], [])
  }

  function Index(r: Rec): seq<Segment> { Last(r.closed, r.cfg.maxSegments) }

  function OpenSegment(r: Rec, start: nat): Rec {
    r.(mux := MuxOpen(r.mux, start), open := true, cur := Segment(start, start, {}))
  }

  function WriteTo(r: Rec, f: VFrame): Rec {
    r.(mux := MuxWrite(r.mux, f), cur := r.cur.(end := if f.ts > r.cur.end then f.ts else r.cur.end))
  }

  /** Closes the open segment and indexes it; a full index first gives up its oldest file. */
  function CloseSegment(r: Rec): Rec {
    if !r.open then r
    else
      var m := MuxClose(r.mux);
      var index := Index(r);
      r.(mux := if |index| == r.cfg.maxSegments && index != [] then Remove(m, index[0].start) else m,
         closed := r.closed + [r.cur], open := false)
  }

  function PrePush(r: Rec, f: VFrame): Rec { r.(pre := Last(r.pre + [f], r.cfg.preCapacity)) }

  /** The part of the pre-roll from its oldest keyframe on. */
  function FromKey(s: seq<VFrame>): seq<VFrame> {
    if s == [] then [] else if s[0].key then s else FromKey(s[1..])
  }

  function WriteAll(r: Rec, fs: seq<VFrame>): Rec
    decreases |fs|
  {
    if fs == [] then r else WriteAll(WriteTo(r, fs[0]), fs[1..])
  }

  function PreFlush(r: Rec): Rec { WriteAll(r, FromKey(r.pre)).(pre := []) }

  function Elapsed(now: nat, start: nat): nat { if now >= start then now - start else 0 }

  function EventBit(kind: nat): set<nat> { if kind < 32 then {kind} else {} }

  /** One frame; `canOpen` says whether the multiplexer would open a file now. */
  function OnFrame(r0: Rec, f: VFrame, canOpen: bool): Rec {
    var r := r0.(lastFrameMs := f.ts);
    match r.cfg.mode
    case Off => r
    case Continuous =>
      var c := if r.open && f.key && Elapsed(f.ts, r.cur.start) >= r.cfg.segmentMs then CloseSegment(r) else r;
      if c.open then WriteTo(c, f)
      else if f.key && canOpen then WriteTo(OpenSegment(c, f.ts), f)
      else c
    case OnEvent =>
      if r.pending && !r.recording then
        if !f.key then PrePush(r, f)
        else if !canOpen then r
        else
          var o := OpenSegment(r, f.ts);
          WriteTo(o.(recording := true, pending := false, lastTrigger := f.ts,
                     cur := o.cur.(events := o.cur.events + r.pendingEvents), pendingEvents := {}), f)
      else if r.recording then
        var w := WriteTo(r, f);
        if Elapsed(f.ts, w.lastTrigger) >= r.cfg.postMs || Elapsed(f.ts, w.cur.start) >= r.cfg.eventMaxMs
        then CloseSegment(w).(recording := false) else w
      else PrePush(r, f)
  }

  function OnDetection(r: Rec, kind: nat, canOpen: bool): Rec {
    var bit := EventBit(kind);
    var tagged := r.(cur := r.cur.(events := r.cur.events + bit));
    match r.cfg.mode
    case Off => r
    case Continuous => if r.open then tagged else r
    case OnEvent =>
      if r.recording then tagged.(lastTrigger := r.lastFrameMs)
      else if FromKey(r.pre) != [] then
        if !canOpen then r
        else
          var w := PreFlush(OpenSegment(r, FromKey(r.pre)[0].ts).(recording := true));
          w.(lastTrigger := r.lastFrameMs, cur := w.cur.(events := w.cur.events + bit))
      else r.(pending := true, pendingEvents := r.pendingEvents + bit)
  }

  // ---- runs ----

  datatype Input = Frame(frame: VFrame, canOpen: bool) | Detection(kind: nat, canOpen: bool)

  function Step(r: Rec, x: Input): Rec {
    match x
    case Frame(f, canOpen) => OnFrame(r, f, canOpen)
    case Detection(kind, canOpen) => OnDetection(r, kind, canOpen)
  }

  function Run(cfg: Config, xs: seq<Input>): Rec
    decreases |xs|
  {
    if xs == [] then Fresh(cfg) else Step(Run(cfg, xs[..|xs| - 1]), xs[|xs| - 1])
  }

  /** The frames of a run. */
  function Frames(xs: seq<Input>): seq<VFrame>
    decreases |xs|
  {
    if xs == [] then []
    else Frames(xs[..|xs| - 1]) + if xs[|xs| - 1].Frame? then [xs[|xs| - 1].frame] else []
  }

  /** The contents of all segments, closed ones first. */
  function Segments(m: Muxer): seq<seq<VFrame>> { m.done + if m.open then [m.cur] else [] }

  // ---- slices ----

  datatype Span = Span(lo: nat, hi: nat)

  /** Each segment is a non-empty stretch of the frames, starting with a keyframe; the stretches
      follow one another. */
  ghost predicate Sliced(segs: seq<seq<VFrame>>, frames: seq<VFrame>, spans: seq<Span>) {
    && |spans| == |segs|
    && forall i :: 0 <= i < |spans| ==>
      && spans[i].lo < spans[i].hi <= |frames| && segs[i] == frames[spans[i].lo..spans[i].hi]
      && frames[spans[i].lo].key && (i > 0 ==> spans[i - 1].hi <= spans[i].lo)
  }

  /** Where the last stretch ends. */
  function Reach(spans: seq<Span>): nat { if spans == [] then 0 else spans[|spans| - 1].hi }

  ghost predicate StreamInv(r: Rec, frames: seq<VFrame>, spans: seq<Span>) {
    && r.open == r.mux.open && (!r.open ==> r.mux.cur == [])
    && Sliced(Segments(r.mux), frames, spans) && (r.open ==> Reach(spans) == |frames|)
  }

  /** The pre-roll from its first keyframe on is what came in most recently, after the last segment. */
  ghost predicate PreInv(r: Rec, frames: seq<VFrame>, spans: seq<Span>) {
    var k := FromKey(r.pre);
    && (r.cfg.mode == OnEvent ==> r.recording == r.open)
    && (r.pending || r.open ==> k == []) && !(r.pending && r.recording)
    && |k| + Reach(spans) <= |frames| && k == frames[|frames| - |k|..]
  }

  /** Index entries describe the segments. */
  ghost predicate Describes(s: Segment, content: seq<VFrame>) {
    && content != [] && s.start == content[0].ts
    && (forall i :: 0 <= i < |content| ==> content[i].ts <= s.end)
    && exists i :: 0 <= i < |content| && content[i].ts == s.end
  }

  ghost predicate IndexInv(r: Rec) {
    && |r.closed| == |r.mux.done| && (forall i :: 0 <= i < |r.closed| ==> Describes(r.closed[i], r.mux.done[i]))
    && (r.open ==> Describes(r.cur, r.mux.cur))
  }

  ghost predicate Inv(r: Rec, frames: seq<VFrame>, spans: seq<Span>) {
    && StreamInv(r, frames, spans) && PreInv(r, frames, spans) && IndexInv(r)
  }

  // ---- the parts of a step ----

  lemma {:induction false} FromKeyPush(s: seq<VFrame>, f: VFrame)
    ensures FromKey(s + [f]) == if FromKey(s) != [] then FromKey(s) + [f] else if f.key then [f] else []
  {
    if s == [] {
      assert [f][1..] == [];
    } else {
      assert (s + [f])[1..] == s[1..] + [f];
      FromKeyPush(s[1..], f);
    }
  }

  lemma {:induction false} FromKeySuffix(s: seq<VFrame>, n: nat)
    requires n <= |s|
    ensures |FromKey(s[n..])| <= |FromKey(s)| && FromKey(s[n..]) == FromKey(s)[|FromKey(s)| - |FromKey(s[n..])|..]
    ensures |FromKey(s)| <= |s| && FromKey(s) == s[|s| - |FromKey(s)|..]
  {
    if n == 0 {
      assert s[0..] == s;
      if s != [] && !s[0].key {
        FromKeySuffix(s[1..], 0);
      }
    } else {
      assert s[n..] == s[1..][n - 1..];
      FromKeySuffix(s[1..], n - 1);
    }
  }

  lemma {:induction false} FromKeyStarts(s: seq<VFrame>)
    ensures FromKey(s) != [] ==> FromKey(s)[0].key
  {
    if s != [] && !s[0].key {
      FromKeyStarts(s[1..]);
    }
  }

  /** A frame that goes into the pre-roll. */
  lemma PushKeepsInv(r: Rec, f: VFrame, frames: seq<VFrame>, spans: seq<Span>)
    requires Inv(r, frames, spans) && r.cfg.mode == OnEvent && !r.recording && (r.pending ==> !f.key)
    ensures Inv(PrePush(r, f), frames + [f], spans)
  {
    hide Sliced, FromKey;
    MoreFrames(Segments(r.mux), frames, spans, f);
    PushedSuffix(r.pre, f, r.cfg.preCapacity, frames);
    if r.pending {
      NoKeyPushed(r.pre, f, r.cfg.preCapacity);
    }
  }

  lemma NoKeyPushed(pre: seq<VFrame>, f: VFrame, cap: nat)
    requires FromKey(pre) == [] && !f.key
    ensures FromKey(Last(pre + [f], cap)) == []
  {
    var long := pre + [f];
    FromKeyPush(pre, f);
    FromKeySuffix(long, |long| - |Last(long, cap)|);
    assert Last(long, cap) == long[|long| - |Last(long, cap)|..];
  }

  lemma PushedSuffix(pre: seq<VFrame>, f: VFrame, cap: nat, frames: seq<VFrame>)
    requires |FromKey(pre)| <= |frames| && FromKey(pre) == frames[|frames| - |FromKey(pre)|..]
    ensures var k, all := FromKey(Last(pre + [f], cap)), frames + [f];
      |k| <= |FromKey(pre)| + 1 && k == all[|all| - |k|..]
  {
    hide FromKey;
    var long, all := pre + [f], frames + [f];
    FromKeyPush(pre, f);
    EndsWithPush(frames, FromKey(pre), f);
    FromKeySuffix(long, |long| - |Last(long, cap)|);
    assert Last(long, cap) == long[|long| - |Last(long, cap)|..];
    EndsWithPart(all, FromKey(long), FromKey(Last(long, cap)));
  }

  ghost predicate EndsWith(s: seq<VFrame>, t: seq<VFrame>) { |t| <= |s| && t == s[|s| - |t|..] }

  lemma EndsWithPush(s: seq<VFrame>, t: seq<VFrame>, f: VFrame)
    requires EndsWith(s, t)
    ensures EndsWith(s + [f], t + [f]) && EndsWith(s + [f], [f]) && EndsWith(s + [f], [])
  {
  }

  lemma EndsWithPart(s: seq<VFrame>, t: seq<VFrame>, u: seq<VFrame>)
    requires EndsWith(s, t) && EndsWith(t, u)
    ensures EndsWith(s, u)
  {
    assert u == t[|t| - |u|..] == s[|s| - |t|..][|t| - |u|..] == s[|s| - |u|..];
  }

  lemma MoreFrames(segs: seq<seq<VFrame>>, frames: seq<VFrame>, spans: seq<Span>, f: VFrame)
    requires Sliced(segs, frames, spans)
    ensures Sliced(segs, frames + [f], spans)
  {
  }

  /** One more segment, beyond all earlier ones. */
  lemma SlicedMore(segs: seq<seq<VFrame>>, frames: seq<VFrame>, spans: seq<Span>, lo: nat, hi: nat)
    requires Sliced(segs, frames, spans) && Reach(spans) <= lo < hi <= |frames| && frames[lo].key
    ensures Sliced(segs + [frames[lo..hi]], frames, spans + [Span(lo, hi)])
  {
  }

  /** The last segment takes one more frame. */
  lemma SlicedGrows(done: seq<seq<VFrame>>, cur: seq<VFrame>, frames: seq<VFrame>, spans: seq<Span>, f: VFrame)
    requires Sliced(done + [cur], frames, spans) && Reach(spans) == |frames|
    ensures Sliced(done + [cur + [f]], frames + [f], spans[..|spans| - 1] + [spans[|spans| - 1].(hi := |frames| + 1)])
  {
    var n := |spans| - 1;
    assert Sliced(done, frames, spans[..n]) by {
      assert forall i :: 0 <= i < n ==> (done + [cur])[i] == done[i];
    }
    assert (done + [cur])[n] == cur;
    MoreFrames(done, frames, spans[..n], f);
    assert (frames + [f])[spans[n].lo..|frames| + 1] == cur + [f];
    SlicedMore(done, frames + [f], spans[..n], spans[n].lo, |frames| + 1);
  }

  /** A frame nobody records. */
  lemma DropKeepsInv(r: Rec, f: VFrame, frames: seq<VFrame>, spans: seq<Span>)
    requires Inv(r, frames, spans) && !r.open && FromKey(r.pre) == []
    ensures Inv(r.(lastFrameMs := f.ts), frames + [f], spans)
  {
    MoreFrames(Segments(r.mux), frames, spans, f);
  }

  /** A frame appended to the open segment. */
  lemma WriteKeepsInv(r: Rec, f: VFrame, frames: seq<VFrame>, spans: seq<Span>)
    requires Inv(r, frames, spans) && r.open
    ensures var n := |spans|; n > 0 && Inv(WriteTo(r, f), frames + [f], spans[..n - 1] + [spans[n - 1].(hi := |frames| + 1)])
  {
    hide Sliced;
    var t, all := WriteTo(r, f), frames + [f];
    SlicedLength(Segments(r.mux), frames, spans);
    SlicedGrows(r.mux.done, r.mux.cur, frames, spans, f);
    assert FromKey(t.pre) == [] == all[|all|..];
    WriteDescribes(r, f);
  }

  lemma SlicedLength(segs: seq<seq<VFrame>>, frames: seq<VFrame>, spans: seq<Span>)
    requires Sliced(segs, frames, spans)
    ensures |spans| == |segs| && Reach(spans) <= |frames|
  {
  }

  lemma WriteDescribes(r: Rec, f: VFrame)
    requires Describes(r.cur, r.mux.cur)
    ensures Describes(WriteTo(r, f).cur, WriteTo(r, f).mux.cur)
  {
    var t := WriteTo(r, f);
    if t.cur.end == f.ts {
      assert t.mux.cur[|r.mux.cur|].ts == t.cur.end;
    } else {
      var i :| 0 <= i < |r.mux.cur| && r.mux.cur[i].ts == r.cur.end;
      assert t.mux.cur[i].ts == t.cur.end;
    }
  }

  /** A keyframe that opens a segment. */
  lemma OpenKeepsInv(r: Rec, f: VFrame, frames: seq<VFrame>, spans: seq<Span>)
    requires Inv(r, frames, spans) && !r.open && f.key && FromKey(r.pre) == [] && (r.cfg.mode == OnEvent ==> r.pending)
    ensures var o := WriteTo(OpenSegment(r, f.ts), f);
      Inv(if r.cfg.mode == OnEvent then o.(recording := true, pending := false) else o.(pending := false), frames + [f],
          spans + [Span(|frames|, |frames| + 1)])
  {
    hide Sliced, Describes;
    var o, all := WriteTo(OpenSegment(r, f.ts), f), frames + [f];
    FirstDescribes(OpenSegment(r, f.ts), f);
    SlicedLength(Segments(r.mux), frames, spans);
    MoreFrames(Segments(r.mux), frames, spans, f);
    SlicedMore(Segments(r.mux), all, spans, |frames|, |frames| + 1);
    assert all[|frames|..|frames| + 1] == [f] == o.mux.cur;
    assert Segments(o.mux) == Segments(r.mux) + [[f]];
    assert o.mux.cur[0] == f;
    assert FromKey(o.pre) == [] == all[|all|..];
  }

  /** Closing the open segment; nothing is in the pre-roll then but frames before a keyframe. */
  lemma CloseKeepsInv(r: Rec, frames: seq<VFrame>, spans: seq<Span>)
    requires Inv(r, frames, spans)
    ensures Inv(CloseSegment(r).(recording := r.cfg.mode != OnEvent && r.recording), frames, spans)
    ensures r.open ==> CloseSegment(r).mux.done == r.mux.done + [r.mux.cur]
  {
    var c := CloseSegment(r);
    assert Segments(c.mux) == Segments(r.mux);
  }

  /** What writing a list of frames comes to. */
  lemma {:induction false} WriteAllIs(r: Rec, fs: seq<VFrame>)
    ensures var t := WriteAll(r, fs);
      && t == r.(mux := t.mux, cur := t.cur) && t.cur == r.cur.(end := t.cur.end)
      && t.mux == r.mux.(cur := r.mux.cur + fs, files := t.mux.files)
      && t.mux.files == if fs == [] then r.mux.files else r.mux.files[r.mux.path := r.mux.cur + fs]
    ensures Describes(r.cur, r.mux.cur) ==> Describes(WriteAll(r, fs).cur, WriteAll(r, fs).mux.cur)
    decreases |fs|
  {
    if fs == [] {
      assert r.mux.cur + fs == r.mux.cur;
    } else {
      WriteAllIs(WriteTo(r, fs[0]), fs[1..]);
      assert r.mux.cur + [fs[0]] + fs[1..] == r.mux.cur + fs;
      if Describes(r.cur, r.mux.cur) {
        WriteDescribes(r, fs[0]);
      }
    }
  }

  lemma FirstDescribes(r: Rec, f: VFrame)
    requires r.mux.cur == [] && r.cur.start == r.cur.end == f.ts
    ensures Describes(WriteTo(r, f).cur, WriteTo(r, f).mux.cur)
  {
    assert WriteTo(r, f).mux.cur[0] == f;
  }

  /** A detection that finds a keyframe in the pre-roll starts a segment with it. */
  lemma FlushKeepsInv(r: Rec, frames: seq<VFrame>, spans: seq<Span>)
    requires Inv(r, frames, spans) && !r.open && !r.pending && FromKey(r.pre) != []
    ensures var k := FromKey(r.pre);
      && |k| <= |frames|
      && Inv(PreFlush(OpenSegment(r, k[0].ts).(recording := true)), frames, spans + [Span(|frames| - |k|, |frames|)])
  {
    hide Sliced, Describes;
    var k := FromKey(r.pre);
    FromKeyStarts(r.pre);
    var o := OpenSegment(r, k[0].ts).(recording := true);
    var t := PreFlush(o);
    FlushContents(o, k);
    SlicedMore(Segments(r.mux), frames, spans, |frames| - |k|, |frames|);
    assert frames[|frames| - |k|..|frames|] == k;
    assert Segments(t.mux) == Segments(r.mux) + [k];
    assert frames[|frames|..] == [] == FromKey(t.pre);
  }

  lemma FlushContents(o: Rec, k: seq<VFrame>)
    requires k != [] && o.mux.cur == [] && o.cur.start == o.cur.end == k[0].ts
    ensures var t := WriteAll(o, k); t.mux.cur == k && t.mux.done == o.mux.done && t == o.(mux := t.mux, cur := t.cur)
    ensures Describes(WriteAll(o, k).cur, k) && WriteAll(o, k).mux.open == o.mux.open
  {
    WriteAllIs(o, k);
    WriteAllIs(WriteTo(o, k[0]), k[1..]);
    FirstDescribes(o, k[0]);
    assert [] + k == k;
  }

  // ---- every input keeps the invariant ----

  /** Fields the invariant does not look at. */
  lemma SameInv(r: Rec, t: Rec, frames: seq<VFrame>, spans: seq<Span>)
    requires Inv(r, frames, spans)
    requires t.cfg == r.cfg && t.mux == r.mux && t.open == r.open && t.closed == r.closed && t.pre == r.pre
    requires t.cur.start == r.cur.start && t.cur.end == r.cur.end && t.recording == r.recording
    requires t.pending ==> r.pending || (FromKey(r.pre) == [] && !r.recording)
    ensures Inv(t, frames, spans)
  {
  }

  /** A keyframe that finds the open segment long enough. */
  predicate Rotates(r: Rec, f: VFrame) { r.open && f.key && Elapsed(f.ts, r.cur.start) >= r.cfg.segmentMs }

  /** The last stretch now ends at `hi`. */
  function Grown(spans: seq<Span>, hi: nat): seq<Span> {
    if spans == [] then [] else spans[..|spans| - 1] + [spans[|spans| - 1].(hi := hi)]
  }

  lemma FrameContinuous(r: Rec, f: VFrame, canOpen: bool, frames: seq<VFrame>, spans: seq<Span>) returns (next: seq<Span>)
    requires Inv(r, frames, spans) && r.cfg.mode == Continuous && r.pre == [] && !r.pending
    ensures Inv(OnFrame(r, f, canOpen), frames + [f], next)
    ensures OnFrame(r, f, canOpen).pre == [] && !OnFrame(r, f, canOpen).pending
    ensures next == if r.open && !Rotates(r, f) then Grown(spans, |frames| + 1)
                    else if f.key && canOpen then spans + [Span(|frames|, |frames| + 1)] else spans
  {
    hide Inv;
    var r1 := r.(lastFrameMs := f.ts);
    SameInv(r, r1, frames, spans);
    var c := if Rotates(r, f) then CloseSegment(r1) else r1;
    assert Inv(c, frames, spans) by {
      CloseKeepsInv(r1, frames, spans);
      SameInv(CloseSegment(r1).(recording := r.recording), CloseSegment(r1), frames, spans);
    }
    if c.open {
      WriteKeepsInv(c, f, frames, spans);
      next := Grown(spans, |frames| + 1);
    } else if f.key && canOpen {
      OpenKeepsInv(c, f, frames, spans);
      next := spans + [Span(|frames|, |frames| + 1)];
    } else {
      DropKeepsInv(c, f, frames, spans);
      next := spans;
    }
  }

  lemma InvFacts(r: Rec, frames: seq<VFrame>, spans: seq<Span>)
    requires Inv(r, frames, spans)
    ensures r.cfg.mode == OnEvent ==> r.recording == r.open
    ensures r.pending || r.open ==> FromKey(r.pre) == []
    ensures !(r.pending && r.recording)
  {
  }

  lemma FrameOnEvent(r: Rec, f: VFrame, canOpen: bool, frames: seq<VFrame>, spans: seq<Span>) returns (next: seq<Span>)
    requires Inv(r, frames, spans) && r.cfg.mode == OnEvent
    ensures Inv(OnFrame(r, f, canOpen), frames + [f], next)
  {
    hide Inv;
    var r1 := r.(lastFrameMs := f.ts);
    SameInv(r, r1, frames, spans);
    InvFacts(r1, frames, spans);
    if r.recording {
      WriteKeepsInv(r1, f, frames, spans);
      next := Grown(spans, |frames| + 1);
      CloseKeepsInv(WriteTo(r1, f), frames + [f], next);
    } else if r.pending && f.key && canOpen {
      OpenKeepsInv(r1, f, frames, spans);
      next := spans + [Span(|frames|, |frames| + 1)];
      SameInv(WriteTo(OpenSegment(r1, f.ts), f).(recording := true, pending := false), OnFrame(r, f, canOpen), frames + [f], next);
    } else if r.pending && f.key {
      DropKeepsInv(r1, f, frames, spans);
      next := spans;
    } else {
      PushKeepsInv(r1, f, frames, spans);
      next := spans;
    }
  }

  lemma DetectionKeepsInv(r: Rec, kind: nat, canOpen: bool, frames: seq<VFrame>, spans: seq<Span>) returns (next: seq<Span>)
    requires Inv(r, frames, spans)
    ensures Inv(OnDetection(r, kind, canOpen), frames, next)
  {
    hide Inv;
    InvFacts(r, frames, spans);
    next := spans;
    var t := OnDetection(r, kind, canOpen);
    if r.cfg.mode == OnEvent && !r.recording && FromKey(r.pre) != [] && canOpen {
      var k := FromKey(r.pre);
      FlushKeepsInv(r, frames, spans);
      next := spans + [Span(|frames| - |k|, |frames|)];
      SameInv(PreFlush(OpenSegment(r, k[0].ts).(recording := true)), t, frames, next);
    } else {
      SameInv(r, t, frames, spans);
    }
  }

  lemma OffDoesNothing(r: Rec, f: VFrame, canOpen: bool, frames: seq<VFrame>, spans: seq<Span>)
    requires Inv(r, frames, spans) && r.cfg.mode == Off && !r.open && r.pre == []
    ensures Inv(OnFrame(r, f, canOpen), frames + [f], spans)
  {
    MoreFrames(Segments(r.mux), frames, spans, f);
  }

  ghost predicate QuietOutsideEvents(r: Rec) {
    && (r.cfg.mode != OnEvent ==> r.pre == [] && !r.pending && !r.recording)
    && (r.cfg.mode == Off ==> !r.open)
  }

  lemma StepQuiet(r: Rec, x: Input)
    requires QuietOutsideEvents(r)
    ensures QuietOutsideEvents(Step(r, x)) && Step(r, x).cfg == r.cfg
  {
    if x.Detection? && r.cfg.mode == OnEvent && !r.recording && FromKey(r.pre) != [] {
      WriteAllIs(OpenSegment(r, FromKey(r.pre)[0].ts).(recording := true), FromKey(r.pre));
    }
  }

  lemma StepKeepsInv(r: Rec, x: Input, frames: seq<VFrame>, spans: seq<Span>) returns (next: seq<Span>)
    requires Inv(r, frames, spans) && QuietOutsideEvents(r)
    ensures Inv(Step(r, x), frames + (if x.Frame? then [x.frame] else []), next)
  {
    hide Inv;
    match x
    case Detection(kind, canOpen) =>
      next := DetectionKeepsInv(r, kind, canOpen, frames, spans);
      assert frames + [] == frames;
    case Frame(f, canOpen) =>
      match r.cfg.mode {
        case Continuous => next := FrameContinuous(r, f, canOpen, frames, spans);
        case OnEvent => next := FrameOnEvent(r, f, canOpen, frames, spans);
        case Off =>
          OffDoesNothing(r, f, canOpen, frames, spans);
          next := spans;
      }
  }

  /** Every segment of every run is a contiguous stretch of the incoming frames that begins with
      a keyframe; no frame is in two segments, and the segments are in the order of the input. */
  lemma {:induction false} RunSliced(cfg: Config, xs: seq<Input>) returns (spans: seq<Span>)
    ensures Inv(Run(cfg, xs), Frames(xs), spans) && Sliced(Segments(Run(cfg, xs).mux), Frames(xs), spans)
    ensures QuietOutsideEvents(Run(cfg, xs)) && Run(cfg, xs).cfg == cfg
    decreases |xs|
  {
    if xs == [] {
      spans := [];
    } else {
      var before, x := xs[..|xs| - 1], xs[|xs| - 1];
      var was := RunSliced(cfg, before);
      hide Inv, Step, QuietOutsideEvents;
      StepQuiet(Run(cfg, before), x);
      spans := StepKeepsInv(Run(cfg, before), x, Frames(before), was);
      InvSliced(Run(cfg, xs), Frames(xs), spans);
    }
  }

  lemma InvSliced(r: Rec, frames: seq<VFrame>, spans: seq<Span>)
    requires Inv(r, frames, spans)
    ensures Sliced(Segments(r.mux), frames, spans)
  {
  }

  // ---- continuous mode ----

  function Joined(segs: seq<seq<VFrame>>): seq<VFrame> {
    if segs == [] then [] else Joined(segs[..|segs| - 1]) + segs[|segs| - 1]
  }

  ghost predicate AllOpen(xs: seq<Input>) { forall i :: 0 <= i < |xs| ==> xs[i].canOpen }

  /** When every file can be opened, continuous recording loses nothing from the first keyframe on. */
  lemma {:induction false} ContinuousComplete(cfg: Config, xs: seq<Input>)
    requires cfg.mode == Continuous && AllOpen(xs)
    ensures Joined(Segments(Run(cfg, xs).mux)) == FromKey(Frames(xs))
    ensures Run(cfg, xs).open == Run(cfg, xs).mux.open == (FromKey(Frames(xs)) != []) && Run(cfg, xs).cfg == cfg
    decreases |xs|
  {
    if xs != [] {
      var before, x := xs[..|xs| - 1], xs[|xs| - 1];
      ContinuousComplete(cfg, before);
      var r := Run(cfg, before);
      if x.Frame? {
        FromKeyPush(Frames(before), x.frame);
        ContinuousJoins(r, x.frame);
      } else {
        assert Frames(xs) == Frames(before);
      }
    }
  }

  lemma ContinuousJoins(r: Rec, f: VFrame)
    requires r.cfg.mode == Continuous && r.open == r.mux.open
    ensures var t := OnFrame(r, f, true);
      && Joined(Segments(t.mux)) == Joined(Segments(r.mux)) + (if r.open || f.key then [f] else [])
      && t.open == t.mux.open == (r.open || f.key) && t.cfg == r.cfg
  {
    var t, done := OnFrame(r, f, true), r.mux.done;
    if r.open {
      assert Segments(r.mux)[..|done|] == done;
      if Rotates(r, f) {
        assert Segments(t.mux)[..|done| + 1] == done + [r.mux.cur] == Segments(r.mux);
        assert t.mux.cur == [f];
      } else {
        assert Segments(t.mux)[..|done|] == done;
        assert Joined(done) + (r.mux.cur + [f]) == Joined(done) + r.mux.cur + [f];
      }
    } else if f.key {
      assert Segments(t.mux)[..|done|] == done == Segments(r.mux);
      assert t.mux.cur == [f];
    }
  }

  /** Every segment but the open one was ended by the first keyframe that found it long enough. */
  ghost predicate Rotated(ms: nat, frames: seq<VFrame>, spans: seq<Span>, closed: nat) {
    forall i :: 0 <= i < |spans| && spans[i].lo < spans[i].hi <= |frames| ==>
      && (forall j :: spans[i].lo < j < spans[i].hi && frames[j].key ==> Elapsed(frames[j].ts, frames[spans[i].lo].ts) < ms)
      && (i < closed ==> && spans[i].hi < |frames| && frames[spans[i].hi].key
                         && Elapsed(frames[spans[i].hi].ts, frames[spans[i].lo].ts) >= ms)
  }

  lemma {:induction false} RotationExact(cfg: Config, xs: seq<Input>) returns (spans: seq<Span>)
    requires cfg.mode == Continuous
    ensures Inv(Run(cfg, xs), Frames(xs), spans) && QuietOutsideEvents(Run(cfg, xs)) && Run(cfg, xs).cfg == cfg
    ensures Rotated(cfg.segmentMs, Frames(xs), spans, |Run(cfg, xs).mux.done|)
    decreases |xs|
  {
    if xs == [] {
      spans := [];
    } else {
      var before, x := xs[..|xs| - 1], xs[|xs| - 1];
      var r, frames := Run(cfg, before), Frames(before);
      var was := RotationExact(cfg, before);
      hide Inv, Rotated;
      StepQuiet(r, x);
      match x
      case Detection(kind, canOpen) =>
        assert frames + [] == frames;
        SameInv(r, OnDetection(r, kind, canOpen), frames, was);
        spans := was;
      case Frame(f, canOpen) =>
        spans := FrameContinuous(r, f, canOpen, frames, was);
        RotatedStep(r, f, canOpen, frames, was, spans);
    }
  }

  lemma RotatedStep(r: Rec, f: VFrame, canOpen: bool, frames: seq<VFrame>, spans: seq<Span>, next: seq<Span>)
    requires r.cfg.mode == Continuous && Inv(r, frames, spans) && Rotated(r.cfg.segmentMs, frames, spans, |r.mux.done|)
    requires next == if r.open && !Rotates(r, f) then Grown(spans, |frames| + 1)
                     else if f.key && canOpen then spans + [Span(|frames|, |frames| + 1)] else spans
    ensures Rotated(r.cfg.segmentMs, frames + [f], next, |OnFrame(r, f, canOpen).mux.done|)
  {
    hide Inv, Rotated, Rotates;
    var all, ms, done := frames + [f], r.cfg.segmentMs, |r.mux.done|;
    InvSpans(r, frames, spans);
    AfterFrame(r, f, canOpen);
    RotatedEarlier(ms, frames, spans, done, f);
    if r.open {
      OpenStart(r, frames, spans);
      if Rotates(r, f) {
        RotatedClose(ms, frames, spans, done, f);
        if canOpen {
          RotatedMore(ms, all, spans, done + 1, |frames|);
        }
      } else {
        RotatedGrows(ms, frames, spans, done, f);
      }
    } else if f.key && canOpen {
      RotatedMore(ms, all, spans, done, |frames|);
    }
  }

  lemma InvSpans(r: Rec, frames: seq<VFrame>, spans: seq<Span>)
    requires Inv(r, frames, spans)
    ensures r.open == r.mux.open && |spans| == |r.mux.done| + if r.open then 1 else 0
    ensures forall i :: 0 <= i < |spans| ==> spans[i].hi <= |frames|
  {
  }

  lemma AfterFrame(r: Rec, f: VFrame, canOpen: bool)
    requires r.cfg.mode == Continuous
    ensures |OnFrame(r, f, canOpen).mux.done| == |r.mux.done| + if Rotates(r, f) then 1 else 0
    ensures Rotates(r, f) ==> r.open && f.key && Elapsed(f.ts, r.cur.start) >= r.cfg.segmentMs
    ensures r.open && f.key && Elapsed(f.ts, r.cur.start) >= r.cfg.segmentMs ==> Rotates(r, f)
  {
  }

  lemma OpenStart(r: Rec, frames: seq<VFrame>, spans: seq<Span>)
    requires Inv(r, frames, spans) && r.open
    ensures |spans| == |r.mux.done| + 1 && spans[|spans| - 1].lo < |frames| == spans[|spans| - 1].hi
    ensures r.cur.start == frames[spans[|spans| - 1].lo].ts
  {
    assert Segments(r.mux)[|spans| - 1] == r.mux.cur;
  }

  lemma RotatedEarlier(ms: nat, frames: seq<VFrame>, spans: seq<Span>, closed: nat, f: VFrame)
    requires Rotated(ms, frames, spans, closed) && (forall i :: 0 <= i < |spans| ==> spans[i].hi <= |frames|)
    ensures Rotated(ms, frames + [f], spans, closed)
  {
  }

  lemma RotatedMore(ms: nat, frames: seq<VFrame>, spans: seq<Span>, closed: nat, lo: nat)
    requires Rotated(ms, frames, spans, closed) && closed <= |spans|
    ensures Rotated(ms, frames, spans + [Span(lo, lo + 1)], closed)
  {
  }

  lemma RotatedClose(ms: nat, frames: seq<VFrame>, spans: seq<Span>, closed: nat, f: VFrame)
    requires Rotated(ms, frames + [f], spans, closed) && |spans| == closed + 1 && f.key
    requires spans[closed].lo < |frames| == spans[closed].hi && Elapsed(f.ts, frames[spans[closed].lo].ts) >= ms
    ensures Rotated(ms, frames + [f], spans, closed + 1)
  {
  }

  lemma RotatedGrows(ms: nat, frames: seq<VFrame>, spans: seq<Span>, closed: nat, f: VFrame)
    requires Rotated(ms, frames + [f], spans, closed) && |spans| == closed + 1
    requires spans[closed].lo < |frames| == spans[closed].hi
    requires f.key ==> Elapsed(f.ts, frames[spans[closed].lo].ts) < ms
    ensures Rotated(ms, frames + [f], Grown(spans, |frames| + 1), closed)
  {
  }

  // ---- the files ----

  function StartOf(s: seq<VFrame>): nat { if s == [] then 0 else s[0].ts }

  /** The files are those of the listed segments, each with the contents of its segment. */
  ghost predicate FilesAre(files: map<nat, seq<VFrame>>, kept: seq<seq<VFrame>>) {
    && (forall p :: p in files <==> exists i :: 0 <= i < |kept| && StartOf(kept[i]) == p)
    && forall i :: 0 <= i < |kept| ==> StartOf(kept[i]) in files && files[StartOf(kept[i])] == kept[i]
  }

  ghost predicate DistinctStarts(segs: seq<seq<VFrame>>) {
    forall i, j :: 0 <= i < j < |segs| ==> StartOf(segs[i]) != StartOf(segs[j])
  }

  /** The files of `rest` are right, and there is no other but maybe one with the name of `oldest`,
      whatever is in it. */
  ghost predicate FilesBut(files: map<nat, seq<VFrame>>, oldest: seq<VFrame>, rest: seq<seq<VFrame>>) {
    && (forall p :: p in files ==> p == StartOf(oldest) || exists i :: 0 <= i < |rest| && StartOf(rest[i]) == p)
    && forall i :: 0 <= i < |rest| ==> StartOf(rest[i]) in files && files[StartOf(rest[i])] == rest[i]
  }

  /** Giving up the oldest file, even one that a later segment has overwritten, leaves exactly the
      other segments' files when, and only when, no other segment has its name, that is, its start time. */
  lemma ReclaimExact(files: map<nat, seq<VFrame>>, oldest: seq<VFrame>, rest: seq<seq<VFrame>>)
    requires FilesBut(files, oldest, rest)
    ensures FilesAre(files - {StartOf(oldest)}, rest)
       <==> forall i :: 0 <= i < |rest| ==> StartOf(rest[i]) != StartOf(oldest)
  {
    var left := files - {StartOf(oldest)};
    forall p | p in left
      ensures exists i :: 0 <= i < |rest| && StartOf(rest[i]) == p
    {
      assert p in files;
    }
  }

  /** The segments with a file: those in the index, and the open one. */
  function Kept(r: Rec): seq<seq<VFrame>> {
    Last(r.mux.done, r.cfg.maxSegments) + if r.mux.open then [r.mux.cur] else []
  }

  ghost predicate FilesInv(r: Rec) {
    && FilesAre(r.mux.files, Kept(r))
    && (r.mux.open ==> r.mux.cur != [] && r.mux.path == StartOf(r.mux.cur))
  }

  /** A new file beside the others. */
  lemma PutFile(files: map<nat, seq<VFrame>>, kept: seq<seq<VFrame>>, s: seq<VFrame>)
    requires FilesAre(files, kept) && DistinctStarts(kept + [s])
    ensures FilesAre(files[StartOf(s) := s], kept + [s])
  {
    var all, put := kept + [s], files[StartOf(s) := s];
    assert all[|kept|] == s;
    forall i | 0 <= i < |kept|
      ensures all[i] == kept[i] && StartOf(kept[i]) != StartOf(s)
    {
      assert StartOf(all[i]) != StartOf(all[|kept|]);
    }
    forall p | p in files
      ensures exists i :: 0 <= i < |all| && StartOf(all[i]) == p
    {
      var i :| 0 <= i < |kept| && StartOf(kept[i]) == p;
      assert StartOf(all[i]) == p;
    }
  }

  /** The last file taken away. */
  lemma DropFile(files: map<nat, seq<VFrame>>, kept: seq<seq<VFrame>>, was: seq<VFrame>)
    requires FilesAre(files, kept + [was]) && forall i :: 0 <= i < |kept| ==> StartOf(kept[i]) != StartOf(was)
    ensures FilesAre(files - {StartOf(was)}, kept)
  {
    var before, less := kept + [was], files - {StartOf(was)};
    assert before[|kept|] == was;
    forall i | 0 <= i < |kept|
      ensures StartOf(kept[i]) in less && less[StartOf(kept[i])] == kept[i]
    {
      assert kept[i] == before[i];
    }
    forall p | p in less
      ensures exists i :: 0 <= i < |kept| && StartOf(kept[i]) == p
    {
      var i :| 0 <= i < |before| && StartOf(before[i]) == p;
      assert StartOf(kept[i]) == p;
    }
  }

  lemma LastDiffers(kept: seq<seq<VFrame>>, s: seq<VFrame>)
    requires DistinctStarts(kept + [s])
    ensures forall i :: 0 <= i < |kept| ==> StartOf(kept[i]) != StartOf(s)
  {
    forall i | 0 <= i < |kept|
      ensures StartOf(kept[i]) != StartOf(s)
    {
      assert (kept + [s])[i] == kept[i] && (kept + [s])[|kept|] == s;
    }
  }

  /** The last file rewritten. */
  lemma RewriteFile(files: map<nat, seq<VFrame>>, kept: seq<seq<VFrame>>, was: seq<VFrame>, s: seq<VFrame>)
    requires FilesAre(files, kept + [was]) && StartOf(was) == StartOf(s) && DistinctStarts(kept + [s])
    ensures FilesAre(files[StartOf(s) := s], kept + [s])
  {
    hide FilesAre, DistinctStarts, StartOf;
    var less := files - {StartOf(s)};
    LastDiffers(kept, s);
    DropFile(files, kept, was);
    PutFile(less, kept, s);
    assert less[StartOf(s) := s] == files[StartOf(s) := s];
  }

  /** Every segment with a file has one of its own. */
  ghost predicate OwnFiles(r: Rec) { FilesInv(r) && DistinctStarts(Kept(r)) }

  lemma DistinctMore(kept: seq<seq<VFrame>>, s: seq<VFrame>)
    requires DistinctStarts(kept)
    ensures DistinctStarts(kept + [s]) <==> forall i :: 0 <= i < |kept| ==> StartOf(kept[i]) != StartOf(s)
  {
    if DistinctStarts(kept + [s]) {
      LastDiffers(kept, s);
    }
  }

  lemma DistinctAgain(a: seq<seq<VFrame>>, b: seq<seq<VFrame>>)
    requires DistinctStarts(a) && |b| == |a| && forall i :: 0 <= i < |a| ==> StartOf(b[i]) == StartOf(a[i])
    ensures DistinctStarts(b)
  {
  }

  lemma DistinctTail(a: seq<seq<VFrame>>, b: seq<seq<VFrame>>)
    requires DistinctStarts(a) && |b| <= |a| && b == a[|a| - |b|..]
    ensures DistinctStarts(b)
  {
  }

  /** A segment opened and filled has a file of its own, beside all others, when, and only when, no
      segment that still has a file started at the same time. */
  lemma OpenExact(r: Rec, k: seq<VFrame>)
    requires OwnFiles(r) && !r.mux.open && k != []
    ensures OwnFiles(WriteAll(OpenSegment(r, k[0].ts), k)) <==> forall i :: 0 <= i < |Kept(r)| ==> StartOf(Kept(r)[i]) != k[0].ts
  {
    hide FilesAre, DistinctStarts;
    var o := OpenSegment(r, k[0].ts);
    var kept := Last(r.mux.done, r.cfg.maxSegments);
    WriteAllIs(o, k);
    assert [] + k == k;
    assert Kept(r) == kept && Kept(WriteAll(o, k)) == kept + [k];
    DistinctMore(kept, k);
    if forall i :: 0 <= i < |kept| ==> StartOf(kept[i]) != k[0].ts {
      PutFile(r.mux.files, kept, k);
      assert o.mux.files[k[0].ts := k] == r.mux.files[k[0].ts := k];
    }
  }

  lemma OpenOneExact(r: Rec, f: VFrame)
    requires OwnFiles(r) && !r.mux.open
    ensures OwnFiles(WriteTo(OpenSegment(r, f.ts), f)) <==> forall i :: 0 <= i < |Kept(r)| ==> StartOf(Kept(r)[i]) != f.ts
  {
    hide OwnFiles;
    OpenExact(r, [f]);
    assert [f][1..] == [];
    var o := OpenSegment(r, f.ts);
    assert WriteAll(o, [f]) == WriteAll(WriteTo(o, f), []) == WriteTo(o, f);
  }

  lemma WriteKeepsFiles(r: Rec, f: VFrame)
    requires OwnFiles(r) && r.mux.open
    ensures OwnFiles(WriteTo(r, f))
  {
    hide FilesAre, DistinctStarts;
    var kept, now := Last(r.mux.done, r.cfg.maxSegments), r.mux.cur + [f];
    assert Kept(r) == kept + [r.mux.cur] && Kept(WriteTo(r, f)) == kept + [now];
    DistinctAgain(kept + [r.mux.cur], kept + [now]);
    RewriteFile(r.mux.files, kept, r.mux.cur, now);
  }

  /** Closing a segment, with the reclaim that may come with it, keeps the other files. */
  lemma CloseKeepsFiles(r: Rec)
    requires OwnFiles(r) && r.open && r.mux.open && r.cfg.maxSegments > 0 && IndexInv(r)
    ensures OwnFiles(CloseSegment(r))
  {
    hide FilesAre, DistinctStarts, Describes, FilesBut;
    var n, done := r.cfg.maxSegments, r.mux.done;
    var rest := Last(done + [r.mux.cur], n);
    assert Kept(CloseSegment(r)) == rest;
    if |done| >= n {
      var oldest := done[|done| - n];
      IndexedStart(r, |done| - n);
      assert Index(r)[0] == r.closed[|done| - n];
      assert Kept(r) == [oldest] + rest;
      OldestDistinct(Kept(r), oldest, rest);
      DistinctTail(Kept(r), rest);
      AllButOldest(r.mux.files, oldest, rest);
      ReclaimExact(r.mux.files, oldest, rest);
    } else {
      assert Kept(r) == rest;
    }
  }

  lemma AllButOldest(files: map<nat, seq<VFrame>>, oldest: seq<VFrame>, rest: seq<seq<VFrame>>)
    requires FilesAre(files, [oldest] + rest)
    ensures FilesBut(files, oldest, rest)
  {
    var all := [oldest] + rest;
    forall i | 0 <= i < |rest|
      ensures StartOf(rest[i]) in files && files[StartOf(rest[i])] == rest[i]
    {
      assert all[i + 1] == rest[i];
    }
    forall p | p in files && p != StartOf(oldest)
      ensures exists i :: 0 <= i < |rest| && StartOf(rest[i]) == p
    {
      var i :| 0 <= i < |all| && StartOf(all[i]) == p;
      assert StartOf(rest[i - 1]) == p;
    }
  }

  lemma IndexedStart(r: Rec, i: nat)
    requires IndexInv(r) && i < |r.closed|
    ensures r.closed[i].start == StartOf(r.mux.done[i])
  {
  }

  lemma OldestDistinct(all: seq<seq<VFrame>>, oldest: seq<VFrame>, rest: seq<seq<VFrame>>)
    requires DistinctStarts(all) && all == [oldest] + rest
    ensures forall i :: 0 <= i < |rest| ==> StartOf(rest[i]) != StartOf(oldest)
  {
    forall i | 0 <= i < |rest|
      ensures StartOf(rest[i]) != StartOf(oldest)
    {
      assert rest[i] == all[i + 1] && oldest == all[0];
    }
  }

  // ---- start times that differ ----

  ghost predicate DistinctTimes(frames: seq<VFrame>) {
    forall i, j :: 0 <= i < j < |frames| ==> frames[i].ts != frames[j].ts
  }

  /** With all frame times different, all segments have different start times. */
  lemma SlicesDistinct(segs: seq<seq<VFrame>>, frames: seq<VFrame>, spans: seq<Span>)
    requires Sliced(segs, frames, spans) && DistinctTimes(frames)
    ensures DistinctStarts(segs)
  {
    forall i, j | 0 <= i < j < |segs|
      ensures StartOf(segs[i]) != StartOf(segs[j])
    {
      SpansOrdered(segs, frames, spans, i, j);
    }
  }

  lemma {:induction false} SpansOrdered(segs: seq<seq<VFrame>>, frames: seq<VFrame>, spans: seq<Span>, i: nat, j: nat)
    requires Sliced(segs, frames, spans) && i < j < |spans|
    ensures spans[i].hi <= spans[j].lo
    decreases j
  {
    if i < j - 1 {
      SpansOrdered(segs, frames, spans, i, j - 1);
    }
  }

  lemma InvIndex(r: Rec, frames: seq<VFrame>, spans: seq<Span>)
    requires Inv(r, frames, spans)
    ensures IndexInv(r) && r.open == r.mux.open
  {
  }

  lemma SameIndex(r: Rec, t: Rec)
    requires IndexInv(r) && t.mux == r.mux && t.cur == r.cur && t.open == r.open && t.closed == r.closed
    ensures IndexInv(t)
  {
  }

  // ---- where a file is opened ----

  /** The start time of the file a step opens, and the segments that have a file then. */
  datatype Opening = NoOpening | OpensAt(start: nat, kept: seq<seq<VFrame>>)

  function Closed(r: Rec, f: VFrame): Rec { if Rotates(r, f) then CloseSegment(r) else r }

  function OpeningOf(r: Rec, x: Input): Opening {
    match x
    case Frame(f, canOpen) =>
      if r.cfg.mode == Continuous then
        if !Closed(r, f).open && f.key && canOpen then OpensAt(f.ts, Kept(Closed(r, f))) else NoOpening
      else if r.cfg.mode == OnEvent && r.pending && !r.recording && f.key && canOpen then OpensAt(f.ts, Kept(r))
      else NoOpening
    case Detection(kind, canOpen) =>
      if r.cfg.mode == OnEvent && !r.recording && FromKey(r.pre) != [] && canOpen then OpensAt(FromKey(r.pre)[0].ts, Kept(r)) else NoOpening
  }

  /** The step opens no file, or one under a name that no segment's file has. */
  predicate NoClash(r: Rec, x: Input) {
    var o := OpeningOf(r, x);
    o.OpensAt? ==> forall i :: 0 <= i < |o.kept| ==> StartOf(o.kept[i]) != o.start
  }

  /** A step keeps every segment's file its own exactly when it opens none under the name of one. */
  lemma StepFilesExact(r: Rec, x: Input, frames: seq<VFrame>, spans: seq<Span>)
    requires Inv(r, frames, spans) && OwnFiles(r) && r.cfg.maxSegments > 0
    ensures OwnFiles(Step(r, x)) <==> NoClash(r, x)
  {
    hide Inv, OwnFiles, WriteAll;
    InvFacts(r, frames, spans);
    InvIndex(r, frames, spans);
    match x
    case Detection(kind, canOpen) => DetectionExact(r, kind, canOpen);
    case Frame(f, canOpen) =>
      if r.cfg.mode == Continuous {
        ContinuousExact(r, f, canOpen);
      } else if r.cfg.mode == OnEvent && r.recording {
        PostRollFiles(r, f);
      } else if r.cfg.mode == OnEvent && r.pending && f.key && canOpen {
        PendingExact(r, f);
      } else {
        SameFiles(r, OnFrame(r, f, canOpen));
      }
  }

  lemma SameFiles(r: Rec, t: Rec)
    requires t.mux == r.mux && t.cfg == r.cfg
    ensures OwnFiles(t) == OwnFiles(r)
  {
  }

  lemma DetectionExact(r: Rec, kind: nat, canOpen: bool)
    requires OwnFiles(r) && (r.cfg.mode == OnEvent && !r.recording ==> !r.mux.open)
    ensures OwnFiles(OnDetection(r, kind, canOpen)) <==> NoClash(r, Detection(kind, canOpen))
  {
    hide OwnFiles, WriteAll;
    var t := OnDetection(r, kind, canOpen);
    if r.cfg.mode == OnEvent && !r.recording && FromKey(r.pre) != [] && canOpen {
      var k, r1 := FromKey(r.pre), r.(recording := true);
      SameFiles(r, r1);
      assert Kept(r1) == Kept(r);
      OpenExact(r1, k);
      WriteAllSame(OpenSegment(r1, k[0].ts), k);
      assert OpenSegment(r, k[0].ts).(recording := true) == OpenSegment(r1, k[0].ts);
      SameFiles(WriteAll(OpenSegment(r1, k[0].ts), k), t);
    } else {
      SameFiles(r, t);
    }
  }

  lemma WriteAllSame(r: Rec, fs: seq<VFrame>)
    requires r.mux.open
    ensures WriteAll(r, fs).cfg == r.cfg
  {
    WriteAllIs(r, fs);
  }

  lemma PendingExact(r: Rec, f: VFrame)
    requires OwnFiles(r) && !r.mux.open && r.cfg.mode == OnEvent && r.pending && !r.recording && f.key
    ensures OwnFiles(OnFrame(r, f, true)) <==> NoClash(r, Frame(f, true))
  {
    hide OwnFiles;
    var r1 := r.(lastFrameMs := f.ts);
    SameFiles(r, r1);
    assert Kept(r1) == Kept(r);
    OpenOneExact(r1, f);
    SameFiles(WriteTo(OpenSegment(r1, f.ts), f), OnFrame(r, f, true));
  }

  /** A frame at the end of the post-roll, or before it. */
  lemma PostRollFiles(r: Rec, f: VFrame)
    requires OwnFiles(r) && r.cfg.mode == OnEvent && r.recording && r.open && r.mux.open && IndexInv(r) && r.cfg.maxSegments > 0
    ensures OwnFiles(OnFrame(r, f, true)) && OnFrame(r, f, false) == OnFrame(r, f, true)
  {
    hide OwnFiles, Describes;
    var r1 := r.(lastFrameMs := f.ts);
    SameFiles(r, r1);
    WriteKeepsFiles(r1, f);
    var w := WriteTo(r1, f);
    WriteDescribes(r1, f);
    CloseKeepsFiles(w);
    var t := OnFrame(r, f, true);
    if t.mux == w.mux {
      SameFiles(w, t);
    } else {
      SameFiles(CloseSegment(w), t);
    }
  }

  /** A frame in continuous mode, and the opening it may bring, by the state with the full segment closed. */
  lemma ContinuousParts(r: Rec, f: VFrame, canOpen: bool)
    requires r.cfg.mode == Continuous
    ensures var c := Closed(r.(lastFrameMs := f.ts), f);
      && OnFrame(r, f, canOpen) == (if c.open then WriteTo(c, f) else if f.key && canOpen then WriteTo(OpenSegment(c, f.ts), f) else c)
      && NoClash(r, Frame(f, canOpen)) == (c.open || !f.key || !canOpen || forall i :: 0 <= i < |Kept(c)| ==> StartOf(Kept(c)[i]) != f.ts)
  {
    hide Last;
    assert Kept(Closed(r.(lastFrameMs := f.ts), f)) == Kept(Closed(r, f));
  }

  lemma ContinuousExact(r: Rec, f: VFrame, canOpen: bool)
    requires OwnFiles(r) && r.cfg.mode == Continuous && r.open == r.mux.open && IndexInv(r) && r.cfg.maxSegments > 0
    ensures OwnFiles(OnFrame(r, f, canOpen)) <==> NoClash(r, Frame(f, canOpen))
  {
    hide OwnFiles, IndexInv, OnFrame, NoClash, Kept, WriteTo, OpenSegment, Closed, CloseSegment;
    var r1 := r.(lastFrameMs := f.ts);
    SameIndex(r, r1);
    SameFiles(r, r1);
    var c := Closed(r1, f);
    ContinuousParts(r, f, canOpen);
    ClosedFiles(r1, f);
    if c.open {
      WriteKeepsFiles(c, f);
    } else if f.key && canOpen {
      OpenOneExact(c, f);
    }
  }

  lemma ClosedFiles(r: Rec, f: VFrame)
    requires OwnFiles(r) && r.open == r.mux.open && IndexInv(r) && r.cfg.maxSegments > 0
    ensures OwnFiles(Closed(r, f)) && Closed(r, f).open == Closed(r, f).mux.open
  {
    hide OwnFiles, IndexInv;
    if Rotates(r, f) {
      CloseKeepsFiles(r);
    }
  }

  // ---- the files over a run ----

  ghost predicate NoClashRun(cfg: Config, xs: seq<Input>) {
    forall n :: 0 <= n < |xs| ==> NoClash(Run(cfg, xs[..n]), xs[n])
  }

  /** The directory holds exactly the files of the last `maxSegments` closed segments and of the open
      one, each with all frames of its segment, as long as no file is opened under the name of one. */
  lemma {:induction false} RunFiles(cfg: Config, xs: seq<Input>)
    requires cfg.maxSegments > 0 && NoClashRun(cfg, xs)
    ensures OwnFiles(Run(cfg, xs))
    decreases |xs|
  {
    hide OwnFiles, NoClash;
    if xs == [] {
      FreshFiles(cfg);
    } else {
      var before, x := xs[..|xs| - 1], xs[|xs| - 1];
      assert forall n :: 0 <= n < |before| ==> before[..n] == xs[..n];
      RunFiles(cfg, before);
      var was := RunSliced(cfg, before);
      StepFilesExact(Run(cfg, before), x, Frames(before), was);
    }
  }

  lemma FreshFiles(cfg: Config)
    ensures OwnFiles(Fresh(cfg))
  {
  }

  /** And only as long as that. */
  lemma RunFilesExactly(cfg: Config, xs: seq<Input>)
    requires cfg.maxSegments > 0
    ensures (forall n :: 0 <= n <= |xs| ==> OwnFiles(Run(cfg, xs[..n]))) <==> NoClashRun(cfg, xs)
  {
    hide OwnFiles, NoClash;
    if NoClashRun(cfg, xs) {
      forall n | 0 <= n <= |xs|
        ensures OwnFiles(Run(cfg, xs[..n]))
      {
        assert forall m :: 0 <= m < n ==> xs[..n][..m] == xs[..m];
        RunFiles(cfg, xs[..n]);
      }
    }
    if forall n :: 0 <= n <= |xs| ==> OwnFiles(Run(cfg, xs[..n])) {
      forall n | 0 <= n < |xs|
        ensures NoClash(Run(cfg, xs[..n]), xs[n])
      {
        assert xs[..n + 1][..n] == xs[..n];
        assert Run(cfg, xs[..n + 1]) == Step(Run(cfg, xs[..n]), xs[n]);
        var was := RunSliced(cfg, xs[..n]);
        StepFilesExact(Run(cfg, xs[..n]), xs[n], Frames(xs[..n]), was);
      }
    }
  }

  /** The file opened is that of the last segment after the step, the others' those before it. */
  lemma OpeningIs(r: Rec, x: Input)
    requires OpeningOf(r, x).OpensAt? && r.open == r.mux.open && (r.cfg.mode == OnEvent && !r.recording ==> !r.mux.open)
    ensures var o, t := OpeningOf(r, x), Step(r, x);
      && t.mux.open && StartOf(t.mux.cur) == o.start && o.kept == Last(t.mux.done, r.cfg.maxSegments)
  {
    match x
    case Detection(kind, canOpen) =>
      var k, r1 := FromKey(r.pre), r.(recording := true);
      WriteAllIs(OpenSegment(r1, k[0].ts), k);
      assert [] + k == k;
    case Frame(f, canOpen) =>
      assert [] + [f] == [f];
  }

  lemma LastClear(done: seq<seq<VFrame>>, cur: seq<VFrame>, n: nat)
    requires DistinctStarts(done + [cur])
    ensures forall i :: 0 <= i < |Last(done, n)| ==> StartOf(Last(done, n)[i]) != StartOf(cur)
  {
    var kept, segs := Last(done, n), done + [cur];
    forall i | 0 <= i < |kept|
      ensures StartOf(kept[i]) != StartOf(cur)
    {
      assert segs[i + (|done| - |kept|)] == kept[i] && segs[|done|] == cur;
    }
  }

  lemma DistinctNoClash(r: Rec, x: Input)
    requires OpeningOf(r, x).OpensAt? ==> r.open == r.mux.open && (r.cfg.mode == OnEvent && !r.recording ==> !r.mux.open)
    requires DistinctStarts(Segments(Step(r, x).mux))
    ensures NoClash(r, x)
  {
    hide OpeningOf, Step, DistinctStarts, Last, StartOf;
    if OpeningOf(r, x).OpensAt? {
      OpeningIs(r, x);
      LastClear(Step(r, x).mux.done, Step(r, x).mux.cur, r.cfg.maxSegments);
    }
  }

  /** So it is when no two frames have the same time. */
  lemma DistinctFramesSuffice(cfg: Config, xs: seq<Input>)
    requires DistinctTimes(Frames(xs))
    ensures NoClashRun(cfg, xs)
  {
    hide Inv, NoClash, DistinctTimes, DistinctStarts;
    forall n | 0 <= n < |xs|
      ensures NoClash(Run(cfg, xs[..n]), xs[n])
    {
      var r, next := Run(cfg, xs[..n]), xs[..n + 1];
      assert next[..n] == xs[..n] && next[n] == xs[n];
      var was := RunSliced(cfg, xs[..n]);
      InvFacts(r, Frames(xs[..n]), was);
      InvIndex(r, Frames(xs[..n]), was);
      var spans := RunSliced(cfg, next);
      FramesPrefix(xs, n + 1);
      PrefixTimes(Frames(xs), Frames(next));
      SlicesDistinct(Segments(Run(cfg, next).mux), Frames(next), spans);
      DistinctNoClash(r, xs[n]);
    }
  }

  lemma PrefixTimes(all: seq<VFrame>, part: seq<VFrame>)
    requires DistinctTimes(all) && |part| <= |all| && part == all[..|part|]
    ensures DistinctTimes(part)
  {
  }

  // ---- continuous mode needs no such assumption ----

  ghost predicate RisingStarts(segs: seq<seq<VFrame>>) {
    forall i, j :: 0 <= i < j < |segs| ==> StartOf(segs[i]) < StartOf(segs[j])
  }

  /** The segments start one after the other, and only before the first is none open. */
  ghost predicate Rising(r: Rec) {
    && RisingStarts(Segments(r.mux)) && r.open == r.mux.open && (r.open ==> r.mux.cur != [] && r.cur.start == StartOf(r.mux.cur)) && (!r.open ==> r.mux.done == [])
  }

  lemma RisesOn(segs: seq<seq<VFrame>>, f: VFrame)
    requires RisingStarts(segs) && segs != [] && StartOf(segs[|segs| - 1]) < f.ts
    ensures RisingStarts(segs + [[f]]) && forall i :: 0 <= i < |segs| ==> StartOf(segs[i]) < f.ts
  {
    forall i | 0 <= i < |segs|
      ensures StartOf(segs[i]) < f.ts
    {
      assert i < |segs| - 1 ==> StartOf(segs[i]) < StartOf(segs[|segs| - 1]);
    }
  }

  lemma RisesStill(done: seq<seq<VFrame>>, cur: seq<VFrame>, f: VFrame)
    requires RisingStarts(done + [cur]) && cur != []
    ensures RisingStarts(done + [cur + [f]])
  {
    var was, now := done + [cur], done + [cur + [f]];
    forall i, j | 0 <= i < j < |now|
      ensures StartOf(now[i]) < StartOf(now[j])
    {
      assert StartOf(was[i]) < StartOf(was[j]);
    }
  }

  lemma LastOf(segs: seq<seq<VFrame>>, n: nat, ts: nat)
    requires forall i :: 0 <= i < |segs| ==> StartOf(segs[i]) < ts
    ensures forall i :: 0 <= i < |Last(segs, n)| ==> StartOf(Last(segs, n)[i]) != ts
  {
    var kept := Last(segs, n);
    forall i | 0 <= i < |kept|
      ensures StartOf(kept[i]) != ts
    {
      assert kept[i] == segs[i + (|segs| - |kept|)];
    }
  }

  lemma RisingRotates(r: Rec, f: VFrame)
    requires Rising(r) && r.cfg.mode == Continuous && r.cfg.segmentMs > 0 && Rotates(r, f)
    ensures Rising(OnFrame(r, f, true)) && NoClash(r, Frame(f, true))
  {
    hide RisingStarts, Last;
    var t, segs := OnFrame(r, f, true), Segments(r.mux);
    assert [] + [f] == [f];
    assert segs == r.mux.done + [r.mux.cur] && segs[|segs| - 1] == r.mux.cur;
    RisesOn(segs, f);
    assert Segments(t.mux) == segs + [[f]];
    assert Kept(Closed(r, f)) == Last(segs, r.cfg.maxSegments) + [] == Last(segs, r.cfg.maxSegments);
    LastOf(segs, r.cfg.maxSegments, f.ts);
  }

  lemma RisingWrites(r: Rec, f: VFrame)
    requires Rising(r) && r.cfg.mode == Continuous && r.open && !Rotates(r, f)
    ensures Rising(OnFrame(r, f, true)) && NoClash(r, Frame(f, true))
  {
    hide RisingStarts, Last;
    var t := OnFrame(r, f, true);
    assert Segments(r.mux) == r.mux.done + [r.mux.cur];
    RisesStill(r.mux.done, r.mux.cur, f);
    assert Segments(t.mux) == r.mux.done + [r.mux.cur + [f]];
  }

  lemma RisingBegins(r: Rec, f: VFrame)
    requires Rising(r) && r.cfg.mode == Continuous && !r.open
    ensures Rising(OnFrame(r, f, true)) && NoClash(r, Frame(f, true))
  {
    hide RisingStarts;
    var t := OnFrame(r, f, true);
    OneRises(f);
    assert [] + [f] == [f] && Kept(r) == [];
    assert f.key ==> Segments(t.mux) == [[f]];
  }

  lemma RisingStep(r: Rec, f: VFrame)
    requires Rising(r) && r.cfg.mode == Continuous && r.cfg.segmentMs > 0
    ensures Rising(OnFrame(r, f, true)) && NoClash(r, Frame(f, true))
  {
    hide Rising, NoClash, OnFrame;
    if Rotates(r, f) {
      RisingRotates(r, f);
    } else if r.open {
      RisingWrites(r, f);
    } else {
      RisingBegins(r, f);
    }
  }

  lemma OneRises(f: VFrame)
    ensures RisingStarts([[f]]) && RisingStarts([])
  {
  }

  lemma {:induction false} RunRising(cfg: Config, xs: seq<Input>)
    requires cfg.mode == Continuous && cfg.segmentMs > 0 && AllOpen(xs)
    ensures Rising(Run(cfg, xs)) && Run(cfg, xs).cfg == cfg
    decreases |xs|
  {
    if xs != [] {
      var before, x := xs[..|xs| - 1], xs[|xs| - 1];
      RunRising(cfg, before);
      if x.Frame? {
        RisingStep(Run(cfg, before), x.frame);
      }
    }
  }

  /** In continuous mode rotation itself keeps the names apart, whatever the times of the frames, as
      long as every file can be opened. */
  lemma ContinuousSuffices(cfg: Config, xs: seq<Input>)
    requires cfg.mode == Continuous && cfg.segmentMs > 0 && AllOpen(xs)
    ensures NoClashRun(cfg, xs)
  {
    hide Rising;
    forall n | 0 <= n < |xs|
      ensures NoClash(Run(cfg, xs[..n]), xs[n])
    {
      RunRising(cfg, xs[..n]);
      if xs[n].Frame? {
        RisingStep(Run(cfg, xs[..n]), xs[n].frame);
      }
    }
  }

  // ---- a clash ----

  const EVENTS_ONLY: Config := Config(OnEvent, 60000, 48, 1000, 600000, 0)
  const FIRST_KEY: VFrame := VFrame(true, 5000, [1])
  const LAST_ONE: VFrame := VFrame(false, 6000, [2])
  const SECOND_KEY: VFrame := VFrame(true, 5000, [3])

  /** A clip of two frames; then, the clock of the frames set back, a clip that starts at the same time. */
  const CLASHING: seq<Input> :=
    [Detection(0, true), Frame(FIRST_KEY, true), Frame(LAST_ONE, true), Detection(0, true), Frame(SECOND_KEY, true)]

  /** The first clip is in the index, but its file holds the second clip's frame. */
  lemma ClashingRun()
    ensures OwnFiles(Run(EVENTS_ONLY, CLASHING[..4])) && !NoClash(Run(EVENTS_ONLY, CLASHING[..4]), CLASHING[4])
    ensures var r := Run(EVENTS_ONLY, CLASHING);
      r.mux.done == [[FIRST_KEY, LAST_ONE]] && r.mux.files == map[5000 := [SECOND_KEY]] && !FilesInv(r)
  {
    var xs := CLASHING;
    var r1 := OnDetection(Fresh(EVENTS_ONLY), 0, true);
    var r2 := OnFrame(r1, FIRST_KEY, true);
    var r3 := OnFrame(r2, LAST_ONE, true);
    var r4 := OnDetection(r3, 0, true);
    var r5 := OnFrame(r4, SECOND_KEY, true);
    assert xs[..4][..3] == xs[..3] && xs[..3][..2] == xs[..2] && xs[..2][..1] == xs[..1] && xs[..1][..0] == [];
    assert Run(EVENTS_ONLY, xs[..4]) == r4 by {
      assert Run(EVENTS_ONLY, xs[..1]) == r1;
      assert Run(EVENTS_ONLY, xs[..2]) == r2;
      assert Run(EVENTS_ONLY, xs[..3]) == r3;
    }
    assert Run(EVENTS_ONLY, xs) == r5;
    assert [] + [FIRST_KEY] == [FIRST_KEY] && [FIRST_KEY] + [LAST_ONE] == [FIRST_KEY, LAST_ONE] && [] + [SECOND_KEY] == [SECOND_KEY];
    FirstClip();
    SecondClip(r3);
  }

  lemma FirstClip()
    ensures var r := OnFrame(OnFrame(OnDetection(Fresh(EVENTS_ONLY), 0, true), FIRST_KEY, true), LAST_ONE, true);
      && r.mux == Muxer([[FIRST_KEY, LAST_ONE]], false, [], 5000, map[5000 := [FIRST_KEY, LAST_ONE]])
      && !r.open && !r.recording && !r.pending && r.pre == [] && r.cfg == EVENTS_ONLY
  {
    var r2 := OnFrame(OnDetection(Fresh(EVENTS_ONLY), 0, true), FIRST_KEY, true);
    assert [] + [FIRST_KEY] == [FIRST_KEY] && [FIRST_KEY] + [LAST_ONE] == [FIRST_KEY, LAST_ONE];
    assert r2.mux == Muxer([], true, [FIRST_KEY], 5000, map[5000 := [FIRST_KEY]]);
    assert r2.recording && r2.open && r2.cur.start == 5000 && r2.lastTrigger == 5000 && r2.closed == [];
    var w := WriteTo(r2.(lastFrameMs := 6000), LAST_ONE);
    assert w.mux.files == map[5000 := [FIRST_KEY, LAST_ONE]];
    assert Index(w) == [];
  }

  lemma SecondClip(r: Rec)
    requires r.mux == Muxer([[FIRST_KEY, LAST_ONE]], false, [], 5000, map[5000 := [FIRST_KEY, LAST_ONE]])
    requires !r.open && !r.recording && !r.pending && r.pre == [] && r.cfg == EVENTS_ONLY
    ensures var d := OnDetection(r, 0, true); OwnFiles(d) && !NoClash(d, Frame(SECOND_KEY, true))
    ensures var t := OnFrame(OnDetection(r, 0, true), SECOND_KEY, true);
      t.mux.done == [[FIRST_KEY, LAST_ONE]] && t.mux.files == map[5000 := [SECOND_KEY]] && !FilesInv(t)
  {
    var d := OnDetection(r, 0, true);
    var t := OnFrame(d, SECOND_KEY, true);
    assert [] + [SECOND_KEY] == [SECOND_KEY];
    assert Kept(d) == [[FIRST_KEY, LAST_ONE]];
    assert Kept(d)[0] == [FIRST_KEY, LAST_ONE];
    assert t.mux.files == map[5000 := [SECOND_KEY]];
    assert Kept(t)[0] == [FIRST_KEY, LAST_ONE];
  }

  lemma {:induction false} FramesPrefix(xs: seq<Input>, n: nat)
    requires n <= |xs|
    ensures |Frames(xs[..n])| <= |Frames(xs)| && Frames(xs[..n]) == Frames(xs)[..|Frames(xs[..n])|]
    decreases |xs|
  {
    if n < |xs| {
      FramesPrefix(xs[..|xs| - 1], n);
      assert xs[..|xs| - 1][..n] == xs[..n];
    } else {
      assert xs[..n] == xs;
    }
  }
}
