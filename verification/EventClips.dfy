/** The clips of event mode, said of the list of inputs alone: where each one starts and ends, which frames it
    holds and which detections it is tagged with. */
module EventClips {
  import opened Ring
  import opened SegmentRecord

  // ---- what the inputs say ----

  /** The time of the last frame. */
  function Clock(xs: seq<Input>): nat
    decreases |xs|
  {
    if xs == [] then 0
    else if xs[|xs| - 1].Frame? then xs[|xs| - 1].frame.ts
    else Clock(xs[..|xs| - 1])
  }

  /** For a clip opened by input `at`, and before input `n`: the time of the media clock at its opening, or at the
      last detection since. */
  function Mark(xs: seq<Input>, at: nat, n: nat): nat
    requires at < n <= |xs|
  {
    if n == at + 1 || xs[n - 1].Detection? then Clock(xs[..n]) else Mark(xs, at, n - 1)
  }

  /** The kinds of the detections from input `lo` up to `hi`. */
  function Kinds(xs: seq<Input>, lo: nat, hi: nat): set<nat>
    requires hi <= |xs|
  {
    set j | lo <= j < hi && xs[j].Detection? && xs[j].kind < 32 :: xs[j].kind
  }

  predicate Passed(now: nat, since: nat, ms: nat) { ms == 0 || since + ms <= now }

  predicate NoKey(s: seq<VFrame>) { forall i :: 0 <= i < |s| ==> !s[i].key }

  /** `k` is `s` from its first keyframe on, and empty without one. */
  predicate KeyedPart(s: seq<VFrame>, k: seq<VFrame>) {
    && |k| <= |s| && k == s[|s| - |k|..] && NoKey(s[..|s| - |k|]) && (k != [] ==> k[0].key)
  }

  /** The pre-roll: the last frames from input `e` up to `i`, as many as are kept. */
  function PreRoll(cfg: Config, xs: seq<Input>, e: nat, i: nat): seq<VFrame>
    requires e <= i <= |xs|
  {
    Last(Frames(xs[e..i]), cfg.preCapacity)
  }

  /** Input `p` is a detection that finds no keyframe in the pre-roll. */
  predicate Unmet(cfg: Config, xs: seq<Input>, e: nat, p: nat)
    requires e <= p < |xs|
  {
    xs[p].Detection? && NoKey(PreRoll(cfg, xs, e, p))
  }

  predicate Waits(cfg: Config, xs: seq<Input>, e: nat, i: nat)
    requires e <= i <= |xs|
  {
    exists p :: e <= p < i && Unmet(cfg, xs, e, p)
  }

  /** With no clip since input `e`, input `i` opens one: a keyframe that a detection waits for, or a detection
      with a keyframe in the pre-roll; and a file can be opened. */
  predicate Opens(cfg: Config, xs: seq<Input>, e: nat, i: nat)
    requires e <= i < |xs|
  {
    xs[i].canOpen &&
    if Waits(cfg, xs, e, i) then xs[i].Frame? && xs[i].frame.key else xs[i].Detection? && !NoKey(PreRoll(cfg, xs, e, i))
  }

  // ---- clips ----

  /** A clip: the input that opened it, the first detection that did, and the frame that ended it. */
  datatype Clip = Clip(at: nat, asked: nat, end: nat)

  predicate FirstUnmet(cfg: Config, xs: seq<Input>, e: nat, p: nat)
    requires e <= p < |xs|
  {
    Unmet(cfg, xs, e, p) && forall j :: e <= j < p ==> !Unmet(cfg, xs, e, j)
  }

  /** It opened at the first input that could. */
  predicate Opened(cfg: Config, xs: seq<Input>, e: nat, c: Clip)
    requires e <= c.asked <= c.at < |xs|
  {
    && Opens(cfg, xs, e, c.at) && (forall j :: e <= j < c.at ==> !Opens(cfg, xs, e, j))
    && if xs[c.at].Detection? then c.asked == c.at else FirstUnmet(cfg, xs, e, c.asked)
  }

  /** The pre-roll from its first keyframe on if a detection opened it, then all frames up to the last. */
  ghost predicate Contains(cfg: Config, xs: seq<Input>, n: nat, e: nat, c: Clip, content: seq<VFrame>)
    requires e <= c.at < c.end <= n <= |xs|
  {
    exists k :: Rolls(cfg, xs, e, c.at, k) && content == k + Frames(xs[c.at..if c.end < n then c.end + 1 else n])
  }

  predicate Rolls(cfg: Config, xs: seq<Input>, e: nat, at: nat, k: seq<VFrame>)
    requires e <= at < |xs|
  {
    if xs[at].Detection? then KeyedPart(PreRoll(cfg, xs, e, at), k) else k == []
  }

  /** The frame comes so long after the opening and the last detection, or after the start. */
  predicate Over(cfg: Config, xs: seq<Input>, at: nat, start: nat, j: nat)
    requires at < j < |xs|
  {
    xs[j].Frame? && (Passed(xs[j].frame.ts, Mark(xs, at, j), cfg.postMs) || Passed(xs[j].frame.ts, start, cfg.eventMaxMs))
  }

  /** What is recorded of the clip after `n` inputs; one not ended has `n` for its end. */
  ghost predicate ClipIs(cfg: Config, xs: seq<Input>, n: nat, e: nat, c: Clip, content: seq<VFrame>, entry: Segment) {
    && e <= c.asked <= c.at < c.end <= n <= |xs|
    && Opened(cfg, xs, e, c) && Contains(cfg, xs, n, e, c, content) && content != []
    && (forall j :: c.at < j < c.end ==> !Over(cfg, xs, c.at, content[0].ts, j))
    && (c.end < n ==> Over(cfg, xs, c.at, content[0].ts, c.end))
    && entry.start == content[0].ts && entry.events == Kinds(xs, c.asked, c.end)
  }

  /** The input from which the next clip after the first `i` can come. */
  function Since(clips: seq<Clip>, i: nat): nat
    requires i <= |clips|
  {
    if i == 0 then 0 else clips[i - 1].end + 1
  }

  /** These are the clips of the first `n` inputs, the last one open or not. */
  ghost predicate Exact(cfg: Config, xs: seq<Input>, n: nat, clips: seq<Clip>, contents: seq<seq<VFrame>>, entries: seq<Segment>, open: bool)
    requires n <= |xs|
  {
    && |clips| == |contents| == |entries|
    && (open ==> clips != [] && clips[|clips| - 1].end == n)
    && (forall i :: 0 <= i < |clips| && !(open && i == |clips| - 1) ==> clips[i].end < n)
    && (forall i :: 0 <= i < |clips| ==> ClipIs(cfg, xs, n, Since(clips, i), clips[i], contents[i], entries[i]))
    && (!open ==> forall j :: Since(clips, |clips|) <= j < n ==> !Opens(cfg, xs, Since(clips, |clips|), j))
  }

  // ---- a step of the list ----

  lemma FramesMore(xs: seq<Input>, lo: nat, n: nat)
    requires lo <= n < |xs|
    ensures Frames(xs[lo..n + 1]) == Frames(xs[lo..n]) + if xs[n].Frame? then [xs[n].frame] else []
  {
    assert xs[lo..n + 1][..n - lo] == xs[lo..n] && xs[lo..n + 1][n - lo] == xs[n];
  }

  lemma ClockMore(xs: seq<Input>, n: nat)
    requires n < |xs|
    ensures Clock(xs[..n + 1]) == if xs[n].Frame? then xs[n].frame.ts else Clock(xs[..n])
  {
    assert xs[..n + 1][..n] == xs[..n] && xs[..n + 1][n] == xs[n];
  }

  lemma KindsMore(xs: seq<Input>, lo: nat, n: nat)
    requires lo <= n < |xs|
    ensures Kinds(xs, lo, n + 1) == Kinds(xs, lo, n) + if xs[n].Detection? then EventBit(xs[n].kind) else {}
  {
  }

  lemma ElapsedIs(now: nat, start: nat, ms: nat)
    ensures Elapsed(now, start) >= ms <==> Passed(now, start, ms)
  {
  }

  lemma {:induction false} FromKeyIs(s: seq<VFrame>)
    ensures KeyedPart(s, FromKey(s)) && (FromKey(s) == [] <==> NoKey(s))
  {
    if s != [] && !s[0].key {
      FromKeyIs(s[1..]);
      var k := FromKey(s);
      var d := s[1..][..|s| - 1 - |k|];
      assert s[..|s| - |k|] == [s[0]] + d;
      if NoKey(s[1..]) {
        assert forall i :: 1 <= i < |s| ==> s[i] == s[1..][i - 1];
      }
    }
  }

  /** Frames without a key before the others do not matter. */
  lemma StaleKey(stale: seq<VFrame>, g: seq<VFrame>, cap: nat, k: seq<VFrame>)
    requires NoKey(stale) && KeyedPart(Last(stale + g, cap), k)
    ensures KeyedPart(Last(g, cap), k)
    ensures NoKey(Last(stale + g, cap)) <==> NoKey(Last(g, cap))
  {
    var s, t := Last(stale + g, cap), Last(g, cap);
    var m := |s| - |t|;
    assert s[m..] == t;
    assert forall i :: 0 <= i < m ==> s[i] in stale;
    assert NoKey(s[..m]);
    assert k != [] ==> s[|s| - |k|].key;
    assert |k| <= |t|;
    assert t[..|t| - |k|] == s[..|s| - |k|][m..];
    if NoKey(t) {
      forall i | 0 <= i < |s|
        ensures !s[i].key
      {
        assert i >= m ==> s[i] == t[i - m];
      }
    }
  }

  lemma PushedLast(all: seq<VFrame>, f: VFrame, cap: nat)
    ensures Last(Last(all, cap) + [f], cap) == Last(all + [f], cap)
  {
  }

  // ---- the list of clips, one input on ----

  lemma ClipKept(cfg: Config, xs: seq<Input>, n: nat, e: nat, c: Clip, content: seq<VFrame>, entry: Segment)
    requires n < |xs| && ClipIs(cfg, xs, n, e, c, content, entry) && c.end < n
    ensures ClipIs(cfg, xs, n + 1, e, c, content, entry)
  {
    hide Opened, Over, Rolls;
  }

  /** Nothing opens and nothing is open. */
  lemma IdleStays(cfg: Config, xs: seq<Input>, n: nat, clips: seq<Clip>, contents: seq<seq<VFrame>>, entries: seq<Segment>)
    requires n < |xs| && Exact(cfg, xs, n, clips, contents, entries, false)
    requires Since(clips, |clips|) <= n && !Opens(cfg, xs, Since(clips, |clips|), n)
    ensures Exact(cfg, xs, n + 1, clips, contents, entries, false)
  {
    hide ClipIs, Opens;
    forall i | 0 <= i < |clips|
      ensures ClipIs(cfg, xs, n + 1, Since(clips, i), clips[i], contents[i], entries[i])
    {
      ClipKept(cfg, xs, n, Since(clips, i), clips[i], contents[i], entries[i]);
    }
  }

  lemma ClipOpens(cfg: Config, xs: seq<Input>, n: nat, clips: seq<Clip>, contents: seq<seq<VFrame>>, entries: seq<Segment>,
                  c: Clip, content: seq<VFrame>, entry: Segment)
    requires n < |xs| && Exact(cfg, xs, n, clips, contents, entries, false)
    requires c.at == n && c.end == n + 1 && ClipIs(cfg, xs, n + 1, Since(clips, |clips|), c, content, entry)
    ensures Exact(cfg, xs, n + 1, clips + [c], contents + [content], entries + [entry], true)
  {
    hide ClipIs, Opens;
    var clips', contents', entries' := clips + [c], contents + [content], entries + [entry];
    forall i | 0 <= i < |clips'|
      ensures ClipIs(cfg, xs, n + 1, Since(clips', i), clips'[i], contents'[i], entries'[i])
    {
      if i < |clips| {
        ClipKept(cfg, xs, n, Since(clips, i), clips[i], contents[i], entries[i]);
      }
    }
  }

  /** The open clip goes on to `end`, after which it is open or not. */
  lemma ClipMoves(cfg: Config, xs: seq<Input>, n: nat, clips: seq<Clip>, done: seq<seq<VFrame>>, closed: seq<Segment>,
                  was: seq<VFrame>, wasEntry: Segment, end: nat, content: seq<VFrame>, entry: Segment)
    requires n < |xs| && Exact(cfg, xs, n, clips, done + [was], closed + [wasEntry], true)
    requires var l := |clips| - 1; l >= 0 && n <= end <= n + 1 && ClipIs(cfg, xs, n + 1, Since(clips, l), clips[l].(end := end), content, entry)
    ensures var l := |clips| - 1; Exact(cfg, xs, n + 1, clips[..l] + [clips[l].(end := end)], done + [content], closed + [entry], end == n + 1)
  {
    hide ClipIs, Opens;
    var l := |clips| - 1;
    var clips', contents', entries' := clips[..l] + [clips[l].(end := end)], done + [content], closed + [entry];
    forall i | 0 <= i < |clips'|
      ensures ClipIs(cfg, xs, n + 1, Since(clips', i), clips'[i], contents'[i], entries'[i])
    {
      if i < l {
        assert (done + [was])[i] == contents'[i] && (closed + [wasEntry])[i] == entries'[i];
        ClipKept(cfg, xs, n, Since(clips, i), clips[i], contents'[i], entries'[i]);
      }
    }
  }

  /** What the open clip becomes with input `n`. */
  lemma ClipGrows(cfg: Config, xs: seq<Input>, n: nat, e: nat, c: Clip, content: seq<VFrame>, entry: Segment, more: Segment)
    requires n < |xs| && ClipIs(cfg, xs, n, e, c, content, entry) && c.end == n
    requires more.start == entry.start && more.events == entry.events + (if xs[n].Detection? then EventBit(xs[n].kind) else {})
    ensures var ends := Over(cfg, xs, c.at, content[0].ts, n);
      ClipIs(cfg, xs, n + 1, e, c.(end := if ends then n else n + 1),
             content + if xs[n].Frame? then [xs[n].frame] else [], more)
  {
    hide Opened, Rolls, Kinds, Mark, Frames;
    FramesMore(xs, c.at, n);
    KindsMore(xs, c.asked, n);
    var now := content + if xs[n].Frame? then [xs[n].frame] else [];
    var c' := c.(end := if Over(cfg, xs, c.at, content[0].ts, n) then n else n + 1);
    var k :| Rolls(cfg, xs, e, c.at, k) && content == k + Frames(xs[c.at..n]);
    assert now[0] == content[0];
    assert now == k + Frames(xs[c.at..n + 1]);
    assert Contains(cfg, xs, n + 1, e, c', now);
    assert Opened(cfg, xs, e, c') by { SameOpening(cfg, xs, e, c, c'); }
    assert more.events == Kinds(xs, c.asked, c'.end);
  }

  lemma SameOpening(cfg: Config, xs: seq<Input>, e: nat, c: Clip, c': Clip)
    requires e <= c.asked <= c.at < |xs| && Opened(cfg, xs, e, c) && c'.at == c.at && c'.asked == c.asked
    ensures Opened(cfg, xs, e, c')
  {
  }

  // ---- the engine follows ----

  function Entries(r: Rec): seq<Segment> { r.closed + if r.open then [r.cur] else [] }

  /** What the engine remembers between clips: `stale` is what the ring held when the last clip ended. */
  ghost predicate Idle(cfg: Config, xs: seq<Input>, n: nat, r: Rec, e: nat, stale: seq<VFrame>)
    requires e <= n <= |xs|
  {
    && !r.open && !r.recording && !r.mux.open && |r.pre| <= cfg.preCapacity
    && (r.pending <==> Waits(cfg, xs, e, n))
    && (!r.pending ==> r.pendingEvents == {} && NoKey(stale) && r.pre == Last(stale + Frames(xs[e..n]), cfg.preCapacity))
    && (r.pending ==> NoKey(r.pre) && exists p :: e <= p < n && FirstUnmet(cfg, xs, e, p) && r.pendingEvents == Kinds(xs, p, n))
  }

  /** And during one. */
  predicate Busy(cfg: Config, xs: seq<Input>, n: nat, r: Rec, at: nat)
    requires at < n <= |xs|
  {
    && r.open && r.recording && r.mux.open && !r.pending && r.pendingEvents == {}
    && r.lastTrigger == Mark(xs, at, n) && NoKey(r.pre) && |r.pre| <= cfg.preCapacity
  }

  ghost predicate Follows(cfg: Config, xs: seq<Input>, n: nat, r: Rec, clips: seq<Clip>, stale: seq<VFrame>)
    requires n <= |xs|
  {
    && r.cfg == cfg && cfg.mode == OnEvent && r.lastFrameMs == Clock(xs[..n])
    && Exact(cfg, xs, n, clips, Segments(r.mux), Entries(r), r.open)
    && (r.open ==> clips[|clips| - 1].at < n && Busy(cfg, xs, n, r, clips[|clips| - 1].at))
    && (!r.open ==> Since(clips, |clips|) <= n && Idle(cfg, xs, n, r, Since(clips, |clips|), stale))
  }

  /** The same segments. */
  predicate SameClips(r: Rec, t: Rec) { t.mux == r.mux && t.closed == r.closed && t.open == r.open && t.cfg == r.cfg && t.recording == r.recording }

  lemma WaitsMore(cfg: Config, xs: seq<Input>, e: nat, n: nat)
    requires e <= n < |xs|
    ensures Waits(cfg, xs, e, n + 1) <==> Waits(cfg, xs, e, n) || Unmet(cfg, xs, e, n)
  {
    hide Unmet;
  }

  lemma NoKeyPush(pre: seq<VFrame>, f: VFrame, cap: nat)
    requires NoKey(pre) && !f.key
    ensures NoKey(Last(pre + [f], cap))
  {
  }

  /** A frame while nothing is recorded and no detection waits. */
  lemma IdleFrame(cfg: Config, xs: seq<Input>, n: nat, r: Rec, e: nat, stale: seq<VFrame>)
    requires n < |xs| && e <= n && xs[n].Frame? && r.cfg == cfg && cfg.mode == OnEvent && Idle(cfg, xs, n, r, e, stale) && !r.pending
    ensures var t := Step(r, xs[n]); SameClips(r, t) && Idle(cfg, xs, n + 1, t, e, stale) && !Opens(cfg, xs, e, n)
  {
    hide NoKey;
    var f := xs[n].frame;
    WaitsMore(cfg, xs, e, n);
    FramesMore(xs, e, n);
    PushedLast(stale + Frames(xs[e..n]), f, cfg.preCapacity);
    assert stale + Frames(xs[e..n]) + [f] == stale + (Frames(xs[e..n]) + [f]);
  }

  /** A frame that does not end the waiting. */
  lemma WaitingFrame(cfg: Config, xs: seq<Input>, n: nat, r: Rec, e: nat, stale: seq<VFrame>)
    requires n < |xs| && e <= n && xs[n].Frame? && r.cfg == cfg && cfg.mode == OnEvent && Idle(cfg, xs, n, r, e, stale) && r.pending
    requires !(xs[n].frame.key && xs[n].canOpen)
    ensures var t := Step(r, xs[n]); SameClips(r, t) && Idle(cfg, xs, n + 1, t, e, stale) && !Opens(cfg, xs, e, n)
  {
    hide FirstUnmet, Kinds;
    WaitsMore(cfg, xs, e, n);
    var p :| e <= p < n && FirstUnmet(cfg, xs, e, p) && r.pendingEvents == Kinds(xs, p, n);
    KindsMore(xs, p, n);
    if !xs[n].frame.key {
      NoKeyPush(r.pre, xs[n].frame, cfg.preCapacity);
    }
  }

  /** The pre-roll held is that of the inputs. */
  lemma HeldPreRoll(cfg: Config, xs: seq<Input>, n: nat, r: Rec, e: nat, stale: seq<VFrame>)
    requires n <= |xs| && e <= n && Idle(cfg, xs, n, r, e, stale) && !r.pending
    ensures KeyedPart(PreRoll(cfg, xs, e, n), FromKey(r.pre)) && (FromKey(r.pre) == [] <==> NoKey(PreRoll(cfg, xs, e, n)))
  {
    hide KeyedPart, NoKey;
    FromKeyIs(r.pre);
    StaleKey(stale, Frames(xs[e..n]), cfg.preCapacity, FromKey(r.pre));
  }

  /** A detection that opens nothing. */
  lemma IdleDetection(cfg: Config, xs: seq<Input>, n: nat, r: Rec, e: nat, stale: seq<VFrame>)
    requires n < |xs| && e <= n && xs[n].Detection? && r.cfg == cfg && cfg.mode == OnEvent && Idle(cfg, xs, n, r, e, stale)
    requires !Opens(cfg, xs, e, n)
    ensures var t := Step(r, xs[n]); SameClips(r, t) && t.lastFrameMs == r.lastFrameMs && Idle(cfg, xs, n + 1, t, e, stale)
  {
    hide Kinds, NoKey, KeyedPart, PreRoll;
    WaitsMore(cfg, xs, e, n);
    FramesMore(xs, e, n);
    FromKeyIs(r.pre);
    if r.pending {
      var p :| e <= p < n && FirstUnmet(cfg, xs, e, p) && r.pendingEvents == Kinds(xs, p, n);
      KindsMore(xs, p, n);
    } else {
      HeldPreRoll(cfg, xs, n, r, e, stale);
      KindsMore(xs, n, n);
      KindsNone(xs, n);
      if Unmet(cfg, xs, e, n) {
        assert FirstUnmet(cfg, xs, e, n);
      }
    }
  }

  lemma KindsNone(xs: seq<Input>, n: nat)
    requires n <= |xs|
    ensures Kinds(xs, n, n) == {}
  {
  }

  /** The keyframe a detection waits for. */
  lemma KeyOpens(cfg: Config, xs: seq<Input>, n: nat, r: Rec, e: nat, stale: seq<VFrame>) returns (c: Clip)
    requires n < |xs| && e <= n && r.cfg == cfg && cfg.mode == OnEvent && Idle(cfg, xs, n, r, e, stale) && r.pending
    requires xs[n].Frame? && xs[n].frame.key && xs[n].canOpen && forall j :: e <= j < n ==> !Opens(cfg, xs, e, j)
    ensures var t := Step(r, xs[n]);
      && t.mux.done == r.mux.done && t.closed == r.closed && t.cfg == r.cfg && Busy(cfg, xs, n + 1, t, n)
      && c.at == n && c.end == n + 1 && ClipIs(cfg, xs, n + 1, e, c, t.mux.cur, t.cur)
  {
    hide FirstUnmet, Kinds, NoKey, Opens, Clock, Frames;
    var f, t := xs[n].frame, Step(r, xs[n]);
    var p :| e <= p < n && FirstUnmet(cfg, xs, e, p) && r.pendingEvents == Kinds(xs, p, n);
    c := Clip(n, p, n + 1);
    KindsMore(xs, p, n);
    FramesMore(xs, n, n);
    NoFrames(xs, n);
    ClockMore(xs, n);
    OpensOnKey(cfg, xs, e, n);
    assert [] + [f] == [f];
    assert t.mux.cur == [f];
    assert Rolls(cfg, xs, e, n, []);
    assert t.mux.cur == [] + Frames(xs[n..n + 1]);
    assert Contains(cfg, xs, n + 1, e, c, [f]);
  }

  lemma OpensOnKey(cfg: Config, xs: seq<Input>, e: nat, n: nat)
    requires e <= n < |xs| && Waits(cfg, xs, e, n) && xs[n].Frame? && xs[n].frame.key && xs[n].canOpen
    ensures Opens(cfg, xs, e, n)
  {
  }

  lemma NoFrames(xs: seq<Input>, n: nat)
    requires n <= |xs|
    ensures Frames(xs[n..n]) == []
  {
  }

  /** A detection with a keyframe in the pre-roll. */
  lemma DetectionOpens(cfg: Config, xs: seq<Input>, n: nat, r: Rec, e: nat, stale: seq<VFrame>)
    requires n < |xs| && e <= n && r.cfg == cfg && cfg.mode == OnEvent && Idle(cfg, xs, n, r, e, stale) && r.lastFrameMs == Clock(xs[..n])
    requires xs[n].Detection? && Opens(cfg, xs, e, n) && forall j :: e <= j < n ==> !Opens(cfg, xs, e, j)
    ensures var t := Step(r, xs[n]);
      && t.mux.done == r.mux.done && t.closed == r.closed && t.cfg == r.cfg && t.lastFrameMs == r.lastFrameMs && Busy(cfg, xs, n + 1, t, n)
      && ClipIs(cfg, xs, n + 1, e, Clip(n, n, n + 1), t.mux.cur, t.cur)
  {
    hide Kinds, Clock, Frames, KeyedPart, PreRoll, PreFlush, WriteAll, Opens;
    OpensParts(cfg, xs, e, n);
    HeldPreRoll(cfg, xs, n, r, e, stale);
    var k, t, c := FromKey(r.pre), Step(r, xs[n]), Clip(n, n, n + 1);
    Flushed(r, k);
    KindsMore(xs, n, n);
    KindsNone(xs, n);
    FramesMore(xs, n, n);
    NoFrames(xs, n);
    ClockMore(xs, n);
    assert Rolls(cfg, xs, e, n, k);
    assert k == k + Frames(xs[n..n + 1]);
    assert Contains(cfg, xs, n + 1, e, c, k);
  }

  lemma OpensParts(cfg: Config, xs: seq<Input>, e: nat, n: nat)
    requires e <= n < |xs| && Opens(cfg, xs, e, n) && xs[n].Detection?
    ensures xs[n].canOpen && !Waits(cfg, xs, e, n) && !NoKey(PreRoll(cfg, xs, e, n))
  {
  }

  lemma Flushed(r: Rec, k: seq<VFrame>)
    requires k == FromKey(r.pre) && k != []
    ensures var o := OpenSegment(r, k[0].ts).(recording := true); var t := PreFlush(o);
      t == o.(pre := [], mux := t.mux, cur := t.cur) && t.mux.cur == k && t.mux.done == r.mux.done && t.mux.open
      && t.cur == o.cur.(end := t.cur.end)
  {
    hide WriteAll;
    var o := OpenSegment(r, k[0].ts).(recording := true);
    WriteAllIs(o, k);
    assert [] + k == k;
  }

  /** An input while a clip is open. */
  lemma BusyStep(cfg: Config, xs: seq<Input>, n: nat, r: Rec, e: nat, c: Clip)
    requires n < |xs| && e <= n && r.cfg == cfg && cfg.mode == OnEvent && c.at < n && Busy(cfg, xs, n, r, c.at) && r.lastFrameMs == Clock(xs[..n])
    requires ClipIs(cfg, xs, n, e, c, r.mux.cur, r.cur) && c.end == n
    ensures var t, x := Step(r, xs[n]), xs[n]; var ends := Over(cfg, xs, c.at, r.cur.start, n);
      && t.cfg == r.cfg
      && (if ends then !t.open && t.mux.done == r.mux.done + [r.mux.cur + [x.frame]]
                       && |t.closed| == |r.closed| + 1 && t.closed[..|r.closed|] == r.closed && Idle(cfg, xs, n + 1, t, n + 1, r.pre)
          else t.mux.done == r.mux.done && t.closed == r.closed && Busy(cfg, xs, n + 1, t, c.at)
               && t.mux.cur == r.mux.cur + if x.Frame? then [x.frame] else [])
      && var last := if ends then t.closed[|r.closed|] else t.cur;
         last.start == r.cur.start && last.events == r.cur.events + if x.Detection? then EventBit(x.kind) else {}
  {
    hide ClipIs, Kinds, NoKey, KeyedPart, Clock, Frames, Passed, Elapsed, Index, Opens, Waits, Unmet;
    ClockMore(xs, n);
    match xs[n]
    case Detection(kind, canOpen) =>
    case Frame(f, canOpen) =>
      ElapsedIs(f.ts, r.lastTrigger, cfg.postMs);
      ElapsedIs(f.ts, r.cur.start, cfg.eventMaxMs);
      if Over(cfg, xs, c.at, r.cur.start, n) {
        EndedIdle(cfg, xs, n, Step(r, xs[n]), r.pre);
      }
  }

  lemma EndedIdle(cfg: Config, xs: seq<Input>, n: nat, t: Rec, stale: seq<VFrame>)
    requires n < |xs| && !t.open && !t.recording && !t.mux.open && t.pre == stale && NoKey(stale) && |stale| <= cfg.preCapacity
    requires !t.pending && t.pendingEvents == {}
    ensures Idle(cfg, xs, n + 1, t, n + 1, stale)
  {
    NoFrames(xs, n + 1);
    assert stale + [] == stale;
  }

  lemma OpenStep(cfg: Config, xs: seq<Input>, n: nat, r: Rec, clips: seq<Clip>, stale: seq<VFrame>) returns (clips': seq<Clip>, stale': seq<VFrame>)
    requires n < |xs| && Follows(cfg, xs, n, r, clips, stale) && r.open
    ensures Follows(cfg, xs, n + 1, Step(r, xs[n]), clips', stale')
  {
    hide ClipIs, Idle, Busy, Over, Opens, Step, Clock, Exact, Follows;
    OpenParts(cfg, xs, n, r, clips, stale);
    var t, l := Step(r, xs[n]), |clips| - 1;
    var e, c := Since(clips, l), clips[l];
    ClipStart(cfg, xs, n, e, c, r.mux.cur, r.cur);
    BusyStep(cfg, xs, n, r, e, c);
    MovedClock(xs, n, r);
    var ends := Over(cfg, xs, c.at, r.cur.start, n);
    var last := if ends then t.closed[|r.closed|] else t.cur;
    var content := r.mux.cur + if xs[n].Frame? then [xs[n].frame] else [];
    ClipGrows(cfg, xs, n, e, c, r.mux.cur, r.cur, last);
    ClipMoves(cfg, xs, n, clips, r.mux.done, r.closed, r.mux.cur, r.cur, if ends then n else n + 1, content, last);
    clips', stale' := clips[..l] + [c.(end := if ends then n else n + 1)], r.pre;
    if ends {
      OverFrame(cfg, xs, c.at, r.cur.start, n);
      assert t.closed == r.closed + [last];
      EndsFollows(cfg, xs, n, t, clips', r.mux.done, r.closed, content, last, stale');
    } else {
      GoesOnFollows(cfg, xs, n, t, clips', content, last, stale');
    }
  }

  lemma OpenParts(cfg: Config, xs: seq<Input>, n: nat, r: Rec, clips: seq<Clip>, stale: seq<VFrame>)
    requires n <= |xs| && Follows(cfg, xs, n, r, clips, stale) && r.open
    ensures r.cfg == cfg && cfg.mode == OnEvent && r.lastFrameMs == Clock(xs[..n]) && clips != []
    ensures var l := |clips| - 1;
      && ClipIs(cfg, xs, n, Since(clips, l), clips[l], r.mux.cur, r.cur) && clips[l].end == n && clips[l].at < n
      && Busy(cfg, xs, n, r, clips[l].at) && Exact(cfg, xs, n, clips, r.mux.done + [r.mux.cur], r.closed + [r.cur], true)
  {
    hide ClipIs, Idle, Opens, Clock;
    var l := |clips| - 1;
    assert Segments(r.mux)[l] == r.mux.cur && Entries(r)[l] == r.cur;
  }

  lemma EndsFollows(cfg: Config, xs: seq<Input>, n: nat, t: Rec, clips: seq<Clip>, done: seq<seq<VFrame>>, closed: seq<Segment>,
                    content: seq<VFrame>, last: Segment, stale: seq<VFrame>)
    requires n < |xs| && t.cfg == cfg && cfg.mode == OnEvent && t.lastFrameMs == Clock(xs[..n + 1]) && clips != [] && clips[|clips| - 1].end == n
    requires t.mux.done == done + [content] && t.closed == closed + [last] && Idle(cfg, xs, n + 1, t, n + 1, stale)
    requires Exact(cfg, xs, n + 1, clips, done + [content], closed + [last], false)
    ensures Follows(cfg, xs, n + 1, t, clips, stale)
  {
    hide Idle, Exact, Clock;
    IdleClosed(cfg, xs, n + 1, t, n + 1, stale);
    assert Segments(t.mux) == done + [content] && Entries(t) == closed + [last];
  }

  lemma GoesOnFollows(cfg: Config, xs: seq<Input>, n: nat, t: Rec, clips: seq<Clip>, content: seq<VFrame>, last: Segment, stale: seq<VFrame>)
    requires n < |xs| && t.cfg == cfg && cfg.mode == OnEvent && t.lastFrameMs == Clock(xs[..n + 1])
    requires clips != [] && clips[|clips| - 1].at <= n && t.mux.cur == content && t.cur == last
    requires Busy(cfg, xs, n + 1, t, clips[|clips| - 1].at) && Exact(cfg, xs, n + 1, clips, t.mux.done + [content], t.closed + [last], true)
    ensures Follows(cfg, xs, n + 1, t, clips, stale)
  {
    hide Exact, Clock, Mark, NoKey;
    assert Segments(t.mux) == t.mux.done + [content] && Entries(t) == t.closed + [last];
  }

  lemma OpenIsBusy(cfg: Config, xs: seq<Input>, n: nat, r: Rec, at: nat)
    requires at < n <= |xs| && Busy(cfg, xs, n, r, at)
    ensures r.open && r.mux.open && r.recording
  {
  }

  lemma IdleClosed(cfg: Config, xs: seq<Input>, n: nat, r: Rec, e: nat, stale: seq<VFrame>)
    requires e <= n <= |xs| && Idle(cfg, xs, n, r, e, stale)
    ensures !r.open && !r.mux.open
  {
  }

  lemma OverFrame(cfg: Config, xs: seq<Input>, at: nat, start: nat, j: nat)
    requires at < j < |xs| && Over(cfg, xs, at, start, j)
    ensures xs[j].Frame?
  {
  }

  lemma ClipStart(cfg: Config, xs: seq<Input>, n: nat, e: nat, c: Clip, content: seq<VFrame>, entry: Segment)
    requires n <= |xs| && ClipIs(cfg, xs, n, e, c, content, entry)
    ensures e <= c.at < c.end && content != [] && entry.start == content[0].ts
  {
  }

  lemma MovedClock(xs: seq<Input>, n: nat, r: Rec)
    requires n < |xs| && r.cfg.mode == OnEvent && r.lastFrameMs == Clock(xs[..n])
    ensures Step(r, xs[n]).lastFrameMs == Clock(xs[..n + 1]) && Step(r, xs[n]).cfg == r.cfg
  {
    hide Clock;
    ClockMore(xs, n);
    if xs[n].Detection? && FromKey(r.pre) != [] {
      Flushed(r, FromKey(r.pre));
    }
  }

  lemma ClosedStep(cfg: Config, xs: seq<Input>, n: nat, r: Rec, clips: seq<Clip>, stale: seq<VFrame>) returns (clips': seq<Clip>)
    requires n < |xs| && Follows(cfg, xs, n, r, clips, stale) && !r.open
    ensures Follows(cfg, xs, n + 1, Step(r, xs[n]), clips', stale)
  {
    hide ClipIs, Idle, Busy, Opens, Step, Clock, Waits;
    var t, e := Step(r, xs[n]), Since(clips, |clips|);
    MovedClock(xs, n, r);
    IdleClosed(cfg, xs, n, r, e, stale);
    if Opens(cfg, xs, e, n) {
      var c;
      if xs[n].Detection? {
        c := Clip(n, n, n + 1);
        DetectionOpens(cfg, xs, n, r, e, stale);
      } else {
        KeyIsAwaited(cfg, xs, n, r, e, stale);
        c := KeyOpens(cfg, xs, n, r, e, stale);
      }
      OpenIsBusy(cfg, xs, n + 1, t, n);
      ClipOpens(cfg, xs, n, clips, r.mux.done, r.closed, c, t.mux.cur, t.cur);
      clips' := clips + [c];
      assert Segments(t.mux) == r.mux.done + [t.mux.cur] && Entries(t) == r.closed + [t.cur];
    } else {
      if xs[n].Detection? {
        IdleDetection(cfg, xs, n, r, e, stale);
      } else {
        NoKeyIsAwaited(cfg, xs, n, r, e, stale);
        if r.pending {
          WaitingFrame(cfg, xs, n, r, e, stale);
        } else {
          IdleFrame(cfg, xs, n, r, e, stale);
        }
      }
      IdleClosed(cfg, xs, n + 1, t, e, stale);
      IdleStays(cfg, xs, n, clips, r.mux.done, r.closed);
      clips' := clips;
    }
  }

  lemma KeyIsAwaited(cfg: Config, xs: seq<Input>, n: nat, r: Rec, e: nat, stale: seq<VFrame>)
    requires e <= n < |xs| && Idle(cfg, xs, n, r, e, stale) && Opens(cfg, xs, e, n) && xs[n].Frame?
    ensures r.pending && xs[n].frame.key && xs[n].canOpen
  {
  }

  lemma NoKeyIsAwaited(cfg: Config, xs: seq<Input>, n: nat, r: Rec, e: nat, stale: seq<VFrame>)
    requires e <= n < |xs| && Idle(cfg, xs, n, r, e, stale) && !Opens(cfg, xs, e, n) && xs[n].Frame?
    ensures r.pending ==> !(xs[n].frame.key && xs[n].canOpen)
  {
  }

  lemma {:induction false} PrefixFollows(cfg: Config, xs: seq<Input>, n: nat) returns (clips: seq<Clip>, stale: seq<VFrame>)
    requires cfg.mode == OnEvent && n <= |xs|
    ensures Follows(cfg, xs, n, Run(cfg, xs[..n]), clips, stale)
  {
    hide Step, Exact;
    if n == 0 {
      clips, stale := [], [];
      FreshFollows(cfg, xs);
    } else {
      clips, stale := PrefixFollows(cfg, xs, n - 1);
      var r := Run(cfg, xs[..n - 1]);
      assert xs[..n][..n - 1] == xs[..n - 1];
      assert Run(cfg, xs[..n]) == Step(r, xs[n - 1]);
      hide Follows;
      if r.open {
        clips, stale := OpenStep(cfg, xs, n - 1, r, clips, stale);
      } else {
        clips := ClosedStep(cfg, xs, n - 1, r, clips, stale);
      }
    }
  }

  lemma FreshFollows(cfg: Config, xs: seq<Input>)
    requires cfg.mode == OnEvent
    ensures Follows(cfg, xs, 0, Fresh(cfg), [], [])
  {
    assert xs[..0] == [];
    NoFrames(xs, 0);
  }

  /** Over every run in event mode the clips are these and no others. Each opens at the first input that can open
      one, holds the pre-roll from its first keyframe on and all frames from then to its end, and is tagged with
      exactly the detections from the first that asked for it to its end. It ends at the first frame after
      its opening that comes the post-roll's length after the opening or the last detection since,
      or the greatest length after its start. */
  lemma ClipsExact(cfg: Config, xs: seq<Input>) returns (clips: seq<Clip>)
    requires cfg.mode == OnEvent
    ensures var r := Run(cfg, xs); Exact(cfg, xs, |xs|, clips, Segments(r.mux), Entries(r), r.open)
  {
    hide Exact, Idle, Busy;
    var stale;
    clips, stale := PrefixFollows(cfg, xs, |xs|);
    assert xs[..|xs|] == xs;
  }
}
