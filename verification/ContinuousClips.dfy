/** The segments of continuous mode, said of the list of inputs alone: where each one starts and ends, which
    frames it holds and which detections it is tagged with. */
module ContinuousClips {
  import opened SegmentRecord
  import opened EventClips

  /** A segment by the input that opened it and the one that ended it. */
  datatype Stretch = Stretch(at: nat, end: nat)

  predicate CanOpen(x: Input) { x.Frame? && x.frame.key && x.canOpen }

  /** A keyframe that comes a segment's length after the start. */
  predicate Full(cfg: Config, start: nat, x: Input) { x.Frame? && x.frame.key && Passed(x.frame.ts, start, cfg.segmentMs) }

  /** What is recorded of the segment after `n` inputs; one not ended has `n` for its end. */
  ghost predicate StretchIs(cfg: Config, xs: seq<Input>, n: nat, e: nat, c: Stretch, content: seq<VFrame>, entry: Segment) {
    && e <= c.at < c.end <= n <= |xs|
    && CanOpen(xs[c.at]) && (forall j :: e <= j < c.at ==> !CanOpen(xs[j]))
    && (forall j :: c.at < j < c.end ==> !Full(cfg, xs[c.at].frame.ts, xs[j])) && (c.end < n ==> Full(cfg, xs[c.at].frame.ts, xs[c.end]))
    && content == Frames(xs[c.at..c.end]) && content != [] && content[0] == xs[c.at].frame
    && entry.start == xs[c.at].frame.ts && entry.events == Kinds(xs, c.at, c.end)
  }

  /** The input from which the next segment can start: the one that ended the last. */
  function From(cs: seq<Stretch>, i: nat): nat
    requires i <= |cs|
  {
    if i == 0 then 0 else cs[i - 1].end
  }

  ghost predicate Stretches(cfg: Config, xs: seq<Input>, n: nat, cs: seq<Stretch>, contents: seq<seq<VFrame>>, entries: seq<Segment>, open: bool)
    requires n <= |xs|
  {
    && |cs| == |contents| == |entries|
    && (open ==> cs != [] && cs[|cs| - 1].end == n)
    && (forall i :: 0 <= i < |cs| && !(open && i == |cs| - 1) ==> cs[i].end < n)
    && (forall i :: 0 <= i < |cs| ==> StretchIs(cfg, xs, n, From(cs, i), cs[i], contents[i], entries[i]))
    && (!open ==> forall j :: From(cs, |cs|) <= j < n ==> !CanOpen(xs[j]))
  }

  lemma Kept(cfg: Config, xs: seq<Input>, n: nat, e: nat, c: Stretch, content: seq<VFrame>, entry: Segment)
    requires n < |xs| && StretchIs(cfg, xs, n, e, c, content, entry) && (c.end == n ==> Full(cfg, xs[c.at].frame.ts, xs[n]))
    ensures StretchIs(cfg, xs, n + 1, e, c, content, entry)
  {
  }

  /** The last segment is closed by input `n`, or has been; no other opens. */
  lemma Rests(cfg: Config, xs: seq<Input>, n: nat, cs: seq<Stretch>, contents: seq<seq<VFrame>>, entries: seq<Segment>, open: bool)
    requires n < |xs| && Stretches(cfg, xs, n, cs, contents, entries, open) && !CanOpen(xs[n])
    requires open ==> var c := cs[|cs| - 1]; c.at < |xs| && xs[c.at].Frame? && Full(cfg, xs[c.at].frame.ts, xs[n])
    ensures Stretches(cfg, xs, n + 1, cs, contents, entries, false)
  {
    hide StretchIs, Full, CanOpen;
    forall i | 0 <= i < |cs|
      ensures StretchIs(cfg, xs, n + 1, From(cs, i), cs[i], contents[i], entries[i])
    {
      Kept(cfg, xs, n, From(cs, i), cs[i], contents[i], entries[i]);
    }
  }

  /** And another opens. */
  lemma Opens(cfg: Config, xs: seq<Input>, n: nat, cs: seq<Stretch>, contents: seq<seq<VFrame>>, entries: seq<Segment>, open: bool, entry: Segment)
    requires n < |xs| && Stretches(cfg, xs, n, cs, contents, entries, open) && CanOpen(xs[n])
    requires open ==> var c := cs[|cs| - 1]; c.at < |xs| && xs[c.at].Frame? && Full(cfg, xs[c.at].frame.ts, xs[n])
    requires From(cs, |cs|) <= n && entry.start == xs[n].frame.ts && entry.events == {}
    ensures Stretches(cfg, xs, n + 1, cs + [Stretch(n, n + 1)], contents + [[xs[n].frame]], entries + [entry], true)
  {
    hide StretchIs, Full;
    var cs', contents', entries' := cs + [Stretch(n, n + 1)], contents + [[xs[n].frame]], entries + [entry];
    Opened(cfg, xs, n, From(cs, |cs|), entry);
    forall i | 0 <= i < |cs'|
      ensures StretchIs(cfg, xs, n + 1, From(cs', i), cs'[i], contents'[i], entries'[i])
    {
      if i < |cs| {
        Kept(cfg, xs, n, From(cs, i), cs[i], contents[i], entries[i]);
      } else if open {
        assert From(cs', i) == n;
      }
    }
  }

  lemma Opened(cfg: Config, xs: seq<Input>, n: nat, e: nat, entry: Segment)
    requires e <= n < |xs| && CanOpen(xs[n]) && (forall j :: e <= j < n ==> !CanOpen(xs[j]))
    requires entry.start == xs[n].frame.ts && entry.events == {}
    ensures StretchIs(cfg, xs, n + 1, e, Stretch(n, n + 1), [xs[n].frame], entry)
  {
    FramesMore(xs, n, n);
    NoFrames(xs, n);
    KindsMore(xs, n, n);
    KindsNone(xs, n);
  }

  /** The open segment goes on. */
  lemma Grows(cfg: Config, xs: seq<Input>, n: nat, cs: seq<Stretch>, done: seq<seq<VFrame>>, closed: seq<Segment>,
              was: seq<VFrame>, wasEntry: Segment, entry: Segment)
    requires n < |xs| && Stretches(cfg, xs, n, cs, done + [was], closed + [wasEntry], true)
    requires var c := cs[|cs| - 1]; c.at < |xs| && xs[c.at].Frame? && !Full(cfg, xs[c.at].frame.ts, xs[n])
    requires entry.start == wasEntry.start && entry.events == wasEntry.events + if xs[n].Detection? then EventBit(xs[n].kind) else {}
    ensures var l := |cs| - 1;
      Stretches(cfg, xs, n + 1, cs[..l] + [cs[l].(end := n + 1)], done + [was + if xs[n].Frame? then [xs[n].frame] else []], closed + [entry], true)
  {
    hide StretchIs, Full, CanOpen;
    var l := |cs| - 1;
    var now := was + if xs[n].Frame? then [xs[n].frame] else [];
    var cs', contents', entries' := cs[..l] + [cs[l].(end := n + 1)], done + [now], closed + [entry];
    assert (done + [was])[l] == was && (closed + [wasEntry])[l] == wasEntry;
    Grown(cfg, xs, n, From(cs, l), cs[l], was, wasEntry, entry);
    forall i | 0 <= i < |cs'|
      ensures StretchIs(cfg, xs, n + 1, From(cs', i), cs'[i], contents'[i], entries'[i])
    {
      if i < l {
        assert (done + [was])[i] == contents'[i] && (closed + [wasEntry])[i] == entries'[i];
        Kept(cfg, xs, n, From(cs, i), cs[i], contents'[i], entries'[i]);
      }
    }
  }

  lemma Grown(cfg: Config, xs: seq<Input>, n: nat, e: nat, c: Stretch, content: seq<VFrame>, entry: Segment, more: Segment)
    requires n < |xs| && StretchIs(cfg, xs, n, e, c, content, entry) && c.end == n && !Full(cfg, xs[c.at].frame.ts, xs[n])
    requires more.start == entry.start && more.events == entry.events + if xs[n].Detection? then EventBit(xs[n].kind) else {}
    ensures StretchIs(cfg, xs, n + 1, e, c.(end := n + 1), content + if xs[n].Frame? then [xs[n].frame] else [], more)
  {
    FramesMore(xs, c.at, n);
    KindsMore(xs, c.at, n);
  }

  // ---- the engine follows ----

  ghost predicate Follows(cfg: Config, xs: seq<Input>, n: nat, r: Rec, cs: seq<Stretch>)
    requires n <= |xs|
  {
    && r.cfg == cfg && cfg.mode == Continuous && r.open == r.mux.open
    && Stretches(cfg, xs, n, cs, Segments(r.mux), Entries(r), r.open)
  }

  lemma OpenParts(cfg: Config, xs: seq<Input>, n: nat, r: Rec, cs: seq<Stretch>)
    requires n <= |xs| && Follows(cfg, xs, n, r, cs)
    ensures From(cs, |cs|) <= n
    ensures r.open ==> cs != [] && cs[|cs| - 1].end == n && cs[|cs| - 1].at < |xs| && xs[cs[|cs| - 1].at].Frame?
                       && r.cur.start == xs[cs[|cs| - 1].at].frame.ts
    ensures r.open ==> Segments(r.mux) == r.mux.done + [r.mux.cur] && Entries(r) == r.closed + [r.cur]
  {
    if r.open {
      assert Entries(r)[|cs| - 1] == r.cur;
    }
  }

  lemma FollowsOn(cfg: Config, xs: seq<Input>, n: nat, r: Rec, cs: seq<Stretch>) returns (next: seq<Stretch>)
    requires n < |xs| && Follows(cfg, xs, n, r, cs)
    ensures Follows(cfg, xs, n + 1, Step(r, xs[n]), next)
  {
    hide Stretches, Full, Step;
    OpenParts(cfg, xs, n, r, cs);
    var t, x := Step(r, xs[n]), xs[n];
    StepParts(r, x);
    if r.open && !Full(cfg, r.cur.start, x) {
      var l := |cs| - 1;
      Grows(cfg, xs, n, cs, r.mux.done, r.closed, r.mux.cur, r.cur, t.cur);
      next := cs[..l] + [cs[l].(end := n + 1)];
    } else if CanOpen(x) {
      Opens(cfg, xs, n, cs, Segments(r.mux), Entries(r), r.open, t.cur);
      next := cs + [Stretch(n, n + 1)];
    } else {
      Rests(cfg, xs, n, cs, Segments(r.mux), Entries(r), r.open);
      next := cs;
    }
  }

  lemma StepParts(r: Rec, x: Input)
    requires r.cfg.mode == Continuous && r.open == r.mux.open
    ensures var t := Step(r, x);
      && t.cfg == r.cfg && t.open == t.mux.open
      && if r.open && !Full(r.cfg, r.cur.start, x) then
           && t.open && t.cur.start == r.cur.start && t.cur.events == r.cur.events + (if x.Detection? then EventBit(x.kind) else {})
           && Segments(t.mux) == r.mux.done + [r.mux.cur + if x.Frame? then [x.frame] else []] && Entries(t) == r.closed + [t.cur]
         else if CanOpen(x) then
           && t.open && t.cur.start == x.frame.ts && t.cur.events == {}
           && Segments(t.mux) == Segments(r.mux) + [[x.frame]] && Entries(t) == Entries(r) + [t.cur]
         else !t.open && Segments(t.mux) == Segments(r.mux) && Entries(t) == Entries(r)
  {
    hide Elapsed, Passed, Index;
    if x.Frame? {
      ElapsedIs(x.frame.ts, r.cur.start, r.cfg.segmentMs);
      assert [] + [x.frame] == [x.frame];
    } else {
      assert r.mux.cur + [] == r.mux.cur;
    }
  }

  lemma {:induction false} PrefixFollows(cfg: Config, xs: seq<Input>, n: nat) returns (cs: seq<Stretch>)
    requires cfg.mode == Continuous && n <= |xs|
    ensures Follows(cfg, xs, n, Run(cfg, xs[..n]), cs)
  {
    hide Step;
    if n == 0 {
      cs := [];
    } else {
      cs := PrefixFollows(cfg, xs, n - 1);
      assert xs[..n][..n - 1] == xs[..n - 1];
      cs := FollowsOn(cfg, xs, n - 1, Run(cfg, xs[..n - 1]), cs);
    }
  }

  /** Over every run in continuous mode the segments are these and no others. Each starts at the first keyframe
      since the last one ended for which a file can be opened, holds all frames from then to its end, and is
      tagged with exactly the detections in between; it ends before the first keyframe that comes a segment's
      length after its start. */
  lemma StretchesExact(cfg: Config, xs: seq<Input>) returns (cs: seq<Stretch>)
    requires cfg.mode == Continuous
    ensures var r := Run(cfg, xs); Stretches(cfg, xs, |xs|, cs, Segments(r.mux), Entries(r), r.open)
  {
    hide Stretches;
    cs := PrefixFollows(cfg, xs, |xs|);
    assert xs[..|xs|] == xs;
  }
}
