/** The recording engine as an object: two rings in arrays, and the fields guarded by its lock. */
module SegmentRecorder {
  import opened Ring
  import opened SegmentRecord

  class Recorder {
    const cfg: Config
    var mux: Muxer

    var open: bool
    var segStart: nat
    var segLast: nat
    var segEvents: set<nat>
    var lastFrameMs: nat

    var recording: bool
    var lastTrigger: nat
    var pending: bool
    var pendingEvents: set<nat>

    const segments: array<Segment>
    var segCount: nat
    var segHead: nat

    const preFrames: array<VFrame>
    var preCount: nat
    var preHead: nat

    ghost var closed: seq<Segment>

    ghost predicate Valid()
      reads this, segments, preFrames
    {
      && segments.Length == cfg.maxSegments && segHead < segments.Length && segCount <= segments.Length
      && Held(segments[..], segHead, segCount) == Last(closed, cfg.maxSegments)
      && preFrames.Length == cfg.preCapacity && preCount <= preFrames.Length
      && (if preFrames.Length == 0 then preHead == 0 else preHead < preFrames.Length)
    }

    /** The pre-roll, oldest first. */
    ghost function Pre(): seq<VFrame>
      requires Valid()
      reads this, segments, preFrames
    {
      if preFrames.Length == 0 then [] else Held(preFrames[..], preHead, preCount)
    }

    ghost function Value(): Rec
      requires Valid()
      reads this, segments, preFrames
    {
      Rec(cfg, mux, open, Segment(segStart, segLast, segEvents), lastFrameMs, recording, lastTrigger, pending,
          pendingEvents, closed, Pre())
    }

    constructor (a: Asked)
      ensures Valid() && Value() == Fresh(Resolve(a)) && fresh(segments) && fresh(preFrames)
    {
      var c := Resolve(a);
      cfg := c;
      mux := Muxer([], false, [], 0, map[]);
      open, segStart, segLast, segEvents, lastFrameMs := false, 0, 0, {}, 0;
      recording, lastTrigger, pending, pendingEvents := false, 0, false, {};
      segments := new Segment[c.maxSegments](_ => Segment(0, 0, {}));
      segCount, segHead := 0, 0;
      preFrames := new VFrame[c.preCapacity](_ => VFrame(false, 0, []));
      preCount, preHead := 0, 0;
      closed := [];
    }

    /** Indexes the segment just closed; a full index first deletes its oldest file. */
    method AddToIndex()
      requires Valid()
      modifies `mux, `segCount, `segHead, `closed, segments
      ensures Valid() && closed == old(closed) + [Segment(segStart, segLast, segEvents)]
      ensures Pre() == old(Pre())
      ensures var ix := Last(old(closed), cfg.maxSegments);
        mux == if |ix| == cfg.maxSegments then Remove(old(mux), ix[0].start) else old(mux)
    {
      hide Last;
      if segCount == segments.Length {
        assert Held(segments[..], segHead, segCount)[0] == segments[segHead];
        mux := Remove(mux, segments[segHead].start);
      }
      ghost var all := closed;
      closed := closed + [Segment(segStart, segLast, segEvents)];
      segHead, segCount := Push(segments, segHead, segCount, Segment(segStart, segLast, segEvents), all);
    }

    method OpenAt(start: nat, canOpen: bool) returns (ok: bool)
      requires Valid()
      modifies `mux, `open, `segStart, `segLast, `segEvents
      ensures Valid() && ok == canOpen && Value() == if canOpen then OpenSegment(old(Value()), start) else old(Value())
    {
      if !canOpen {
        return false;
      }
      mux := MuxOpen(mux, start);
      open, segStart, segLast, segEvents := true, start, start, {};
      ok := true;
    }

    method Write(f: VFrame)
      requires Valid()
      modifies `mux, `segLast
      ensures Valid() && Value() == WriteTo(old(Value()), f)
    {
      mux := MuxWrite(mux, f);
      if f.ts > segLast {
        segLast := f.ts;
      }
    }

    method Close()
      requires Valid()
      modifies `mux, `open, `segCount, `segHead, `closed, segments
      ensures Valid() && Value() == CloseSegment(old(Value()))
    {
      if !open {
        return;
      }
      mux := MuxClose(mux);
      AddToIndex();
      open := false;
    }

    // ---- pre-roll ----

    method PreClear()
      requires Valid()
      modifies `preCount, `preHead, preFrames
      ensures Valid() && Value() == old(Value()).(pre := [])
    {
      var i := 0;
      while i < preFrames.Length
        invariant 0 <= i <= preFrames.Length
      {
        preFrames[i] := preFrames[i].(data := []);
        i := i + 1;
      }
      preCount, preHead := 0, 0;
    }

    method PreAdd(f: VFrame)
      requires Valid()
      modifies `preCount, `preHead, preFrames
      ensures Valid() && Value() == PrePush(old(Value()), f)
    {
      if preFrames.Length == 0 {
        return;
      }
      ghost var before := Pre();
      LastOfShort(before, preFrames.Length);
      hide Last;
      preHead, preCount := Push(preFrames, preHead, preCount, f, before);
    }

    /** The pre-roll frame `i` from the oldest. */
    method PreAt(i: nat) returns (f: VFrame)
      requires Valid() && i < preCount
      ensures f == Pre()[i]
    {
      WrapIsMod(preHead + preFrames.Length - preCount, preFrames.Length);
      var oldest := (preHead + preFrames.Length - preCount) % preFrames.Length;
      WrapIsMod(oldest + i, preFrames.Length);
      var idx := (oldest + i) % preFrames.Length;
      assert idx == Place(preFrames.Length, preHead, preCount, i);
      f := preFrames[idx];
    }

    method EarliestKeyframe(fallback: nat) returns (ts: nat)
      requires Valid()
      ensures ts == if FromKey(Pre()) != [] then FromKey(Pre())[0].ts else fallback
    {
      var i := 0;
      assert Pre()[0..] == Pre();
      while i < preCount
        invariant 0 <= i <= preCount && FromKey(Pre()) == FromKey(Pre()[i..])
      {
        var f := PreAt(i);
        if f.key {
          return f.ts;
        }
        assert Pre()[i..][1..] == Pre()[i + 1..];
        i := i + 1;
      }
      ts := fallback;
    }

    method HasKeyframe() returns (yes: bool)
      requires Valid()
      ensures yes == (FromKey(Pre()) != [])
    {
      var i := 0;
      assert Pre()[0..] == Pre();
      while i < preCount
        invariant 0 <= i <= preCount && FromKey(Pre()) == FromKey(Pre()[i..])
      {
        var f := PreAt(i);
        if f.key {
          return true;
        }
        assert Pre()[i..][1..] == Pre()[i + 1..];
        i := i + 1;
      }
      yes := false;
    }

    /** Writes the pre-roll from its first keyframe on, then empties it. */
    method Flush()
      requires Valid()
      modifies `mux, `segLast, `preCount, `preHead, preFrames
      ensures Valid() && Value() == PreFlush(old(Value()))
    {
      ghost var v := Value();
      ghost var pre := Pre();
      if preCount == 0 {
        assert pre == [];
        return;
      }
      var started := false;
      var i := 0;
      assert pre[0..] == pre;
      while i < preCount
        invariant 0 <= i <= preCount == |pre| && Valid() && Pre() == pre
        invariant WriteAll(Value(), if started then pre[i..] else FromKey(pre[i..])) == WriteAll(v, FromKey(pre))
      {
        assert pre[i..][1..] == pre[i + 1..];
        var f := PreAt(i);
        if started || f.key {
          started := true;
          Write(f);
        }
        i := i + 1;
      }
      assert pre[i..] == [];
      PreClear();
    }

    // ---- inputs ----

    method OnFrame(f: VFrame, canOpen: bool)
      requires Valid()
      modifies this, segments, preFrames
      ensures Valid() && Value() == SegmentRecord.OnFrame(old(Value()), f, canOpen)
    {
      hide FromKey, Last, Held;
      lastFrameMs := f.ts;
      if cfg.mode == Continuous {
        if open && f.key && Elapsed(f.ts, segStart) >= cfg.segmentMs {
          Close();
        }
        if !open {
          if !f.key {
            return;
          }
          var ok := OpenAt(f.ts, canOpen);
          if !ok {
            return;
          }
        }
        Write(f);
        return;
      }
      if cfg.mode != OnEvent {
        return;
      }
      OnFrameEvent(f, canOpen);
    }

    method OnFrameEvent(f: VFrame, canOpen: bool)
      requires Valid() && cfg.mode == OnEvent && lastFrameMs == f.ts
      modifies this, segments, preFrames
      ensures Valid() && Value() == SegmentRecord.OnFrame(old(Value()), f, canOpen)
    {
      hide FromKey, Last, Held;
      if pending && !recording {
        if !f.key {
          PreAdd(f);
        } else {
          StartPending(f, canOpen);
        }
        return;
      }
      if recording {
        Write(f);
        if Elapsed(f.ts, lastTrigger) >= cfg.postMs || Elapsed(f.ts, segStart) >= cfg.eventMaxMs {
          Close();
          recording := false;
        }
      } else {
        PreAdd(f);
      }
    }

    /** The keyframe a detection was waiting for. */
    method StartPending(f: VFrame, canOpen: bool)
      requires Valid() && pending && !recording && f.key
      modifies `mux, `open, `segStart, `segLast, `segEvents, `recording, `pending, `lastTrigger, `pendingEvents
      ensures Valid()
      ensures var r := old(Value());
        Value() == if !canOpen then r
                   else var o := OpenSegment(r, f.ts);
                        WriteTo(o.(recording := true, pending := false, lastTrigger := f.ts,
                                   cur := o.cur.(events := o.cur.events + r.pendingEvents), pendingEvents := {}), f)
    {
      hide FromKey, Last, Held;
      var ok := OpenAt(f.ts, canOpen);
      if !ok {
        return;
      }
      recording, pending, lastTrigger := true, false, f.ts;
      segEvents := segEvents + pendingEvents;
      pendingEvents := {};
      Write(f);
    }

    method OnDetection(kind: nat, canOpen: bool)
      requires Valid()
      modifies this, segments, preFrames
      ensures Valid() && Value() == SegmentRecord.OnDetection(old(Value()), kind, canOpen)
    {
      hide FromKey, Last, Held, WriteAll;
      var bit := EventBit(kind);
      if cfg.mode == Continuous {
        if open {
          segEvents := segEvents + bit;
        }
      } else if cfg.mode == OnEvent {
        var preroll := HasKeyframe();
        if recording {
          Tag(bit);
        } else if preroll {
          StartWithPreroll(bit, canOpen);
        } else {
          pending := true;
          pendingEvents := pendingEvents + bit;
        }
      }
    }

    method StartWithPreroll(bit: set<nat>, canOpen: bool)
      requires Valid() && FromKey(Pre()) != []
      modifies this, segments, preFrames
      ensures Valid()
      ensures var r := old(Value());
        Value() == if !canOpen then r
                   else var w := PreFlush(OpenSegment(r, FromKey(r.pre)[0].ts).(recording := true));
                        w.(lastTrigger := r.lastFrameMs, cur := w.cur.(events := w.cur.events + bit))
    {
      hide FromKey, Last, Held, WriteAll;
      ghost var r := Value();
      var start := EarliestKeyframe(lastFrameMs);
      var ok := OpenAt(start, canOpen);
      if ok {
        recording := true;
        ghost var o := Value();
        Flush();
        WriteAllIs(o, FromKey(o.pre));
        Tag(bit);
      }
    }

    /** A detection while recording: the post-roll starts over. */
    method Tag(bit: set<nat>)
      requires Valid()
      modifies `lastTrigger, `segEvents
      ensures Valid()
      ensures var r := old(Value()); Value() == r.(lastTrigger := r.lastFrameMs, cur := r.cur.(events := r.cur.events + bit))
    {
      hide Last, Held;
      lastTrigger := lastFrameMs;
      segEvents := segEvents + bit;
    }

    /** The newest indexed segments, newest first. */
    method Recent(out: array<Segment>, max: nat) returns (written: nat)
      requires Valid() && max <= out.Length && out != segments
      modifies out
      ensures var n := if |closed| < cfg.maxSegments then |closed| else cfg.maxSegments; written == if n < max then n else max
      ensures forall i :: 0 <= i < written ==> out[i] == closed[|closed| - 1 - i]
    {
      hide Held, Last;
      HeldCount(segments[..], segHead, segCount, closed);
      written := 0;
      var i := 0;
      while i < segCount && written < max
        invariant 0 <= i == written <= segCount && written <= max && segments[..] == old(segments[..])
        invariant forall j :: 0 <= j < written ==> out[j] == closed[|closed| - 1 - j]
      {
        var cap := segments.Length;
        NewestAt(segments[..], segHead, segCount, closed, i);
        WrapIsMod(segHead + cap - 1 - i, cap);
        out[written] := segments[(segHead + cap - 1 - i) % cap];
        written, i := written + 1, i + 1;
      }
    }
  }
}
