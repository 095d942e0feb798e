/** When an unsubscribe can return: exactly when it is not called from a sink and no thread waits
    for a publish of its own. */
module EventBarrier {
  import opened EventHub

  // ---- how acts are nested ----

  /** Every act below the top of a stack is a publish inside the call of a sink. */
  ghost predicate Nested(s: State) {
    forall t, i :: 0 <= t < |s.threads| && 0 <= i < |s.threads[t]| - 1 ==> s.threads[t][i].Publish? && s.threads[t][i].calling
  }

  ghost predicate NobodyWaits(s: State) { forall t: nat :: !WaitsForItself(s, t) }

  lemma StepNested(s: State, e: Event)
    requires Nested(s) && Enabled(s, e)
    ensures Nested(Step(s, e))
  {
    hide Snapshot;
  }

  lemma {:induction false} RunNested(s: State, es: seq<Event>)
    requires Nested(s)
    ensures Nested(Run(s, es))
    decreases |es|
  {
    hide Nested, Step, Enabled;
    if es != [] {
      if Enabled(s, es[0]) {
        StepNested(s, es[0]);
      }
      RunNested(if Enabled(s, es[0]) then Step(s, es[0]) else s, es[1..]);
    }
  }

  lemma {:induction false} RunJoin(s: State, a: seq<Event>, b: seq<Event>)
    ensures Run(s, a + b) == Run(Run(s, a), b)
    decreases |a|
  {
    hide Step, Enabled;
    if a == [] {
      assert a + b == b;
    } else {
      assert (a + b)[1..] == a[1..] + b;
      RunJoin(if Enabled(s, a[0]) then Step(s, a[0]) else s, a[1..], b);
    }
  }

  // ---- a schedule that finishes the publishes of a thread ----

  /** What is left to do in an act: calling, returning from the call, leaving. */
  function Work(a: Act): nat
    requires a.Publish? ==> a.next <= |a.snapshot|
    requires a.Publish? && a.calling ==> a.next < |a.snapshot|
  {
    if a.Drain? then 0 else 2 * (|a.snapshot| - a.next) + 1 - if a.calling then 1 else 0
  }

  ghost predicate Sound(stack: seq<Act>) {
    forall i :: 0 <= i < |stack| && stack[i].Publish? ==>
      stack[i].next <= |stack[i].snapshot| && (stack[i].calling ==> stack[i].next < |stack[i].snapshot|)
  }

  function Left(stack: seq<Act>): nat
    requires Sound(stack)
  {
    if stack == [] then 0 else Left(stack[..|stack| - 1]) + Work(stack[|stack| - 1])
  }

  /** The next step of a thread whose innermost act is a publish. */
  function NextOf(t: nat, a: Act): Event
    requires a.Publish?
  {
    if a.calling then SinkReturns(t) else if a.next < |a.snapshot| then CallNext(t) else EndPublish(t)
  }

  lemma NextWorks(s: State, t: nat)
    requires Inv(s) && Nested(s) && NobodyWaits(s) && t < |s.threads| && s.threads[t] != [] && s.threads[t][|s.threads[t]| - 1].Publish?
    ensures var e := NextOf(t, s.threads[t][|s.threads[t]| - 1]);
      Enabled(s, e) && var u := Step(s, e);
      && NobodyWaits(u) && u.threads == s.threads[t := u.threads[t]]
      && Sound(s.threads[t]) && Sound(u.threads[t]) && Left(u.threads[t]) < Left(s.threads[t])
      && (u.threads[t] != [] ==> u.threads[t][|u.threads[t]| - 1].Publish?)
  {
    hide InFlight, PublishesIn, Snapshot;
    var stack := s.threads[t];
    var n := |stack| - 1;
    var e := NextOf(t, stack[n]);
    var u := Step(s, e);
    if u.threads[t] != stack[..n] {
      assert u.threads[t][..n] == stack[..n];
    }
    forall j: nat
      ensures !WaitsForItself(u, j)
    {
      assert !WaitsForItself(s, j);
    }
  }

  /** The thread runs until it is idle, unless it waits in the barrier; nobody else moves. */
  lemma {:induction false} FinishThread(s: State, t: nat) returns (es: seq<Event>)
    requires Inv(s) && Nested(s) && NobodyWaits(s) && t < |s.threads| && Sound(s.threads[t])
    requires s.threads[t] != [] ==> s.threads[t][|s.threads[t]| - 1].Publish?
    ensures var u := Run(s, es); NobodyWaits(u) && u.threads == s.threads[t := []]
    decreases Left(s.threads[t])
  {
    if s.threads[t] == [] {
      es := [];
    } else {
      hide Inv, Nested, Enabled, Step, Sound, Left, NobodyWaits;
      NextWorks(s, t);
      var e := NextOf(t, s.threads[t][|s.threads[t]| - 1]);
      var u := Step(s, e);
      StepKeepsInv(s, e);
      StepNested(s, e);
      var rest := FinishThread(u, t);
      es := [e] + rest;
      assert es[1..] == rest && Run(s, es) == Run(u, rest);
    }
  }

  /** What is left of a stack once its publishes are done. */
  function Rest(stack: seq<Act>): seq<Act> {
    if stack != [] && stack[|stack| - 1].Publish? then [] else stack
  }

  lemma InvSound(s: State, t: nat)
    requires Inv(s) && t < |s.threads|
    ensures Sound(s.threads[t])
  {
    hide InFlight;
  }

  /** One thread comes to rest. */
  lemma FinishOne(s: State, t: nat) returns (es: seq<Event>)
    requires Inv(s) && Nested(s) && NobodyWaits(s) && t < |s.threads|
    ensures var u := Run(s, es); NobodyWaits(u) && u.threads == s.threads[t := Rest(s.threads[t])]
  {
    hide Inv, Nested, NobodyWaits, Sound;
    InvSound(s, t);
    if s.threads[t] != [] && s.threads[t][|s.threads[t]| - 1].Publish? {
      es := FinishThread(s, t);
    } else {
      es := [];
      assert s.threads[t := s.threads[t]] == s.threads;
    }
  }

  /** The first `k` threads finish their publishes one after the other. */
  lemma {:induction false} FinishFirst(s: State, k: nat) returns (es: seq<Event>)
    requires Inv(s) && Nested(s) && NobodyWaits(s) && k <= |s.threads|
    ensures var u := Run(s, es);
      && NobodyWaits(u) && |u.threads| == |s.threads|
      && forall t :: 0 <= t < |s.threads| ==> u.threads[t] == if t < k then Rest(s.threads[t]) else s.threads[t]
    decreases k
  {
    hide Inv, Nested, NobodyWaits, Rest;
    if k == 0 {
      es := [];
    } else {
      var first := FinishFirst(s, k - 1);
      RunKeepsInv(s, first);
      RunNested(s, first);
      var more := FinishOne(Run(s, first), k - 1);
      RunJoin(s, first, more);
      es := first + more;
    }
  }

  /** A thread that nests properly and does not wait for itself has no publish once it is at rest. */
  lemma AtRest(s: State, t: nat)
    requires Nested(s) && NobodyWaits(s) && t < |s.threads|
    ensures PublishesIn(Rest(s.threads[t])) == 0
  {
    var stack := s.threads[t];
    NoPublish(Rest(stack));
    assert !WaitsForItself(s, t);
  }

  /** All publishes can finish, and threads that are not publishing stay as they are. */
  lemma FinishAll(s: State) returns (es: seq<Event>)
    requires Inv(s) && Nested(s) && NobodyWaits(s)
    ensures var u := Run(s, es);
      && u.hub.publishing == 0 && |u.threads| == |s.threads|
      && forall t :: 0 <= t < |s.threads| ==> u.threads[t] == Rest(s.threads[t])
  {
    hide PublishesIn, InFlight, WaitsForItself, Rest;
    es := FinishFirst(s, |s.threads|);
    var u := Run(s, es);
    RunKeepsInv(s, es);
    forall t | 0 <= t < |u.threads|
      ensures PublishesIn(u.threads[t]) == 0
    {
      AtRest(s, t);
    }
    NoneInFlight(u.threads);
  }

  // ---- while some thread waits for itself ----

  lemma WaiterInFlight(s: State, t: nat)
    requires Inv(s) && WaitsForItself(s, t)
    ensures s.hub.publishing > 0
  {
    NoneInFlight(s.threads);
    NoPublish(s.threads[t]);
  }

  lemma StuckStep(s: State, e: Event, t: nat, k: nat)
    requires s.hub.publishing > 0 && Enabled(s, e) && k < |s.threads| && s.threads[k] != [] && s.threads[k][|s.threads[k]| - 1].Drain?
    ensures |Step(s, e).threads| == |s.threads| && Step(s, e).threads[k] == s.threads[k]
  {
  }

  /** While thread `t` waits for itself, whoever else waits in the barrier waits on. */
  lemma {:induction false} StuckRun(s: State, es: seq<Event>, t: nat, k: nat)
    requires Inv(s) && WaitsForItself(s, t) && k < |s.threads| && s.threads[k] != [] && s.threads[k][|s.threads[k]| - 1].Drain?
    ensures Run(s, es).hub.publishing > 0 && k < |Run(s, es).threads| && Run(s, es).threads[k] == s.threads[k]
    decreases |es|
  {
    hide Inv, Step, Enabled, WaitsForItself;
    WaiterInFlight(s, t);
    if es != [] {
      if Enabled(s, es[0]) {
        StillWaits(s, es[0], t);
        StepKeepsInv(s, es[0]);
        StuckStep(s, es[0], t, k);
      }
      StuckRun(if Enabled(s, es[0]) then Step(s, es[0]) else s, es[1..], t, k);
    }
  }

  // ---- the exact conditions ----

  lemma ReachableShape(n: nat, before: seq<Event>)
    ensures Inv(Run(Initial(n), before)) && Nested(Run(Initial(n), before))
  {
    InitialInv(n);
    RunKeepsInv(Initial(n), before);
    RunNested(Initial(n), before);
  }

  /** The publishes in flight can still come to an end. */
  ghost predicate CanDrain(s: State) { exists es :: Run(s, es).hub.publishing <= 0 }

  /** In any reachable state they can if and only if no thread waits in the barrier for a publish of its own. */
  lemma DrainsIff(n: nat, before: seq<Event>)
    ensures var s := Run(Initial(n), before); CanDrain(s) <==> forall t: nat :: !WaitsForItself(s, t)
  {
    hide Inv, Nested, WaitsForItself, CanDrain;
    var s := Run(Initial(n), before);
    ReachableShape(n, before);
    if NobodyWaits(s) {
      CanFinish(s);
    } else {
      var t: nat :| WaitsForItself(s, t);
      NeverDrains(s, t);
    }
  }

  lemma CanFinish(s: State)
    requires Inv(s) && Nested(s) && NobodyWaits(s)
    ensures CanDrain(s)
  {
    hide Inv, Nested, NobodyWaits;
    var es := FinishAll(s);
    assert Run(s, es).hub.publishing <= 0;
  }

  lemma NeverDrains(s: State, t: nat)
    requires Inv(s) && WaitsForItself(s, t)
    ensures !CanDrain(s)
  {
    hide Inv, WaitsForItself;
    forall es
      ensures Run(s, es).hub.publishing > 0
    {
      RunKeepsInv(s, es);
      NeverReturnsInsideSink(s, es, t);
      WaiterInFlight(Run(s, es), t);
    }
  }

  /** The call of unsubscribe made in step `e` has returned after `es`. */
  predicate Returned(s: State, e: Event, es: seq<Event>)
    requires Enabled(s, e)
  {
    var u := Run(Step(s, e), es);
    e.t < |u.threads| && |u.threads[e.t]| <= |s.threads[e.t]|
  }

  /** In any reachable state: an unsubscribe called now can return if and only if it is not called from
      inside a sink and no thread waits in the barrier for a publish of its own. */
  lemma ReturnsIff(n: nat, before: seq<Event>, e: Event)
    requires Enabled(Run(Initial(n), before), e) && e.Unsubscribe?
    ensures var s := Run(Initial(n), before);
      (exists es :: Returned(s, e, es)) <==> s.threads[e.t] == [] && forall t: nat :: !WaitsForItself(s, t)
  {
    hide Inv, Nested, WaitsForItself;
    var s := Run(Initial(n), before);
    ReachableShape(n, before);
    StepKeepsInv(s, e);
    StepNested(s, e);
    if s.threads[e.t] != [] {
      InsideNever(s, e);
    } else if NobodyWaits(s) {
      OutsideReturns(s, e);
    } else {
      var t: nat :| WaitsForItself(s, t);
      OutsideNever(s, e, t);
    }
  }

  lemma InsideNever(s: State, e: Event)
    requires Inv(s) && Enabled(s, e) && e.Unsubscribe? && s.threads[e.t] != []
    ensures forall es :: !Returned(s, e, es)
  {
    FromInsideSink(s, e);
    StepKeepsInv(s, e);
    forall es
      ensures !Returned(s, e, es)
    {
      hide Inv;
      assert |Step(s, e).threads[e.t]| > |s.threads[e.t]| by { PushedInside(s, e); }
      hide Step, Enabled, WaitsForItself;
      NeverReturnsInsideSink(Step(s, e), es, e.t);
    }
  }

  lemma PushedInside(s: State, e: Event)
    requires Inv(s) && Enabled(s, e) && e.Unsubscribe? && s.threads[e.t] != []
    ensures Step(s, e).threads[e.t] == s.threads[e.t] + [Drain(s.hub.slots[e.slot])]
  {
    NoneInFlight(s.threads);
    NoPublish(s.threads[e.t]);
  }

  lemma OutsideNever(s: State, e: Event, t: nat)
    requires Inv(s) && Enabled(s, e) && e.Unsubscribe? && s.threads[e.t] == [] && WaitsForItself(s, t)
    ensures Step(s, e).threads[e.t] == [Drain(s.hub.slots[e.slot])]
    ensures forall es :: !Returned(s, e, es)
  {
    WaiterInFlight(s, t);
    StillWaits(s, e, t);
    StepKeepsInv(s, e);
    assert Step(s, e).threads[e.t] == [Drain(s.hub.slots[e.slot])];
    forall es
      ensures !Returned(s, e, es)
    {
      hide Inv, Step, WaitsForItself;
      StuckRun(Step(s, e), es, t, e.t);
    }
  }

  lemma OutsideReturns(s: State, e: Event)
    requires Inv(s) && Nested(s) && NobodyWaits(s) && Enabled(s, e) && e.Unsubscribe? && s.threads[e.t] == []
    ensures exists es :: Returned(s, e, es)
  {
    if s.hub.publishing <= 0 {
      assert Run(Step(s, e), []) == Step(s, e) && Returned(s, e, []);
    } else {
      assert Step(s, e).threads[e.t] == [Drain(s.hub.slots[e.slot])];
      hide Step, Inv, Nested, NobodyWaits, Enabled;
      StepKeepsInv(s, e);
      StepNested(s, e);
      PushWaits(s, e);
      var es := DrainThenCheck(Step(s, e), e.t);
      assert Returned(s, e, es);
    }
  }

  /** A thread that waits in the barrier outside all sinks gets through. */
  lemma DrainThenCheck(s: State, t: nat) returns (es: seq<Event>)
    requires Inv(s) && Nested(s) && NobodyWaits(s) && t < |s.threads| && |s.threads[t]| == 1 && s.threads[t][0].Drain?
    ensures t < |Run(s, es).threads| && Run(s, es).threads[t] == []
  {
    hide Inv, Nested, NobodyWaits;
    var first := FinishAll(s);
    RunJoin(s, first, [CheckDrained(t)]);
    LastCheck(Run(s, first), t);
    es := first + [CheckDrained(t)];
  }

  lemma LastCheck(s: State, t: nat)
    requires t < |s.threads| && |s.threads[t]| == 1 && s.threads[t][0].Drain? && s.hub.publishing == 0
    ensures t < |Run(s, [CheckDrained(t)]).threads| && Run(s, [CheckDrained(t)]).threads[t] == []
  {
    assert Enabled(s, CheckDrained(t));
    assert Run(s, [CheckDrained(t)]) == Run(Step(s, CheckDrained(t)), []);
  }

  lemma PushWaits(s: State, e: Event)
    requires NobodyWaits(s) && Enabled(s, e) && e.Unsubscribe? && s.threads[e.t] == []
    ensures NobodyWaits(Step(s, e))
  {
    forall t: nat
      ensures !WaitsForItself(Step(s, e), t)
    {
      assert !WaitsForItself(s, t);
    }
  }

  // ---- a caller outside all sinks that is caught as well ----

  const A := Sub(1, 0)
  const NEWS := Stored(0, 0, 0)

  /** Thread 0 unsubscribes from inside the sink it calls. */
  const CAUGHT := [Subscribe(0, A), StartPublish(0, NEWS), CallNext(0), Unsubscribe(0, 0)]

  /** Thread 1 is in no sink, yet an unsubscribe it calls then never returns either. */
  lemma CaughtOutside()
    ensures var s, e := Run(Initial(2), CAUGHT), Unsubscribe(1, 1);
      Enabled(s, e) && s.threads[1] == [] && WaitsForItself(s, 0) && forall es :: !Returned(s, e, es)
  {
    var s := CaughtState();
    ReachableShape(2, CAUGHT);
    hide Inv, Nested, Step;
    OutsideNever(s, Unsubscribe(1, 1), 0);
  }

  lemma CaughtState() returns (s: State)
    ensures s == Run(Initial(2), CAUGHT) && |s.threads| == 2 && s.threads[1] == [] && |s.hub.slots| == MAX_SINKS && WaitsForItself(s, 0)
  {
    hide Snapshot, FirstFree;
    var s1 := Step(Initial(2), CAUGHT[0]);
    assert s1.hub.slots[0] == Taken(A) by { FirstIsFree(EMPTY_HUB.slots); }
    var s2 := Step(s1, CAUGHT[1]);
    OneTaken(s1.hub.slots, A);
    var s3 := Step(s2, CAUGHT[2]);
    s := Step(s3, CAUGHT[3]);
    RunFour(Initial(2), CAUGHT, s1, s2, s3, s);
    assert s.threads[0][0].Publish? && s.threads[0][1].Drain?;
  }

  lemma FirstIsFree(slots: seq<Slot>)
    requires slots != [] && slots[0].Free?
    ensures FirstFree(slots) == 0
  {
  }

  lemma {:induction false} OneTaken(slots: seq<Slot>, sub: Sub)
    requires |slots| > 0 && slots[0] == Taken(sub) && forall i :: 1 <= i < |slots| ==> slots[i].Free?
    ensures Snapshot(slots) == [sub]
    decreases |slots|
  {
    if |slots| > 1 {
      OneTaken(slots[..|slots| - 1], sub);
    }
  }

  lemma RunFour(s: State, es: seq<Event>, s1: State, s2: State, s3: State, s4: State)
    requires |es| == 4 && Enabled(s, es[0]) && s1 == Step(s, es[0]) && Enabled(s1, es[1]) && s2 == Step(s1, es[1])
    requires Enabled(s2, es[2]) && s3 == Step(s2, es[2]) && Enabled(s3, es[3]) && s4 == Step(s3, es[3])
    ensures Run(s, es) == s4
  {
    hide Step, Enabled;
    assert es[1..][0] == es[1] && es[1..][1..] == es[2..] && es[2..][0] == es[2] && es[2..][1..] == es[3..];
    assert es[3..][0] == es[3] && es[3..][1..] == [];
    assert Run(s4, []) == s4;
    assert Run(s3, es[3..]) == s4;
    assert Run(s2, es[2..]) == s4;
    assert Run(s1, es[1..]) == s4;
  }
}
