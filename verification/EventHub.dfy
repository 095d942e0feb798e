/** The event hub: publishers take a snapshot of the subscribers under the lock and call them
    outside it; unsubscribing waits until no publish is in flight. Any number of threads, one
    critical section or one call of a sink per step. The media hub follows the same protocol
    without the store of recent events. */
module EventHub {

  /** A callback with its context. */
  datatype Sub = Sub(sink: nat, ctx: nat)

  datatype Slot = Free | Taken(sub: Sub)

  datatype Stored = Stored(channel: int, kind: int, ts: nat)

  const MAX_SINKS: nat := 8
  const STORE_SIZE: nat := 64

  /** What the lock protects; `stored` lists every event published so far. */
  datatype Hub = Hub(slots: seq<Slot>, stored: seq<Stored>, publishing: int)

  const EMPTY_HUB: Hub := Hub(seq(MAX_SINKS, _ => Free), [], 0)

  // ---- the critical sections ----

  /** The first free slot, or the number of slots. */
  function FirstFree(slots: seq<Slot>): (i: nat)
    ensures i <= |slots| && (forall j :: 0 <= j < i ==> slots[j].Taken?) && (i < |slots| ==> slots[i].Free?)
  {
    if slots == [] || slots[0].Free? then 0 else FirstFree(slots[1..]) + 1
  }

  function Subscribed(h: Hub, sub: Sub): Hub {
    var i := FirstFree(h.slots);
    if i < |h.slots| then h.(slots := h.slots[i := Taken(sub)]) else h
  }

  function Cleared(h: Hub, slot: nat): Hub
    requires slot < |h.slots|
  {
    h.(slots := h.slots[slot := Free])
  }

  /** The current subscribers, in slot order. */
  function Snapshot(slots: seq<Slot>): seq<Sub> {
    if slots == [] then []
    else Snapshot(slots[..|slots| - 1]) + if slots[|slots| - 1].Taken? then [slots[|slots| - 1].sub] else []
  }

  function Entered(h: Hub, e: Stored): Hub { h.(stored := h.stored + [e], publishing := h.publishing + 1) }

  function Left(h: Hub): Hub { h.(publishing := h.publishing - 1) }

  // ---- threads ----

  /** What a thread is in the middle of, outermost first: publishing to a snapshot, about to call
      or inside the call of entry `next`; or waiting in unsubscribe for publishes to drain. */
  datatype Act = Publish(snapshot: seq<Sub>, next: nat, calling: bool, event: Stored) | Drain(gone: Slot)

  /** A call made by a thread's act number `depth`. */
  datatype Call = Call(thread: nat, depth: nat, sub: Sub, event: Stored)

  /** `calls` lists every call of a sink so far. */
  datatype State = State(hub: Hub, threads: seq<seq<Act>>, calls: seq<Call>)

  function Initial(threads: nat): State { State(EMPTY_HUB, seq(threads, _ => []), []) }

  /** Outside the hub: idle, or in the body of a sink. */
  predicate InApplication(stack: seq<Act>) {
    stack == [] || (stack[|stack| - 1].Publish? && stack[|stack| - 1].calling)
  }

  datatype Event =
    | Subscribe(t: nat, sub: Sub)
    | Unsubscribe(t: nat, slot: nat)
    | CheckDrained(t: nat)
    | StartPublish(t: nat, event: Stored)
    | CallNext(t: nat)
    | SinkReturns(t: nat)
    | EndPublish(t: nat)

  predicate Enabled(s: State, e: Event) {
    && e.t < |s.threads|
    && var stack := s.threads[e.t];
    && match e
       case Subscribe(_, _) => InApplication(stack)
       case Unsubscribe(_, slot) => InApplication(stack) && slot < |s.hub.slots|
       case CheckDrained(_) => stack != [] && stack[|stack| - 1].Drain?
       case StartPublish(_, _) => InApplication(stack)
       case CallNext(_) =>
         stack != [] && var a := stack[|stack| - 1]; a.Publish? && !a.calling && a.next < |a.snapshot|
       case SinkReturns(_) => stack != [] && var a := stack[|stack| - 1]; a.Publish? && a.calling
       case EndPublish(_) => stack != [] && var a := stack[|stack| - 1]; a.Publish? && !a.calling && a.next == |a.snapshot|
  }

  function Push(s: State, t: nat, a: Act): State
    requires t < |s.threads|
  {
    s.(threads := s.threads[t := s.threads[t] + [a]])
  }

  function Pop(s: State, t: nat): State
    requires t < |s.threads| && s.threads[t] != []
  {
    s.(threads := s.threads[t := s.threads[t][..|s.threads[t]| - 1]])
  }

  function Step(s: State, e: Event): State
    requires Enabled(s, e)
  {
    var stack := s.threads[e.t];
    match e
    case Subscribe(t, sub) => s.(hub := Subscribed(s.hub, sub))
    case Unsubscribe(t, slot) =>
      var cleared := s.(hub := Cleared(s.hub, slot));
      if s.hub.publishing > 0 then Push(cleared, t, Drain(s.hub.slots[slot])) else cleared
    case CheckDrained(t) => if s.hub.publishing > 0 then s else Pop(s, t)
    case StartPublish(t, ev) => Push(s.(hub := Entered(s.hub, ev)), t, Publish(Snapshot(s.hub.slots), 0, false, ev))
    case CallNext(t) =>
      var a := stack[|stack| - 1];
      Push(Pop(s, t), t, a.(calling := true)).(calls := s.calls + [Call(t, |stack| - 1, a.snapshot[a.next], a.event)])
    case SinkReturns(t) =>
      var a := stack[|stack| - 1];
      Push(Pop(s, t), t, a.(calling := false, next := a.next + 1))
    case EndPublish(t) => Pop(s.(hub := Left(s.hub)), t)
  }

  /** Steps that cannot be taken are skipped. */
  function Run(s: State, es: seq<Event>): State
    decreases |es|
  {
    if es == [] then s else Run(if Enabled(s, es[0]) then Step(s, es[0]) else s, es[1..])
  }

  // ---- the count of publishes in flight ----

  function PublishesIn(stack: seq<Act>): nat {
    if stack == [] then 0
    else PublishesIn(stack[..|stack| - 1]) + if stack[|stack| - 1].Publish? then 1 else 0
  }

  function InFlight(threads: seq<seq<Act>>): nat {
    if threads == [] then 0 else InFlight(threads[..|threads| - 1]) + PublishesIn(threads[|threads| - 1])
  }

  lemma {:induction false} InFlightUpdate(threads: seq<seq<Act>>, t: nat, stack: seq<Act>)
    requires t < |threads|
    ensures InFlight(threads[t := stack]) == InFlight(threads) - PublishesIn(threads[t]) + PublishesIn(stack)
    decreases |threads|
  {
    var n := |threads| - 1;
    if t < n {
      assert threads[t := stack][..n] == threads[..n][t := stack];
      InFlightUpdate(threads[..n], t, stack);
    } else {
      assert threads[t := stack][..n] == threads[..n];
    }
  }

  lemma {:induction false} NoneInFlight(threads: seq<seq<Act>>)
    ensures InFlight(threads) == 0 <==> forall t :: 0 <= t < |threads| ==> PublishesIn(threads[t]) == 0
    decreases |threads|
  {
    if threads != [] {
      var n := |threads| - 1;
      NoneInFlight(threads[..n]);
      assert forall t :: 0 <= t < n ==> threads[..n][t] == threads[t];
    }
  }

  lemma {:induction false} NoPublish(stack: seq<Act>)
    ensures PublishesIn(stack) == 0 <==> forall i :: 0 <= i < |stack| ==> stack[i].Drain?
    decreases |stack|
  {
    if stack != [] {
      var n := |stack| - 1;
      NoPublish(stack[..n]);
      assert forall i :: 0 <= i < n ==> stack[..n][i] == stack[i];
    }
  }

  ghost predicate Inv(s: State) {
    && |s.hub.slots| == MAX_SINKS && s.hub.publishing == InFlight(s.threads)
    && forall t, i :: 0 <= t < |s.threads| && 0 <= i < |s.threads[t]| && s.threads[t][i].Publish? ==>
      s.threads[t][i].next <= |s.threads[t][i].snapshot| && (s.threads[t][i].calling ==> s.threads[t][i].next < |s.threads[t][i].snapshot|)
  }

  lemma {:induction false} InitialInv(n: nat)
    ensures Inv(Initial(n))
  {
    NoneInFlight(Initial(n).threads);
  }

  /** Pushing or popping one act. */
  lemma StackCounts(s: State, t: nat, a: Act)
    requires t < |s.threads|
    ensures InFlight(Push(s, t, a).threads) == InFlight(s.threads) + if a.Publish? then 1 else 0
    ensures s.threads[t] != [] ==>
      InFlight(Pop(s, t).threads) == InFlight(s.threads) - if s.threads[t][|s.threads[t]| - 1].Publish? then 1 else 0
  {
    var stack := s.threads[t];
    assert (stack + [a])[..|stack|] == stack;
    InFlightUpdate(s.threads, t, stack + [a]);
    if stack != [] {
      InFlightUpdate(s.threads, t, stack[..|stack| - 1]);
    }
  }

  /** In every step the counter stays the number of publishes in flight. */
  lemma StepKeepsInv(s: State, e: Event)
    requires Inv(s) && Enabled(s, e)
    ensures Inv(Step(s, e))
  {
    hide InFlight, PublishesIn, Snapshot;
    var stack := s.threads[e.t];
    match e
    case Subscribe(t, sub) =>
    case Unsubscribe(t, slot) => StackCounts(s.(hub := Cleared(s.hub, slot)), t, Drain(s.hub.slots[slot]));
    case CheckDrained(t) => StackCounts(s, t, stack[|stack| - 1]);
    case StartPublish(t, ev) => StackCounts(s.(hub := Entered(s.hub, ev)), t, Publish(Snapshot(s.hub.slots), 0, false, ev));
    case CallNext(t) => TopReplaced(s, t, stack[|stack| - 1].(calling := true));
    case SinkReturns(t) => TopReplaced(s, t, stack[|stack| - 1].(calling := false, next := stack[|stack| - 1].next + 1));
    case EndPublish(t) => StackCounts(s.(hub := Left(s.hub)), t, stack[|stack| - 1]);
  }

  lemma TopReplaced(s: State, t: nat, a: Act)
    requires t < |s.threads| && s.threads[t] != [] && s.threads[t][|s.threads[t]| - 1].Publish? && a.Publish?
    ensures InFlight(Push(Pop(s, t), t, a).threads) == InFlight(s.threads)
  {
    hide InFlight, PublishesIn;
    StackCounts(s, t, a);
    StackCounts(Pop(s, t), t, a);
  }

  /** Over any run, with any number of threads, the counter is the number of publishes in flight. */
  lemma {:induction false} RunKeepsInv(s: State, es: seq<Event>)
    requires Inv(s)
    ensures Inv(Run(s, es))
    decreases |es|
  {
    hide Inv, Step, Enabled;
    if es != [] {
      if Enabled(s, es[0]) {
        StepKeepsInv(s, es[0]);
      }
      RunKeepsInv(if Enabled(s, es[0]) then Step(s, es[0]) else s, es[1..]);
    }
  }

  // ---- the barrier ----

  /** The callback is not subscribed, and no publish in flight has it before it. */
  ghost predicate Gone(s: State, sub: Sub) {
    && Taken(sub) !in s.hub.slots
    && forall t, i :: 0 <= t < |s.threads| && 0 <= i < |s.threads[t]| ==>
      s.threads[t][i].Publish? ==> forall k :: s.threads[t][i].next <= k < |s.threads[t][i].snapshot| ==> s.threads[t][i].snapshot[k] != sub
  }

  /** The step in which an unsubscribe returns. */
  predicate Returns(s: State, e: Event)
    requires Enabled(s, e)
  {
    (e.Unsubscribe? || e.CheckDrained?) && s.hub.publishing <= 0
  }

  /** What the unsubscribe that returns in this step removed. */
  function Removed(s: State, e: Event): Slot
    requires Enabled(s, e) && Returns(s, e)
  {
    if e.Unsubscribe? then s.hub.slots[e.slot] else s.threads[e.t][|s.threads[e.t]| - 1].gone
  }

  /** When an unsubscribe returns, no thread is going to call anything that is not subscribed. */
  lemma ReturnDrains(s: State, e: Event, sub: Sub)
    requires Inv(s) && Enabled(s, e) && Returns(s, e)
    ensures Gone(Step(s, e), sub) <==> Taken(sub) !in Step(s, e).hub.slots
  {
    NoneInFlight(s.threads);
    forall t, i | 0 <= t < |s.threads| && 0 <= i < |s.threads[t]|
      ensures s.threads[t][i].Drain?
    {
      NoPublish(s.threads[t]);
    }
    var u := Step(s, e);
    forall t, i | 0 <= t < |u.threads| && 0 <= i < |u.threads[t]|
      ensures u.threads[t][i].Drain?
    {
      assert u.threads[t][i] == s.threads[t][i];
    }
  }

  lemma {:induction false} SnapshotIs(slots: seq<Slot>, sub: Sub)
    ensures sub in Snapshot(slots) <==> Taken(sub) in slots
    decreases |slots|
  {
    if slots != [] {
      var n := |slots| - 1;
      SnapshotIs(slots[..n], sub);
      assert slots == slots[..n] + [slots[n]];
    }
  }

  /** Once gone, a callback stays gone and uncalled until it is subscribed again. */
  lemma GoneStays(s: State, e: Event, sub: Sub)
    requires Gone(s, sub) && Enabled(s, e) && !(e.Subscribe? && e.sub == sub)
    ensures Gone(Step(s, e), sub)
    ensures s.calls <= Step(s, e).calls
    ensures forall k :: |s.calls| <= k < |Step(s, e).calls| ==> Step(s, e).calls[k].sub != sub
  {
    hide Snapshot;
    var u, stack := Step(s, e), s.threads[e.t];
    SnapshotIs(s.hub.slots, sub);
    forall t, i | 0 <= t < |u.threads| && 0 <= i < |u.threads[t]| && u.threads[t][i].Publish?
      ensures forall k :: u.threads[t][i].next <= k < |u.threads[t][i].snapshot| ==> u.threads[t][i].snapshot[k] != sub
    {
      if t == e.t && i >= |stack| - 1 && (e.CallNext? || e.SinkReturns?) {
        assert s.threads[t][i].Publish?;
      } else if t == e.t && i == |stack| {
        assert u.threads[t][i].snapshot == Snapshot(s.hub.slots);
      } else {
        assert u.threads[t][i] == s.threads[t][i];
      }
    }
  }

  lemma {:induction false} GoneRun(s: State, es: seq<Event>, sub: Sub)
    requires Gone(s, sub) && forall k :: 0 <= k < |es| ==> !(es[k].Subscribe? && es[k].sub == sub)
    ensures s.calls <= Run(s, es).calls
    ensures forall k :: |s.calls| <= k < |Run(s, es).calls| ==> Run(s, es).calls[k].sub != sub
    decreases |es|
  {
    hide Gone, Step, Enabled;
    if es != [] {
      if Enabled(s, es[0]) {
        GoneStays(s, es[0], sub);
      }
      GoneRun(if Enabled(s, es[0]) then Step(s, es[0]) else s, es[1..], sub);
    }
  }

  /** Once unsubscribe has returned, no thread ever calls the removed callback again unless it is
      subscribed again, or still is in another slot: for any number of publishers in any state at
      the time of the call, and whoever takes over the slot while the barrier waits. */
  lemma UnsubscribeIsBarrier(n: nat, before: seq<Event>, e: Event, after: seq<Event>, sub: Sub)
    requires var s := Run(Initial(n), before);
      Enabled(s, e) && Returns(s, e) && Removed(s, e) == Taken(sub) && Taken(sub) !in Step(s, e).hub.slots
    requires forall k :: 0 <= k < |after| ==> !(after[k].Subscribe? && after[k].sub == sub)
    ensures var s := Step(Run(Initial(n), before), e); var u := Run(s, after);
      s.calls <= u.calls && forall k :: |s.calls| <= k < |u.calls| ==> u.calls[k].sub != sub
  {
    hide Step, Returns, Removed, Gone;
    InitialInv(n);
    RunKeepsInv(Initial(n), before);
    var s := Run(Initial(n), before);
    ReturnDrains(s, e, sub);
    GoneRun(Step(s, e), after, sub);
  }

  // ---- unsubscribing from inside a sink ----

  /** Thread `t` waits in the barrier underneath a publish of its own. */
  ghost predicate WaitsForItself(s: State, t: nat) {
    && t < |s.threads| && |s.threads[t]| > 1 && s.threads[t][|s.threads[t]| - 1].Drain?
    && exists i :: 0 <= i < |s.threads[t]| && s.threads[t][i].Publish?
  }

  /** An unsubscribe called from a sink waits for its own publish. */
  lemma FromInsideSink(s: State, e: Event)
    requires Inv(s) && Enabled(s, e) && e.Unsubscribe? && s.threads[e.t] != []
    ensures WaitsForItself(Step(s, e), e.t)
  {
    var stack := s.threads[e.t];
    NoneInFlight(s.threads);
    NoPublish(stack);
    assert stack[|stack| - 1].Publish?;
    assert Step(s, e).threads[e.t][|stack| - 1].Publish?;
  }

  lemma StillWaits(s: State, e: Event, t: nat)
    requires Inv(s) && WaitsForItself(s, t) && Enabled(s, e)
    ensures WaitsForItself(Step(s, e), t) && Step(s, e).threads[t] == s.threads[t]
  {
    NoneInFlight(s.threads);
    NoPublish(s.threads[t]);
  }

  /** It never returns, whatever the other threads do. */
  lemma {:induction false} NeverReturnsInsideSink(s: State, es: seq<Event>, t: nat)
    requires Inv(s) && WaitsForItself(s, t)
    ensures WaitsForItself(Run(s, es), t) && Run(s, es).threads[t] == s.threads[t]
    decreases |es|
  {
    hide Inv, Step, Enabled, WaitsForItself;
    if es != [] {
      if Enabled(s, es[0]) {
        StillWaits(s, es[0], t);
        StepKeepsInv(s, es[0]);
      }
      NeverReturnsInsideSink(if Enabled(s, es[0]) then Step(s, es[0]) else s, es[1..], t);
    }
  }

  // ---- what a publish delivers ----

  /** The callbacks called by act `depth` of thread `t`, in order, each with the event it was told. */
  function CallsBy(calls: seq<Call>, t: nat, depth: nat): seq<(Sub, Stored)> {
    if calls == [] then []
    else
      var last := calls[|calls| - 1];
      CallsBy(calls[..|calls| - 1], t, depth) + if last.thread == t && last.depth == depth then [(last.sub, last.event)] else []
  }

  /** Each of these callbacks, told the event. */
  function Told(subs: seq<Sub>, event: Stored): (r: seq<(Sub, Stored)>)
    ensures |r| == |subs|
  {
    seq(|subs|, i requires 0 <= i < |subs| => (subs[i], event))
  }

  lemma ToldMore(a: seq<Sub>, b: seq<Sub>, event: Stored)
    ensures Told(a + b, event) == Told(a, event) + Told(b, event) && Told([], event) == []
  {
  }

  /** The callbacks subscribed, by slot. */
  function Subscribers(slots: seq<Slot>): seq<Sub> {
    if slots == [] then [] else (if slots[0].Taken? then [slots[0].sub] else []) + Subscribers(slots[1..])
  }

  lemma {:induction false} SnapshotHead(slots: seq<Slot>)
    requires slots != []
    ensures Snapshot(slots) == (if slots[0].Taken? then [slots[0].sub] else []) + Snapshot(slots[1..])
    decreases |slots|
  {
    var n := |slots| - 1;
    if n == 0 {
      assert slots[..0] == [] && slots[1..] == [];
    } else {
      SnapshotHead(slots[..n]);
      assert slots[..n][1..] == slots[1..][..n - 1] && slots[..n][0] == slots[0] && slots[1..][n - 1] == slots[n];
    }
  }

  lemma {:induction false} SnapshotFront(slots: seq<Slot>)
    ensures Snapshot(slots) == Subscribers(slots)
    decreases |slots|
  {
    hide Snapshot;
    if slots == [] {
      NoSnapshot();
    } else {
      SnapshotHead(slots);
      SnapshotFront(slots[1..]);
    }
  }

  lemma NoSnapshot()
    ensures Snapshot([]) == []
  {
  }

  /** There are eight slots, always. */
  lemma EightSlots(n: nat, es: seq<Event>)
    ensures |Run(Initial(n), es).hub.slots| == 8
  {
    hide InFlight;
    InitialInv(n);
    RunKeepsInv(Initial(n), es);
  }

  /** How many calls of its snapshot a publish has made. */
  function Made(a: Act): nat
    requires a.Publish?
  {
    a.next + if a.calling then 1 else 0
  }

  ghost predicate PublishingAt(s: State, t: nat, depth: nat) {
    && t < |s.threads| && depth < |s.threads[t]| && s.threads[t][depth].Publish?
    && Made(s.threads[t][depth]) <= |s.threads[t][depth].snapshot|
  }

  /** The publish goes on and is not left. */
  ghost predicate StaysIn(s: State, es: seq<Event>, t: nat, depth: nat)
    decreases |es|
  {
    && t < |s.threads| && depth < |s.threads[t]|
    && (es != [] ==> StaysIn(if Enabled(s, es[0]) then Step(s, es[0]) else s, es[1..], t, depth))
  }

  lemma CallsByMore(calls: seq<Call>, c: Call, t: nat, depth: nat)
    ensures CallsBy(calls + [c], t, depth) == CallsBy(calls, t, depth) + if c.thread == t && c.depth == depth then [(c.sub, c.event)] else []
  {
    assert (calls + [c])[..|calls|] == calls;
  }

  lemma StepDelivers(s: State, e: Event, t: nat, depth: nat)
    requires Inv(s) && PublishingAt(s, t, depth) && Enabled(s, e) && depth < |Step(s, e).threads[t]|
    ensures var u := Step(s, e);
      && PublishingAt(u, t, depth) && u.threads[t][depth].snapshot == s.threads[t][depth].snapshot
      && u.threads[t][depth].event == s.threads[t][depth].event
      && Made(s.threads[t][depth]) <= Made(u.threads[t][depth])
      && CallsBy(u.calls, t, depth)
         == CallsBy(s.calls, t, depth)
            + Told(s.threads[t][depth].snapshot[Made(s.threads[t][depth])..Made(u.threads[t][depth])], s.threads[t][depth].event)
  {
    hide CallsBy, InFlight, PublishesIn, Snapshot;
    var u, a := Step(s, e), s.threads[t][depth];
    if e.CallNext? {
      var stack := s.threads[e.t];
      var top := stack[|stack| - 1];
      CallsByMore(s.calls, Call(e.t, |stack| - 1, top.snapshot[top.next], top.event), t, depth);
      if e.t == t && depth == |stack| - 1 {
        assert a.snapshot[a.next..a.next + 1] == [a.snapshot[a.next]];
        assert Told([a.snapshot[a.next]], a.event) == [(a.snapshot[a.next], a.event)];
      } else {
        assert u.threads[t][depth] == a && Told(a.snapshot[Made(a)..Made(a)], a.event) == [];
      }
    } else {
      assert Made(u.threads[t][depth]) == Made(a) && Told(a.snapshot[Made(a)..Made(a)], a.event) == [];
    }
  }

  lemma {:induction false} RunDelivers(s: State, es: seq<Event>, t: nat, depth: nat)
    requires Inv(s) && PublishingAt(s, t, depth) && StaysIn(s, es, t, depth)
    ensures var u := Run(s, es);
      && PublishingAt(u, t, depth) && u.threads[t][depth].snapshot == s.threads[t][depth].snapshot
      && u.threads[t][depth].event == s.threads[t][depth].event
      && Made(s.threads[t][depth]) <= Made(u.threads[t][depth])
      && CallsBy(u.calls, t, depth)
         == CallsBy(s.calls, t, depth)
            + Told(s.threads[t][depth].snapshot[Made(s.threads[t][depth])..Made(u.threads[t][depth])], s.threads[t][depth].event)
    decreases |es|
  {
    hide Inv, Step, Enabled, CallsBy;
    var a := s.threads[t][depth];
    if es == [] {
      assert Told(a.snapshot[Made(a)..Made(a)], a.event) == [];
    } else {
      var m := if Enabled(s, es[0]) then Step(s, es[0]) else s;
      if Enabled(s, es[0]) {
        StepKeepsInv(s, es[0]);
        assert depth < |m.threads[t]| by {
          assert StaysIn(m, es[1..], t, depth);
        }
        StepDelivers(s, es[0], t, depth);
      } else {
        assert Told(a.snapshot[Made(a)..Made(a)], a.event) == [];
      }
      RunDelivers(m, es[1..], t, depth);
      var b, c := m.threads[t][depth], Run(m, es[1..]).threads[t][depth];
      assert a.snapshot[Made(a)..Made(b)] + a.snapshot[Made(b)..Made(c)] == a.snapshot[Made(a)..Made(c)];
      ToldMore(a.snapshot[Made(a)..Made(b)], a.snapshot[Made(b)..Made(c)], a.event);
    }
  }

  /** A publish calls every callback subscribed when it started, once each and in slot order, with its event,
      whatever other threads, and its own sinks, subscribe, unsubscribe or publish meanwhile. */
  lemma PublishDelivers(n: nat, before: seq<Event>, e: Event, during: seq<Event>)
    requires var s := Run(Initial(n), before);
      && Enabled(s, e) && e.StartPublish? && StaysIn(Step(s, e), during, e.t, |s.threads[e.t]|)
      && var u := Run(Step(s, e), during);
      && Enabled(u, EndPublish(e.t)) && |u.threads[e.t]| == |s.threads[e.t]| + 1
    ensures var s := Run(Initial(n), before); var u := Run(Step(s, e), during); var depth := |s.threads[e.t]|;
      CallsBy(u.calls, e.t, depth) == CallsBy(s.calls, e.t, depth) + Told(Subscribers(s.hub.slots), e.event)
  {
    hide Inv, InFlight, CallsBy, Snapshot, StaysIn, Subscribers;
    InitialInv(n);
    RunKeepsInv(Initial(n), before);
    var s := Run(Initial(n), before);
    SnapshotFront(s.hub.slots);
    StepKeepsInv(s, e);
    var depth := |s.threads[e.t]|;
    RunDelivers(Step(s, e), during, e.t, depth);
    var a := Step(s, e).threads[e.t][depth];
    assert a.snapshot[0..|a.snapshot|] == a.snapshot;
  }
}
