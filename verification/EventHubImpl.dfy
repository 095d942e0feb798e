/** The hub object: each method is one critical section, with the lock held throughout. */
module EventHubImpl {
  import opened Ring
  import opened EventHub

  class HubObject {
    const sinks: array<Slot>
    const store: array<Stored>
    var storeCount: nat
    var storeHead: nat
    var publishing: int
    ghost var stored: seq<Stored>

    ghost predicate Valid()
      reads this, sinks, store
    {
      && sinks.Length == MAX_SINKS && store.Length == STORE_SIZE
      && storeHead < STORE_SIZE && storeCount <= STORE_SIZE
      && Held(store[..], storeHead, storeCount) == Last(stored, STORE_SIZE)
    }

    ghost function Value(): Hub
      reads this, sinks
    {
      Hub(sinks[..], stored, publishing)
    }

    constructor ()
      ensures Valid() && Value() == EMPTY_HUB && fresh(sinks) && fresh(store)
    {
      sinks := new Slot[MAX_SINKS](_ => Free);
      store := new Stored[STORE_SIZE](_ => Stored(0, 0, 0));
      storeCount, storeHead, publishing := 0, 0, 0;
      stored := [];
      new;
      assert sinks[..] == EMPTY_HUB.slots;
    }

    /** Takes the first free slot; -1 when there is none. */
    method AddSink(sub: Sub) returns (slot: int)
      requires Valid()
      modifies sinks
      ensures Valid() && Value() == Subscribed(old(Value()), sub)
      ensures slot == -1 <==> Free !in old(sinks[..])
      ensures slot != -1 ==> 0 <= slot < 8 && old(sinks[slot]) == Free && sinks[slot] == Taken(sub) && forall j :: 0 <= j < slot ==> old(sinks[j]).Taken?
    {
      ghost var slots := sinks[..];
      assert slots[0..] == slots;
      var i := 0;
      while i < MAX_SINKS
        invariant 0 <= i <= MAX_SINKS && sinks[..] == slots
        invariant FirstFree(slots) == i + FirstFree(slots[i..]) && forall j :: 0 <= j < i ==> slots[j].Taken?
      {
        if sinks[i].Free? {
          sinks[i] := Taken(sub);
          assert sinks[..] == slots[i := Taken(sub)];
          return i;
        }
        assert slots[i..][1..] == slots[i + 1..];
        i := i + 1;
      }
      slot := -1;
    }

    /** Clears a slot, whoever holds it by now; the barrier is passed at once when nothing is in flight. */
    method ClearSink(slot: nat) returns (drained: bool)
      requires Valid() && slot < MAX_SINKS
      modifies sinks
      ensures Valid() && Value() == Cleared(old(Value()), slot) && drained == (publishing <= 0)
    {
      ghost var slots := sinks[..];
      sinks[slot] := Free;
      assert sinks[..] == slots[slot := Free];
      drained := publishing <= 0;
    }

    /** The first critical section of a publish. */
    method Enter(event: Stored) returns (snapshot: array<Sub>, count: nat)
      requires Valid()
      modifies `storeCount, `storeHead, `publishing, `stored, store
      ensures Valid() && Value() == Entered(old(Value()), event)
      ensures fresh(snapshot) && count <= snapshot.Length && snapshot[..count] == Snapshot(old(sinks[..]))
    {
      ghost var all := stored;
      storeHead, storeCount := Ring.Push(store, storeHead, storeCount, event, all);
      stored := stored + [event];
      snapshot, count := TakeSnapshot();
      publishing := publishing + 1;
    }

    method TakeSnapshot() returns (snapshot: array<Sub>, count: nat)
      requires Valid()
      ensures fresh(snapshot) && count <= snapshot.Length && snapshot[..count] == Snapshot(sinks[..])
    {
      hide Held, Last;
      snapshot := new Sub[MAX_SINKS];
      count := 0;
      var i := 0;
      while i < MAX_SINKS
        invariant 0 <= i <= MAX_SINKS && count <= i
        invariant snapshot[..count] == Snapshot(sinks[..][..i])
      {
        assert sinks[..][..i + 1][..i] == sinks[..][..i];
        if sinks[i].Taken? {
          snapshot[count] := sinks[i].sub;
          count := count + 1;
        }
        i := i + 1;
      }
      assert sinks[..][..i] == sinks[..];
    }

    /** The last critical section of a publish. */
    method Leave()
      requires Valid()
      modifies `publishing
      ensures Valid() && Value() == Left(old(Value()))
    {
      publishing := publishing - 1;
    }

    /** The most recent events, newest first. */
    method Recent(out: array<Stored>, max: nat) returns (written: nat)
      requires Valid() && max <= out.Length && out != store
      modifies out
      ensures var n := if |stored| < 64 then |stored| else 64; written == if n < max then n else max
      ensures forall i :: 0 <= i < written ==> out[i] == stored[|stored| - 1 - i]
    {
      hide Held, Last;
      HeldCount(store[..], storeHead, storeCount, stored);
      written := 0;
      var i := 0;
      while i < storeCount && written < max
        invariant 0 <= i == written <= storeCount && written <= max && store[..] == old(store[..])
        invariant forall j :: 0 <= j < written ==> out[j] == stored[|stored| - 1 - j]
      {
        NewestAt(store[..], storeHead, storeCount, stored, i);
        out[written] := store[(storeHead + STORE_SIZE - 1 - i) % STORE_SIZE];
        written, i := written + 1, i + 1;
      }
    }
  }
}
