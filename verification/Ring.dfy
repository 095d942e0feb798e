/** A ring over a fixed number of places: `head` is the place of the next push, and the
    `count` most recent pushes are kept. */
module Ring {
  /** `x` on a ring of `cap` places. */
  function Wrap(x: nat, cap: nat): (r: nat)
    requires x < 2 * cap
    ensures r < cap
  {
    if x < cap then x else x - cap
  }

  lemma WrapIsMod(x: nat, cap: nat)
    requires x < 2 * cap
    ensures x % cap == Wrap(x, cap)
  {
  }

  function Place(cap: nat, head: nat, count: nat, i: nat): nat
    requires head < cap && i < count <= cap
  {
    Wrap(head + cap - count + i, cap)
  }

  /** What the ring holds, oldest first. */
  function Held<T>(a: seq<T>, head: nat, count: nat): (r: seq<T>)
    requires head < |a| && count <= |a|
    ensures |r| == count
  {
    seq(count, i requires 0 <= i < count => a[Place(|a|, head, count, i)])
  }

  /** The last `n` of a list, or all of it. */
  function Last<T>(s: seq<T>, n: nat): (r: seq<T>)
    ensures |r| == if |s| <= n then |s| else n
  {
    if |s| <= n then s else s[|s| - n..]
  }

  /** A push keeps the ring equal to the last pushes of the list of all. */
  lemma PushKeepsLast<T>(a: seq<T>, head: nat, count: nat, all: seq<T>, v: T)
    requires head < |a| && count <= |a| && Held(a, head, count) == Last(all, |a|)
    ensures var cap := |a|;
      Held(a[head := v], Wrap(head + 1, cap), if count == cap then cap else count + 1) == Last(all + [v], cap)
  {
    var cap := |a|;
    var count' := if count == cap then cap else count + 1;
    var b, head' := a[head := v], Wrap(head + 1, cap);
    var was, now := Held(a, head, count), Held(b, head', count');
    var want := Last(all + [v], cap);
    assert |now| == |want|;
    forall i | 0 <= i < count'
      ensures now[i] == want[i]
    {
      if i == count' - 1 {
        assert Place(cap, head', count', i) == head;
      } else {
        var j := i + count - count' + 1;
        assert Place(cap, head', count', i) == Place(cap, head, count, j) != head;
        assert now[i] == was[j];
      }
    }
  }

  /** Pushes `v`, over the oldest entry when the ring is full. */
  method Push<T>(a: array<T>, head: nat, count: nat, v: T, ghost all: seq<T>) returns (head': nat, count': nat)
    requires head < a.Length && count <= a.Length && Held(a[..], head, count) == Last(all, a.Length)
    modifies a
    ensures head' < a.Length && count' <= a.Length && Held(a[..], head', count') == Last(all + [v], a.Length)
  {
    PushKeepsLast(a[..], head, count, all, v);
    WrapIsMod(head + 1, a.Length);
    ghost var was := a[..];
    count' := if count == a.Length then count else count + 1;
    a[head] := v;
    assert a[..] == was[head := v];
    head' := (head + 1) % a.Length;
  }

  lemma LastOfShort<T>(s: seq<T>, n: nat)
    requires |s| <= n
    ensures Last(s, n) == s
  {
  }

  /** The entry `i` places before the newest. */
  lemma NewestAt<T>(a: seq<T>, head: nat, count: nat, all: seq<T>, i: nat)
    requires head < |a| && i < count <= |a| && Held(a, head, count) == Last(all, |a|)
    ensures i < |all| && a[Wrap(head + |a| - 1 - i, |a|)] == all[|all| - 1 - i]
  {
    assert Place(|a|, head, count, count - 1 - i) == Wrap(head + |a| - 1 - i, |a|);
    assert Held(a, head, count)[count - 1 - i] == Last(all, |a|)[count - 1 - i];
  }

  lemma HeldCount<T>(a: seq<T>, head: nat, count: nat, all: seq<T>)
    requires head < |a| && count <= |a| && Held(a, head, count) == Last(all, |a|)
    ensures count == if |all| <= |a| then |all| else |a|
  {
  }
}
