/** The order in which segments get their index slots. Chunks are handed out when a segment is
    started, slots with its first frame, so writers that share a disk may get them in another
    order: but only as far as the number of writers lets them. */
module SlotOrder {
  import opened FiniteSets

  /** `slots` lists segment numbers in the order of their slots; `beside[k]` holds the segments
      that were open on the disk when segment `k` was started. */
  datatype Order = Order(slots: seq<nat>, beside: seq<set<nat>>)

  /** No segment has two slots. */
  ghost predicate Distinct(o: Order) {
    forall q, r :: 0 <= q < r < |o.slots| ==> o.slots[q] != o.slots[r]
  }

  /** `open` are the segments still being written, out of `n`; a segment is overtaken only by
      segments that were open beside it. */
  ghost predicate Ordered(n: nat, open: set<nat>, writers: nat, o: Order) {
    && |o.beside| == n
    && (forall r :: 0 <= r < |o.slots| ==> o.slots[r] < n)
    && Distinct(o)
    && (forall k :: 0 <= k < n ==> |o.beside[k]| < writers)
    && (forall j, k :: 0 <= j < k < n && j in open ==> j in o.beside[k])
    && (forall q, r :: 0 <= q < r < |o.slots| && o.slots[r] < o.slots[q] ==> o.slots[r] in o.beside[o.slots[q]])
  }

  function Started(o: Order, open: set<nat>, n: nat): Order { o.(beside := o.beside + [open - {n}]) }

  function Appended(o: Order, k: nat): Order { o.(slots := o.slots + [k]) }

  /** A start: the new segment is open, and of the others those that were. */
  lemma StartOrdered(n: nat, open: set<nat>, open': set<nat>, writers: nat, o: Order)
    requires Ordered(n, open, writers, o)
    requires open' <= open + {n} && n in open' && |open'| <= writers
    ensures Ordered(n + 1, open', writers, Started(o, open', n))
  {
  }

  /** A first frame: the slot of an open segment comes behind all others. */
  lemma AppendOrdered(n: nat, open: set<nat>, writers: nat, o: Order, k: nat)
    requires Ordered(n, open, writers, o) && k < n && k in open && k !in o.slots
    ensures Ordered(n, open, writers, Appended(o, k))
  {
  }

  lemma CloseOrdered(n: nat, open: set<nat>, open': set<nat>, writers: nat, o: Order)
    requires Ordered(n, open, writers, o) && open' <= open
    ensures Ordered(n, open', writers, o)
  {
  }

  // ---- how far slots can be apart ----

  function Behind(o: Order, r: nat): set<nat> { set q | r < q < |o.slots| :: o.slots[q] }

  lemma {:induction false} BehindSize(o: Order, r: nat)
    requires r < |o.slots| && forall p, q :: 0 <= p < q < |o.slots| ==> o.slots[p] != o.slots[q]
    ensures |Behind(o, r)| == |o.slots| - 1 - r
    decreases |o.slots| - r
  {
    if r + 1 < |o.slots| {
      BehindSize(o, r + 1);
      assert Behind(o, r) == Behind(o, r + 1) + {o.slots[r + 1]};
    } else {
      assert Behind(o, r) == {};
    }
  }

  /** The numbers above `k` and below `n`. */
  function Above(k: nat, n: nat): (s: set<nat>)
    ensures forall j: nat :: j in s <==> k < j < n
  {
    if n <= k + 1 then {} else Above(k, n - 1) + {n - 1}
  }

  lemma {:induction false} AboveSize(k: nat, n: nat)
    requires k < n
    ensures |Above(k, n)| == n - 1 - k
  {
    if k + 1 < n {
      AboveSize(k, n - 1);
      var below := Above(k, n - 1);
      hide Above;
      assert n - 1 !in below && |below| == n - 2 - k;
      assert |below + {n - 1}| == |below| + 1;
    }
  }

  /** Behind the slot of a segment come at most the slots of the segments started after it and
      of those other writers had open. */
  lemma SlotsBehind(n: nat, open: set<nat>, writers: nat, o: Order, r: nat)
    requires Ordered(n, open, writers, o) && r < |o.slots|
    ensures |o.slots| - r <= n - o.slots[r] + writers - 1
  {
    var k := o.slots[r];
    BehindSize(o, r);
    AboveSize(k, n);
    assert Behind(o, r) <= o.beside[k] + Above(k, n);
    SubsetSize(Behind(o, r), o.beside[k] + Above(k, n));
  }

  /** One less while an open segment still waits for its slot. */
  lemma SlotsBehindWaiting(n: nat, open: set<nat>, writers: nat, o: Order, r: nat, k: nat)
    requires Ordered(n, open, writers, o) && r < |o.slots| && k < n && k in open && k !in o.slots
    ensures |o.slots| - r < n - o.slots[r] + writers - 1
  {
    AppendOrdered(n, open, writers, o, k);
    SlotsBehind(n, open, writers, Appended(o, k), r);
  }

  /** With one writer the slot of the open segment is the last one. */
  lemma AloneIsLast(n: nat, open: set<nat>, o: Order, r: nat)
    requires Ordered(n, open, 1, o) && r < |o.slots| && o.slots[r] in open
    ensures r == |o.slots| - 1 && o.slots[r] == n - 1
  {
    var k := o.slots[r];
    if k + 1 < n {
      MemberCounts(o.beside[k + 1], k);
    }
    SlotsBehind(n, open, 1, o, r);
  }
}
