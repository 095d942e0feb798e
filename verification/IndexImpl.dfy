/** The index operations on a device, slot by slot. */
module IndexImpl {
  import opened Bytes
  import opened RecorderFormat
  import opened StorageDev
  import opened Index
  import opened Device

  method ReadSlot(d: Device, i: nat) returns (s: Slot)
    ensures s == SlotAt(d.State(), i)
  {
    hide DecodeSlot, Read;
    var buf := d.PRead(d.st.indexStartSec * SEC + i * SLOT_SIZE, SLOT_SIZE);
    s := DecodeSlot(buf[..]);
  }

  method StoreSlot(d: Device, i: nat, s: Slot)
    modifies d.disk
    ensures d.State() == PutSlot(old(d.State()), i, s)
  {
    d.PWrite(d.st.indexStartSec * SEC + i * SLOT_SIZE, EncodeSlot(s));
  }

  /** The backward scan for a live slot of the segment. */
  method Search(d: Device, segId: u32) returns (r: SlotSearch)
    requires d.st.slotCount > 0
    ensures r == FindSlot(d.State(), segId, 1)
  {
    hide SlotAt;
    var n := d.st.slotCount;
    var scan := if n < SCAN_LIMIT then n else SCAN_LIMIT;
    var k := 1;
    while k <= scan
      invariant 1 <= k <= scan + 1
      invariant FindSlot(d.State(), segId, 1) == FindSlot(d.State(), segId, k)
    {
      var i := (d.st.indexNext + n - k) % n;
      var cur := ReadSlot(d, i);
      if (IsValid(cur) || IsOpen(cur)) && cur.segId == segId {
        return Found(i);
      }
      if cur.flags == 0 && cur.segId == 0 {
        return Absent;
      }
      k := k + 1;
    }
    r := Absent;
  }

  method WriteIndex(d: Device, input: Slot)
    requires d.st.slotCount > 0
    modifies d`sb, d`st, d.disk
    ensures d.State() == Index.WriteIndex(old(d.State()), input)
  {
    hide FindSlot, Flush, Write;
    var s := input.(crc := d.prims.crc(EncodeSlot(input.(crc := 0))));
    var r := Search(d, input.segId);
    match r {
      case Found(i) =>
        StoreSlot(d, i, s);
      case Absent =>
        StoreSlot(d, d.st.indexNext, s);
        d.st := d.st.(indexNext := (d.st.indexNext + 1) % d.st.slotCount);
        d.Flush();
    }
  }

  method InvalidateChunk(d: Device, chunk: nat) returns (cleared: nat)
    modifies d.disk
    ensures d.State() == Invalidate(old(d.State()), chunk, 0)
  {
    cleared := 0;
    var i := 0;
    while i < d.st.slotCount
      invariant 0 <= i <= d.st.slotCount
      invariant Invalidate(d.State(), chunk, i) == Invalidate(old(d.State()), chunk, 0)
    {
      var s := ReadSlot(d, i);
      if (IsValid(s) || IsOpen(s)) && s.startChunk == chunk {
        var gone := s.(flags := 0);
        gone := gone.(crc := d.prims.crc(EncodeSlot(gone.(crc := 0))));
        StoreSlot(d, i, gone);
        cleared := cleared + 1;
      }
      i := i + 1;
    }
  }

  // ---- query ----

  predicate Earlier(x: Slot, y: Slot) { x.startTime <= y.startTime }

  ghost predicate Sorted(s: seq<Slot>) { forall i, j :: 0 <= i < j < |s| ==> Earlier(s[i], s[j]) }

  lemma SwapPermutes(s: seq<Slot>, i: nat, j: nat)
    requires i < |s| && j < |s|
    ensures multiset(s[i := s[j]][j := s[i]]) == multiset(s)
  {
  }

  lemma Exchanged(s: seq<Slot>, t: seq<Slot>, i: nat, j: nat)
    requires i < |s| == |t| && j < |s| && t[i] == s[j] && t[j] == s[i]
    requires forall x :: 0 <= x < |s| && x != i && x != j ==> t[x] == s[x]
    ensures multiset(t) == multiset(s)
  {
    SwapPermutes(s, i, j);
    assert t == s[i := s[j]][j := s[i]];
  }

  /** No slot of the first `i` from `lo` on comes later than one behind it. */
  ghost predicate Placed(a: array<Slot>, lo: nat, i: nat, n: nat)
    requires lo + n <= a.Length
    reads a
  {
    forall x, y :: lo <= x < i && x < y < lo + n ==> Earlier(a[x], a[y])
  }

  /** The exchange sort by start time of the `n` slots from `lo` on. */
  method SortByStart(a: array<Slot>, lo: nat, n: nat)
    requires lo + n <= a.Length
    modifies a
    ensures Sorted(a[lo..lo + n]) && multiset(a[lo..lo + n]) == multiset(old(a[lo..lo + n]))
    ensures a[..lo] == old(a[..lo]) && a[lo + n..] == old(a[lo + n..])
  {
    for i := lo to lo + n
      invariant multiset(a[lo..lo + n]) == multiset(old(a[lo..lo + n])) && Placed(a, lo, i, n)
      invariant forall x :: 0 <= x < lo || lo + n <= x < a.Length ==> a[x] == old(a[x])
    {
      PlaceNext(a, lo, n, i);
    }
  }

  /** The earliest of the slots from `i` on comes to stand at `i`. */
  method PlaceNext(a: array<Slot>, lo: nat, n: nat, i: nat)
    requires lo <= i < lo + n <= a.Length && Placed(a, lo, i, n)
    modifies a
    ensures Placed(a, lo, i + 1, n) && multiset(a[lo..lo + n]) == multiset(old(a[lo..lo + n]))
    ensures forall x :: 0 <= x < lo || lo + n <= x < a.Length ==> a[x] == old(a[x])
  {
    for b := i + 1 to lo + n
      invariant multiset(a[lo..lo + n]) == multiset(old(a[lo..lo + n])) && Placed(a, lo, i, n)
      invariant forall y :: i < y < b ==> Earlier(a[i], a[y])
      invariant forall x :: 0 <= x < lo || lo + n <= x < a.Length ==> a[x] == old(a[x])
    {
      if a[b].startTime < a[i].startTime {
        Exchange(a, lo, n, i, b);
      }
    }
  }

  method Exchange(a: array<Slot>, lo: nat, n: nat, i: nat, j: nat)
    requires lo <= i < j < lo + n <= a.Length
    modifies a
    ensures a[i] == old(a[j]) && a[j] == old(a[i])
    ensures forall x :: 0 <= x < a.Length && x != i && x != j ==> a[x] == old(a[x])
    ensures multiset(a[lo..lo + n]) == multiset(old(a[lo..lo + n]))
  {
    ghost var s := a[lo..lo + n];
    a[i], a[j] := a[j], a[i];
    Exchanged(s, a[lo..lo + n], i - lo, j - lo);
  }

  method Append(out: array<Slot>, base: nat, found: nat, s: Slot)
    requires base + found < out.Length
    modifies out
    ensures out[base..base + found + 1] == old(out[base..base + found]) + [s] && out[..base] == old(out[..base])
  {
    ghost var before := out[base..base + found];
    out[base + found] := s;
    assert out[base..base + found] == before;
    assert out[base..base + found + 1] == out[base..base + found] + [s];
  }

  /** The answers `done` are those of the slots before `i`; the rest give the remaining ones of `all`. */
  ghost predicate Scanned(done: seq<Slot>, d: Dev, q: Filter, i: nat, cap: nat, all: seq<Slot>) {
    done + Collect(d, q, i, cap) == all
  }

  lemma ScanStarts(done: seq<Slot>, d: Dev, q: Filter, cap: nat)
    requires done == []
    ensures Scanned(done, d, q, 0, cap, Collect(d, q, 0, cap))
  {
    hide Collect;
  }

  lemma ScanStep(done: seq<Slot>, d: Dev, q: Filter, i: nat, cap: nat, all: seq<Slot>)
    requires i < SlotCount(d) && cap > 0 && Scanned(done, d, q, i, cap, all)
    ensures if Matches(d.prims, SlotAt(d, i), q) then Scanned(done + [SlotAt(d, i)], d, q, i + 1, cap - 1, all)
      else Scanned(done, d, q, i + 1, cap, all)
  {
    hide Matches, SlotAt;
    var s, rest := SlotAt(d, i), Collect(d, q, i + 1, cap - 1);
    assert done + ([s] + rest) == done + [s] + rest;
  }

  lemma ScanEnds(done: seq<Slot>, d: Dev, q: Filter, i: nat, cap: nat, all: seq<Slot>)
    requires (i >= SlotCount(d) || cap == 0) && Scanned(done, d, q, i, cap, all)
    ensures done == all
  {
  }

  /** Matching slots in slot order, as many as fit. */
  method Gather(d: Device, q: Filter, out: array<Slot>, base: nat, cap: nat) returns (found: nat)
    requires base + cap <= out.Length
    modifies out
    ensures found <= cap && out[base..base + found] == Collect(d.State(), q, 0, cap)
    ensures out[..base] == old(out[..base])
  {
    hide Matches, SlotAt, Collect, Scanned;
    var t1 := if q.t1 == 0 then U32_MAX else q.t1;
    found := 0;
    var i := 0;
    ghost var st := d.State();
    ghost var all := Collect(st, q, 0, cap);
    ghost var head := out[..base];
    ScanStarts(out[base..base], st, q, cap);
    while i < d.st.slotCount && found < cap
      invariant 0 <= i <= d.st.slotCount && found <= cap && d.State() == st
      invariant Scanned(out[base..base + found], st, q, i, cap - found, all)
      invariant out[..base] == head
    {
      var s := ReadSlot(d, i);
      var hit := Wanted(d, s, q, t1);
      ScanStep(out[base..base + found], st, q, i, cap - found, all);
      if hit {
        Append(out, base, found, s);
        found := found + 1;
      }
      i := i + 1;
    }
    ScanEnds(out[base..base + found], st, q, i, cap - found, all);
  }

  method Wanted(d: Device, s: Slot, q: Filter, t1: u32) returns (hit: bool)
    requires t1 == LastTime(q)
    ensures hit <==> Matches(d.prims, s, q)
  {
    if !IsValid(s) {
      return false;
    }
    if d.prims.crc(EncodeSlot(s.(crc := 0))) != s.crc {
      return false;
    }
    var e := if s.endTime == U32_MAX then t1 else s.endTime;
    if e < q.t0 || s.startTime > t1 {
      return false;
    }
    if q.chn >= 0 && s.chn != q.chn {
      return false;
    }
    hit := !(q.rectype >= 0 && s.rectype != q.rectype);
  }

  /** The answer to a query, in `out` from `base` on: matching slots by start time. */
  method Query(d: Device, q: Filter, out: array<Slot>, base: nat, cap: nat) returns (found: nat)
    requires base + cap <= out.Length
    modifies out
    ensures found <= cap && Sorted(out[base..base + found])
    ensures multiset(out[base..base + found]) == multiset(Collect(d.State(), q, 0, cap))
    ensures found == |Collect(d.State(), q, 0, cap)| && out[..base] == old(out[..base])
  {
    hide Collect;
    found := Gather(d, q, out, base, cap);
    assert |out[base..base + found]| == found;
    SortByStart(out, base, found);
  }

  datatype EarliestResult = NoneStored | Earliest(epoch: u32)

  /** The least start time of a valid slot. */
  method FindEarliest(d: Device) returns (r: EarliestResult)
    ensures r.NoneStored? <==> forall i :: 0 <= i < SlotCount(d.State()) && IsValid(SlotAt(d.State(), i)) ==> SlotAt(d.State(), i).startTime == U32_MAX
    ensures r.Earliest? ==> exists i :: 0 <= i < SlotCount(d.State()) && IsValid(SlotAt(d.State(), i)) && SlotAt(d.State(), i).startTime == r.epoch
    ensures r.Earliest? ==> forall i :: 0 <= i < SlotCount(d.State()) && IsValid(SlotAt(d.State(), i)) ==> r.epoch <= SlotAt(d.State(), i).startTime
  {
    hide SlotAt;
    var best: u32, any := U32_MAX, false;
    var i := 0;
    while i < d.st.slotCount
      invariant 0 <= i <= d.st.slotCount
      invariant !any ==> best == U32_MAX
      invariant any ==> best < U32_MAX && exists j :: 0 <= j < i && IsValid(SlotAt(d.State(), j)) && SlotAt(d.State(), j).startTime == best
      invariant forall j :: 0 <= j < i && IsValid(SlotAt(d.State(), j)) ==> best <= SlotAt(d.State(), j).startTime
    {
      var s := ReadSlot(d, i);
      if IsValid(s) && s.startTime < best {
        best, any := s.startTime, true;
      }
      i := i + 1;
    }
    r := if any then Earliest(best) else NoneStored;
  }
}
