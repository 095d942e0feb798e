/** The ring of index slots: upsert, invalidation of a recycled chunk, query. */
module Index {
  import opened Bytes
  import opened RecorderFormat
  import opened StorageDev

  const VALID_BIT: u8 := 1
  const EVENT_BIT: u8 := 2
  const OPEN_BIT: u8 := 4
  const SCAN_LIMIT: nat := 8192

  predicate IsValid(s: Slot) { s.flags % 2 == 1 }

  predicate IsOpen(s: Slot) { s.flags / 4 % 2 == 1 }

  predicate Flagged(s: Slot) { IsValid(s) || IsOpen(s) }

  function SlotCount(d: Dev): nat { d.st.slotCount }

  function SlotOff(d: Dev, i: nat): nat { IndexStart(d) + i * SLOT_SIZE }

  function SlotAt(d: Dev, i: nat): Slot { DecodeSlot(Read(d.disk, SlotOff(d, i), SLOT_SIZE)) }

  function PutSlot(d: Dev, i: nat, s: Slot): Dev { d.(disk := Write(d.disk, SlotOff(d, i), EncodeSlot(s))) }

  function SlotCrc(p: Prims, s: Slot): u32 { p.crc(EncodeSlot(s.(crc := 0))) }

  function SealSlot(p: Prims, s: Slot): Slot { s.(crc := SlotCrc(p, s)) }

  /** Tables, index area and data area follow each other and lie on the disk; the sizes
      are such that the 32-bit offset arithmetic of the writer does not wrap. */
  ghost predicate GeoOk(d: Dev) {
    && TABLES_END <= IndexStart(d)
    && IndexStart(d) + SlotCount(d) * SLOT_SIZE <= DataStart(d)
    && d.sb.metaChunkCount <= d.sb.chunkCount
    && DataStart(d) + DataChunks(d) * ChunkBytes(d) <= |d.disk|
    && ChunkBytes(d) % FRAME_ALIGN == 0 && 0 < ChunkBytes(d) < 0x8000_0000
    && 0 < SlotCount(d) < 0x8000_0000 && d.st.indexNext < SlotCount(d)
  }

  /** Same ring position and sizes. */
  predicate SameRing(d: Dev, e: Dev) {
    && e.sb.writePtrChunk == d.sb.writePtrChunk && e.sb.chunkCount == d.sb.chunkCount
    && e.sb.metaChunkCount == d.sb.metaChunkCount && e.st.slotCount == d.st.slotCount
  }

  // ---- upsert ----

  datatype SlotSearch = Absent | Found(pos: nat)

  /** The position `k` appends back on the ring. */
  function Back(d: Dev, k: nat): nat
    requires SlotCount(d) > 0 && k <= SlotCount(d)
  {
    (d.st.indexNext + SlotCount(d) - k) % SlotCount(d)
  }

  function ScanLength(d: Dev): nat { if SlotCount(d) < SCAN_LIMIT then SlotCount(d) else SCAN_LIMIT }

  /** Searches backwards from the most recent append for a live slot of the segment. */
  function FindSlot(d: Dev, segId: u32, k: nat): SlotSearch
    requires SlotCount(d) > 0
    decreases ScanLength(d) + 1 - k
  {
    if k > ScanLength(d) then Absent
    else
      var i := Back(d, k);
      var cur := SlotAt(d, i);
      if Flagged(cur) && cur.segId == segId then Found(i)
      else if cur.flags == 0 && cur.segId == 0 then Absent
      else FindSlot(d, segId, k + 1)
  }

  function Append(d: Dev, s: Slot): (e: Dev)
    requires SlotCount(d) > 0
    ensures SameRing(d, e)
  {
    var n := SlotCount(d);
    var put := PutSlot(d, d.st.indexNext, s);
    Flush(put.(st := put.st.(indexNext := (d.st.indexNext + 1) % n)))
  }

  function WriteIndex(d: Dev, s: Slot): (e: Dev)
    requires SlotCount(d) > 0
    ensures SameRing(d, e)
  {
    match FindSlot(d, s.segId, 1)
    case Found(i) => PutSlot(d, i, SealSlot(d.prims, s))
    case Absent => Append(d, SealSlot(d.prims, s))
  }

  // ---- invalidation ----

  function Cleared(p: Prims, s: Slot): Slot { SealSlot(p, s.(flags := 0)) }

  predicate Claims(s: Slot, chunk: nat) { Flagged(s) && s.startChunk == chunk }

  function Invalidate(d: Dev, chunk: nat, i: nat): (e: Dev)
    ensures e.sb == d.sb && e.st == d.st
    decreases SlotCount(d) - i
  {
    if i >= SlotCount(d) then d
    else
      var s := SlotAt(d, i);
      Invalidate(if Claims(s, chunk) then PutSlot(d, i, Cleared(d.prims, s)) else d, chunk, i + 1)
  }

  // ---- query ----

  datatype Filter = Filter(t0: u32, t1: u32, chn: int, rectype: int)

  function LastTime(q: Filter): u32 { if q.t1 == 0 then U32_MAX else q.t1 }

  predicate Matches(p: Prims, s: Slot, q: Filter) {
    && IsValid(s)
    && SlotCrc(p, s) == s.crc
    && (if s.endTime == U32_MAX then LastTime(q) else s.endTime) >= q.t0
    && s.startTime <= LastTime(q)
    && (q.chn >= 0 ==> s.chn == q.chn)
    && (q.rectype >= 0 ==> s.rectype == q.rectype)
  }

  /** The first `cap` matching slots from position `i` on, in slot order. */
  function Collect(d: Dev, q: Filter, i: nat, cap: nat): (r: seq<Slot>)
    ensures |r| <= cap
    decreases SlotCount(d) - i
  {
    if i >= SlotCount(d) || cap == 0 then []
    else if Matches(d.prims, SlotAt(d, i), q) then [SlotAt(d, i)] + Collect(d, q, i + 1, cap - 1)
    else Collect(d, q, i + 1, cap)
  }

  // ---- what these operations leave alone ----

  /** Same device but for the index ring position and the disk image. */
  ghost predicate SameDevice(d: Dev, e: Dev) {
    && e.prims == d.prims && e.dek == d.dek && |e.disk| == |d.disk|
    && e.sb.(crc := 0) == d.sb.(crc := 0)
    && e.st.(crc := 0, indexNext := 0) == d.st.(crc := 0, indexNext := 0)
  }

  /** Slots lie on the disk and apart from each other. */
  lemma SlotsApart(d: Dev, i: nat, j: nat)
    requires GeoOk(d) && i < SlotCount(d) && j < SlotCount(d)
    ensures SlotOff(d, i) + SLOT_SIZE <= |d.disk|
    ensures i != j ==> SlotOff(d, j) + SLOT_SIZE <= SlotOff(d, i) || SlotOff(d, i) + SLOT_SIZE <= SlotOff(d, j)
  {
    hide DataChunks, ChunkBytes;
    assert DataChunks(d) * ChunkBytes(d) >= 0;
  }

  lemma PutSlotAt(d: Dev, i: nat, s: Slot, j: nat)
    requires GeoOk(d) && i < SlotCount(d) && j < SlotCount(d)
    ensures SlotAt(PutSlot(d, i, s), j) == if i == j then s else SlotAt(d, j)
  {
    hide DecodeSlot, EncodeSlot, GeoOk, Read, Write;
    SlotsApart(d, i, j);
    SamePlace(d, i, s, j);
    if i == j {
      ReadBack(d.disk, SlotOff(d, i), EncodeSlot(s));
      SlotRoundTrip(s);
    } else {
      ReadElsewhere(d.disk, SlotOff(d, i), EncodeSlot(s), SlotOff(d, j), SLOT_SIZE);
    }
  }

  lemma SamePlace(d: Dev, i: nat, s: Slot, j: nat)
    ensures SlotOff(PutSlot(d, i, s), j) == SlotOff(d, j)
  {
    hide EncodeSlot, Write;
  }

  lemma PutSlotKeepsData(d: Dev, i: nat, s: Slot, off: nat, n: nat)
    requires GeoOk(d) && i < SlotCount(d) && DataStart(d) <= off
    ensures Read(PutSlot(d, i, s).disk, off, n) == Read(d.disk, off, n)
  {
    hide DecodeSlot, EncodeSlot;
    ReadElsewhere(d.disk, SlotOff(d, i), EncodeSlot(s), off, n);
  }

  lemma FlushKeeps(d: Dev, off: nat, n: nat)
    requires TABLES_END <= off
    ensures Read(Flush(d).disk, off, n) == Read(d.disk, off, n)
  {
    hide DecodeSlot, EncodeSlot, WriteTables, SealSb, SealSt;
    WriteTablesKeeps(d.disk, Flush(d).sb, Flush(d).st, off, n);
  }

  lemma FlushSlotAt(d: Dev, j: nat)
    requires GeoOk(d)
    ensures SlotAt(Flush(d), j) == SlotAt(d, j)
    ensures GeoOk(Flush(d)) && SameDevice(d, Flush(d)) && Flush(d).st.indexNext == d.st.indexNext
  {
    hide DecodeSlot, EncodeSlot, EncodeSb, EncodeSt, Read, WriteTables;
    FlushKeeps(d, SlotOff(d, j), SLOT_SIZE);
  }

  lemma AppendAt(d: Dev, s: Slot, j: nat)
    requires GeoOk(d) && j < SlotCount(d)
    ensures SlotAt(Append(d, s), j) == if j == d.st.indexNext then s else SlotAt(d, j)
    ensures GeoOk(Append(d, s)) && SameDevice(d, Append(d, s))
    ensures Append(d, s).st.indexNext == (d.st.indexNext + 1) % SlotCount(d)
  {
    hide DecodeSlot, EncodeSlot, Read, Write, Flush;
    var n := SlotCount(d);
    var put := PutSlot(d, d.st.indexNext, s);
    var moved := put.(st := put.st.(indexNext := (d.st.indexNext + 1) % n));
    PutSlotAt(d, d.st.indexNext, s, j);
    assert SlotAt(moved, j) == SlotAt(put, j);
    FlushSlotAt(moved, j);
  }

  lemma AppendKeepsData(d: Dev, s: Slot, off: nat, n: nat)
    requires GeoOk(d) && DataStart(d) <= off
    ensures Read(Append(d, s).disk, off, n) == Read(d.disk, off, n)
  {
    hide DecodeSlot, EncodeSlot, Read, Write, Flush, SlotAt;
    var put := PutSlot(d, d.st.indexNext, s);
    var moved := put.(st := put.st.(indexNext := (d.st.indexNext + 1) % SlotCount(d)));
    PutSlotKeepsData(d, d.st.indexNext, s, off, n);
    FlushKeeps(moved, off, n);
  }

  /** Where an index write lands. */
  function WritePos(d: Dev, s: Slot): (i: nat)
    requires SlotCount(d) > 0
  {
    match FindSlot(d, s.segId, 1)
    case Found(i) => i
    case Absent => d.st.indexNext
  }

  lemma {:induction false} FindSlotSound(d: Dev, segId: u32, k: nat)
    requires SlotCount(d) > 0
    ensures var r := FindSlot(d, segId, k);
      r.Found? ==> r.pos < SlotCount(d) && Flagged(SlotAt(d, r.pos)) && SlotAt(d, r.pos).segId == segId
    decreases ScanLength(d) + 1 - k
  {
    hide DecodeSlot, EncodeSlot, Read, SlotAt;
    if k <= ScanLength(d) {
      FindSlotSound(d, segId, k + 1);
    }
  }

  /** An index write changes one slot, and nothing in the data area. */
  lemma WriteIndexAt(d: Dev, s: Slot, j: nat)
    requires GeoOk(d) && j < SlotCount(d)
    ensures WritePos(d, s) < SlotCount(d)
    ensures SlotAt(WriteIndex(d, s), j) == if j == WritePos(d, s) then SealSlot(d.prims, s) else SlotAt(d, j)
    ensures GeoOk(WriteIndex(d, s)) && SameDevice(d, WriteIndex(d, s))
  {
    hide DecodeSlot, EncodeSlot, Read, Write, SlotAt, FindSlot, Append;
    FindSlotSound(d, s.segId, 1);
    match FindSlot(d, s.segId, 1)
    case Found(i) => PutSlotAt(d, i, SealSlot(d.prims, s), j);
    case Absent => AppendAt(d, SealSlot(d.prims, s), j);
  }

  lemma WriteIndexKeepsData(d: Dev, s: Slot, off: nat, n: nat)
    requires GeoOk(d) && DataStart(d) <= off
    ensures Read(WriteIndex(d, s).disk, off, n) == Read(d.disk, off, n)
  {
    hide DecodeSlot, EncodeSlot, Read, Write, SlotAt, FindSlot, Append;
    FindSlotSound(d, s.segId, 1);
    match FindSlot(d, s.segId, 1)
    case Found(i) => PutSlotKeepsData(d, i, SealSlot(d.prims, s), off, n);
    case Absent => AppendKeepsData(d, SealSlot(d.prims, s), off, n);
  }

  /** Invalidation clears exactly the live slots of the chunk. */
  lemma {:induction false} InvalidateAt(d: Dev, chunk: nat, i: nat, j: nat)
    requires GeoOk(d) && j < SlotCount(d)
    ensures SlotAt(Invalidate(d, chunk, i), j)
         == if i <= j && Claims(SlotAt(d, j), chunk) then Cleared(d.prims, SlotAt(d, j)) else SlotAt(d, j)
    decreases SlotCount(d) - i
  {
    hide DecodeSlot, EncodeSlot, Read, Write, SlotAt, SealSlot;
    if i < SlotCount(d) {
      var s := SlotAt(d, i);
      var e := if Claims(s, chunk) then PutSlot(d, i, Cleared(d.prims, s)) else d;
      PutSlotAt(d, i, Cleared(d.prims, s), j);
      InvalidateAt(e, chunk, i + 1, j);
    }
  }

  lemma {:induction false} InvalidateKeeps(d: Dev, chunk: nat, i: nat, off: nat, n: nat)
    requires GeoOk(d) && DataStart(d) <= off
    ensures var e := Invalidate(d, chunk, i);
      e == d.(disk := e.disk) && |e.disk| == |d.disk| && Read(e.disk, off, n) == Read(d.disk, off, n)
    decreases SlotCount(d) - i
  {
    hide DecodeSlot, EncodeSlot, Read, Write, SlotAt, SealSlot;
    if i < SlotCount(d) {
      var s := SlotAt(d, i);
      var e := if Claims(s, chunk) then PutSlot(d, i, Cleared(d.prims, s)) else d;
      PutSlotKeepsData(d, i, Cleared(d.prims, s), off, n);
      InvalidateKeeps(e, chunk, i + 1, off, n);
    }
  }

  /** Asks for every valid slot. */
  const EVERYTHING := Filter(0, 0, -1, -1)

  /** An answer with more room than there are slots does not fill up. */
  lemma {:induction false} CollectSize(d: Dev, q: Filter, i: nat, cap: nat)
    requires i <= SlotCount(d)
    ensures |Collect(d, q, i, cap)| <= SlotCount(d) - i
    decreases SlotCount(d) - i
  {
    hide SlotAt, Matches;
    if i < SlotCount(d) && cap > 0 {
      CollectSize(d, q, i + 1, if Matches(d.prims, SlotAt(d, i), q) then cap - 1 else cap);
    }
  }

  /** A query returns matching slots of the index only, and all of them if they fit. */
  lemma {:induction false} CollectSound(d: Dev, q: Filter, i: nat, cap: nat)
    ensures forall s :: s in Collect(d, q, i, cap) ==>
      Matches(d.prims, s, q) && exists j :: i <= j < SlotCount(d) && SlotAt(d, j) == s
    ensures |Collect(d, q, i, cap)| < cap ==>
      forall j :: i <= j < SlotCount(d) && Matches(d.prims, SlotAt(d, j), q) ==> SlotAt(d, j) in Collect(d, q, i, cap)
    decreases SlotCount(d) - i
  {
    hide DecodeSlot, EncodeSlot, Read, Write, SlotAt, Matches;
    if i < SlotCount(d) && cap > 0 {
      var hit := Matches(d.prims, SlotAt(d, i), q);
      CollectSound(d, q, i + 1, if hit then cap - 1 else cap);
      var r := Collect(d, q, i, cap);
      var rest := Collect(d, q, i + 1, if hit then cap - 1 else cap);
      assert hit ==> r == [SlotAt(d, i)] + rest;
      assert !hit ==> r == rest;
    }
  }

  ghost predicate Rising(ps: seq<nat>) { forall a, b :: 0 <= a < b < |ps| ==> ps[a] < ps[b] }

  /** The answer is one slot for each of these positions, from position `i` on; every matching position is among
      them, up to the last one once the answer is full. */
  ghost predicate Places(d: Dev, q: Filter, i: nat, cap: nat, ps: seq<nat>, found: seq<Slot>) {
    && Rising(ps) && |found| == |ps| <= cap
    && (forall a :: 0 <= a < |ps| ==> i <= ps[a] < SlotCount(d) && found[a] == SlotAt(d, ps[a]) && Matches(d.prims, found[a], q))
    && (forall j :: i <= j < SlotCount(d) && Matches(d.prims, SlotAt(d, j), q) ==>
          j in ps || (|ps| == cap && forall a :: 0 <= a < cap ==> ps[a] < j))
  }

  lemma {:induction false} CollectPlaces(d: Dev, q: Filter, i: nat, cap: nat) returns (ps: seq<nat>)
    ensures Places(d, q, i, cap, ps, Collect(d, q, i, cap))
    decreases SlotCount(d) - i
  {
    hide SlotAt, Matches, Places;
    if i >= SlotCount(d) || cap == 0 {
      ps := [];
      NoPlaces(d, q, i, cap);
    } else if Matches(d.prims, SlotAt(d, i), q) {
      ps := CollectPlaces(d, q, i + 1, cap - 1);
      MorePlaces(d, q, i, cap, ps, Collect(d, q, i + 1, cap - 1));
      ps := [i] + ps;
    } else {
      ps := CollectPlaces(d, q, i + 1, cap);
      SamePlaces(d, q, i, cap, ps, Collect(d, q, i + 1, cap));
    }
  }

  lemma NoPlaces(d: Dev, q: Filter, i: nat, cap: nat)
    requires i >= SlotCount(d) || cap == 0
    ensures Places(d, q, i, cap, [], [])
  {
    hide SlotAt, Matches;
  }

  lemma MorePlaces(d: Dev, q: Filter, i: nat, cap: nat, ps: seq<nat>, found: seq<Slot>)
    requires i < SlotCount(d) && cap > 0 && Matches(d.prims, SlotAt(d, i), q) && Places(d, q, i + 1, cap - 1, ps, found)
    ensures Places(d, q, i, cap, [i] + ps, [SlotAt(d, i)] + found)
  {
    hide SlotAt, Matches;
    var qs, all := [i] + ps, [SlotAt(d, i)] + found;
    forall a | 0 <= a < |qs|
      ensures i <= qs[a] < SlotCount(d) && all[a] == SlotAt(d, qs[a]) && Matches(d.prims, all[a], q)
    {
      if a > 0 {
        assert qs[a] == ps[a - 1] && all[a] == found[a - 1];
      }
    }
    forall j | i <= j < SlotCount(d) && Matches(d.prims, SlotAt(d, j), q) && j !in qs
      ensures |qs| == cap && forall a :: 0 <= a < cap ==> qs[a] < j
    {
      NotAmong(i, ps, j);
    }
  }

  lemma NotAmong(i: nat, ps: seq<nat>, j: nat)
    requires j !in [i] + ps
    ensures j != i && j !in ps
  {
    assert ([i] + ps)[0] == i;
  }

  lemma SamePlaces(d: Dev, q: Filter, i: nat, cap: nat, ps: seq<nat>, found: seq<Slot>)
    requires i < SlotCount(d) && !Matches(d.prims, SlotAt(d, i), q) && Places(d, q, i + 1, cap, ps, found)
    ensures Places(d, q, i, cap, ps, found)
  {
    hide SlotAt, Matches;
  }
}
