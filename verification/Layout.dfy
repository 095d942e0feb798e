/** The layout chosen at format time: superblocks, system tables, bitmap, index area,
    data chunks and the metadata region at the end. */
module Layout {
  import opened Bytes
  import opened RecorderFormat

  const BITMAP_SEC: nat := 19
  const MIB: nat := 1024 * 1024

  lemma AlignUpLeast(v: nat, a: nat, m: nat)
    requires a > 0
    ensures AlignUp(v, a) % a == 0 && v <= AlignUp(v, a) < v + a
    ensures v <= m * a ==> AlignUp(v, a) <= m * a
  {
    var q := (v + a - 1) / a;
    assert v + a - 1 == a * q + (v + a - 1) % a;
    assert q * a == a * q;
    ModUnique(q * a, a, q, 0);
    AtMost(q, m, a, v);
  }

  lemma AtMost(q: nat, m: nat, a: nat, v: nat)
    requires a > 0 && q * a < v + a
    ensures v <= m * a ==> q * a <= m * a
  {
    MulAtLeast(a, q - m);
    assert a * (q - m) == q * a - m * a;
    if q <= m {
      MulMono(q, m, a);
    }
  }

  lemma AlignUpMonotone(v: nat, w: nat, a: nat)
    requires a > 0 && v <= w
    ensures AlignUp(v, a) <= AlignUp(w, a)
  {
    AlignUpLeast(w, a, 0);
    AlignUpLeast(v, a, (w + a - 1) / a);
  }

  function BitmapSectors(cc: nat): nat { AlignUp((cc * 2 + 7) / 8 * 2, SEC) / SEC }

  function IndexSectors(cc: nat, slots: nat): nat { AlignUp(cc * slots * SLOT_SIZE, SEC) / SEC }

  /** End of the reserved area for `cc` chunks, in bytes. */
  function ReservedEnd(cc: nat, slots: nat): nat {
    (BITMAP_SEC + BitmapSectors(cc) + IndexSectors(cc, slots)) * SEC
  }

  function DataStart(cc: nat, slots: nat, chunk: nat): nat
    requires chunk > 0
  {
    AlignUp(ReservedEnd(cc, slots), chunk)
  }

  function WholeChunks(bytes: nat, chunk: nat): nat
    requires chunk > 0
  {
    bytes / chunk
  }

  /** One round of the iteration; the subtraction is that of uint64_t. */
  function NextCount(total: nat, chunk: nat, slots: nat, cc: nat): nat
    requires chunk > 0
  {
    WholeChunks((total - DataStart(cc, slots, chunk)) % 0x1_0000_0000_0000_0000, chunk)
  }

  /** The chunk count after `i` rounds. */
  function Count(total: nat, chunk: nat, slots: nat, i: nat): nat
    requires chunk > 0
    decreases i, total
  {
    if i == 0 then total / chunk else NextCount(total, chunk, slots, Count(total, chunk, slots, i - 1))
  }

  /** What round `i` takes away from the disk does not exceed it. */
  ghost predicate RoundFits(total: nat, chunk: nat, slots: nat, i: nat)
    requires chunk > 0
  {
    DataStart(Count(total, chunk, slots, i), slots, chunk) <= total
  }

  /** No round subtracts more than there is. */
  ghost predicate NoUnderflow(total: nat, chunk: nat, slots: nat)
    requires chunk > 0
  {
    && RoundFits(total, chunk, slots, 0) && RoundFits(total, chunk, slots, 1)
    && RoundFits(total, chunk, slots, 2) && RoundFits(total, chunk, slots, 3)
  }

  lemma ReservedMonotone(c: nat, d: nat, slots: nat)
    requires c <= d
    ensures ReservedEnd(c, slots) <= ReservedEnd(d, slots)
  {
    AlignUpMonotone((c * 2 + 7) / 8 * 2, (d * 2 + 7) / 8 * 2, SEC);
    assert c * slots <= d * slots by { MulMono(c, d, slots); }
    AlignUpMonotone(c * slots * SLOT_SIZE, d * slots * SLOT_SIZE, SEC);
  }

  lemma MulMono(a: nat, b: nat, c: nat)
    requires a <= b
    ensures a * c <= b * c && c * a <= c * b
  {
    assert (b - a) * c >= 0;
    assert b * c == a * c + (b - a) * c;
  }

  lemma DivMono(a: nat, b: nat, c: nat)
    requires a <= b && c > 0
    ensures a / c <= b / c
  {
    var qa, qb := a / c, b / c;
    MulAtLeast(c, qa - qb);
    assert c * (qa - qb) == c * qa - c * qb;
  }

  /** More chunks never move the data area down, and leave no more room for chunks. */
  lemma NextAntitone(total: u64, chunk: nat, slots: nat, c: nat, d: nat)
    requires chunk > 0 && c <= d && DataStart(d, slots, chunk) <= total
    ensures DataStart(c, slots, chunk) <= DataStart(d, slots, chunk)
    ensures NextCount(total, chunk, slots, d) <= NextCount(total, chunk, slots, c) <= total / chunk
  {
    hide ReservedEnd;
    ReservedMonotone(c, d, slots);
    AlignUpMonotone(ReservedEnd(c, slots), ReservedEnd(d, slots), chunk);
    DivMono(total - DataStart(d, slots, chunk), total - DataStart(c, slots, chunk), chunk);
    DivMono(total - DataStart(c, slots, chunk), total, chunk);
  }

  /** Four rounds of any antitone step from above: the results close in from both sides. */
  lemma Bracket(f: nat -> nat, ok: nat -> bool, c0: nat, c1: nat, c2: nat, c3: nat, c4: nat)
    requires forall c, d :: c <= d && ok(d) ==> ok(c) && f(d) <= f(c) <= c0
    requires c1 == f(c0) && c2 == f(c1) && c3 == f(c2) && c4 == f(c3)
    ensures ok(c0) ==> ok(c1) && ok(c2) && ok(c3) && c1 <= c3 <= c4 <= c2 <= c0
  {
    if ok(c0) {
      assert ok(c1) && ok(c2) && ok(c3);
      assert f(c0) <= f(c1) && f(c0) <= f(c2);
    }
  }

  /** The counts close in on each other from both sides, and the iteration is free of
      underflow exactly when its first round is. */
  lemma CountsBracket(total: u64, chunk: nat, slots: nat)
    requires chunk > 0
    ensures NoUnderflow(total, chunk, slots) <==> RoundFits(total, chunk, slots, 0)
    ensures NoUnderflow(total, chunk, slots) ==>
      && Count(total, chunk, slots, 1) <= Count(total, chunk, slots, 3) <= Count(total, chunk, slots, 4)
      && Count(total, chunk, slots, 4) <= Count(total, chunk, slots, 2) <= total / chunk
  {
    hide DataStart, NextCount;
    var f := (c: nat) => NextCount(total, chunk, slots, c);
    var ok := (c: nat) => DataStart(c, slots, chunk) <= total;
    forall c, d | c <= d && ok(d)
      ensures ok(c) && f(d) <= f(c) <= total / chunk
    {
      NextAntitone(total, chunk, slots, c, d);
    }
    var c0, c1, c2, c3 := Count(total, chunk, slots, 0), Count(total, chunk, slots, 1),
                          Count(total, chunk, slots, 2), Count(total, chunk, slots, 3);
    assert c0 == total / chunk && c1 == f(c0) && c2 == f(c1) && c3 == f(c2);
    var c4 := Count(total, chunk, slots, 4);
    assert c4 == f(c3);
    Bracket(f, ok, c0, c1, c2, c3, c4);
    assert ok(c0) == RoundFits(total, chunk, slots, 0) && ok(c1) == RoundFits(total, chunk, slots, 1);
    assert ok(c2) == RoundFits(total, chunk, slots, 2) && ok(c3) == RoundFits(total, chunk, slots, 3);
  }

  /** It is exactly when what is reserved for as many chunks as the disk could hold is no more than
      these chunks. */
  lemma OverheadExactly(total: u64, chunk: nat, slots: nat)
    requires chunk > 0
    ensures NoUnderflow(total, chunk, slots) <==> ReservedEnd(total / chunk, slots) <= total / chunk * chunk
  {
    hide ReservedEnd, AlignUp, Count, NoUnderflow;
    var cc, reserved := total / chunk, ReservedEnd(total / chunk, slots);
    CountsBracket(total, chunk, slots);
    CountStep(total, chunk, slots, 0);
    AlignUpLeast(reserved, chunk, cc);
    FloorAtMost(total, chunk);
    if DataStart(cc, slots, chunk) <= total {
      var q := DataStart(cc, slots, chunk) / chunk;
      assert DataStart(cc, slots, chunk) == q * chunk;
      DivMono(q * chunk, total, chunk);
      ModUnique(q * chunk, chunk, q, 0);
      MulMono(q, cc, chunk);
    }
  }

  /** An overhead per chunk that leaves 11 KiB of the chunk is enough; one of at most a quarter leaves half of
      the disk. */
  lemma SmallOverheadSuffices(total: u64, chunk: nat, slots: nat)
    requires SLOT_SIZE * slots + 1 + 11264 <= chunk && total / chunk >= 1
    ensures NoUnderflow(total, chunk, slots)
    ensures 4 * (SLOT_SIZE * slots + 1) <= chunk && 4 * 11264 <= chunk && total / chunk >= 2 ==>
      2 * DataStart(total / chunk, slots, chunk) <= total / chunk * chunk
  {
    hide BitmapSectors, IndexSectors, AlignUp, ReservedEnd, NoUnderflow;
    var cc: nat := total / chunk;
    var overhead := SLOT_SIZE * slots + 1;
    OverheadBound(cc, slots);
    MulMono(overhead + 11264, chunk, cc);
    assert cc * (overhead + 11264) == cc * overhead + cc * 11264;
    OverheadExactly(total, chunk, slots);
    if 4 * overhead <= chunk && 4 * 11264 <= chunk {
      ReserveBound(cc, chunk, overhead, ReservedEnd(cc, slots));
    }
  }

  lemma FloorAtMost(total: nat, chunk: nat)
    requires chunk > 0
    ensures total / chunk * chunk <= total
  {
    assert total == chunk * (total / chunk) + total % chunk;
  }

  lemma ReserveBound(cc: nat, chunk: nat, overhead: nat, reserved: nat)
    requires 4 * overhead <= chunk && 4 * 11264 <= chunk && cc >= 1
    requires reserved <= 11264 + cc * overhead
    ensures AlignUp(reserved, chunk) <= cc * chunk
    ensures cc >= 2 ==> 2 * AlignUp(reserved, chunk) <= cc * chunk
  {
    MulMono(4 * overhead, chunk, cc);
    assert cc * (4 * overhead) == 4 * (cc * overhead);
    assert 4 * reserved <= cc * chunk + chunk;
    MulMono(1, cc, chunk);
    if cc >= 4 {
      AtMostHalf(cc, chunk, reserved);
    } else {
      AlignUpLeast(reserved, chunk, 1);
    }
  }

  lemma AtMostHalf(cc: nat, chunk: nat, reserved: nat)
    requires cc >= 4 && chunk > 0 && 4 * reserved <= cc * chunk + chunk
    ensures 2 * AlignUp(reserved, chunk) <= cc * chunk
  {
    hide AlignUp;
    var h := cc / 2;
    MulMono(cc + 1, 4 * h, chunk);
    assert (cc + 1) * chunk == cc * chunk + chunk && 4 * h * chunk == 4 * (h * chunk);
    AlignUpLeast(reserved, chunk, h);
    MulMono(2 * h, cc, chunk);
    assert 2 * h * chunk == 2 * (h * chunk);
  }

  lemma OverheadBound(cc: nat, slots: nat)
    ensures ReservedEnd(cc, slots) <= 11264 + cc * (SLOT_SIZE * slots + 1)
  {
    hide AlignUp;
    var bitmap, index := (cc * 2 + 7) / 8 * 2, cc * slots * SLOT_SIZE;
    SectorsBound(bitmap);
    SectorsBound(index);
    BitmapBound(cc);
    ReservedIs(cc, slots);
    OverheadProduct(cc, slots);
  }

  lemma OverheadProduct(cc: nat, slots: nat)
    ensures cc * slots * SLOT_SIZE + cc == cc * (SLOT_SIZE * slots + 1)
  {
    assert cc * slots * SLOT_SIZE == cc * (SLOT_SIZE * slots);
    assert cc * (SLOT_SIZE * slots + 1) == cc * (SLOT_SIZE * slots) + cc;
  }

  lemma BitmapBound(cc: nat)
    ensures (cc * 2 + 7) / 8 * 2 <= cc + 2
  {
  }

  lemma SectorsBound(v: nat)
    ensures AlignUp(v, SEC) / SEC * SEC < v + SEC
  {
    AlignUpLeast(v, SEC, 0);
  }

  lemma ReservedIs(cc: nat, slots: nat)
    ensures ReservedEnd(cc, slots) == BITMAP_SEC * SEC + BitmapSectors(cc) * SEC + IndexSectors(cc, slots) * SEC
  {
    hide BitmapSectors, IndexSectors;
  }

  // ---- what lies where ----

  datatype Region = Region(start: nat, len: nat)

  /** The layout as written into the superblock and the system table. */
  datatype Plan = Plan(chunk: nat, chunkCount: nat, dataStart: nat, bitmapSectors: nat, indexSectors: nat)

  function PlanOf(total: nat, chunk: nat, slots: nat): Plan
    requires chunk > 0
  {
    var c3 := Count(total, chunk, slots, 3);
    Plan(chunk, Count(total, chunk, slots, 4), DataStart(c3, slots, chunk), BitmapSectors(c3), IndexSectors(c3, slots))
  }

  function ChunkRegion(p: Plan, c: nat, n: nat): Region { Region(p.dataStart + c * p.chunk, n * p.chunk) }

  /** Every area of a disk with `meta` of its chunks set aside, in disk order. */
  function Areas(p: Plan, meta: nat): seq<Region>
    requires meta <= p.chunkCount
  {
    [Region(0, SEC), Region(SEC, SEC), Region(2 * SEC, SEC), Region(3 * SEC, ST_SIZE), Region(11 * SEC, ST_SIZE),
     Region(BITMAP_SEC * SEC, p.bitmapSectors * SEC),
     Region((BITMAP_SEC + p.bitmapSectors) * SEC, p.indexSectors * SEC)]
    + seq(p.chunkCount - meta, c requires 0 <= c => ChunkRegion(p, c, 1))
    + [ChunkRegion(p, p.chunkCount - meta, meta)]
  }

  ghost predicate Ordered(a: seq<Region>, limit: nat) {
    forall i :: 0 <= i < |a| ==> a[i].start + a[i].len <= if i + 1 < |a| then a[i + 1].start else limit
  }

  lemma {:induction false} OrderedDisjoint(a: seq<Region>, limit: nat, i: nat, j: nat)
    requires Ordered(a, limit) && i < j < |a|
    ensures a[i].start + a[i].len <= a[j].start
    decreases j
  {
    if i < j - 1 {
      OrderedDisjoint(a, limit, i, j - 1);
    }
  }

  /** The areas follow one another without overlap and end within the disk. */
  lemma LayoutSound(total: u64, chunk: nat, slots: nat, meta: nat)
    requires chunk > 0 && NoUnderflow(total, chunk, slots)
    requires meta <= PlanOf(total, chunk, slots).chunkCount
    ensures Ordered(Areas(PlanOf(total, chunk, slots), meta), total)
  {
    PlanFits(total, chunk, slots);
    AreasOrdered(PlanOf(total, chunk, slots), meta, total);
  }

  lemma AreasOrdered(p: Plan, meta: nat, total: nat)
    requires meta <= p.chunkCount
    requires (BITMAP_SEC + p.bitmapSectors + p.indexSectors) * SEC <= p.dataStart
    requires p.dataStart + p.chunkCount * p.chunk <= total
    ensures Ordered(Areas(p, meta), total)
  {
    var a := Areas(p, meta);
    var n := p.chunkCount - meta;
    forall i | 0 <= i < |a|
      ensures a[i].start + a[i].len <= if i + 1 < |a| then a[i + 1].start else total
    {
      if i >= 6 {
        assert a[7 + n] == ChunkRegion(p, n, meta);
        if i == 6 {
          assert 0 * p.chunk == 0;
          assert a[7] == ChunkRegion(p, 0, if n == 0 then meta else 1);
        } else {
          ChunkFollows(p, i - 7, 1);
          ChunkFollows(p, n, meta);
        }
      }
    }
  }

  lemma ChunkFollows(p: Plan, c: nat, n: nat)
    ensures var r := ChunkRegion(p, c, n); r.start + r.len == p.dataStart + (c + n) * p.chunk
  {
    assert (c + n) * p.chunk == c * p.chunk + n * p.chunk;
  }

  lemma PlanFits(total: u64, chunk: nat, slots: nat)
    requires chunk > 0 && NoUnderflow(total, chunk, slots)
    ensures var p := PlanOf(total, chunk, slots);
      && (BITMAP_SEC + p.bitmapSectors + p.indexSectors) * SEC <= p.dataStart
      && p.dataStart + p.chunkCount * chunk <= total
      && p.dataStart % chunk == 0
  {
    var c3 := Count(total, chunk, slots, 3);
    assert RoundFits(total, chunk, slots, 3);
    assert Count(total, chunk, slots, 4) == NextCount(total, chunk, slots, c3);
    AlignUpLeast(ReservedEnd(c3, slots), chunk, 0);
    Quotient(total, DataStart(c3, slots, chunk), chunk);
  }

  lemma Quotient(total: u64, start: nat, chunk: nat)
    requires chunk > 0 && start <= total
    ensures start + (total - start) % 0x1_0000_0000_0000_0000 / chunk * chunk <= total
  {
    var room := total - start;
    assert room == chunk * (room / chunk) + room % chunk;
  }

  function SlotCount(p: Plan): nat { p.indexSectors * SEC / SLOT_SIZE }

  lemma CountStep(total: nat, chunk: nat, slots: nat, i: nat)
    requires chunk > 0
    ensures Count(total, chunk, slots, 0) == total / chunk
    ensures Count(total, chunk, slots, i + 1) == NextCount(total, chunk, slots, Count(total, chunk, slots, i))
  {
  }

  /** When the first round leaves one chunk in `slots` or more, every chunk has an index slot. */
  lemma EnoughSlotsIf(total: u64, chunk: nat, slots: nat)
    requires chunk > 0 && NoUnderflow(total, chunk, slots) && total / chunk <= slots * Count(total, chunk, slots, 1)
    ensures var p := PlanOf(total, chunk, slots); SlotCount(p) >= p.chunkCount
  {
    hide AlignUp, ReservedEnd, DataStart, BitmapSectors, IndexSectors, Count, NextCount;
    CountsBracket(total, chunk, slots);
    var c1, c3 := Count(total, chunk, slots, 1), Count(total, chunk, slots, 3);
    MulMono(c1, c3, slots);
    SlotsForCount(c3, slots);
  }

  /** Two slots per chunk and a small overhead give at least one index slot for every chunk. */
  lemma EnoughSlots(total: u64, chunk: nat, slots: nat)
    requires 4 * (SLOT_SIZE * slots + 1) <= chunk && 4 * 11264 <= chunk && total / chunk >= 1 && slots >= 2
    ensures NoUnderflow(total, chunk, slots)
    ensures var p := PlanOf(total, chunk, slots); SlotCount(p) >= p.chunkCount
  {
    hide AlignUp, ReservedEnd, DataStart, BitmapSectors, IndexSectors, Count, NextCount;
    SmallOverheadSuffices(total, chunk, slots);
    CountStep(total, chunk, slots, 0);
    CountStep(total, chunk, slots, 3);
    var c1 := Count(total, chunk, slots, 1);
    if total / chunk >= 2 {
      HalfRemains(total, chunk, slots, total / chunk);
      MulMono(2, slots, c1);
      EnoughSlotsIf(total, chunk, slots);
    } else {
      assert RoundFits(total, chunk, slots, 3);
      SmallDisk(total, chunk, slots, Count(total, chunk, slots, 3));
    }
  }

  lemma SlotsForCount(c: nat, slots: nat)
    ensures IndexSectors(c, slots) * SEC / SLOT_SIZE >= slots * c
  {
    AlignUpLeast(c * slots * SLOT_SIZE, SEC, 0);
    assert c * slots == slots * c;
  }

  /** The slots for `c` chunks, up to a whole sector. */
  function SlotsFor(c: nat, slots: nat): nat { AlignUp(slots * c, 8) }

  /** Exactly when every chunk has an index slot: the slots are those for the third round's count, up
      to a whole sector. With no more chunks than slots per chunk that is so when, unless there are no
      chunks at all, one more chunk fits behind the area reserved in the third round. */
  lemma EnoughSlotsExactly(total: u64, chunk: nat, slots: nat)
    requires chunk > 0 && slots > 0 && NoUnderflow(total, chunk, slots)
    ensures var p := PlanOf(total, chunk, slots);
      SlotCount(p) >= p.chunkCount <==> p.chunkCount <= SlotsFor(Count(total, chunk, slots, 3), slots)
    ensures var p := PlanOf(total, chunk, slots);
      total / chunk <= slots ==>
        (SlotCount(p) >= p.chunkCount <==> p.chunkCount == 0 || DataStart(Count(total, chunk, slots, 2), slots, chunk) + chunk <= total)
  {
    hide AlignUp, ReservedEnd, DataStart, BitmapSectors, IndexSectors, Count, NextCount;
    var c3 := Count(total, chunk, slots, 3);
    CountsBracket(total, chunk, slots);
    SlotsAre(c3, slots);
    CountStep(total, chunk, slots, 2);
    OneMoreFits(total, chunk, slots, Count(total, chunk, slots, 2));
    AlignUpLeast(slots * c3, 8, 0);
    if c3 == 0 {
      assert slots * c3 == 0;
      AlignIs(0, 8, 0);
    } else {
      MulMono(1, c3, slots);
    }
  }

  lemma SlotsAre(c: nat, slots: nat)
    ensures IndexSectors(c, slots) * SEC / SLOT_SIZE == SlotsFor(c, slots)
  {
    var n := (slots * c + 7) / 8;
    assert c * slots == slots * c;
    assert n * 8 == AlignUp(slots * c, 8);
    AlignUpLeast(slots * c, 8, 0);
    AlignIs(c * slots * SLOT_SIZE, SEC, n);
  }

  lemma OneMoreFits(total: u64, chunk: nat, slots: nat, c: nat)
    requires chunk > 0 && DataStart(c, slots, chunk) <= total
    ensures NextCount(total, chunk, slots, c) >= 1 <==> DataStart(c, slots, chunk) + chunk <= total
  {
    hide DataStart;
    var rest := total - DataStart(c, slots, chunk);
    assert rest == chunk * (rest / chunk) + rest % chunk;
    if rest >= chunk && rest / chunk < 1 {
      MulMono(rest / chunk, 0, chunk);
    }
    if rest / chunk >= 1 {
      MulMono(1, rest / chunk, chunk);
    }
  }

  /** An overhead close to the size of the chunk makes the rounds swing: with 16382 slots per chunk
      an 80 MiB disk gets 79 chunks and no index slot at all; and with 16383 slots per chunk and more
      chunks than that, 16390 MiB get 16388 chunks and 16384 slots. */
  lemma SlotsRunShort()
    ensures var p := PlanOf(80 * MIB, MIB, 16382); NoUnderflow(80 * MIB, MIB, 16382) && p.chunkCount == 79 && SlotCount(p) == 0
    ensures var p := PlanOf(16390 * MIB, MIB, 16383);
      NoUnderflow(16390 * MIB, MIB, 16383) && p.chunkCount == 16388 && SlotCount(p) == 16384
  {
    hide Count, NoUnderflow, IndexSectors, BitmapSectors, DataStart;
    FewChunks();
    ManyChunks();
  }

  lemma FewChunks()
    ensures var t := 80 * MIB;
      NoUnderflow(t, MIB, 16382) && Count(t, MIB, 16382, 4) == 79 && IndexSectors(Count(t, MIB, 16382, 3), 16382) == 0
  {
    hide Count, IndexSectors, RoundFits;
    FirstRound(80, 16382);
    RoundIs(80, 16382, 0, 80, 1, 163820, 80);
    RoundIs(80, 16382, 1, 0, 0, 0, 1);
    RoundIs(80, 16382, 2, 79, 1, 161773, 80);
    RoundIs(80, 16382, 3, 0, 0, 0, 1);
  }

  lemma ManyChunks()
    ensures var t := 16390 * MIB;
      NoUnderflow(t, MIB, 16383) && Count(t, MIB, 16383, 4) == 16388 && IndexSectors(Count(t, MIB, 16383, 3), 16383) == 2048
  {
    hide Count, IndexSectors, RoundFits;
    FirstRound(16390, 16383);
    RoundIs(16390, 16383, 0, 16390, 17, 33564672, 16390);
    RoundIs(16390, 16383, 1, 0, 0, 0, 1);
    RoundIs(16390, 16383, 2, 16389, 17, 33562624, 16389);
    RoundIs(16390, 16383, 3, 1, 1, 2048, 2);
  }

  lemma FirstRound(m: nat, slots: nat)
    ensures Count(m * MIB, MIB, slots, 0) == m
  {
    ModUnique(m * MIB, MIB, m, 0);
  }

  /** Round `i` on a disk of `m` MiB, from the sectors it reserves. */
  lemma RoundIs(m: nat, slots: nat, i: nat, c: nat, bitmap: nat, index: nat, start: nat)
    requires start <= m < 0x1_0000_0000 && Count(m * MIB, MIB, slots, i) == c
    requires (c * 2 + 7) / 8 * 2 <= bitmap * SEC < (c * 2 + 7) / 8 * 2 + SEC
    requires c * slots * SLOT_SIZE <= index * SEC < c * slots * SLOT_SIZE + SEC
    requires (BITMAP_SEC + bitmap + index) * SEC <= start * MIB < (BITMAP_SEC + bitmap + index) * SEC + MIB
    ensures RoundFits(m * MIB, MIB, slots, i) && IndexSectors(c, slots) == index && Count(m * MIB, MIB, slots, i + 1) == m - start
  {
    hide Count, IndexSectors, DataStart, WholeChunks;
    StartIs(slots, c, bitmap, index, start);
    WholeMib(m - start);
    CountStep(m * MIB, MIB, slots, i);
  }

  lemma StartIs(slots: nat, c: nat, bitmap: nat, index: nat, start: nat)
    requires (c * 2 + 7) / 8 * 2 <= bitmap * SEC < (c * 2 + 7) / 8 * 2 + SEC
    requires c * slots * SLOT_SIZE <= index * SEC < c * slots * SLOT_SIZE + SEC
    requires (BITMAP_SEC + bitmap + index) * SEC <= start * MIB < (BITMAP_SEC + bitmap + index) * SEC + MIB
    ensures IndexSectors(c, slots) == index && DataStart(c, slots, MIB) == start * MIB
  {
    hide AlignUp, ReservedEnd;
    AlignIs((c * 2 + 7) / 8 * 2, SEC, bitmap);
    AlignIs(c * slots * SLOT_SIZE, SEC, index);
    ReservedWith(c, slots, bitmap, index);
    AlignIs(ReservedEnd(c, slots), MIB, start);
  }

  lemma ReservedWith(c: nat, slots: nat, bitmap: nat, index: nat)
    requires BitmapSectors(c) == bitmap && IndexSectors(c, slots) == index
    ensures ReservedEnd(c, slots) == (BITMAP_SEC + bitmap + index) * SEC
  {
    hide BitmapSectors, IndexSectors;
  }

  lemma WholeMib(n: nat)
    requires n < 0x1_0000_0000
    ensures WholeChunks(n * MIB % 0x1_0000_0000_0000_0000, MIB) == n
  {
    ModUnique(n * MIB, MIB, n, 0);
  }

  lemma AlignIs(v: nat, a: nat, q: nat)
    requires a > 0 && v <= q * a < v + a
    ensures AlignUp(v, a) == q * a
  {
    var r := v + a - 1 - q * a;
    assert q * a == a * q;
    ModUnique(v + a - 1, a, q, r);
  }

  lemma HalfRemains(total: u64, chunk: nat, slots: nat, c0: nat)
    requires chunk > 0 && c0 == total / chunk && DataStart(c0, slots, chunk) <= total
    requires 2 * DataStart(c0, slots, chunk) <= c0 * chunk
    ensures 2 * NextCount(total, chunk, slots, c0) >= c0
  {
    hide ReservedEnd, AlignUp;
    var start := DataStart(c0, slots, chunk);
    AlignUpLeast(ReservedEnd(c0, slots), chunk, 0);
    HalfQuotient(total, chunk, c0, start);
  }

  lemma HalfQuotient(total: nat, chunk: nat, c0: nat, start: nat)
    requires chunk > 0 && c0 == total / chunk && 2 * start <= c0 * chunk && start <= total
    requires start % chunk == 0
    ensures 2 * ((total - start) / chunk) >= c0
  {
    FloorAtMost(total, chunk);
    var s := start / chunk;
    assert start == chunk * s;
    assert c0 * chunk - start == (c0 - s) * chunk;
    MulAtLeast(chunk, 2 * s - c0);
    assert chunk * (2 * s - c0) == 2 * start - c0 * chunk;
    ModUnique(c0 * chunk - start, chunk, c0 - s, 0);
    DivMono(c0 * chunk - start, total - start, chunk);
  }

  lemma AtLeastOne(v: nat, a: nat)
    requires v > 0 && a > 0
    ensures AlignUp(v, a) >= a
  {
    AlignUpLeast(v, a, 0);
    DivMono(a, v + a - 1, a);
    MulMono(1, (v + a - 1) / a, a);
  }

  /** A disk of a single chunk has no room for data. */
  lemma SmallDisk(total: u64, chunk: nat, slots: nat, cc: nat)
    requires chunk > 0 && total / chunk == 1 && DataStart(cc, slots, chunk) <= total
    ensures NextCount(total, chunk, slots, cc) == 0
  {
    hide BitmapSectors, IndexSectors, AlignUp;
    AtLeastOne(ReservedEnd(cc, slots), chunk);
    var ds := DataStart(cc, slots, chunk);
    assert total == chunk * 1 + total % chunk;
    assert total - ds < chunk;
  }

  /** The body of the loop. */
  method LayoutRound(total: nat, chunk: nat, slots: nat, cc: nat)
    returns (bitmapSectors: nat, indexSectors: nat, dataStartSec: nat, next: nat)
    requires chunk > 0 && chunk % SEC == 0
    ensures dataStartSec * SEC == DataStart(cc, slots, chunk)
    ensures bitmapSectors == BitmapSectors(cc) && indexSectors == IndexSectors(cc, slots)
    ensures next == NextCount(total, chunk, slots, cc)
  {
    var bitmapBytes := (cc * 2 + 7) / 8 * 2;
    var indexBytes := cc * slots * SLOT_SIZE;
    bitmapSectors := AlignUp(bitmapBytes, SEC) / SEC;
    indexSectors := AlignUp(indexBytes, SEC) / SEC;
    var rsvEnd := (BITMAP_SEC + bitmapSectors + indexSectors) * SEC;
    var start := AlignUp(rsvEnd, chunk);
    dataStartSec := start / SEC;
    assert dataStartSec * SEC == start by { WholeSectors(rsvEnd, chunk); }
    next := (total - dataStartSec * SEC) % 0x1_0000_0000_0000_0000 / chunk;
  }

  lemma WholeSectors(v: nat, chunk: nat)
    requires chunk > 0 && chunk % SEC == 0
    ensures AlignUp(v, chunk) / SEC * SEC == AlignUp(v, chunk)
  {
    var q := (v + chunk - 1) / chunk;
    var m := chunk / SEC;
    assert chunk == m * 512;
    assert q * (m * 512) == 512 * (q * m);
    ModUnique(AlignUp(v, chunk), 512, q * m, 0);
  }

  /** What the layout holds after `i` rounds, `i` at least 1. */
  ghost predicate AfterRound(total: nat, chunk: nat, slots: nat, i: nat,
                             cc: nat, dataStartSec: nat, bitmapSectors: nat, indexSectors: nat)
    requires chunk > 0 && i > 0
  {
    var prev := Count(total, chunk, slots, i - 1);
    && cc == Count(total, chunk, slots, i)
    && dataStartSec * SEC == DataStart(prev, slots, chunk)
    && bitmapSectors == BitmapSectors(prev) && indexSectors == IndexSectors(prev, slots)
  }

  /** The loop of four rounds. */
  method ComputeLayout(total: nat, chunk: nat, slots: nat)
    returns (chunkSectors: nat, chunkCount: nat, dataStartSec: nat, bitmapSectors: nat, indexSectors: nat)
    requires chunk > 0 && chunk % SEC == 0
    ensures chunkSectors * SEC == chunk
    ensures PlanOf(total, chunk, slots) == Plan(chunk, chunkCount, dataStartSec * SEC, bitmapSectors, indexSectors)
  {
    hide DataStart, NextCount, BitmapSectors, IndexSectors, AlignUp, Count;
    var cc: nat := total / chunk;
    bitmapSectors, indexSectors, dataStartSec := 0, 0, 0;
    var it := 0;
    CountStep(total, chunk, slots, 0);
    while it < 4
      invariant 0 <= it <= 4
      invariant cc == Count(total, chunk, slots, it)
      invariant it > 0 ==> AfterRound(total, chunk, slots, it, cc, dataStartSec, bitmapSectors, indexSectors)
    {
      CountStep(total, chunk, slots, it);
      bitmapSectors, indexSectors, dataStartSec, cc := LayoutRound(total, chunk, slots, cc);
      it := it + 1;
    }
    chunkSectors, chunkCount := chunk / SEC, cc;
  }
}
