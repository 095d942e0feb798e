/** How evenly a group fills disks of equal capacity, and when a group of stop-when-full disks
    refuses a segment. Loads are exact rationals. */
module Balance {
  import opened Bytes
  import opened RecorderFormat
  import opened StorageDev
  import opened Index
  import opened Recorder
  import opened Group

  /** The tie threshold in reciprocal form. */
  const TIES_PER_UNIT: nat := 100000

  /** The part of a disk that the balance depends on. */
  ghost predicate SameGauge(d: Dev, e: Dev) {
    && SameRing(d, e) && e.sb.seqEpoch == d.sb.seqEpoch && e.sb.hddFull == d.sb.hddFull
  }

  function Pointer(d: Dev): nat { d.sb.writePtrChunk }

  /** Disks of `n` data chunks each, no ring position outside its ring. */
  ghost predicate Even(p: Pool, n: nat) {
    && n > 0 && Ready(p)
    && forall i :: 0 <= i < |p.devs| ==>
      DataChunks(p.devs[i]) == n && Pointer(p.devs[i]) <= n && (p.devs[i].sb.hddFull != HDD_STOP ==> Pointer(p.devs[i]) < n)
  }

  ghost predicate Unwrapped(p: Pool) { forall i :: 0 <= i < |p.devs| ==> p.devs[i].sb.seqEpoch == 1 }

  /** No two write pointers are further apart than this. */
  ghost predicate Spread(p: Pool, n: nat) {
    forall i, j :: 0 <= i < |p.devs| && 0 <= j < |p.devs| ==>
      Pointer(p.devs[i]) <= Pointer(p.devs[j]) + 1 + n / TIES_PER_UNIT
  }

  // ---- loads and pointers ----

  /** Loads within the threshold of each other, in terms of pointers. */
  lemma LoadGap(a: nat, b: nat, n: nat)
    requires n > 0
    ensures a as real / n as real <= b as real / n as real + EPS <==> (a - b) * TIES_PER_UNIT <= n
  {
    var x, y, m := a as real, b as real, n as real;
    var p, q := x / m, y / m;
    assert p * m == x && q * m == y;
    assert (p - q) * m == x - y;
    assert (p - q - EPS) * m == x - y - EPS * m;
    assert EPS * m * 100000.0 == m;
    assert p <= q + EPS <==> (p - q - EPS) * m <= 0.0 by {
      SignOfProduct(p - q - EPS, m);
    }
    assert (x - y) * 100000.0 == ((a - b) * TIES_PER_UNIT) as real;
  }

  lemma SignOfProduct(x: real, m: real)
    requires m > 0.0
    ensures x <= 0.0 <==> x * m <= 0.0
  {
    if x <= 0.0 {
      assert x * m <= 0.0;
    } else {
      assert x * m > 0.0;
    }
  }

  lemma GapInChunks(a: nat, b: nat, n: nat)
    ensures (a - b) * TIES_PER_UNIT <= n <==> a <= b + n / TIES_PER_UNIT
  {
  }

  /** The picked disk is at most `n / 100000` chunks ahead of any other. */
  lemma PickIsLow(p: Pool, n: nat, j: nat)
    requires Even(p, n) && j < |p.devs|
    ensures Pointer(p.devs[Pick(p)]) <= Pointer(p.devs[j]) + n / TIES_PER_UNIT
  {
    hide BestLoad, Candidates, DataChunks, Pick;
    var i := Pick(p);
    assert Load(p.devs[i]) <= BestLoad(p.devs) + EPS;
    BestLoadLeast(p.devs);
    LoadGap(Pointer(p.devs[i]), Pointer(p.devs[j]), n);
    GapInChunks(Pointer(p.devs[i]), Pointer(p.devs[j]), n);
  }

  // ---- what moves a write pointer ----

  /** The gauge after a start is that after the allocation. */
  lemma StartIsAlloc(d: Dev, w: Wr)
    ensures SameGauge(Alloc(d).0, StartOn(d, w).dev) && (StartOn(d, w).status == if Alloc(d).1.Chunk? then Ok else Fail(NoSpace))
    ensures StartOn(d, w).status.Fail? ==> StartOn(d, w).dev == d
  {
    hide Invalidate;
  }

  lemma AllocMovesPointer(d: Dev)
    requires DataChunks(d) > 0 && Pointer(d) <= DataChunks(d) && (d.sb.hddFull != HDD_STOP ==> Pointer(d) < DataChunks(d))
    ensures var (e, r) := Alloc(d); var stop := d.sb.hddFull == HDD_STOP; var full := stop && Pointer(d) == DataChunks(d);
      && r.NoRoom? == full && e.sb.chunkCount == d.sb.chunkCount && e.sb.metaChunkCount == d.sb.metaChunkCount
      && e.sb.hddFull == d.sb.hddFull && e.st == d.st && (full ==> e == d)
      && (!full && (stop || Pointer(d) + 1 < DataChunks(d)) ==> Pointer(e) == Pointer(d) + 1 && e.sb.seqEpoch == d.sb.seqEpoch)
      && (!full && !stop && Pointer(d) + 1 == DataChunks(d) ==> Pointer(e) == 0 && e.sb.seqEpoch == (d.sb.seqEpoch + 1) % U64_END)
  {
    hide ChunkOff;
  }

  lemma StartMovesPointer(d: Dev, w: Wr)
    requires DataChunks(d) > 0 && Pointer(d) <= DataChunks(d) && (d.sb.hddFull != HDD_STOP ==> Pointer(d) < DataChunks(d))
    ensures var r := StartOn(d, w); var stop := d.sb.hddFull == HDD_STOP; var full := stop && Pointer(d) == DataChunks(d);
      && r.status == (if full then Fail(NoSpace) else Ok)
      && DataChunks(r.dev) == DataChunks(d) && r.dev.sb.hddFull == d.sb.hddFull && SlotCount(r.dev) == SlotCount(d)
      && (full ==> r.dev == d)
      && (!full && (stop || Pointer(d) + 1 < DataChunks(d)) ==> Pointer(r.dev) == Pointer(d) + 1 && r.dev.sb.seqEpoch == d.sb.seqEpoch)
      && (!full && !stop && Pointer(d) + 1 == DataChunks(d) ==> Pointer(r.dev) == 0 && r.dev.sb.seqEpoch == (d.sb.seqEpoch + 1) % U64_END)
  {
    hide StartOn, Alloc;
    StartIsAlloc(d, w);
    AllocMovesPointer(d);
  }

  lemma FinalizeGauge(d: Dev, w: Wr)
    requires SlotCount(d) > 0
    ensures SameGauge(d, Finalize(d, w))
  {
    hide FindSlot, EncodeSlot, EncodeSb, EncodeSt, WriteTables, Write;
  }

  lemma PutGauge(d: Dev, w: Wr, f: Frame)
    requires SlotCount(d) > 0
    ensures SameGauge(d, PutFrame(d, w, f).0)
  {
    hide FindSlot, EncodeSlot, EncodeSb, EncodeSt, WriteTables, Write, HdrFor, Protect;
  }

  lemma FlushGauge(d: Dev)
    ensures SameGauge(d, Flush(d))
  {
    hide EncodeSb, EncodeSt, WriteTables;
  }

  // ---- the operations of group writers ----

  /** A group writer, whatever its fields, and what is done with it. */
  datatype GroupOp = Start(w: Wr) | Put(w: Wr, f: Frame) | Retyped(w: Wr, rectype: u8) | Done(w: Wr)

  predicate ByGroup(p: Pool, op: GroupOp) { op.w.grouped && op.w.dev < |p.devs| }

  function Apply(p: Pool, op: GroupOp): Pool
    requires Ready(p)
  {
    if !ByGroup(p, op) then p
    else match op
      case Start(w) => StartSeg(p, w).pool
      case Put(w, f) => WriteFrame(p, w, f).pool
      case Retyped(w, rectype) => ChangeType(p, w, rectype).pool
      case Done(w) => Close(p, w)
  }

  /** Pools whose disks have the same gauges. */
  ghost predicate SameGauges(p: Pool, q: Pool) {
    |q.devs| == |p.devs| && forall i :: 0 <= i < |p.devs| ==> SameGauge(p.devs[i], q.devs[i])
  }

  lemma GaugesCarry(p: Pool, q: Pool, n: nat)
    requires SameGauges(p, q)
    ensures Even(q, n) == Even(p, n) && Unwrapped(q) == Unwrapped(p) && Spread(q, n) == Spread(p, n)
  {
    forall i | 0 <= i < |p.devs|
      ensures Load(q.devs[i]) == Load(p.devs[i]) && SlotCount(q.devs[i]) == SlotCount(p.devs[i])
      ensures DataChunks(q.devs[i]) == DataChunks(p.devs[i])
    {
      SameLoad(p.devs[i], q.devs[i]);
    }
  }

  /** A start keeps the disks even and, as long as it wraps none, close together. */
  lemma StartSpreads(p: Pool, w: Wr, n: nat)
    requires Even(p, n) && Unwrapped(p) && Spread(p, n) && w.grouped && w.dev < |p.devs|
    ensures var q := StartSeg(p, w).pool; Even(q, n) && (Unwrapped(q) ==> Spread(q, n))
  {
    hide StartOn, BestLoad, Candidates, DataChunks, Pick, Load;
    var i, q := Pick(p), StartSeg(p, w).pool;
    var e := StartOn(p.devs[i], w.(dev := i)).dev;
    assert q.devs == p.devs[i := e];
    StartMovesPointer(p.devs[i], w.(dev := i));
    PointerLoads(q, n);
    forall j | 0 <= j < |p.devs|
      ensures Pointer(p.devs[i]) <= Pointer(p.devs[j]) + n / TIES_PER_UNIT
    {
      PickIsLow(p, n, j);
    }
  }

  lemma PointerLoads(p: Pool, n: nat)
    requires n > 0
    ensures forall i :: 0 <= i < |p.devs| && DataChunks(p.devs[i]) == n && Pointer(p.devs[i]) <= n ==> Load(p.devs[i]) <= 2.0
  {
    forall i | 0 <= i < |p.devs| && DataChunks(p.devs[i]) == n && Pointer(p.devs[i]) <= n
      ensures Load(p.devs[i]) <= 2.0
    {
      AtMostOne(Pointer(p.devs[i]), n);
    }
  }

  lemma AtMostOne(a: nat, b: nat)
    requires a <= b && b > 0
    ensures a as real / b as real <= 1.0
  {
    var q := a as real / b as real;
    assert q * b as real == a as real;
    assert (q - 1.0) * b as real == a as real - b as real;
    SignOfProduct(q - 1.0, b as real);
  }

  lemma FinalizeSegGauges(p: Pool, w: Wr)
    requires Ready(p) && w.dev < |p.devs|
    ensures SameGauges(p, FinalizeSeg(p, w))
  {
    hide Finalize, Load;
    FinalizeGauge(p.devs[w.dev], w);
  }

  lemma PutOnGauges(p: Pool, w: Wr, f: Frame)
    requires w.dev < |p.devs| && SlotCount(p.devs[w.dev]) > 0
    ensures SameGauges(p, PutOn(p, w, f).pool)
  {
    hide PutFrame;
    PutGauge(p.devs[w.dev], w, f);
  }

  lemma CloseGauges(p: Pool, w: Wr)
    requires Ready(p) && w.dev < |p.devs|
    ensures SameGauges(p, Close(p, w))
  {
    hide FinalizeSeg, Flush, Load;
    FinalizeSegGauges(p, w);
    var q := FinalizeSeg(p, w);
    forall i | 0 <= i < |q.devs|
      ensures SameGauge(q.devs[i], Flush(q.devs[i]))
    {
      FlushGauge(q.devs[i]);
    }
  }

  /** Finalizing and starting again, as rotation and a change of type do. */
  lemma RestartSpreads(p: Pool, v: Wr, w: Wr, n: nat)
    requires Even(p, n) && Unwrapped(p) && Spread(p, n) && w.grouped && w.dev < |p.devs| && v.dev < |p.devs|
    ensures var q := StartSeg(FinalizeSeg(p, v), w).pool; Even(q, n) && (Unwrapped(q) ==> Spread(q, n))
  {
    hide StartSeg, FinalizeSeg, Even, Unwrapped, Spread, Load, SameGauges;
    EvenReady(p, n);
    FinalizeSegGauges(p, v);
    GaugesCarry(p, FinalizeSeg(p, v), n);
    StartSpreads(FinalizeSeg(p, v), w, n);
  }

  lemma EvenReady(p: Pool, n: nat)
    requires Even(p, n)
    ensures Ready(p)
  {
  }

  lemma PutSpreads(p: Pool, w: Wr, f: Frame, n: nat)
    requires Even(p, n) && Unwrapped(p) && Spread(p, n) && w.grouped && w.dev < |p.devs|
    ensures var q := WriteFrame(p, w, f).pool; Even(q, n) && (Unwrapped(q) ==> Spread(q, n))
  {
    hide StartSeg, FinalizeSeg, PutOn, Even, Unwrapped, Spread, Load, SameGauges, Refusal, MustRotate;
    EvenReady(p, n);
    if Refusal(p.devs[w.dev], f).Ok? {
      var r := MakeRoom(p, w, f);
      if MustRotate(p.devs[w.dev], w, f) {
        RestartSpreads(p, w, w, n);
      }
      PutOnGauges(r.pool, r.wr, f);
      GaugesCarry(r.pool, PutOn(r.pool, r.wr, f).pool, n);
    }
  }

  lemma ApplySpreads(p: Pool, op: GroupOp, n: nat)
    requires Even(p, n) && Unwrapped(p) && Spread(p, n)
    ensures var q := Apply(p, op); Even(q, n) && (Unwrapped(q) ==> Spread(q, n))
  {
    hide StartSeg, FinalizeSeg, WriteFrame, Close, Even, Unwrapped, Spread, Load, SameGauges;
    EvenReady(p, n);
    if ByGroup(p, op) {
      match op
      case Start(w) => StartSpreads(p, w, n);
      case Put(w, f) => PutSpreads(p, w, f, n);
      case Retyped(w, rectype) => RestartSpreads(p, w, w.(rectype := rectype), n);
      case Done(w) =>
        CloseGauges(p, w);
        GaugesCarry(p, Close(p, w), n);
    }
  }

  // ---- whole runs ----

  /** Every operation finds a pool it can work on, with no disk wrapped before or after it. */
  ghost predicate UnwrappedRun(p: Pool, ops: seq<GroupOp>)
    decreases |ops|
  {
    Unwrapped(p) && (ops != [] ==> Ready(p) && UnwrappedRun(Apply(p, ops[0]), ops[1..]))
  }

  function ApplyAll(p: Pool, ops: seq<GroupOp>): Pool
    requires UnwrappedRun(p, ops)
    decreases |ops|
  {
    if ops == [] then p else ApplyAll(Apply(p, ops[0]), ops[1..])
  }

  /** Group writers fill equal disks evenly until the first of them wraps: whatever they do,
      no disk gets further ahead of another than one chunk and a hundred-thousandth of a disk. */
  lemma {:induction false} BalanceBound(p: Pool, ops: seq<GroupOp>, n: nat)
    requires Even(p, n) && Spread(p, n) && UnwrappedRun(p, ops)
    ensures Even(ApplyAll(p, ops), n) && Spread(ApplyAll(p, ops), n)
    decreases |ops|
  {
    hide Apply, Even, Unwrapped, Spread;
    if ops != [] {
      ApplySpreads(p, ops[0], n);
      UnwrappedNow(Apply(p, ops[0]), ops[1..]);
      BalanceBound(Apply(p, ops[0]), ops[1..], n);
    }
  }

  lemma UnwrappedNow(p: Pool, ops: seq<GroupOp>)
    requires UnwrappedRun(p, ops)
    ensures Unwrapped(p)
  {
  }

  // ---- a group of disks that stop when full ----

  ghost predicate StopsWhenFull(p: Pool) { forall i :: 0 <= i < |p.devs| ==> p.devs[i].sb.hddFull == HDD_STOP }

  ghost predicate AllFull(p: Pool, n: nat) { forall i :: 0 <= i < |p.devs| ==> Pointer(p.devs[i]) == n }

  /** The group refuses exactly when the disk it picks is full. */
  lemma RefusesWhenPickFull(p: Pool, n: nat, w: Wr)
    requires Even(p, n) && StopsWhenFull(p) && w.grouped && w.dev < |p.devs|
    ensures StartSeg(p, w).status.Fail? <==> Pointer(p.devs[Pick(p)]) == n
  {
    hide StartOn, BestLoad, Candidates, DataChunks, Pick, Load;
    StartMovesPointer(p.devs[Pick(p)], w.(dev := Pick(p)));
  }

  /** A full group refuses; and with fewer than 100000 chunks a disk, only a full group does. */
  lemma StopRefusal(p: Pool, n: nat, w: Wr)
    requires Even(p, n) && StopsWhenFull(p) && w.grouped && w.dev < |p.devs|
    ensures AllFull(p, n) ==> StartSeg(p, w).status.Fail?
    ensures n < TIES_PER_UNIT ==> (StartSeg(p, w).status.Fail? <==> AllFull(p, n))
  {
    hide StartOn, BestLoad, Candidates, DataChunks, Pick, Load, StartSeg;
    RefusesWhenPickFull(p, n, w);
    forall j | 0 <= j < |p.devs|
      ensures Pointer(p.devs[Pick(p)]) <= Pointer(p.devs[j]) + n / TIES_PER_UNIT
    {
      PickIsLow(p, n, j);
    }
  }

  /** A disk like `d` with another ring position. */
  function At(d: Dev, pointer: u64): Dev { d.(sb := d.sb.(writePtrChunk := pointer)) }

  /** From 100000 chunks on a group can refuse although one of its disks has room: a group just
      opened, its turn at 0, over a full disk and one that is one chunk short of it. */
  lemma StopRefusesEarly(d: Dev, n: u64, w: Wr)
    requires DataChunks(d) == n >= TIES_PER_UNIT && SlotCount(d) > 0 && d.sb.hddFull == HDD_STOP
    requires w.grouped && w.dev < 2
    ensures var p := Pool([At(d, n), At(d, n - 1)], 0);
      Even(p, n) && StopsWhenFull(p) && !AllFull(p, n) && StartSeg(p, w).status.Fail?
  {
    var p := Pool([At(d, n), At(d, n - 1)], 0);
    LoadsOfPair(d, n);
    assert Even(p, n);
    TiedPair(p);
    hide StartOn, BestLoad, Candidates, DataChunks, Pick, Load, StartSeg;
    RefusesWhenPickFull(p, n, w);
  }

  lemma LoadsOfPair(d: Dev, n: u64)
    requires DataChunks(d) == n >= TIES_PER_UNIT
    ensures Load(At(d, n - 1)) <= Load(At(d, n)) <= Load(At(d, n - 1)) + EPS && Load(At(d, n)) <= 1.0
  {
    LoadGap(n, n - 1, n);
    AtMostOne(n, n);
    var m := n as real;
    assert ((n - 1) as real / m) * m == m - 1.0 && (m / m) * m == m;
  }

  lemma TiedPair(p: Pool)
    requires |p.devs| == 2 && p.rr == 0 && Ready(p)
    requires Load(p.devs[1]) <= Load(p.devs[0]) <= Load(p.devs[1]) + EPS && Load(p.devs[0]) <= 1.0
    ensures Pick(p) == 0
  {
    hide Load;
    var a, b := p.devs[0], p.devs[1];
    assert p.devs[..1] == [a] && [a][..0] == [];
    assert BestLoad([a]) == Load(a);
    assert BestLoad(p.devs) == Load(b);
    var limit := BestLoad(p.devs) + EPS;
    assert Candidates(p.devs, limit, 2, 62) == [];
    assert Candidates(p.devs, limit, 1, 63) == [1];
    assert Candidates(p.devs, limit, 0, 64) == [0, 1];
  }

  // ---- after a refusal ----

  /** A refused start changes nothing on the disks, but the writer, whose place on disk is still
      that of its last segment, now names the picked disk. */
  lemma RefusedStart(p: Pool, w: Wr)
    requires Ready(p) && w.grouped && w.dev < |p.devs| && StartSeg(p, w).status.Fail?
    ensures var r := StartSeg(p, w);
      && r.pool == Turn(p) && r.wr == w.(dev := Pick(p))
      && (r.wr == w <==> Pick(p) == w.dev)
  {
    hide StartOn, BestLoad, Candidates, Pick, Load;
    assert p.devs == p.devs[Pick(p) := p.devs[Pick(p)]];
  }

  /** So a frame that still fits the old segment is then written to a disk the segment is not on:
      the segment's own disk does not change, and the record lands on the picked disk, at the
      offset the segment has on its own. */
  lemma FrameAfterRefusal(p: Pool, w: Wr, f: Frame)
    requires Ready(p) && w.grouped && w.dev < |p.devs| && w.frameCount > 0
    requires StartSeg(p, w).status.Fail? && Pick(p) != w.dev
    requires Refusal(p.devs[Pick(p)], f).Ok? && !MustRotate(p.devs[Pick(p)], w, f)
    ensures var r := StartSeg(p, w); var q := WriteFrame(r.pool, r.wr, f);
      && q.status.Ok? && q.pool.devs[w.dev] == p.devs[w.dev]
      && q.pool.devs[Pick(p)] == WriteRecord(p.devs[Pick(p)], w.(dev := Pick(p)), f)
  {
    hide StartSeg, BestLoad, Candidates, Pick, Load, Refusal, WriteRecord, WriteFrame, Turn, Need32;
    RefusedStart(p, w);
    TurnKeepsDisks(p);
    AppendsInPlace(Turn(p), w.(dev := Pick(p)), f);
  }

  lemma TurnKeepsDisks(p: Pool)
    requires Ready(p)
    ensures Turn(p).devs == p.devs && Ready(Turn(p)) && Pick(p) < |p.devs|
  {
    hide BestLoad, Candidates, Load;
  }

  lemma AppendsInPlace(p: Pool, w: Wr, f: Frame)
    requires Ready(p) && w.dev < |p.devs| && w.frameCount > 0
    requires Refusal(p.devs[w.dev], f).Ok? && !MustRotate(p.devs[w.dev], w, f)
    ensures var q := WriteFrame(p, w, f); q.status.Ok? && q.pool == p.(devs := p.devs[w.dev := WriteRecord(p.devs[w.dev], w, f)])
  {
    hide WriteRecord, Refusal, MustRotate, Load, StartSeg, FinalizeSeg, Advance;
  }
}
