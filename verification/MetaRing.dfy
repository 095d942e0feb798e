/** The metadata region: records of any size handed out round and round. */
module MetaRing {
  import opened Bytes
  import opened RecorderFormat
  import opened StorageDev
  import opened Device
  import opened Layout

  const META_ALIGN: nat := 16

  datatype MetaResult = NoMeta | MetaAt(off: nat)

  function MetaBase(d: Dev): nat { StorageDev.DataStart(d) + d.sb.metaStartChunk * ChunkBytes(d) }

  /** Where a record of `n` bytes starts when the last one ended at `next`. */
  function Place(next: nat, n: nat, total: nat): nat { if next + n > total then 0 else next }

  /** A record of the region, or nothing where there is no region or the record is larger than it. */
  function MetaAlloc(d: Dev, size: u64): (Dev, MetaResult) {
    var n := AlignUp(size, META_ALIGN);
    if d.st.metaBytes == 0 || n > d.st.metaBytes then (d, NoMeta)
    else
      var at := Place(d.st.metaNextOff, n, d.st.metaBytes);
      (Flush(d.(st := d.st.(metaNextOff := (at + n) % U64_END))), MetaAt(MetaBase(d) + at))
  }

  method AllocRecord(d: Device, size: u64) returns (r: MetaResult)
    modifies d`sb, d`st, d.disk
    ensures (d.State(), r) == MetaAlloc(old(d.State()), size)
  {
    hide StorageDev.Flush;
    if d.st.metaBytes == 0 {
      return NoMeta;
    }
    var n := AlignUp(size, META_ALIGN);
    if n > d.st.metaBytes {
      return NoMeta;
    }
    var at := d.st.metaNextOff;
    if at + n > d.st.metaBytes {
      at := 0;
    }
    r := MetaAt(d.sb.dataStartSec * SEC + d.sb.metaStartChunk * (d.sb.chunkSectors * SEC) + at);
    d.st := d.st.(metaNextOff := (at + n) % U64_END);
    d.Flush();
  }

  // ---- runs of records ----

  /** Start of record `i` of a run of records of these sizes. */
  function StartOf(sizes: seq<nat>, total: nat, i: nat): nat
    requires i < |sizes|
  {
    Place(if i == 0 then 0 else StartOf(sizes, total, i - 1) + sizes[i - 1], sizes[i], total)
  }

  function Total(sizes: seq<nat>, i: nat, j: nat): nat
    requires i <= j <= |sizes|
  {
    if i == j then 0 else Total(sizes, i, j - 1) + sizes[j - 1]
  }

  /** Every record lies within the region. */
  lemma {:induction false} RecordWithin(sizes: seq<nat>, total: nat, i: nat)
    requires i < |sizes| && forall k :: 0 <= k < |sizes| ==> sizes[k] <= total
    ensures StartOf(sizes, total, i) + sizes[i] <= total
  {
  }

  /** Where the last return to the start before record `j`, and after `i`, happened; `i` if none did. */
  function LastReturn(sizes: seq<nat>, total: nat, i: nat, j: nat): (w: nat)
    requires i <= j < |sizes|
    ensures i <= w <= j
    decreases j
  {
    if i == j then i
    else if StartOf(sizes, total, j - 1) + sizes[j - 1] + sizes[j] > total then j
    else LastReturn(sizes, total, i, j - 1)
  }

  /** Since the last return, records follow each other. */
  lemma {:induction false} SinceReturn(sizes: seq<nat>, total: nat, i: nat, j: nat)
    requires i <= j < |sizes|
    ensures var w := LastReturn(sizes, total, i, j);
      && (w > i ==> StartOf(sizes, total, j) == Total(sizes, w, j))
      && (w == i ==> StartOf(sizes, total, j) == StartOf(sizes, total, i) + Total(sizes, i, j))
    decreases j
  {
    if i < j {
      if LastReturn(sizes, total, i, j) == j {
        assert Total(sizes, j, j) == 0;
      } else {
        SinceReturn(sizes, total, i, j - 1);
      }
    }
  }

  /** From a record to the next return after it, most of the region is used up. */
  lemma {:induction false} UntilReturn(sizes: seq<nat>, total: nat, i: nat, w: nat)
    requires i < w < |sizes| && StartOf(sizes, total, w - 1) + sizes[w - 1] + sizes[w] > total
    ensures exists v :: i < v <= w && StartOf(sizes, total, i) + Total(sizes, i, v) + sizes[v] > total
    decreases w
  {
    var u := LastReturn(sizes, total, i, w - 1);
    SinceReturn(sizes, total, i, w - 1);
    if u == i {
      assert StartOf(sizes, total, i) + Total(sizes, i, w) + sizes[w] > total;
    } else {
      ReturnWas(sizes, total, i, w - 1);
      UntilReturn(sizes, total, i, u);
    }
  }

  lemma {:induction false} ReturnWas(sizes: seq<nat>, total: nat, i: nat, j: nat)
    requires i <= j < |sizes|
    ensures var w := LastReturn(sizes, total, i, j); w > i ==> StartOf(sizes, total, w - 1) + sizes[w - 1] + sizes[w] > total
    decreases j
  {
    if i < j && LastReturn(sizes, total, i, j) != j {
      ReturnWas(sizes, total, i, j - 1);
    }
  }

  lemma {:induction false} TotalSplits(sizes: seq<nat>, i: nat, v: nat, j: nat)
    requires i <= v <= j <= |sizes|
    ensures Total(sizes, i, j) == Total(sizes, i, v) + Total(sizes, v, j)
    decreases j
  {
    if v < j {
      TotalSplits(sizes, i, v, j - 1);
    }
  }

  /** A record is not written over until, counting the records from it on and once more the one
      at which the region started over, more has been stored than the region holds. */
  lemma {:induction false} RecordSurvives(sizes: seq<nat>, total: nat, i: nat, j: nat)
    requires i < j < |sizes|
    requires StartOf(sizes, total, j) < StartOf(sizes, total, i) + sizes[i] && StartOf(sizes, total, i) < StartOf(sizes, total, j) + sizes[j]
    ensures exists v :: i < v <= j && Total(sizes, i, j + 1) + sizes[v] > total
  {
    hide StartOf, Total, LastReturn;
    var w := LastReturn(sizes, total, i, j);
    SinceReturn(sizes, total, i, j);
    TotalSplits(sizes, i, i + 1, j);
    TotalStep(sizes, i, i);
    ReturnWas(sizes, total, i, j);
    UntilReturn(sizes, total, i, w);
    var v :| i < v <= w && StartOf(sizes, total, i) + Total(sizes, i, v) + sizes[v] > total;
    TotalSplits(sizes, v, w, j + 1);
    TotalSplits(sizes, i, v, j + 1);
    TotalStep(sizes, w, j);
  }

  lemma TotalStep(sizes: seq<nat>, i: nat, j: nat)
    requires i <= j < |sizes|
    ensures Total(sizes, i, i) == 0 && Total(sizes, i, j + 1) == Total(sizes, i, j) + sizes[j]
  {
  }

  /** What a request gets: a multiple of 16 bytes behind the last record, or at the start of the region if there is not
      that much left; nothing if there is no region or it is too small. */
  lemma AllocIs(d: Dev, size: u64)
    requires d.st.metaNextOff <= d.st.metaBytes < U64_END
    ensures var n := (size + 15) / 16 * 16; var (e, r) := MetaAlloc(d, size);
      && (r.NoMeta? <==> d.st.metaBytes == 0 || n > d.st.metaBytes) && (r.NoMeta? ==> e == d)
      && (r.MetaAt? ==> var at := if d.st.metaNextOff + n > d.st.metaBytes then 0 else d.st.metaNextOff;
            && r.off == 512 * (d.sb.dataStartSec + d.sb.metaStartChunk * d.sb.chunkSectors) + at && at + n <= d.st.metaBytes
            && e.st.metaNextOff == at + n && e.st.metaBytes == d.st.metaBytes)
  {
    hide EncodeSt, EncodeSb, WriteTables;
    assert d.sb.metaStartChunk * (d.sb.chunkSectors * 512) == 512 * (d.sb.metaStartChunk * d.sb.chunkSectors);
  }

  /** Allocating on a disk is placing on this ring. */
  lemma AllocPlaces(d: Dev, size: u64)
    requires d.st.metaNextOff <= d.st.metaBytes < U64_END
    ensures var n := AlignUp(size, META_ALIGN); var (e, r) := MetaAlloc(d, size);
      && (r.NoMeta? <==> d.st.metaBytes == 0 || n > d.st.metaBytes)
      && (r.MetaAt? ==> var at := Place(d.st.metaNextOff, n, d.st.metaBytes);
            && r.off == MetaBase(d) + at && at + n <= d.st.metaBytes && e.st.metaNextOff == at + n && e.st.metaBytes == d.st.metaBytes)
  {
    hide EncodeSt, EncodeSb, WriteTables;
  }

  // ---- runs of the allocator ----

  /** A record handed out: its place on the disk and its rounded size. */
  datatype Piece = Piece(off: nat, size: nat)

  /** The records a run of requests is given; requests that are refused give none. */
  function MetaRun(d: Dev, reqs: seq<u64>): (Dev, seq<Piece>) {
    if reqs == [] then (d, [])
    else
      var (m, ps) := MetaRun(d, reqs[..|reqs| - 1]);
      var (e, r) := MetaAlloc(m, reqs[|reqs| - 1]);
      (e, match r case NoMeta => ps case MetaAt(off) => ps + [Piece(off, AlignUp(reqs[|reqs| - 1], META_ALIGN))])
  }

  /** The sizes of the records, behind one that fills the region up to where the run began. */
  function Sizes(start: nat, ps: seq<Piece>): (r: seq<nat>)
    ensures |r| == |ps| + 1 && r[0] == start && forall i :: 0 <= i < |ps| ==> r[i + 1] == ps[i].size
  {
    [start] + seq(|ps|, i requires 0 <= i < |ps| => ps[i].size)
  }

  lemma {:induction false} StartSame(a: seq<nat>, b: seq<nat>, total: nat, i: nat)
    requires i < |a| && i < |b| && forall k :: 0 <= k <= i ==> a[k] == b[k]
    ensures StartOf(a, total, i) == StartOf(b, total, i)
  {
    if i > 0 {
      StartSame(a, b, total, i - 1);
    }
  }

  lemma AllocBase(d: Dev, size: u64)
    ensures MetaBase(MetaAlloc(d, size).0) == MetaBase(d)
  {
    hide EncodeSt, EncodeSb, WriteTables;
  }

  /** A run that began at `start` with `ps` handed out so far, on the device `e`. */
  ghost predicate Handed(e: Dev, start: nat, base: nat, total: nat, ps: seq<Piece>) {
    && e.st.metaBytes == total && MetaBase(e) == base
    && (forall k :: 0 <= k < |ps| + 1 ==> Sizes(start, ps)[k] <= total)
    && (forall i :: 0 <= i < |ps| ==> ps[i].off == base + StartOf(Sizes(start, ps), total, i + 1))
    && e.st.metaNextOff == StartOf(Sizes(start, ps), total, |ps|) + Sizes(start, ps)[|ps|] <= total
  }

  lemma SizesMore(start: nat, ps: seq<Piece>, p: Piece)
    ensures Sizes(start, ps + [p]) == Sizes(start, ps) + [p.size]
  {
  }

  lemma OneMorePiece(e: Dev, f: Dev, start: nat, base: nat, total: nat, ps: seq<Piece>, p: Piece)
    requires Handed(e, start, base, total, ps) && p.size <= total && p.off == base + Place(e.st.metaNextOff, p.size, total)
    requires f.st.metaBytes == total && MetaBase(f) == base && f.st.metaNextOff == Place(e.st.metaNextOff, p.size, total) + p.size
    ensures Handed(f, start, base, total, ps + [p])
  {
    hide MetaBase, StartOf, Place, Sizes;
    var before, sizes := Sizes(start, ps), Sizes(start, ps + [p]);
    SizesMore(start, ps, p);
    forall i | 0 <= i < |before|
      ensures sizes[i] == before[i] && StartOf(sizes, total, i) == StartOf(before, total, i)
    {
      assert forall k :: 0 <= k <= i ==> sizes[k] == before[k];
      StartSame(sizes, before, total, i);
    }
    NextStart(sizes, total, |ps| + 1);
    PlaceWithin(e.st.metaNextOff, p.size, total);
  }

  lemma PlaceWithin(next: nat, n: nat, total: nat)
    requires n <= total
    ensures Place(next, n, total) + n <= total
  {
  }

  /** A run hands its records out by the places on the ring. */
  lemma {:induction false} RunPlaces(d: Dev, reqs: seq<u64>)
    requires d.st.metaNextOff <= d.st.metaBytes < U64_END
    ensures Handed(MetaRun(d, reqs).0, d.st.metaNextOff, MetaBase(d), d.st.metaBytes, MetaRun(d, reqs).1)
    decreases |reqs|
  {
    hide MetaAlloc, MetaBase, StartOf, Sizes;
    if reqs == [] {
      FirstStart(d.st.metaNextOff, d.st.metaBytes);
      assert Sizes(d.st.metaNextOff, []) == [d.st.metaNextOff];
    } else {
      var req := reqs[|reqs| - 1];
      RunPlaces(d, reqs[..|reqs| - 1]);
      var (m, was) := MetaRun(d, reqs[..|reqs| - 1]);
      AllocPlaces(m, req);
      AllocBase(m, req);
      hide Handed, Place;
      HandedFacts(m, d.st.metaNextOff, MetaBase(d), d.st.metaBytes, was);
      var (e, r) := MetaAlloc(m, req);
      if r.MetaAt? {
        OneMorePiece(m, e, d.st.metaNextOff, MetaBase(d), d.st.metaBytes, was, Piece(r.off, AlignUp(req, META_ALIGN)));
      } else {
        RefusedStays(m, req);
      }
    }
  }

  lemma HandedFacts(e: Dev, start: nat, base: nat, total: nat, ps: seq<Piece>)
    requires Handed(e, start, base, total, ps)
    ensures e.st.metaBytes == total && MetaBase(e) == base && e.st.metaNextOff <= total
  {
  }

  lemma FirstStart(start: nat, total: nat)
    ensures start <= total ==> StartOf([start], total, 0) + start == start
  {
  }

  lemma NextStart(sizes: seq<nat>, total: nat, i: nat)
    requires 0 < i < |sizes|
    ensures StartOf(sizes, total, i) == Place(StartOf(sizes, total, i - 1) + sizes[i - 1], sizes[i], total)
  {
  }

  lemma RefusedStays(d: Dev, size: u64)
    ensures MetaAlloc(d, size).1.NoMeta? ==> MetaAlloc(d, size).0 == d
  {
  }

  /** Whatever is asked for in whatever order, every record handed out lies within the region. */
  lemma PiecesWithin(d: Dev, reqs: seq<u64>, i: nat)
    requires d.st.metaNextOff <= d.st.metaBytes < U64_END && i < |MetaRun(d, reqs).1|
    ensures var p := MetaRun(d, reqs).1[i]; MetaBase(d) <= p.off && p.off + p.size <= MetaBase(d) + d.st.metaBytes
  {
    hide MetaRun, MetaBase, StartOf;
    RunPlaces(d, reqs);
    RecordWithin(Sizes(d.st.metaNextOff, MetaRun(d, reqs).1), d.st.metaBytes, i + 1);
  }

  function Stored(ps: seq<Piece>, i: nat, j: nat): nat
    requires i <= j <= |ps|
  {
    if i == j then 0 else Stored(ps, i, j - 1) + ps[j - 1].size
  }

  lemma {:induction false} StoredIs(start: nat, ps: seq<Piece>, i: nat, j: nat)
    requires i <= j <= |ps|
    ensures Stored(ps, i, j) == Total(Sizes(start, ps), i + 1, j + 1)
    decreases j
  {
    if i < j {
      StoredIs(start, ps, i, j - 1);
    }
  }

  /** And none is written over by a later one until, counting the records from it on and once more the one at
      which the region started over, more has been stored than the region holds. */
  lemma PiecesSurvive(d: Dev, reqs: seq<u64>, i: nat, j: nat)
    requires d.st.metaNextOff <= d.st.metaBytes < U64_END && i < j < |MetaRun(d, reqs).1|
    requires var ps := MetaRun(d, reqs).1; ps[j].off < ps[i].off + ps[i].size && ps[i].off < ps[j].off + ps[j].size
    ensures var ps := MetaRun(d, reqs).1; exists v :: i < v <= j && Stored(ps, i, j + 1) + ps[v].size > d.st.metaBytes
  {
    hide MetaRun, MetaBase, StartOf, Total, Stored, Sizes;
    var ps := MetaRun(d, reqs).1;
    PlaceOfPiece(d, reqs, i);
    PlaceOfPiece(d, reqs, j);
    OverlapCounts(d.st.metaNextOff, d.st.metaBytes, ps, i, j);
  }

  lemma PlaceOfPiece(d: Dev, reqs: seq<u64>, i: nat)
    requires d.st.metaNextOff <= d.st.metaBytes < U64_END && i < |MetaRun(d, reqs).1|
    ensures MetaRun(d, reqs).1[i].off == MetaBase(d) + StartOf(Sizes(d.st.metaNextOff, MetaRun(d, reqs).1), d.st.metaBytes, i + 1)
  {
    hide MetaRun, MetaBase, StartOf;
    RunPlaces(d, reqs);
  }

  lemma OverlapCounts(start: nat, total: nat, ps: seq<Piece>, i: nat, j: nat)
    requires i < j < |ps|
    requires var sizes := Sizes(start, ps);
      && StartOf(sizes, total, j + 1) < StartOf(sizes, total, i + 1) + ps[i].size
      && StartOf(sizes, total, i + 1) < StartOf(sizes, total, j + 1) + ps[j].size
    ensures exists v :: i < v <= j && Stored(ps, i, j + 1) + ps[v].size > total
  {
    hide StartOf, Total, Stored;
    var sizes := Sizes(start, ps);
    RecordSurvives(sizes, total, i + 1, j + 1);
    StoredIs(start, ps, i, j + 1);
    var v :| i + 1 < v <= j + 1 && Total(sizes, i + 1, j + 2) + sizes[v] > total;
    assert ps[v - 1].size == sizes[v];
  }
}
