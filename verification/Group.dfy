/** A pool of disks: the load-balanced choice of the disk for a group writer's next segment,
    and the writer's operations over the pool. */
module Group {
  import opened Bytes
  import opened RecorderFormat
  import opened StorageDev
  import opened Index
  import opened Recorder

  datatype Pool = Pool(devs: seq<Dev>, rr: u32)

  const EPS: real := 1.0 / 100000.0
  const MAX_CANDIDATES: nat := 64

  /** Allocated chunks over data chunks. */
  function Load(d: Dev): real {
    if DataChunks(d) == 0 then 1.0 else d.sb.writePtrChunk as real / DataChunks(d) as real
  }

  /** The least load, at most 2. */
  function BestLoad(devs: seq<Dev>): real {
    if devs == [] then 2.0
    else
      var b := BestLoad(devs[..|devs| - 1]);
      var l := Load(devs[|devs| - 1]);
      if l < b then l else b
  }

  /** The first 64 disks, from `i` on, with load at most `limit`. */
  function Candidates(devs: seq<Dev>, limit: real, i: nat, room: nat): (r: seq<nat>)
    ensures forall c :: c in r ==> c < |devs| && Load(devs[c]) <= limit
    decreases |devs| - i
  {
    if i >= |devs| || room == 0 then []
    else if Load(devs[i]) <= limit then [i] + Candidates(devs, limit, i + 1, room - 1)
    else Candidates(devs, limit, i + 1, room)
  }

  function TieSet(p: Pool): seq<nat> { Candidates(p.devs, BestLoad(p.devs) + EPS, 0, MAX_CANDIDATES) }

  /** There is a disk to pick: none is loaded more than twice over, which a ring position
      within the ring ensures, and each has an index. */
  ghost predicate Ready(p: Pool) {
    p.devs != [] && forall i :: 0 <= i < |p.devs| ==> Load(p.devs[i]) <= 2.0 && SlotCount(p.devs[i]) > 0
  }

  lemma {:induction false} BestLoadLeast(devs: seq<Dev>)
    ensures BestLoad(devs) <= 2.0 && forall i :: 0 <= i < |devs| ==> BestLoad(devs) <= Load(devs[i])
    ensures BestLoad(devs) == 2.0 || exists i :: 0 <= i < |devs| && BestLoad(devs) == Load(devs[i])
  {
    hide Load;
    if devs != [] {
      var rest := devs[..|devs| - 1];
      BestLoadLeast(rest);
      assert forall i :: 0 <= i < |rest| ==> devs[i] == rest[i];
    }
  }

  lemma {:induction false} CandidatesNonempty(devs: seq<Dev>, limit: real, i: nat, room: nat, j: nat)
    requires i <= j < |devs| && Load(devs[j]) <= limit && room > 0
    ensures Candidates(devs, limit, i, room) != []
    decreases |devs| - i
  {
    hide Load;
    if Load(devs[i]) > limit {
      CandidatesNonempty(devs, limit, i + 1, room, j);
    }
  }

  lemma TieSetNonempty(p: Pool)
    requires Ready(p)
    ensures TieSet(p) != []
  {
    hide Load, BestLoad, Candidates;
    BestLoadLeast(p.devs);
    if BestLoad(p.devs) == 2.0 {
      CandidatesNonempty(p.devs, BestLoad(p.devs) + EPS, 0, MAX_CANDIDATES, 0);
    } else {
      var j :| 0 <= j < |p.devs| && BestLoad(p.devs) == Load(p.devs[j]);
      CandidatesNonempty(p.devs, BestLoad(p.devs) + EPS, 0, MAX_CANDIDATES, j);
    }
  }

  /** The disk for the next segment: round-robin among those tied for the least load. */
  function Pick(p: Pool): (i: nat)
    requires Ready(p)
    ensures i < |p.devs| && Load(p.devs[i]) <= BestLoad(p.devs) + EPS
  {
    TieSetNonempty(p);
    var c := TieSet(p);
    assert c[p.rr % |c|] in c;
    c[p.rr % |c|]
  }

  /** A disk no more than 1/100000 above the least loaded. */
  predicate Tied(devs: seq<Dev>, i: nat)
    requires i < |devs|
  {
    forall j :: 0 <= j < |devs| ==> Load(devs[i]) <= Load(devs[j]) + 0.00001
  }

  /** The disks to choose from are the first 64 of these, in order. */
  lemma TieSetIs(p: Pool)
    requires Ready(p)
    ensures var c := TieSet(p);
      && 0 < |c| <= 64 && (forall a, b :: 0 <= a < b < |c| ==> c[a] < c[b])
      && (forall i :: 0 <= i < |p.devs| ==> (i in c ==> Tied(p.devs, i)) && (Tied(p.devs, i) ==> i in c || (|c| == 64 && c[63] < i)))
  {
    hide Load, BestLoad, Candidates, Ready;
    TieSetNonempty(p);
    BestLoadLeast(p.devs);
    CandidatesAre(p.devs, BestLoad(p.devs) + EPS, 0, MAX_CANDIDATES);
    forall i | 0 <= i < |p.devs|
      ensures Load(p.devs[i]) <= BestLoad(p.devs) + EPS <==> Tied(p.devs, i)
    {
      TiedIs(p, i);
    }
  }

  lemma TiedIs(p: Pool, i: nat)
    requires Ready(p) && i < |p.devs|
    ensures Load(p.devs[i]) <= BestLoad(p.devs) + EPS <==> Tied(p.devs, i)
  {
    hide Load, BestLoad;
    BestLoadLeast(p.devs);
    assert Load(p.devs[i]) <= 2.0;
  }

  lemma {:induction false} CandidatesAre(devs: seq<Dev>, limit: real, i: nat, room: nat)
    ensures var c := Candidates(devs, limit, i, room);
      && |c| <= room && (forall a :: 0 <= a < |c| ==> i <= c[a]) && (forall a, b :: 0 <= a < b < |c| ==> c[a] < c[b])
      && forall j :: i <= j < |devs| && Load(devs[j]) <= limit ==> j in c || (|c| == room && forall a :: 0 <= a < room ==> c[a] < j)
    decreases |devs| - i
  {
    hide Load;
    if i < |devs| && room > 0 {
      if Load(devs[i]) <= limit {
        CandidatesAre(devs, limit, i + 1, room - 1);
        var rest := Candidates(devs, limit, i + 1, room - 1);
        assert Candidates(devs, limit, i, room) == [i] + rest;
        forall j | i <= j < |devs| && Load(devs[j]) <= limit && j !in [i] + rest
          ensures 1 + |rest| == room && forall a :: 0 <= a < room ==> ([i] + rest)[a] < j
        {
          assert j != ([i] + rest)[0];
          assert j !in rest;
        }
      } else {
        CandidatesAre(devs, limit, i + 1, room);
      }
    }
  }

  function Turn(p: Pool): Pool { p.(rr := U32(p.rr + 1)) }

  /** The disk picked after `t` other picks. */
  function PickAfter(p: Pool, t: nat): nat
    requires Ready(p)
    decreases t
  {
    if t == 0 then Pick(p) else PickAfter(Turn(p), t - 1)
  }

  lemma {:induction false} PickAfterIs(p: Pool, t: nat)
    requires Ready(p) && p.rr + t < 0x1_0000_0000
    ensures TieSet(p) != [] && PickAfter(p, t) == TieSet(p)[(p.rr + t) % |TieSet(p)|]
    decreases t
  {
    hide Load, BestLoad, Candidates;
    TieSetIs(p);
    if t > 0 {
      PickAfterIs(Turn(p), t - 1);
    }
  }

  /** As the turn moves on, every one of these disks is picked once before any is picked again. */
  lemma PicksGoRound(p: Pool, i: nat)
    requires Ready(p) && i in TieSet(p) && p.rr + |TieSet(p)| <= 0x1_0000_0000
    ensures exists t :: 0 <= t < |TieSet(p)| && PickAfter(p, t) == i
    ensures forall t, u :: 0 <= t < |TieSet(p)| && 0 <= u < |TieSet(p)| && t != u ==> PickAfter(p, t) != PickAfter(p, u)
  {
    hide Load, BestLoad, Candidates, PickAfter, Pick, TieSet;
    TieSetNonempty(p);
    var c := TieSet(p);
    var n := |c|;
    var a :| 0 <= a < n && c[a] == i;
    RoundTo(p.rr, n, a);
    PickAfterIs(p, (a + n - p.rr % n) % n);
    forall t, u | 0 <= t < n && 0 <= u < n && t != u
      ensures PickAfter(p, t) != PickAfter(p, u)
    {
      TurnsDiffer(p, t, u);
    }
  }

  lemma TurnsDiffer(p: Pool, t: nat, u: nat)
    requires Ready(p) && t < |TieSet(p)| && u < |TieSet(p)| && t != u && p.rr + |TieSet(p)| <= 0x1_0000_0000
    ensures PickAfter(p, t) != PickAfter(p, u)
  {
    hide Load, BestLoad, Candidates, PickAfter, Pick, TieSet, Tied;
    TieSetIs(p);
    PickAfterIs(p, t);
    PickAfterIs(p, u);
    RoundDiffers(p.rr + t, p.rr + u, |TieSet(p)|);
  }

  lemma RoundTo(r: nat, n: nat, a: nat)
    requires a < n
    ensures var t := (a + n - r % n) % n; t < n && (r + t) % n == a
  {
    var q, m := r / n, r % n;
    assert r == n * q + m;
    if m <= a {
      ModUnique(a + n - m, n, 1, a - m);
      ModUnique(r + (a - m), n, q, a);
    } else {
      ModUnique(a + n - m, n, 0, a + n - m);
      assert n * (q + 1) == n * q + n;
      ModUnique(r + (a + n - m), n, q + 1, a);
    }
  }

  lemma RoundDiffers(x: nat, y: nat, n: nat)
    requires 0 < n && x != y && x < y + n && y < x + n
    ensures x % n != y % n
  {
    assert x == n * (x / n) + x % n && y == n * (y / n) + y % n;
    var q := x / n - y / n;
    assert n * q == n * (x / n) - n * (y / n);
    MulAtLeast(n, q);
    MulAtLeast(n, -q);
    assert n * -q == -(n * q);
  }

  // ---- writer operations ----

  datatype PoolResult = PoolResult(pool: Pool, wr: Wr, status: Status)

  /** A group writer moves to the picked disk before it knows whether that disk has room. */
  function StartSeg(p: Pool, w: Wr): (r: PoolResult)
    requires Ready(p) && w.dev < |p.devs|
    ensures |r.pool.devs| == |p.devs| && r.wr.dev < |p.devs| && r.wr.grouped == w.grouped && r.wr.chn == w.chn
    ensures forall i :: 0 <= i < |p.devs| ==> SlotCount(r.pool.devs[i]) > 0
  {
    var p1 := if w.grouped then Turn(p) else p;
    var w1 := if w.grouped then w.(dev := Pick(p)) else w;
    var r := StartOn(p1.devs[w1.dev], w1);
    PoolResult(p1.(devs := p1.devs[w1.dev := r.dev]), r.wr, r.status)
  }

  function FinalizeSeg(p: Pool, w: Wr): (r: Pool)
    requires Ready(p) && w.dev < |p.devs|
    ensures Ready(r) && |r.devs| == |p.devs|
  {
    FinalizeReady(p, w);
    hide Finalize, Load;
    p.(devs := p.devs[w.dev := Finalize(p.devs[w.dev], w)])
  }

  lemma FinalizeReady(p: Pool, w: Wr)
    requires Ready(p) && w.dev < |p.devs|
    ensures Ready(p.(devs := p.devs[w.dev := Finalize(p.devs[w.dev], w)]))
  {
    hide Finalize, Load;
    SameLoad(p.devs[w.dev], Finalize(p.devs[w.dev], w));
  }

  lemma SameLoad(d: Dev, e: Dev)
    requires SameRing(d, e)
    ensures Load(e) == Load(d) && SlotCount(e) == SlotCount(d)
  {
  }

  function PutOn(p: Pool, w: Wr, f: Frame): (r: PoolResult)
    requires w.dev < |p.devs| && SlotCount(p.devs[w.dev]) > 0
    ensures r.status == Ok
  {
    var (d, w') := PutFrame(p.devs[w.dev], w, f);
    PoolResult(p.(devs := p.devs[w.dev := d]), w', Ok)
  }

  /** The frame does not fit behind what the open segment already holds. */
  predicate MustRotate(d: Dev, w: Wr, f: Frame) {
    w.frameCount > 0 && U32(w.curOff + Need32(|f.data|)) > ChunkBytes(d)
  }

  /** What keeps a frame from being written at all. */
  function Refusal(d: Dev, f: Frame): Status {
    if |f.data| == 0 then Fail(Param)
    else if HDR_SIZE + |f.data| > ChunkBytes(d) then Fail(NoSpace)
    else Ok
  }

  /** Closes the full segment and starts the next one where needed. */
  function MakeRoom(p: Pool, w: Wr, f: Frame): (r: PoolResult)
    requires Ready(p) && w.dev < |p.devs|
    ensures |r.pool.devs| == |p.devs| && r.wr.dev < |p.devs| && SlotCount(r.pool.devs[r.wr.dev]) > 0
  {
    if MustRotate(p.devs[w.dev], w, f) then StartSeg(FinalizeSeg(p, w), w) else PoolResult(p, w, Ok)
  }

  function WriteFrame(p: Pool, w: Wr, f: Frame): PoolResult
    requires Ready(p) && w.dev < |p.devs|
  {
    var refusal := Refusal(p.devs[w.dev], f);
    if refusal.Fail? then PoolResult(p, w, refusal)
    else
      var r := MakeRoom(p, w, f);
      if r.status.Fail? then r else PutOn(r.pool, r.wr, f)
  }

  function ChangeType(p: Pool, w: Wr, rectype: u8): PoolResult
    requires Ready(p) && w.dev < |p.devs|
  {
    StartSeg(FinalizeSeg(p, w), w.(rectype := rectype))
  }

  function FlushAll(devs: seq<Dev>): seq<Dev> { seq(|devs|, i requires 0 <= i < |devs| => Flush(devs[i])) }

  function Close(p: Pool, w: Wr): Pool
    requires Ready(p) && w.dev < |p.devs|
  {
    var q := FinalizeSeg(p, w);
    if w.grouped then q.(devs := FlushAll(q.devs)) else q.(devs := q.devs[w.dev := Flush(q.devs[w.dev])])
  }
}
