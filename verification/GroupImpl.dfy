/** A group of disks as an object, and the choice of the disk for the next segment. */
module GroupImpl {
  import opened Bytes
  import opened StorageDev
  import opened Device
  import opened Group

  /** Different devices over different images. */
  ghost predicate Distinct(ds: seq<Device>) {
    forall i, j :: 0 <= i < |ds| && 0 <= j < |ds| && i != j ==> ds[i] != ds[j] && ds[i].disk != ds[j].disk
  }

  ghost function Images(ds: seq<Device>): set<object> { set i | 0 <= i < |ds| :: ds[i].disk }

  ghost function States(ds: seq<Device>): (r: seq<Dev>)
    reads ds, Images(ds)
    ensures |r| == |ds| && forall i :: 0 <= i < |ds| ==> r[i] == ds[i].State()
  {
    seq(|ds|, i requires 0 <= i < |ds| reads ds, Images(ds) => ds[i].State())
  }

  class DiskGroup {
    const devs: seq<Device>
    var rr: u32

    ghost function Value(): Pool
      reads this, devs, Images(devs)
    {
      Pool(States(devs), rr)
    }

    constructor (devs: seq<Device>)
      ensures this.devs == devs && rr == 0
    {
      this.devs, rr := devs, 0;
    }

    method BestLoadNow() returns (best: real)
      ensures best == BestLoad(States(devs)) && States(devs) == old(States(devs))
    {
      hide Load, DevLoad;
      ghost var s := States(devs);
      best := 2.0;
      var i := 0;
      while i < |devs|
        invariant 0 <= i <= |devs| && best == BestLoad(s[..i]) && States(devs) == s
      {
        var l := DevLoad(devs[i]);
        DevLoadIs(devs[i]);
        BestLoadStep(s, i);
        if l < best {
          best := l;
        }
        i := i + 1;
      }
      assert s[..i] == s;
    }

    static lemma BestLoadStep(s: seq<Dev>, i: nat)
      requires i < |s|
      ensures var b, l := BestLoad(s[..i]), Load(s[i]); BestLoad(s[..i + 1]) == if l < b then l else b
    {
      hide Load, DevLoad;
      assert s[..i + 1][..i] == s[..i] && s[..i + 1][i] == s[i];
    }

    /** The first 64 disks within the tie threshold. */
    method Ties(best: real) returns (cand: array<nat>, nc: nat)
      ensures nc <= cand.Length && cand[..nc] == Candidates(States(devs), best + EPS, 0, MAX_CANDIDATES)
      ensures States(devs) == old(States(devs))
    {
      hide Load, DevLoad, BestLoad, Candidates;
      ghost var s := States(devs);
      ghost var all := Candidates(s, best + EPS, 0, MAX_CANDIDATES);
      cand := new nat[MAX_CANDIDATES];
      nc := 0;
      assert cand[..nc] + all == all;
      assert forall j :: 0 <= j < |devs| ==> States(devs)[j] == s[j];
      var i := 0;
      while i < |devs| && nc < MAX_CANDIDATES
        invariant 0 <= i <= |devs| && nc <= MAX_CANDIDATES && States(devs) == s
        invariant cand[..nc] + Candidates(s, best + EPS, i, MAX_CANDIDATES - nc) == all
      {
        DevLoadIs(devs[i]);
        CandidatesStep(s, best + EPS, i, MAX_CANDIDATES - nc, cand[..nc]);
        if DevLoad(devs[i]) <= best + EPS {
          ghost var before := cand[..nc];
          cand[nc] := i;
          assert cand[..nc + 1] == before + [i];
          nc := nc + 1;
          assert forall j :: 0 <= j < |devs| ==> States(devs)[j] == s[j];
        }
        i := i + 1;
      }
      CandidatesEnd(s, best + EPS, i, MAX_CANDIDATES - nc);
      assert cand[..nc] + [] == cand[..nc];
    }

    /** The least loaded disk; ties are broken round-robin. */
    method BalancePick() returns (pick: nat)
      requires Ready(Value())
      modifies `rr
      ensures pick == Pick(old(Value())) && Value() == Turn(old(Value()))
    {
      hide Load, BestLoad, Candidates;
      TieSetNonempty(Value());
      var best := BestLoadNow();
      var cand, nc := Ties(best);
      pick := cand[rr % nc];
      rr := U32(rr + 1);
      assert forall j :: 0 <= j < |devs| ==> States(devs)[j] == old(States(devs))[j];
    }
  }

  function DevLoad(d: Device): real
    reads d
  {
    var data := (d.sb.chunkCount - d.sb.metaChunkCount) % U64_END;
    if data != 0 then d.sb.writePtrChunk as real / data as real else 1.0
  }

  lemma CandidatesStep(s: seq<Dev>, limit: real, i: nat, room: nat, before: seq<nat>)
    requires i < |s| && room > 0
    ensures before + Candidates(s, limit, i, room)
      == if Load(s[i]) <= limit then before + [i] + Candidates(s, limit, i + 1, room - 1) else before + Candidates(s, limit, i + 1, room)
  {
    assert before + ([i] + Candidates(s, limit, i + 1, room - 1)) == before + [i] + Candidates(s, limit, i + 1, room - 1);
  }

  lemma CandidatesEnd(s: seq<Dev>, limit: real, i: nat, room: nat)
    requires i >= |s| || room == 0
    ensures Candidates(s, limit, i, room) == []
  {
  }

  lemma DevLoadIs(d: Device)
    ensures DevLoad(d) == Load(d.State())
  {
  }
}
