/** The export's scan of a frame for NAL units, and which of them go into a sample. */
module NalScan {
  import opened Bytes
  import opened Rtp

  /** The next three-byte start code from `from` on; the length when there is none. */
  function NextCode3(d: seq<byte>, from: nat): (j: nat)
    ensures j == |d| || (from <= j && Code3At(d, j))
    decreases |d| - from
  {
    if from + 3 > |d| then |d| else if Code3At(d, from) then from else NextCode3(d, from + 1)
  }

  /** Drops zero bytes before `e`. */
  function TrimZeros(d: seq<byte>, s: nat, e: nat): (t: nat)
    requires s <= e <= |d|
    ensures s <= t <= e && (t > s ==> d[t - 1] != 0)
  {
    if e > s && d[e - 1] == 0 then TrimZeros(d, s, e - 1) else e
  }

  /** The NAL units from `i` on, trailing zeros removed, empty ones left out. */
  function Scan(d: seq<byte>, i: nat): seq<Nal>
    decreases |d| - i
  {
    if i + 3 > |d| then []
    else if Code3At(d, i) then
      var s := i + 3;
      var j := NextCode3(d, s);
      var e := TrimZeros(d, s, j);
      (if e > s then [d[s..e]] else []) + Scan(d, j)
    else Scan(d, i + 1)
  }

  method ScanNals(d: seq<byte>) returns (nals: seq<Nal>)
    ensures nals == Scan(d, 0)
  {
    hide Code3At, TrimZeros, NextCode3;
    nals := [];
    var i: nat := 0;
    assert [] + Scan(d, 0) == Scan(d, 0);
    while i + 3 <= |d|
      invariant 0 <= i <= |d| && nals + Scan(d, i) == Scan(d, 0)
      decreases |d| - i
    {
      if IsCode(d, i) {
        var s, j, e := OneNal(d, i);
        ghost var before, rest := nals, Scan(d, j);
        if e > s {
          nals := nals + [d[s..e]];
          assert before + ([d[s..e]] + rest) == nals + rest;
        } else {
          assert [] + rest == rest;
        }
        i := j;
      } else {
        i := i + 1;
      }
    }
    assert Scan(d, i) == [] && nals + [] == nals;
  }

  predicate IsCode(d: seq<byte>, i: nat)
    ensures IsCode(d, i) <==> Code3At(d, i)
  {
    i + 3 <= |d| && d[i] == 0 && d[i + 1] == 0 && d[i + 2] == 1
  }

  /** From a start code: where the NAL unit begins and ends, and where the scan goes on. */
  method OneNal(d: seq<byte>, i: nat) returns (s: nat, j: nat, e: nat)
    requires Code3At(d, i)
    ensures s == i + 3 && j == NextCode3(d, s) && s <= j <= |d| && e == TrimZeros(d, s, j) && s <= e <= j
  {
    s := i + 3;
    j := s;
    while j + 3 <= |d| && !IsCode(d, j)
      invariant s <= j <= |d| && NextCode3(d, s) == NextCode3(d, j)
      decreases |d| - j
    {
      j := j + 1;
    }
    j := if j + 3 <= |d| then j else |d|;
    e := j;
    while e > s && d[e - 1] == 0
      invariant s <= e <= j && TrimZeros(d, s, e) == TrimZeros(d, s, j)
    {
      e := e - 1;
    }
  }

  // ---- scanning undoes joining ----

  lemma {:induction false} NextCodeIs(d: seq<byte>, from: nat, to: nat)
    requires from <= to <= |d| && (forall i :: from <= i < to ==> !Code3At(d, i)) && (to == |d| || Code3At(d, to))
    ensures NextCode3(d, from) == to
    decreases |d| - from
  {
    if from < to && from + 3 <= |d| {
      NextCodeIs(d, from + 1, to);
    }
  }

  /** Where the three-byte part of a start code is. */
  function Lead(long: bool): nat { if long then 1 else 0 }

  /** The first start code, long or short, and no three-byte code before its last three bytes. */
  lemma CodeThere(d: seq<byte>, before: seq<byte>, long: bool, after: seq<byte>)
    requires d == before + StartCode(long) + after
    ensures Code3At(d, |before| + Lead(long)) && (long ==> !Code3At(d, |before|) && d[|before|] == 0)
  {
    assert d[|before|..|before| + |StartCode(long)|] == StartCode(long);
    assert forall i :: 0 <= i < |StartCode(long)| ==> d[|before| + i] == StartCode(long)[i];
  }

  /** Behind a well-formed NAL unit: the next code, and the NAL unit once its trailing zeros are cut. */
  lemma NalEnds(d: seq<byte>, s: nat, nal: Nal, next: nat, long: bool)
    requires WellFormed(nal) && next == s + |nal| <= |d| && d[s..next] == nal
    requires next == |d| || (Code3At(d, next + Lead(long)) && (long ==> !Code3At(d, next) && d[next] == 0))
    ensures var j := NextCode3(d, s);
      && j == (if next == |d| then next else next + Lead(long)) && TrimZeros(d, s, j) == next
  {
    forall i | s <= i < next
      ensures !Code3At(d, i)
    {
      NoCodeInside(d, s, nal, i);
    }
    var j := if next == |d| then next else next + Lead(long);
    NextCodeIs(d, s, j);
    assert d[next - 1] == nal[|nal| - 1] != 0;
    assert TrimZeros(d, s, next) == next;
  }

  lemma ScanSkips(d: seq<byte>, i: nat)
    requires i < |d| && !Code3At(d, i)
    ensures Scan(d, i) == Scan(d, i + 1)
  {
    if i + 3 > |d| {
      assert Scan(d, i + 1) == [];
    }
  }

  /** The scan up to the NAL unit behind a start code. */
  lemma ScanToNal(d: seq<byte>, before: seq<byte>, long: bool, nal: Nal, rest: seq<byte>)
    requires d == before + StartCode(long) + nal + rest
    ensures var i := |before| + Lead(long);
      Code3At(d, i) && Scan(d, |before|) == Scan(d, i) && |d| >= i + 3 + |nal| && d[i + 3..i + 3 + |nal|] == nal
    ensures |before + StartCode(long) + nal| == |before| + Lead(long) + 3 + |nal|
  {
    hide Code3At, Scan, StartCode;
    CodeSize(long);
    Associate(before + StartCode(long), nal, rest);
    CodeThere(d, before, long, nal + rest);
    if long {
      ScanSkips(d, |before|);
    }
  }

  /** The end of a NAL unit, at the end of the data or before a start code. */
  lemma NalToNext(d: seq<byte>, head: seq<byte>, s: nat, nal: Nal, rest: seq<byte>, nextLong: bool, more: seq<byte>)
    requires WellFormed(nal) && d == head + rest && s + |nal| == |head| && d[s..|head|] == nal
    requires rest == [] || rest == StartCode(nextLong) + more
    ensures var j := NextCode3(d, s);
      s <= j <= |d| && TrimZeros(d, s, j) == |head| && Scan(d, j) == Scan(d, |head|)
  {
    hide Code3At, WellFormed, TrimZeros, NextCode3, Scan, StartCode;
    if rest == [] {
      NalEnds(d, s, nal, |head|, false);
    } else {
      Associate(head, StartCode(nextLong), more);
      CodeSize(nextLong);
      CodeThere(d, head, nextLong, more);
      NalEnds(d, s, nal, |head|, nextLong);
      if nextLong {
        ScanSkips(d, |head|);
      }
    }
  }

  /** One NAL unit of the scan, up to the start code behind it or the end. */
  lemma ScanOne(d: seq<byte>, before: seq<byte>, long: bool, nal: Nal, rest: seq<byte>, nextLong: bool, more: seq<byte>)
    requires d == before + StartCode(long) + nal + rest && WellFormed(nal)
    requires rest == [] || rest == StartCode(nextLong) + more
    ensures Scan(d, |before|) == [nal] + Scan(d, |before + StartCode(long) + nal|)
  {
    hide Code3At, WellFormed, TrimZeros, NextCode3, Scan, StartCode;
    ScanToNal(d, before, long, nal, rest);
    var i := |before| + Lead(long);
    NalToNext(d, before + StartCode(long) + nal, i + 3, nal, rest, nextLong, more);
    NonEmpty(nal);
    ScanStep(d, i);
  }

  lemma CodeSize(long: bool)
    ensures |StartCode(long)| == Lead(long) + 3
  {
  }

  lemma Associate(a: seq<byte>, b: seq<byte>, c: seq<byte>)
    ensures a + b + c == a + (b + c)
  {
  }

  lemma JoinParts(nals: seq<Nal>, long: seq<bool>)
    requires |long| == |nals| && nals != []
    ensures var rest := Join(nals[1..], long[1..]);
      && Join(nals, long) == StartCode(long[0]) + nals[0] + rest
      && (|nals| == 1 ==> rest == [])
      && (|nals| > 1 ==> rest == StartCode(long[1]) + (nals[1] + Join(nals[2..], long[2..])))
  {
    hide StartCode;
    if |nals| > 1 {
      var tail, tl := nals[1..], long[1..];
      assert tail[1..] == nals[2..] && tl[1..] == long[2..];
      Associate(StartCode(tl[0]), tail[0], Join(tail[1..], tl[1..]));
    }
  }

  lemma {:induction false} ScanFrom(before: seq<byte>, nals: seq<Nal>, long: seq<bool>)
    requires |long| == |nals| && forall i :: 0 <= i < |nals| ==> WellFormed(nals[i])
    ensures Scan(before + Join(nals, long), |before|) == nals
    decreases |nals|
  {
    hide WellFormed, Scan, Join, StartCode;
    var d := before + Join(nals, long);
    if nals == [] {
      NothingLeft(d, before, nals, long);
    } else {
      JoinParts(nals, long);
      var head, rest := before + StartCode(long[0]) + nals[0], Join(nals[1..], long[1..]);
      assert d == before + StartCode(long[0]) + nals[0] + rest == head + rest;
      ScanFrom(head, nals[1..], long[1..]);
      if |nals| == 1 {
        ScanOne(d, before, long[0], nals[0], rest, false, []);
      } else {
        ScanOne(d, before, long[0], nals[0], rest, long[1], nals[1] + Join(nals[2..], long[2..]));
      }
      assert nals == [nals[0]] + nals[1..];
    }
  }

  lemma NothingLeft(d: seq<byte>, before: seq<byte>, nals: seq<Nal>, long: seq<bool>)
    requires nals == [] && |long| == 0 && d == before + Join(nals, long)
    ensures Scan(d, |before|) == []
  {
  }

  lemma NonEmpty(nal: Nal)
    requires WellFormed(nal)
    ensures nal != []
  {
  }

  lemma ScanStep(d: seq<byte>, i: nat)
    requires Code3At(d, i)
    ensures var s := i + 3; var j := NextCode3(d, s); var e := TrimZeros(d, s, j);
      Scan(d, i) == (if e > s then [d[s..e]] else []) + Scan(d, j)
  {
  }

  /** Any number of well-formed NAL units behind start codes of either length is found again. */
  lemma ScanJoin(nals: seq<Nal>, long: seq<bool>)
    requires |long| == |nals| && forall i :: 0 <= i < |nals| ==> WellFormed(nals[i])
    ensures Scan(Join(nals, long), 0) == nals
  {
    ScanFrom([], nals, long);
    assert [] + Join(nals, long) == Join(nals, long);
  }
}
