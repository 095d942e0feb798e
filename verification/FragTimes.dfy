/** When the samples of a fragmented export are shown: what their durations come to over a whole run. */
module FragTimes {
  import opened Bytes
  import opened Rtp
  import opened NalScan
  import opened Boxes
  import opened Mp4
  import opened Mp4File
  import opened FragMp4
  import opened FragRun

  /** The duration of frame `i`: the time to the next frame of its fragment where that is later, and the
      default at the end of a fragment, which is before each key frame. */
  function SampleTime(c: Codec, fs: seq<Frame>, i: nat, dflt: u32): u32
    requires i < |fs|
  {
    if i + 1 == |fs| || KeyOf(c, fs[i + 1]) || fs[i + 1].pts <= fs[i].pts || (fs[i + 1].pts - fs[i].pts) % U32_END == 0 then dflt
    else (fs[i + 1].pts - fs[i].pts) % U32_END
  }

  ghost predicate Timed(c: Codec, ss: seq<FragSample>, fs: seq<Frame>, dflt: u32) {
    |ss| == |fs| && forall i :: 0 <= i < |ss| ==> ss[i].dur == SampleTime(c, fs, i, dflt)
  }

  /** Only the first waiting sample may be a key sample; what is in fragments has its durations; and
      what comes next begins a fragment. */
  ghost predicate TimeInv(m: FragMovie, fs: seq<Frame>, dflt: u32) {
    Total(m) < U32_END ==>
      var c, ks, ss := CodecIn(m), Kept(fs), AllSamples(ReadFragments(m.boxes));
      && |ss| <= |ks| && Timed(c, ss, ks[..|ss|], dflt)
      && (forall i :: 1 <= i < |m.pend| ==> !m.pend[i].key)
      && (0 < |ss| < |ks| ==> KeyOf(c, ks[|ss|]))
  }

  // ---- flushing ----

  lemma {:induction false} CutTimes(ps: seq<Pending>, ds: seq<u32>, payload: seq<byte>, i: nat)
    requires |ds| == |ps| && Sum(PendingSizes(ps)) == |payload| && i < |ps|
    ensures |Cut(ps, ds, payload)| == |ps| && Cut(ps, ds, payload)[i].dur == ds[i]
    decreases |ps|
  {
    hide Sum, PendingSizes;
    SumSizes(ps);
    if |ps| > 1 {
      CutTimes(ps[1..], ds[1..], payload[ps[0].size..], if i == 0 then 0 else i - 1);
    }
  }

  /** The durations of a fragment in terms of all frames. */
  lemma WaitingTime(c: Codec, ps: seq<Pending>, ks: seq<Frame>, n: nat, dflt: u32, i: nat)
    requires n <= |ks| && Waiting(c, ps, ks[n..]) && i < |ps|
    requires forall x :: 1 <= x < |ps| ==> !ps[x].key
    ensures n + i < |ks| && FragDuration(ps, dflt, i) == SampleTime(c, ks, n + i, dflt)
  {
    hide Content, KeyOf;
    assert ks[n..][i] == ks[n + i];
    if i + 1 < |ps| {
      assert ks[n..][i + 1] == ks[n + i + 1];
    }
  }

  /** The last duration so far is the default, and stays so when a key frame follows. */
  lemma EarlierTime(c: Codec, ks: seq<Frame>, n: nat, dflt: u32, i: nat)
    requires i < n <= |ks| && (n < |ks| ==> KeyOf(c, ks[n]))
    ensures SampleTime(c, ks[..n], i, dflt) == SampleTime(c, ks, i, dflt)
  {
    hide KeyOf;
  }

  lemma TimedJoin(c: Codec, a: seq<FragSample>, b: seq<FragSample>, ks: seq<Frame>, dflt: u32)
    requires |a| + |b| == |ks| && Timed(c, a, ks[..|a|], dflt) && (0 < |a| < |ks| ==> KeyOf(c, ks[|a|]))
    requires forall i :: 0 <= i < |b| ==> b[i].dur == SampleTime(c, ks, |a| + i, dflt)
    ensures Timed(c, a + b, ks, dflt)
  {
    hide SampleTime, KeyOf;
    var n := |a|;
    forall i | 0 <= i < |a + b|
      ensures (a + b)[i].dur == SampleTime(c, ks, i, dflt)
    {
      if i < n {
        EarlierTime(c, ks, n, dflt, i);
      } else {
        assert (a + b)[i] == b[i - n];
      }
    }
  }

  lemma {:induction false} FlushKeepsTimes(m: FragMovie, fs: seq<Frame>, dflt: u32)
    requires FragInv(m, fs) && TimeInv(m, fs, dflt)
    ensures TimeInv(Flush(m, dflt), fs, dflt)
  {
    hide Moof, FragDurations, ReadFragments, BoxBytes, BoxList, Kept, AllSamples, Elapsed, Waiting, Joined, Shows, Cut, Sum, Timed, SampleTime, FragmentOk, KeyOf;
    FlushTotal(m, dflt);
    if m.pend != [] && Total(m) < U32_END {
      var c, ks, rs := CodecIn(m), Kept(fs), ReadFragments(m.boxes);
      var n := |AllSamples(rs)|;
      FlushReads(m, dflt, c, ks[n..]);
      var ds := FragDurations(m.pend, dflt);
      var r := Fragment((m.seqNo + 1) % U32_END, m.base, Cut(m.pend, ds, m.data), []);
      AllMore(rs, r);
      ShowsSize(c, r.samples, ks[n..]);
      WaitingSizes(c, m.pend, ks[n..]);
      forall i | 0 <= i < |r.samples|
        ensures r.samples[i].dur == SampleTime(c, ks, n + i, dflt)
      {
        CutTimes(m.pend, ds, m.data, i);
        WaitingTime(c, m.pend, ks, n, dflt, i);
        DurationAt(m.pend, dflt, i);
      }
      TimedJoin(c, AllSamples(rs), r.samples, ks, dflt);
      assert ks[..|ks|] == ks;
    }
  }

  lemma WaitingSizes(c: Codec, ps: seq<Pending>, fs: seq<Frame>)
    requires Waiting(c, ps, fs)
    ensures |ps| == |fs|
  {
  }

  lemma DurationAt(ps: seq<Pending>, dflt: u32, i: nat)
    requires i < |ps|
    ensures FragDurations(ps, dflt)[i] == FragDuration(ps, dflt, i)
  {
    hide FragDuration;
  }

  // ---- adding ----

  lemma InitKeepsTimes(m: FragMovie, fs: seq<Frame>, moov: Box, dflt: u32)
    requires FragInv(m, fs) && TimeInv(m, fs, dflt) && moov.kind == MOOV
    ensures TimeInv(WriteInit(m, moov), fs, dflt)
  {
    hide ReadFragments, BoxBytes, BoxList, Kept, AllSamples, Waiting, Joined, Shows, Timed, KeyOf, FragmentOk, Elapsed;
    InitKeepsInv(m, fs, moov);
    TrackIs(m, fs);
    InitSame(m, moov);
  }

  lemma {:induction false} WaitKeepsTimes(m: FragMovie, fs: seq<Frame>, f: Frame, dflt: u32)
    requires FragInv(m, fs) && TimeInv(m, fs, dflt) && m.track == Has(if fs == [] then f.codec else fs[0].codec)
    requires SampleNals(m.track.codec, f) != [] && (KeyOf(m.track.codec, f) ==> m.pend == [])
    requires m.pend == [] && Total(m) < U32_END && ReadFragments(m.boxes) != [] ==> KeyOf(m.track.codec, f)
    ensures TimeInv(Wait(m, m.track.codec, f), fs + [f], dflt)
  {
    hide ReadFragments, BoxBytes, BoxList, Kept, AllSamples, Elapsed, Waiting, Joined, Shows, Content, KeyOf, SampleNals, FragmentOk, Timed;
    var c, t := m.track.codec, Wait(m, m.track.codec, f);
    KeptMore(fs, f);
    assert Total(t) >= Total(m) + |Content(c, f)|;
    if Total(t) < U32_END {
      var ks, rs := Kept(fs), ReadFragments(m.boxes);
      var n := |AllSamples(rs)|;
      NoSamples(rs);
      WaitingSizes(c, m.pend, ks[n..]);
      assert (ks + [f])[..n] == ks[..n];
      assert n < |ks| ==> (ks + [f])[n] == ks[n];
    }
  }

  lemma NoSamples(rs: seq<Fragment>)
    ensures AllSamples(rs) != [] ==> rs != []
  {
  }

  lemma SkipKeepsTimes(m: FragMovie, fs: seq<Frame>, f: Frame, dflt: u32)
    requires FragInv(m, fs) && TimeInv(m, fs, dflt) && m.track == Has(if fs == [] then f.codec else fs[0].codec)
    requires SampleNals(m.track.codec, f) == []
    ensures TimeInv(m, fs + [f], dflt)
  {
    hide ReadFragments, AllSamples, SampleNals, Kept, Total, Timed, KeyOf, FragInv;
    KeptMore(fs, f);
    assert Kept(fs) + [] == Kept(fs);
    TrackIs(m, fs);
  }

  /** The codec of the track is that of the frames so far, or of the first. */
  lemma SetTrackTimes(m: FragMovie, t: FragMovie, fs: seq<Frame>, f: Frame, dflt: u32)
    requires FragInv(m, fs) && TimeInv(m, fs, dflt) && t == m.(track := t.track, sps := t.sps)
    requires t.track == Has(if fs == [] then f.codec else fs[0].codec)
    ensures TimeInv(t, fs, dflt)
  {
    hide ReadFragments, BoxBytes, BoxList, AllSamples, Elapsed, FragmentOk, Content, KeyOf, SampleTime, Waiting, Shows, Joined;
    if fs != [] {
      TrackIs(m, fs);
      assert CodecIn(t) == CodecIn(m);
    }
  }

  lemma {:induction false} AddKeepsTimes(m: FragMovie, fs: seq<Frame>, f: Frame, moov: Box, dflt: u32)
    requires FragInv(m, fs) && FragRun.Live(m) && moov.kind == MOOV && (fs == [] ==> m.track == NoCodec)
    requires TimeInv(m, fs, dflt)
    ensures TimeInv(AddFrame(m, f, moov, dflt), fs + [f], dflt)
  {
    hide FragInv, TimeInv, Total, AddFrame, Wait, Flush, WriteInit, SampleNals, KeyOf, ReadFragments;
    AddParts(m, f, moov, dflt);
    var c := CodecOf(m.track, f);
    TrackIs(m, fs);
    var t := m.(track := Has(c), sps := m.sps || HasSps(c, Scan(f.annexb, 0)));
    SetTrack(m, t, fs, f);
    SetTrackTimes(m, t, fs, f, dflt);
    if SampleNals(c, f) == [] {
      SkipKeepsTimes(t, fs, f, dflt);
    } else {
      InitKeepsInv(t, fs, moov);
      InitKeepsTimes(t, fs, moov, dflt);
      var i := WriteInit(t, moov);
      InitSame(t, moov);
      if KeyOf(c, f) {
        FlushKeepsInv(i, fs, dflt);
        FlushKeepsTimes(i, fs, dflt);
        FlushSame(i, dflt);
        WaitKeepsTimes(Flush(i, dflt), fs, f, dflt);
      } else {
        WaitKeepsTimes(i, fs, f, dflt);
      }
    }
  }

  // ---- whole runs ----

  lemma {:induction false} RunTimes(head: Box, fs: seq<Frame>, moov: Box, dflt: u32)
    requires head.kind == FTYP && moov.kind == MOOV
    ensures TimeInv(AddFrames(head, fs, moov, dflt), fs, dflt)
    decreases |fs|
  {
    hide FragInv, TimeInv, AddFrame, FragRun.Live;
    if fs == [] {
      StartTimes(head, dflt);
    } else {
      RunInv(head, fs[..|fs| - 1], moov, dflt);
      RunTimes(head, fs[..|fs| - 1], moov, dflt);
      AddKeepsTimes(AddFrames(head, fs[..|fs| - 1], moov, dflt), fs[..|fs| - 1], fs[|fs| - 1], moov, dflt);
      assert fs[..|fs| - 1] + [fs[|fs| - 1]] == fs;
    }
  }

  lemma StartTimes(head: Box, dflt: u32)
    requires head.kind == FTYP
    ensures TimeInv(Start(head), [], dflt)
  {
    hide BoxBytes, BoxList;
    assert ReadFragments([head]) == [];
  }

  /** In a finished file below 4 GiB every sample lasts as long as the times of the frames say. */
  lemma {:induction false} DurationsReadBack(head: Box, fs: seq<Frame>, moov: Box, dflt: u32)
    requires head.kind == FTYP && moov.kind == MOOV && |ExportFragments(head, fs, moov, dflt)| < U32_END
    requires fs != []
    ensures Timed(fs[0].codec, AllSamples(ReadFragments(ReadBoxes(ExportFragments(head, fs, moov, dflt)))), Kept(fs), dflt)
  {
    hide FragInv, TimeInv, Flush, WriteInit, BoxList, ReadFragments, ReadBoxes, AllSamples, Timed, Kept;
    var m := AddFrames(head, fs, moov, dflt);
    RunInv(head, fs, moov, dflt);
    RunTimes(head, fs, moov, dflt);
    InitKeepsInv(m, fs, moov);
    InitKeepsTimes(m, fs, moov, dflt);
    TrackIs(m, fs);
    InitSame(m, moov);
    var i := WriteInit(m, moov);
    FlushKeepsInv(i, fs, dflt);
    FlushKeepsTimes(i, fs, dflt);
    var t := Flush(i, dflt);
    FlushSame(i, dflt);
    BoxesReadBack(t.boxes);
    FlushedShows(t, fs);
    AllTimed(t, fs, dflt);
  }

  lemma AllTimed(t: FragMovie, fs: seq<Frame>, dflt: u32)
    requires TimeInv(t, fs, dflt) && t.pend == [] && |BoxList(t.boxes)| < U32_END && fs != [] && t.track == Has(fs[0].codec)
    requires Shows(fs[0].codec, AllSamples(ReadFragments(t.boxes)), Kept(fs))
    ensures Timed(fs[0].codec, AllSamples(ReadFragments(t.boxes)), Kept(fs), dflt)
  {
    hide ReadFragments, BoxBytes, BoxList, AllSamples, Kept, KeyOf, SampleTime;
    ShowsSize(fs[0].codec, AllSamples(ReadFragments(t.boxes)), Kept(fs));
    assert Kept(fs)[..|Kept(fs)|] == Kept(fs);
  }

  /** Sample `j` starts, counted from the first, when its frame does. */
  ghost predicate OnFragTime(ss: seq<FragSample>, ks: seq<Frame>, j: nat)
    requires j < |ks| == |ss|
  {
    Lasting(ss[..j]) + ks[0].pts == ks[j].pts
  }

  /** The step from frame `i` to the next: exactly the default across a boundary, and rising by less
      than 2^32 within a fragment. */
  predicate GoodStep(c: Codec, ks: seq<Frame>, i: nat, dflt: u32)
    requires i + 1 < |ks|
  {
    if KeyOf(c, ks[i + 1]) then ks[i + 1].pts == ks[i].pts + dflt else ks[i].pts < ks[i + 1].pts < ks[i].pts + U32_END
  }

  lemma {:induction false} LastingMore(ss: seq<FragSample>, i: nat)
    requires i < |ss|
    ensures Lasting(ss[..i + 1]) == Lasting(ss[..i]) + ss[i].dur
    decreases |ss|
  {
    if i == 0 {
      assert ss[..1] == [ss[0]] && [ss[0]][1..] == [] && ss[..0] == [];
    } else {
      LastingMore(ss[1..], i - 1);
      assert ss[..i + 1][1..] == ss[1..][..i] && ss[..i][1..] == ss[1..][..i - 1];
    }
  }

  lemma StepIsDuration(c: Codec, ks: seq<Frame>, i: nat, dflt: u32)
    requires i + 1 < |ks|
    ensures GoodStep(c, ks, i, dflt) ==> SampleTime(c, ks, i, dflt) + ks[i].pts == ks[i + 1].pts
    ensures dflt > 0 && SampleTime(c, ks, i, dflt) + ks[i].pts == ks[i + 1].pts ==> GoodStep(c, ks, i, dflt)
  {
    hide KeyOf;
  }

  lemma {:induction false} TimesReach(c: Codec, ss: seq<FragSample>, ks: seq<Frame>, dflt: u32, j: nat)
    requires Timed(c, ss, ks, dflt) && j < |ks| && forall i :: 0 <= i < |ks| - 1 ==> GoodStep(c, ks, i, dflt)
    ensures OnFragTime(ss, ks, j)
    decreases j
  {
    hide KeyOf, SampleTime, GoodStep;
    if j == 0 {
      assert ss[..0] == [];
    } else {
      TimesReach(c, ss, ks, dflt, j - 1);
      LastingMore(ss, j - 1);
      StepIsDuration(c, ks, j - 1, dflt);
    }
  }

  /** Every sample of the file starts when its frame does, when and, unless the default duration is
      zero, only when every step is a good one. */
  lemma FragTimesExact(head: Box, fs: seq<Frame>, moov: Box, dflt: u32)
    requires head.kind == FTYP && moov.kind == MOOV && |ExportFragments(head, fs, moov, dflt)| < U32_END
    requires fs != [] && dflt > 0
    ensures var ss, ks := AllSamples(ReadFragments(ReadBoxes(ExportFragments(head, fs, moov, dflt)))), Kept(fs);
      && |ss| == |ks|
      && ((forall j :: 0 <= j < |ks| ==> OnFragTime(ss, ks, j)) <==> forall i :: 0 <= i < |ks| - 1 ==> GoodStep(fs[0].codec, ks, i, dflt))
  {
    hide ReadFragments, ReadBoxes, ExportFragments, Kept, AllSamples, SampleTime, GoodStep, KeyOf, Lasting;
    DurationsReadBack(head, fs, moov, dflt);
    var c, ss, ks := fs[0].codec, AllSamples(ReadFragments(ReadBoxes(ExportFragments(head, fs, moov, dflt)))), Kept(fs);
    if forall i :: 0 <= i < |ks| - 1 ==> GoodStep(c, ks, i, dflt) {
      forall j | 0 <= j < |ks|
        ensures OnFragTime(ss, ks, j)
      {
        TimesReach(c, ss, ks, dflt, j);
      }
    }
    if forall j :: 0 <= j < |ks| ==> OnFragTime(ss, ks, j) {
      forall i | 0 <= i < |ks| - 1
        ensures GoodStep(c, ks, i, dflt)
      {
        assert OnFragTime(ss, ks, i) && OnFragTime(ss, ks, i + 1);
        LastingMore(ss, i);
        StepIsDuration(c, ks, i, dflt);
      }
    }
  }
}
