/** Fragmented export over whole runs: what a reader of the finished file finds. */
module FragRun {
  import opened Bytes
  import opened Rtp
  import opened NalScan
  import opened Boxes
  import opened Mp4
  import opened Mp4File
  import opened FragMp4

  /** The size the file would have if it were finished now, its movie box aside. */
  function Total(m: FragMovie): nat {
    |BoxList(m.boxes)| + if m.pend == [] then 0 else MoofSize(|m.pend|) + 8 + |m.data|
  }

  function KeyOf(c: Codec, f: Frame): bool { HasKeyNal(c, SampleNals(c, f)) || f.key }

  function Content(c: Codec, f: Frame): seq<byte> { Sized(SampleNals(c, f)) }

  function Joined(c: Codec, fs: seq<Frame>): seq<byte> { if fs == [] then [] else Content(c, fs[0]) + Joined(c, fs[1..]) }

  /** The waiting samples are those of the frames. */
  ghost predicate Waiting(c: Codec, ps: seq<Pending>, fs: seq<Frame>) {
    && |ps| == |fs|
    && forall i :: 0 <= i < |ps| ==> ps[i].size == |Content(c, fs[i])| && ps[i].key == KeyOf(c, fs[i]) && ps[i].pts == fs[i].pts
  }

  /** The samples read are those of the frames. */
  ghost predicate Shows(c: Codec, ss: seq<FragSample>, fs: seq<Frame>) {
    && |ss| == |fs|
    && forall i :: 0 <= i < |ss| ==> ss[i].data == Content(c, fs[i]) && ss[i].sync == KeyOf(c, fs[i])
  }

  function AllSamples(rs: seq<Fragment>): seq<FragSample> {
    if rs == [] then []
    else AllSamples(rs[..|rs| - 1]) + if rs[|rs| - 1].Fragment? then rs[|rs| - 1].samples else []
  }

  function Lasting(ss: seq<FragSample>): nat { if ss == [] then 0 else ss[0].dur + Lasting(ss[1..]) }

  /** The durations of all samples of the fragments. */
  function Elapsed(rs: seq<Fragment>): nat {
    if rs == [] then 0 else Elapsed(rs[..|rs| - 1]) + if rs[|rs| - 1].Fragment? then Lasting(rs[|rs| - 1].samples) else 0
  }

  /** Fragment `k`: its number, its time as the durations of all before it, something in it, nothing
      left over, and, but for the first, a key sample at its start. */
  ghost predicate FragmentOk(rs: seq<Fragment>, k: nat)
    requires k < |rs|
  {
    && rs[k].Fragment? && rs[k].seqNo == (k + 1) % U32_END && rs[k].time == Elapsed(rs[..k]) % U64_END
    && rs[k].samples != [] && rs[k].left == [] && (k > 0 ==> rs[k].samples[0].sync)
  }

  function CodecIn(m: FragMovie): Codec { if m.track.Has? then m.track.codec else H264 }

  ghost predicate FragInv(m: FragMovie, fs: seq<Frame>) {
    && (fs != [] ==> m.track == Has(fs[0].codec))
    && m.boxes != [] && m.boxes[0].kind == FTYP
    && (Total(m) < U32_END ==>
          var c, ks, rs := CodecIn(m), Kept(fs), ReadFragments(m.boxes);
          var n := |AllSamples(rs)|;
          && n <= |ks| && Shows(c, AllSamples(rs), ks[..n]) && Waiting(c, m.pend, ks[n..]) && m.data == Joined(c, ks[n..])
          && (forall k :: 0 <= k < |rs| ==> FragmentOk(rs, k))
          && m.seqNo == |rs| % U32_END && m.base == Elapsed(rs) % U64_END
          && (rs != [] && m.pend != [] ==> m.pend[0].key))
  }

  // ---- flushing ----

  lemma {:induction false} WaitingSize(c: Codec, ps: seq<Pending>, fs: seq<Frame>)
    requires Waiting(c, ps, fs)
    ensures Sum(PendingSizes(ps)) == |Joined(c, fs)|
    decreases |ps|
  {
    hide Content;
    if ps == [] {
      assert PendingSizes(ps) == [];
    } else {
      SumSizes(ps);
      WaitingSize(c, ps[1..], fs[1..]);
    }
  }

  lemma {:induction false} CutShows(c: Codec, ps: seq<Pending>, ds: seq<u32>, fs: seq<Frame>)
    requires Waiting(c, ps, fs) && |ds| == |ps| && Sum(PendingSizes(ps)) == |Joined(c, fs)|
    ensures var ss := Cut(ps, ds, Joined(c, fs)); Shows(c, ss, fs) && Lasting(ss) == Sum(ds)
    decreases |ps|
  {
    hide Content, KeyOf, Sum, PendingSizes, Cut;
    if ps == [] {
      CutNothing(c, ds, fs);
    } else {
      var data := Joined(c, fs);
      SumSizes(ps);
      assert data[..ps[0].size] == Content(c, fs[0]) && data[ps[0].size..] == Joined(c, fs[1..]);
      CutShows(c, ps[1..], ds[1..], fs[1..]);
      SumFront(ds);
      CutStep(ps, ds, data);
      var rest := Cut(ps[1..], ds[1..], data[ps[0].size..]);
      ShowsFirst(c, FragSample(ds[0], ps[0].key, data[..ps[0].size]), rest, fs);
    }
  }

  lemma CutNothing(c: Codec, ds: seq<u32>, fs: seq<Frame>)
    requires ds == [] && fs == [] && Sum(PendingSizes([])) == |Joined(c, fs)|
    ensures Shows(c, Cut([], ds, Joined(c, fs)), fs) && Lasting(Cut([], ds, Joined(c, fs))) == Sum(ds)
  {
  }

  lemma CutStep(ps: seq<Pending>, ds: seq<u32>, data: seq<byte>)
    requires ps != [] && |ds| == |ps| && Sum(PendingSizes(ps)) == |data| && ps[0].size <= |data|
    requires Sum(PendingSizes(ps[1..])) == |data[ps[0].size..]|
    ensures Cut(ps, ds, data) == [FragSample(ds[0], ps[0].key, data[..ps[0].size])] + Cut(ps[1..], ds[1..], data[ps[0].size..])
  {
  }

  lemma ShowsFirst(c: Codec, s: FragSample, rest: seq<FragSample>, fs: seq<Frame>)
    requires fs != [] && s.data == Content(c, fs[0]) && s.sync == KeyOf(c, fs[0]) && Shows(c, rest, fs[1..])
    ensures Shows(c, [s] + rest, fs) && Lasting([s] + rest) == s.dur + Lasting(rest)
  {
    hide Content, KeyOf;
    assert ([s] + rest)[1..] == rest;
  }

  lemma BoxListTwo(bs: seq<Box>, x: Box, y: Box)
    ensures |BoxList(bs + [x, y])| == |BoxList(bs)| + |BoxBytes(x)| + |BoxBytes(y)|
  {
    hide BoxBytes;
    ListSizes(bs, [x, y]);
    TwoBoxes(x, y);
  }

  lemma {:induction false} ListSizes(a: seq<Box>, b: seq<Box>)
    ensures |BoxList(a + b)| == |BoxList(a)| + |BoxList(b)|
    decreases |a|
  {
    hide BoxBytes;
    if a == [] {
      assert a + b == b;
    } else {
      assert (a + b)[0] == a[0] && (a + b)[1..] == a[1..] + b;
      ListSizes(a[1..], b);
    }
  }

  lemma ReadPushed(bs: seq<Box>, moof: Box, mdat: Box)
    requires moof.kind == MOOF && mdat.kind == MDAT
    ensures ReadFragments(bs + [moof, mdat]) == ReadFragments(bs) + [ReadFragment(moof, mdat)]
  {
    hide ReadFragment;
    assert (bs + [moof, mdat])[..|bs|] == bs;
  }

  lemma ReadOther(bs: seq<Box>, x: Box)
    requires x.kind != MDAT && bs != []
    ensures ReadFragments(bs + [x]) == ReadFragments(bs)
  {
    hide ReadFragment;
    assert (bs + [x])[..|bs|] == bs;
  }

  lemma FragmentsKept(rs: seq<Fragment>, r: Fragment, k: nat)
    requires k < |rs| && FragmentOk(rs, k)
    ensures FragmentOk(rs + [r], k)
  {
    assert (rs + [r])[..k] == rs[..k];
  }

  lemma AllMore(rs: seq<Fragment>, r: Fragment)
    requires r.Fragment?
    ensures AllSamples(rs + [r]) == AllSamples(rs) + r.samples && Elapsed(rs + [r]) == Elapsed(rs) + Lasting(r.samples)
  {
    assert (rs + [r])[..|rs|] == rs;
  }

  lemma FlushTotal(m: FragMovie, dflt: u32)
    ensures Total(Flush(m, dflt)) == Total(m)
  {
    hide BoxList, BoxBytes, Moof, FragDurations, Sum;
    if m.pend != [] {
      var ds := FragDurations(m.pend, dflt);
      var offset := (MoofSize(|m.pend|) + 8) % U32_END;
      var n := (m.seqNo + 1) % U32_END;
      MoofSizeIs(n, m.base, m.pend, ds, offset);
      MdatSize(m.data);
      BoxListTwo(m.boxes, Moof(n, m.base, m.pend, ds, offset), Box(MDAT, m.data));
    }
  }

  lemma MdatSize(data: seq<byte>)
    ensures |BoxBytes(Box(MDAT, data))| == 8 + |data|
  {
  }

  /** What a flush adds to what a reader finds. */
  lemma FlushReads(m: FragMovie, dflt: u32, c: Codec, tail: seq<Frame>)
    requires m.pend != [] && Total(m) < U32_END && Waiting(c, m.pend, tail) && m.data == Joined(c, tail)
    ensures var ds := FragDurations(m.pend, dflt);
      && Sum(PendingSizes(m.pend)) == |m.data|
      && var r := Fragment((m.seqNo + 1) % U32_END, m.base, Cut(m.pend, ds, m.data), []);
      && ReadFragments(Flush(m, dflt).boxes) == ReadFragments(m.boxes) + [r]
      && Shows(c, r.samples, tail) && Lasting(r.samples) == Sum(ds)
  {
    hide Waiting, Joined, Cut, Moof, FragDurations, ReadFragment, ReadFragments, BoxBytes, BoxList, Shows;
    var ds := FragDurations(m.pend, dflt);
    var n := (m.seqNo + 1) % U32_END;
    WaitingSize(c, m.pend, tail);
    CutShows(c, m.pend, ds, tail);
    FragmentReadsBack(n, m.base, m.pend, ds, MoofSize(|m.pend|) + 8, m.data);
    MoofKind(n, m.base, m.pend, ds, MoofSize(|m.pend|) + 8);
    ReadPushed(m.boxes, Moof(n, m.base, m.pend, ds, MoofSize(|m.pend|) + 8), Box(MDAT, m.data));
  }

  lemma MoofKind(seqNo: u32, base: u64, ps: seq<Pending>, ds: seq<u32>, offset: u32)
    requires |ds| == |ps|
    ensures Moof(seqNo, base, ps, ds, offset).kind == MOOF
  {
  }

  lemma CutStart(ps: seq<Pending>, ds: seq<u32>, payload: seq<byte>)
    requires ps != [] && |ds| == |ps| && Sum(PendingSizes(ps)) == |payload|
    ensures var ss := Cut(ps, ds, payload); ss != [] && ss[0].sync == ps[0].key
  {
  }

  lemma {:induction false} FlushKeepsInv(m: FragMovie, fs: seq<Frame>, dflt: u32)
    requires FragInv(m, fs)
    ensures FragInv(Flush(m, dflt), fs)
  {
    hide Moof, FragDurations, ReadFragments, BoxBytes, BoxList, Kept, AllSamples, Elapsed, Waiting, Joined, Shows, Cut, Sum;
    FlushTotal(m, dflt);
    if m.pend != [] && Total(m) < U32_END {
      var c, ks, rs := CodecIn(m), Kept(fs), ReadFragments(m.boxes);
      var n := |AllSamples(rs)|;
      FlushReads(m, dflt, c, ks[n..]);
      var ds := FragDurations(m.pend, dflt);
      var r := Fragment((m.seqNo + 1) % U32_END, m.base, Cut(m.pend, ds, m.data), []);
      CutStart(m.pend, ds, m.data);
      AllMore(rs, r);
      ShowsSize(c, r.samples, ks[n..]);
      ShowsJoin(c, AllSamples(rs), ks[..n], r.samples, ks[n..]);
      assert ks[..n] + ks[n..] == ks;
      NothingWaits(c, ks);
      NewFragment(rs, r, m.seqNo);
      NextTime(Elapsed(rs), Sum(ds));
      forall k | 0 <= k < |rs|
        ensures FragmentOk(rs + [r], k)
      {
        FragmentsKept(rs, r, k);
      }
    }
  }

  lemma NewFragment(rs: seq<Fragment>, r: Fragment, seqNo: u32)
    requires r.Fragment? && seqNo == |rs| % U32_END && r.seqNo == (seqNo + 1) % U32_END && r.time == Elapsed(rs) % U64_END
    requires r.samples != [] && r.left == [] && (rs != [] ==> r.samples[0].sync)
    ensures FragmentOk(rs + [r], |rs|) && r.seqNo == |rs + [r]| % U32_END
  {
    assert (rs + [r])[..|rs|] == rs;
    assert (|rs| % U32_END + 1) % U32_END == (|rs| + 1) % U32_END;
  }

  lemma NextTime(a: nat, b: nat)
    ensures (a % U64_END + b) % U64_END == (a + b) % U64_END
  {
  }

  lemma ShowsSize(c: Codec, ss: seq<FragSample>, fs: seq<Frame>)
    requires Shows(c, ss, fs)
    ensures |ss| == |fs|
  {
  }

  lemma ShowsJoin(c: Codec, a: seq<FragSample>, x: seq<Frame>, b: seq<FragSample>, y: seq<Frame>)
    requires Shows(c, a, x) && Shows(c, b, y)
    ensures Shows(c, a + b, x + y)
  {
    hide Content, KeyOf;
  }

  lemma NothingWaits(c: Codec, ks: seq<Frame>)
    ensures Waiting(c, [], ks[|ks|..]) && Joined(c, ks[|ks|..]) == [] && ks[..|ks|] == ks
  {
  }

  // ---- adding ----

  lemma InitKeepsInv(m: FragMovie, fs: seq<Frame>, moov: Box)
    requires FragInv(m, fs) && moov.kind == MOOV
    ensures FragInv(WriteInit(m, moov), fs) && Total(m) <= Total(WriteInit(m, moov))
  {
    hide ReadFragments, BoxBytes, BoxList, Kept, AllSamples, Elapsed, Waiting, Joined, Shows;
    ListSizes(m.boxes, [moov]);
    ReadOther(m.boxes, moov);
  }

  lemma {:induction false} JoinedMore(c: Codec, fs: seq<Frame>, f: Frame)
    ensures Joined(c, fs + [f]) == Joined(c, fs) + Content(c, f)
    decreases |fs|
  {
    hide Content;
    if fs == [] {
      assert fs + [f] == [f] && [f][1..] == [] && Joined(c, []) == [];
      assert Content(c, f) + [] == Content(c, f) == [] + Content(c, f);
    } else {
      assert (fs + [f])[0] == fs[0] && (fs + [f])[1..] == fs[1..] + [f];
      JoinedMore(c, fs[1..], f);
    }
  }

  lemma WaitingMore(c: Codec, ps: seq<Pending>, fs: seq<Frame>, f: Frame, p: Pending)
    requires Waiting(c, ps, fs) && p.size == |Content(c, f)| && p.key == KeyOf(c, f) && p.pts == f.pts
    ensures Waiting(c, ps + [p], fs + [f])
  {
    hide Content, KeyOf;
  }

  /** The sample of a frame joins the waiting ones. */
  function Wait(m: FragMovie, c: Codec, f: Frame): FragMovie {
    m.(data := m.data + Content(c, f), pend := m.pend + [Pending(|Content(c, f)| % U32_END, KeyOf(c, f), f.pts)])
  }

  /** Nothing waits, or the frame need not start a fragment. */
  lemma {:induction false} WaitKeepsInv(m: FragMovie, fs: seq<Frame>, f: Frame)
    requires FragInv(m, fs) && m.track == Has(if fs == [] then f.codec else fs[0].codec)
    requires SampleNals(m.track.codec, f) != [] && (KeyOf(m.track.codec, f) ==> m.pend == [])
    requires m.pend == [] && Total(m) < U32_END && ReadFragments(m.boxes) != [] ==> KeyOf(m.track.codec, f)
    ensures FragInv(Wait(m, m.track.codec, f), fs + [f]) && Total(m) <= Total(Wait(m, m.track.codec, f))
  {
    hide ReadFragments, BoxBytes, BoxList, Kept, AllSamples, Elapsed, Waiting, Joined, Shows, Content, KeyOf, SampleNals, FragmentOk;
    var c, t := m.track.codec, Wait(m, m.track.codec, f);
    KeptMore(fs, f);
    assert Total(t) >= Total(m) + |Content(c, f)|;
    if Total(t) < U32_END {
      var ks, rs := Kept(fs), ReadFragments(m.boxes);
      var n := |AllSamples(rs)|;
      assert (ks + [f])[..n] == ks[..n] && (ks + [f])[n..] == ks[n..] + [f];
      JoinedMore(c, ks[n..], f);
      WaitingMore(c, m.pend, ks[n..], f, t.pend[|m.pend|]);
    }
  }

  /** A frame with nothing for a sample. */
  lemma SkipKeepsInv(m: FragMovie, fs: seq<Frame>, f: Frame)
    requires FragInv(m, fs) && m.track == Has(if fs == [] then f.codec else fs[0].codec) && SampleNals(m.track.codec, f) == []
    ensures FragInv(m, fs + [f])
  {
    hide ReadFragments, BoxBytes, BoxList, AllSamples, Elapsed, Waiting, Joined, Shows, SampleNals, FragmentOk, Kept, Total;
    KeptMore(fs, f);
    assert Kept(fs) + [] == Kept(fs);
  }

  // ---- whole runs ----

  /** Between frames, nothing waits only as long as there are no fragments yet. */
  ghost predicate Live(m: FragMovie) { m.pend == [] ==> ReadFragments(m.boxes) == [] }

  lemma AddParts(m: FragMovie, f: Frame, moov: Box, dflt: u32)
    ensures var c, all := CodecOf(m.track, f), Scan(f.annexb, 0); var t := m.(track := Has(c), sps := m.sps || HasSps(c, all));
      AddFrame(m, f, moov, dflt) ==
        if SampleNals(c, f) == [] then t
        else Wait(if KeyOf(c, f) then Flush(WriteInit(t, moov), dflt) else WriteInit(t, moov), c, f)
  {
    hide Flush, WriteInit, Scan, Vcl, Sized, HasKeyNal;
  }

  lemma {:induction false} AddKeepsInv(m: FragMovie, fs: seq<Frame>, f: Frame, moov: Box, dflt: u32)
    requires FragInv(m, fs) && Live(m) && moov.kind == MOOV && (fs == [] ==> m.track == NoCodec)
    ensures FragInv(AddFrame(m, f, moov, dflt), fs + [f]) && Live(AddFrame(m, f, moov, dflt))
    ensures Total(m) <= Total(AddFrame(m, f, moov, dflt))
  {
    hide FragInv, Total, AddFrame, Wait, Flush, WriteInit, SampleNals, KeyOf, ReadFragments;
    AddParts(m, f, moov, dflt);
    var c := CodecOf(m.track, f);
    TrackIs(m, fs);
    var t := m.(track := Has(c), sps := m.sps || HasSps(c, Scan(f.annexb, 0)));
    SetTrack(m, t, fs, f);
    if SampleNals(c, f) == [] {
      SkipKeepsInv(t, fs, f);
    } else {
      InitKeepsInv(t, fs, moov);
      var i := WriteInit(t, moov);
      InitSame(t, moov);
      if KeyOf(c, f) {
        FlushKeepsInv(i, fs, dflt);
        FlushTotal(i, dflt);
        FlushSame(i, dflt);
        WaitKeepsInv(Flush(i, dflt), fs, f);
        WaitSame(Flush(i, dflt), c, f);
      } else {
        WaitKeepsInv(i, fs, f);
        WaitSame(i, c, f);
      }
    }
  }

  lemma TrackIs(m: FragMovie, fs: seq<Frame>)
    requires FragInv(m, fs)
    ensures (fs != [] ==> m.track == Has(fs[0].codec)) && m.boxes != []
  {
  }

  lemma SetTrack(m: FragMovie, t: FragMovie, fs: seq<Frame>, f: Frame)
    requires FragInv(m, fs) && t == m.(track := t.track, sps := t.sps) && t.track == Has(if fs == [] then f.codec else fs[0].codec)
    ensures FragInv(t, fs) && Total(t) == Total(m)
  {
    hide ReadFragments, BoxBytes, BoxList, AllSamples, Elapsed, FragmentOk, Content, KeyOf;
    if fs == [] {
      NoFrames(m, t);
    }
  }

  /** Without frames the codec does not matter. */
  lemma NoFrames(m: FragMovie, t: FragMovie)
    requires FragInv(m, []) && t == m.(track := t.track, sps := t.sps)
    ensures FragInv(t, [])
  {
    hide ReadFragments, BoxBytes, BoxList, AllSamples, Elapsed, FragmentOk, Content, KeyOf;
  }

  lemma InitSame(m: FragMovie, moov: Box)
    requires moov.kind == MOOV && m.boxes != []
    ensures var i := WriteInit(m, moov); i.pend == m.pend && i.track == m.track && ReadFragments(i.boxes) == ReadFragments(m.boxes)
  {
    hide ReadFragments;
    ReadOther(m.boxes, moov);
  }

  lemma FlushSame(m: FragMovie, dflt: u32)
    ensures Flush(m, dflt).pend == [] && Flush(m, dflt).track == m.track
  {
    hide Moof;
  }

  lemma WaitSame(m: FragMovie, c: Codec, f: Frame)
    ensures Wait(m, c, f).pend != []
  {
    hide Content;
  }

  lemma {:induction false} RunInv(head: Box, fs: seq<Frame>, moov: Box, dflt: u32)
    requires head.kind == FTYP && moov.kind == MOOV
    ensures var m := AddFrames(head, fs, moov, dflt); FragInv(m, fs) && Live(m) && (fs == [] ==> m.track == NoCodec)
    decreases |fs|
  {
    hide FragInv, AddFrame, Live;
    if fs == [] {
      StartInv(head);
    } else {
      RunInv(head, fs[..|fs| - 1], moov, dflt);
      AddKeepsInv(AddFrames(head, fs[..|fs| - 1], moov, dflt), fs[..|fs| - 1], fs[|fs| - 1], moov, dflt);
      assert fs[..|fs| - 1] + [fs[|fs| - 1]] == fs;
    }
  }

  lemma StartInv(head: Box)
    requires head.kind == FTYP
    ensures FragInv(Start(head), []) && Live(Start(head))
  {
    hide BoxBytes, BoxList;
    assert ReadFragments([head]) == [];
  }

  /** The finished file. */
  function ExportFragments(head: Box, fs: seq<Frame>, moov: Box, dflt: u32): seq<byte> {
    BoxList(Finish(AddFrames(head, fs, moov, dflt), moov, dflt).boxes)
  }

  /** A finished file below 4 GiB, read by its own boxes: the fragments hold every added frame that
      has coded pictures once, in order and with its data; each counts one up, starts at the sum of
      all earlier durations, covers its payload exactly and, after the first, begins with a key frame. */
  lemma {:induction false} FragmentsReadBack(head: Box, fs: seq<Frame>, moov: Box, dflt: u32)
    requires head.kind == FTYP && moov.kind == MOOV && |ExportFragments(head, fs, moov, dflt)| < U32_END
    ensures var rs := ReadFragments(ReadBoxes(ExportFragments(head, fs, moov, dflt)));
      && (fs != [] ==> Shows(fs[0].codec, AllSamples(rs), Kept(fs))) && (fs == [] ==> rs == [])
      && forall k :: 0 <= k < |rs| ==> FragmentOk(rs, k)
  {
    hide FragInv, Flush, WriteInit, BoxList, ReadFragments, ReadBoxes, AllSamples, Elapsed, FragmentOk, Shows, Kept;
    var m := AddFrames(head, fs, moov, dflt);
    RunInv(head, fs, moov, dflt);
    InitKeepsInv(m, fs, moov);
    TrackIs(m, fs);
    InitSame(m, moov);
    var i := WriteInit(m, moov);
    FlushKeepsInv(i, fs, dflt);
    var t := Flush(i, dflt);
    FlushSame(i, dflt);
    BoxesReadBack(t.boxes);
    FlushedShows(t, fs);
    if fs == [] {
      NoFragments(head, moov, dflt);
    }
  }

  lemma FlushedShows(t: FragMovie, fs: seq<Frame>)
    requires FragInv(t, fs) && t.pend == [] && |BoxList(t.boxes)| < U32_END
    ensures var rs := ReadFragments(t.boxes);
      && (fs != [] ==> Shows(fs[0].codec, AllSamples(rs), Kept(fs))) && forall k :: 0 <= k < |rs| ==> FragmentOk(rs, k)
  {
    hide ReadFragments, BoxBytes, BoxList, AllSamples, Elapsed, FragmentOk, Content, KeyOf, Kept;
    var n := |AllSamples(ReadFragments(t.boxes))|;
    assert Kept(fs)[..n] == Kept(fs);
  }

  lemma NoFragments(head: Box, moov: Box, dflt: u32)
    requires head.kind == FTYP && moov.kind == MOOV
    ensures ReadFragments(Finish(Start(head), moov, dflt).boxes) == []
  {
    assert Finish(Start(head), moov, dflt).boxes == [head];
  }
}
