/** Where the movie box of a fragmented export stands: before every fragment exactly when a parameter set has
    come by the time the first fragment is closed. */
module FragOrder {
  import opened Bytes
  import opened Rtp
  import opened NalScan
  import opened Boxes
  import opened Mp4
  import opened Mp4File
  import opened FragMp4
  import opened FragRun

  /** No fragment comes before the movie box. */
  ghost predicate MovieFirst(bs: seq<Box>) {
    forall i :: 0 <= i < |bs| && bs[i].kind == MOOF ==> exists j :: 0 <= j < i && bs[j].kind == MOOV
  }

  ghost predicate HasKind(bs: seq<Box>, kind: Kind) { exists j :: 0 <= j < |bs| && bs[j].kind == kind }

  predicate BringsSps(c: Codec, fs: seq<Frame>, i: nat)
    requires i < |fs|
  {
    HasSps(c, Scan(fs[i].annexb, 0))
  }

  /** Frame `x` closes a fragment: it is a key frame with a picture, and not the first with one. */
  predicate Closes(c: Codec, fs: seq<Frame>, x: nat)
    requires x < |fs|
  {
    SampleNals(c, fs[x]) != [] && KeyOf(c, fs[x]) && exists j :: 0 <= j < x && SampleNals(c, fs[j]) != []
  }

  /** A parameter set comes before or with the frame that closes the first fragment. */
  ghost predicate InTime(c: Codec, fs: seq<Frame>) {
    exists i :: 0 <= i < |fs| && BringsSps(c, fs, i) && forall x :: 0 <= x < i ==> !Closes(c, fs, x)
  }

  ghost predicate AnyClosed(c: Codec, fs: seq<Frame>) { exists x :: 0 <= x < |fs| && Closes(c, fs, x) }

  ghost predicate AnySps(c: Codec, fs: seq<Frame>) { exists i :: 0 <= i < |fs| && BringsSps(c, fs, i) }

  ghost predicate AnyPicture(c: Codec, fs: seq<Frame>) { exists j :: 0 <= j < |fs| && SampleNals(c, fs[j]) != [] }

  // ---- one more frame ----

  lemma SameBefore(c: Codec, fs: seq<Frame>, f: Frame, x: nat)
    requires x < |fs|
    ensures (fs + [f])[x] == fs[x] && Closes(c, fs + [f], x) == Closes(c, fs, x) && BringsSps(c, fs + [f], x) == BringsSps(c, fs, x)
  {
    hide SampleNals, HasSps, Scan, KeyOf;
    assert forall j :: 0 <= j <= x ==> (fs + [f])[j] == fs[j];
  }

  lemma MoreSps(c: Codec, fs: seq<Frame>, f: Frame)
    ensures AnySps(c, fs + [f]) <==> AnySps(c, fs) || HasSps(c, Scan(f.annexb, 0))
  {
    hide HasSps, Scan;
    var gs := fs + [f];
    assert BringsSps(c, gs, |fs|) == HasSps(c, Scan(f.annexb, 0));
    forall x | 0 <= x < |fs|
      ensures BringsSps(c, gs, x) == BringsSps(c, fs, x)
    {
      assert gs[x] == fs[x];
    }
  }

  lemma MorePictures(c: Codec, fs: seq<Frame>, f: Frame)
    ensures AnyPicture(c, fs + [f]) <==> AnyPicture(c, fs) || SampleNals(c, f) != []
    ensures Closes(c, fs + [f], |fs|) <==> SampleNals(c, f) != [] && KeyOf(c, f) && AnyPicture(c, fs)
  {
    hide SampleNals, KeyOf;
    var gs := fs + [f];
    assert gs[|fs|] == f;
    assert forall x :: 0 <= x < |fs| ==> gs[x] == fs[x];
    if AnyPicture(c, fs) {
      var j :| 0 <= j < |fs| && SampleNals(c, fs[j]) != [];
      assert SampleNals(c, gs[j]) != [];
    }
  }

  lemma MoreClosed(c: Codec, fs: seq<Frame>, f: Frame)
    ensures AnyClosed(c, fs + [f]) <==> AnyClosed(c, fs) || Closes(c, fs + [f], |fs|)
  {
    hide Closes;
    forall x | 0 <= x < |fs|
      ensures Closes(c, fs + [f], x) == Closes(c, fs, x)
    {
      SameBefore(c, fs, f, x);
    }
  }

  lemma MoreInTime(c: Codec, fs: seq<Frame>, f: Frame)
    ensures InTime(c, fs + [f]) <==> InTime(c, fs) || (HasSps(c, Scan(f.annexb, 0)) && !AnyClosed(c, fs))
  {
    var gs, n := fs + [f], |fs|;
    assert BringsSps(c, gs, n) == HasSps(c, Scan(f.annexb, 0));
    hide Closes, BringsSps, HasSps, Scan;
    forall x | 0 <= x < n
      ensures Closes(c, gs, x) == Closes(c, fs, x) && BringsSps(c, gs, x) == BringsSps(c, fs, x)
    {
      SameBefore(c, fs, f, x);
    }
    if InTime(c, fs) {
      var i :| 0 <= i < n && BringsSps(c, fs, i) && forall x :: 0 <= x < i ==> !Closes(c, fs, x);
      assert BringsSps(c, gs, i);
    }
  }

  lemma OneMore(c: Codec, fs: seq<Frame>, f: Frame)
    ensures var gs, sps := fs + [f], HasSps(c, Scan(f.annexb, 0));
      && (AnySps(c, gs) <==> AnySps(c, fs) || sps)
      && (AnyPicture(c, gs) <==> AnyPicture(c, fs) || SampleNals(c, f) != [])
      && (AnyClosed(c, gs) <==> AnyClosed(c, fs) || (SampleNals(c, f) != [] && KeyOf(c, f) && AnyPicture(c, fs)))
      && (InTime(c, gs) <==> InTime(c, fs) || (sps && !AnyClosed(c, fs)))
  {
    hide SampleNals, HasSps, Scan, KeyOf, AnySps, AnyPicture, AnyClosed, InTime, Closes;
    MoreSps(c, fs, f);
    MorePictures(c, fs, f);
    MoreClosed(c, fs, f);
    MoreInTime(c, fs, f);
  }

  // ---- boxes ----

  lemma PushKind(bs: seq<Box>, x: Box, kind: Kind)
    ensures HasKind(bs + [x], kind) <==> HasKind(bs, kind) || x.kind == kind
  {
    assert (bs + [x])[|bs|] == x;
    assert forall j :: 0 <= j < |bs| ==> (bs + [x])[j] == bs[j];
  }

  lemma PushOrder(bs: seq<Box>, x: Box)
    ensures MovieFirst(bs + [x]) <==> MovieFirst(bs) && (x.kind == MOOF ==> HasKind(bs, MOOV))
  {
    var cs := bs + [x];
    assert cs[|bs|] == x;
    assert forall j :: 0 <= j < |bs| ==> cs[j] == bs[j];
    if MovieFirst(cs) {
      forall i | 0 <= i < |bs| && bs[i].kind == MOOF
        ensures exists j :: 0 <= j < i && bs[j].kind == MOOV
      {
        var j :| 0 <= j < i && cs[j].kind == MOOV;
        assert bs[j].kind == MOOV;
      }
      if x.kind == MOOF {
        var j :| 0 <= j < |bs| && cs[j].kind == MOOV;
        assert bs[j].kind == MOOV;
      }
    }
    if MovieFirst(bs) && (x.kind == MOOF ==> HasKind(bs, MOOV)) {
      forall i | 0 <= i < |cs| && cs[i].kind == MOOF
        ensures exists j :: 0 <= j < i && cs[j].kind == MOOV
      {
        if i < |bs| {
          var j :| 0 <= j < i && bs[j].kind == MOOV;
          assert cs[j].kind == MOOV;
        } else {
          var j :| 0 <= j < |bs| && bs[j].kind == MOOV;
          assert cs[j].kind == MOOV;
        }
      }
    }
  }

  lemma PushFragment(bs: seq<Box>, moof: Box, mdat: Box)
    requires moof.kind == MOOF && mdat.kind == MDAT
    ensures MovieFirst(bs + [moof, mdat]) <==> MovieFirst(bs) && HasKind(bs, MOOV)
    ensures HasKind(bs + [moof, mdat], MOOV) <==> HasKind(bs, MOOV)
  {
    assert bs + [moof, mdat] == bs + [moof] + [mdat];
    PushOrder(bs, moof); PushOrder(bs + [moof], mdat);
    PushKind(bs, moof, MOOV); PushKind(bs + [moof], mdat, MOOV);
  }

  // ---- the run ----

  /** How the boxes so far stand to the frames so far. */
  ghost predicate OrderInv(m: FragMovie, c: Codec, fs: seq<Frame>) {
    && (m.sps <==> AnySps(c, fs)) && (m.pend != [] <==> AnyPicture(c, fs))
    && (m.init <==> HasKind(m.boxes, MOOV)) && (m.init ==> m.sps)
    && (AnyClosed(c, fs) ==> (MovieFirst(m.boxes) <==> InTime(c, fs)) && (InTime(c, fs) ==> m.init))
    && (!AnyClosed(c, fs) ==> MovieFirst(m.boxes) && (InTime(c, fs) <==> AnySps(c, fs)))
  }

  lemma FlushOrder(m: FragMovie, dflt: u32)
    requires m.pend != []
    ensures var t := Flush(m, dflt);
      && (MovieFirst(t.boxes) <==> MovieFirst(m.boxes) && HasKind(m.boxes, MOOV)) && (HasKind(t.boxes, MOOV) <==> HasKind(m.boxes, MOOV))
      && t.sps == m.sps && t.init == m.init
  {
    hide Moof, MovieFirst, HasKind;
    var ds := FragDurations(m.pend, dflt);
    var n: u32 := (m.seqNo + 1) % U32_END;
    var moof := Moof(n, m.base, m.pend, ds, (MoofSize(|m.pend|) + 8) % U32_END);
    MoofKind(n, m.base, m.pend, ds, (MoofSize(|m.pend|) + 8) % U32_END);
    PushFragment(m.boxes, moof, Box(MDAT, m.data));
  }

  lemma InitOrder(m: FragMovie, moov: Box)
    requires moov.kind == MOOV && (m.init <==> HasKind(m.boxes, MOOV))
    ensures var t := WriteInit(m, moov);
      && t.pend == m.pend && t.sps == m.sps && (t.init <==> m.init || m.sps) && (t.init <==> HasKind(t.boxes, MOOV))
      && (MovieFirst(t.boxes) <==> MovieFirst(m.boxes))
  {
    hide MovieFirst, HasKind;
    PushOrder(m.boxes, moov);
    PushKind(m.boxes, moov, MOOV);
  }

  lemma AddOrder(m: FragMovie, c: Codec, fs: seq<Frame>, f: Frame, moov: Box, dflt: u32)
    requires OrderInv(m, c, fs) && c == CodecOf(m.track, f) && moov.kind == MOOV
    ensures OrderInv(AddFrame(m, f, moov, dflt), c, fs + [f])
  {
    hide AddFrame, Flush, WriteInit, SampleNals, KeyOf, HasSps, Scan, AnySps, AnyClosed, AnyPicture, InTime, MovieFirst, HasKind, Closes, BringsSps;
    AddParts(m, f, moov, dflt);
    OneMore(c, fs, f);
    var t := m.(track := Has(c), sps := m.sps || HasSps(c, Scan(f.annexb, 0)));
    if SampleNals(c, f) != [] {
      InitOrder(t, moov);
      var i := WriteInit(t, moov);
      if KeyOf(c, f) && i.pend != [] {
        FlushOrder(i, dflt);
      } else if KeyOf(c, f) {
        FlushNothing(i, dflt);
      }
    }
  }

  lemma FlushNothing(m: FragMovie, dflt: u32)
    requires m.pend == []
    ensures Flush(m, dflt) == m
  {
  }

  lemma {:induction false} RunOrder(head: Box, fs: seq<Frame>, moov: Box, dflt: u32)
    requires head.kind == FTYP && moov.kind == MOOV && fs != []
    ensures var m := AddFrames(head, fs, moov, dflt); OrderInv(m, fs[0].codec, fs) && m.track == Has(fs[0].codec)
    decreases |fs|
  {
    hide AddFrame, OrderInv;
    var n := |fs| - 1;
    assert fs[..n] + [fs[n]] == fs;
    if n == 0 {
      assert fs[..0] == [];
      StartOrder(head, fs[0].codec);
    } else {
      RunOrder(head, fs[..n], moov, dflt);
    }
    var m := AddFrames(head, fs[..n], moov, dflt);
    AddOrder(m, fs[0].codec, fs[..n], fs[n], moov, dflt);
    AddTrack(m, fs[n], moov, dflt);
  }

  lemma StartOrder(head: Box, c: Codec)
    requires head.kind == FTYP
    ensures OrderInv(Start(head), c, [])
  {
  }

  lemma AddTrack(m: FragMovie, f: Frame, moov: Box, dflt: u32)
    ensures AddFrame(m, f, moov, dflt).track == Has(CodecOf(m.track, f))
  {
    hide Flush, SampleNals, KeyOf, HasSps, Scan, Wait;
    AddParts(m, f, moov, dflt);
    hide AddFrame;
    var c := CodecOf(m.track, f);
    var t := m.(track := Has(c), sps := m.sps || HasSps(c, Scan(f.annexb, 0)));
    var i := WriteInit(t, moov);
    FlushSame(i, dflt);
    WaitTrack(i, c, f);
    WaitTrack(Flush(i, dflt), c, f);
  }

  lemma WaitTrack(m: FragMovie, c: Codec, f: Frame)
    ensures Wait(m, c, f).track == m.track
  {
    hide Content, KeyOf;
  }

  /** In a finished file below 4 GiB the movie box comes before every fragment if and only if there is no frame
      with a picture, or some frame brings a parameter set shorter than 512 bytes before or with the frame
      that closes the first fragment. */
  lemma MovieFirstExactly(head: Box, fs: seq<Frame>, moov: Box, dflt: u32)
    requires head.kind == FTYP && moov.kind == MOOV && |ExportFragments(head, fs, moov, dflt)| < U32_END && fs != []
    ensures MovieFirst(ReadBoxes(ExportFragments(head, fs, moov, dflt))) <==>
      !AnyPicture(fs[0].codec, fs) || InTime(fs[0].codec, fs)
  {
    hide BoxList, ReadBoxes, Flush, WriteInit, AddFrames, AnySps, AnyClosed, AnyPicture, InTime, MovieFirst, HasKind;
    var m, c := AddFrames(head, fs, moov, dflt), fs[0].codec;
    RunOrder(head, fs, moov, dflt);
    InitOrder(m, moov);
    var i := WriteInit(m, moov);
    if i.pend != [] {
      FlushOrder(i, dflt);
    } else {
      FlushNothing(i, dflt);
      NoPictureNoClose(c, fs);
    }
    BoxesReadBack(Flush(i, dflt).boxes);
  }

  lemma NoPictureNoClose(c: Codec, fs: seq<Frame>)
    requires !AnyPicture(c, fs)
    ensures !AnyClosed(c, fs)
  {
    hide SampleNals, KeyOf;
  }
}
