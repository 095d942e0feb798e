/** The fragmented muxer as an object: a buffer for the fragment's samples, and the data offset
    filled in once the size of the fragment's header is known. */
module FragWriter {
  import opened Bytes
  import opened Rtp
  import opened NalScan
  import opened Boxes
  import opened Mp4
  import opened Mp4File
  import opened Mp4Writer
  import opened FragMp4
  import opened FragRun

  // ---- the place of the data offset ----

  const OFFSET_AT: nat := 84

  /** Everything of a fragment's header up to the data offset. */
  function Front(seqNo: u32, base: u64, n: nat): seq<byte> {
    BE(MoofSize(n) % U32_END, 4) + MOOF + BoxBytes(Box(MFHD, Words([0, seqNo])))
    + (BE((MoofSize(n) - 24) % U32_END, 4) + TRAF) + BoxBytes(Box(TFHD, Words([0x2_0000, 1]))) + BoxBytes(Box(TFDT, Words(TfdtWords(base))))
    + (BE((20 + 12 * n) % U32_END, 4) + TRUN) + Words([0x701, n % U32_END])
  }

  lemma Assoc3(a: seq<byte>, b: seq<byte>, c: seq<byte>)
    ensures a + (b + c) == a + b + c
  {
  }

  lemma TrunBytes(ps: seq<Pending>, ds: seq<u32>, offset: u32)
    requires |ds| == |ps|
    ensures BoxBytes(Box(TRUN, Words(TrunWords(ps, ds, offset))))
         == (BE((20 + 12 * |ps|) % U32_END, 4) + TRUN) + Words([0x701, |ps| % U32_END]) + BE(offset, 4) + Words(Entries(ps, ds))
  {
    hide BE, Words, Entries;
    var two, es := [0x701, |ps| % U32_END], Entries(ps, ds);
    WordsReadBack(TrunWords(ps, ds, offset));
    assert TrunWords(ps, ds, offset) == two + [offset] + es;
    WordsMore(two + [offset], es);
    WordsMore(two, [offset]);
    WordsOne(offset);
    var head := BE((20 + 12 * |ps|) % U32_END, 4) + TRUN;
    assert head + (Words(two) + BE(offset, 4) + Words(es)) == head + Words(two) + BE(offset, 4) + Words(es);
  }

  lemma TrafBytes(base: u64, ps: seq<Pending>, ds: seq<u32>, offset: u32)
    requires |ds| == |ps|
    ensures BoxBytes(Traf(base, ps, ds, offset))
         == (BE((MoofSize(|ps|) - 24) % U32_END, 4) + TRAF) + (BoxBytes(Box(TFHD, Words([0x2_0000, 1]))) + BoxBytes(Box(TFDT, Words(TfdtWords(base))))
            + BoxBytes(Box(TRUN, Words(TrunWords(ps, ds, offset)))))
  {
    hide BE, Words;
    WordsReadBack([0x2_0000, 1]); WordsReadBack(TfdtWords(base)); WordsReadBack(TrunWords(ps, ds, offset));
    ThreeBoxes(Box(TFHD, Words([0x2_0000, 1])), Box(TFDT, Words(TfdtWords(base))), Box(TRUN, Words(TrunWords(ps, ds, offset))));
  }

  /** A fragment's header is its front, the offset and the entries. */
  lemma MoofBytes(seqNo: u32, base: u64, ps: seq<Pending>, ds: seq<u32>, offset: u32)
    requires |ds| == |ps|
    ensures BoxBytes(Moof(seqNo, base, ps, ds, offset)) == Front(seqNo, base, |ps|) + BE(offset, 4) + Words(Entries(ps, ds))
    ensures |Front(seqNo, base, |ps|)| == OFFSET_AT
  {
    var traf := Traf(base, ps, ds, offset);
    var mfhd := BoxBytes(Box(MFHD, Words([0, seqNo])));
    WordsReadBack([0, seqNo]); WordsReadBack([0x2_0000, 1]); WordsReadBack(TfdtWords(base)); WordsReadBack([0x701, |ps| % U32_END]);
    MoofSizeIs(seqNo, base, ps, ds, offset);
    TwoBoxes(Box(MFHD, Words([0, seqNo])), traf);
    TrafBytes(base, ps, ds, offset);
    TrunBytes(ps, ds, offset);
    MoofHead(seqNo, base, ps, ds, offset);
    var h := BE(MoofSize(|ps|) % U32_END, 4) + MOOF;
    var t := BE((MoofSize(|ps|) - 24) % U32_END, 4) + TRAF;
    var a, b := BoxBytes(Box(TFHD, Words([0x2_0000, 1]))), BoxBytes(Box(TFDT, Words(TfdtWords(base))));
    var r, w := BE((20 + 12 * |ps|) % U32_END, 4) + TRUN, Words([0x701, |ps| % U32_END]);
    hide BE, Words, Entries, BoxBytes, Moof, Traf, TrunWords;
    Regroup(h, mfhd, t, a, b, r, w, BE(offset, 4), Words(Entries(ps, ds)));
  }

  lemma MoofHead(seqNo: u32, base: u64, ps: seq<Pending>, ds: seq<u32>, offset: u32)
    requires |ds| == |ps|
    ensures BoxBytes(Moof(seqNo, base, ps, ds, offset))
         == BE(MoofSize(|ps|) % U32_END, 4) + MOOF + BoxList([Box(MFHD, Words([0, seqNo])), Traf(base, ps, ds, offset)])
  {
    hide BE, Words, BoxList, Traf;
    MoofSizeIs(seqNo, base, ps, ds, offset);
  }

  lemma Regroup(h: seq<byte>, m: seq<byte>, t: seq<byte>, a: seq<byte>, b: seq<byte>, r: seq<byte>, w: seq<byte>, o: seq<byte>, e: seq<byte>)
    ensures h + (m + (t + (a + b + (r + w + o + e)))) == h + m + t + a + b + r + w + o + e
  {
    var x := r + w + o + e;
    Assoc3(a + b, r + w + o, e); Assoc3(a + b, r + w, o); Assoc3(a + b, r, w);
    assert a + b + x == a + b + r + w + o + e;
    var y := a + b + r + w + o + e;
    assert t + y == t + a + b + r + w + o + e;
    var z := t + a + b + r + w + o + e;
    assert m + z == m + t + a + b + r + w + o + e;
    var v := m + t + a + b + r + w + o + e;
    assert h + v == h + m + t + a + b + r + w + o + e;
  }

  // ---- building a fragment ----

  /** Duration, size and flags of every sample. */
  method PutEntries(b: Buf, ps: seq<Pending>, ds: seq<u32>)
    requires b.Valid() && |ds| == |ps|
    modifies b, b.p
    ensures b.Valid() && b.Bytes() == old(b.Bytes()) + Words(Entries(ps, ds)) && (b.p == old(b.p) || fresh(b.p))
  {
    hide BE, Words, Entries;
    ghost var start := b.Bytes();
    var i := 0;
    NoEntries(start, ps, ds);
    while i < |ps|
      invariant 0 <= i <= |ps| && b.Valid() && b.Bytes() == start + Words(Entries(ps[..i], ds[..i])) && (b.p == old(b.p) || fresh(b.p))
    {
      b.B32(ds[i]);
      b.B32(ps[i].size);
      b.B32(if ps[i].key then SYNC_FLAGS else OTHER_FLAGS);
      NextEntry(start, ps, ds, i);
      i := i + 1;
    }
    assert ps[..i] == ps && ds[..i] == ds;
  }

  lemma NoEntries(start: seq<byte>, ps: seq<Pending>, ds: seq<u32>)
    requires |ds| == |ps|
    ensures start + Words(Entries(ps[..0], ds[..0])) == start
  {
  }

  lemma NextEntry(start: seq<byte>, ps: seq<Pending>, ds: seq<u32>, i: nat)
    requires i < |ps| == |ds|
    ensures var flags := if ps[i].key then SYNC_FLAGS else OTHER_FLAGS;
      start + Words(Entries(ps[..i], ds[..i])) + BE(ds[i], 4) + BE(ps[i].size, 4) + BE(flags, 4)
      == start + Words(Entries(ps[..i + 1], ds[..i + 1]))
  {
    hide BE, Words;
    assert ps[..i + 1][..i] == ps[..i] && ds[..i + 1][..i] == ds[..i];
    var es := Entries(ps[..i], ds[..i]);
    var flags := if ps[i].key then SYNC_FLAGS else OTHER_FLAGS;
    WordsPush(es, ds[i], start);
    WordsPush(es + [ds[i]], ps[i].size, start);
    WordsPush(es + [ds[i]] + [ps[i].size], flags, start);
    assert es + [ds[i]] + [ps[i].size] + [flags] == es + [ds[i], ps[i].size, flags];
  }

  method PutTrun(b: Buf, ps: seq<Pending>, ds: seq<u32>)
    requires b.Valid() && |ds| == |ps|
    modifies b, b.p
    ensures b.Valid() && b.Bytes() == old(b.Bytes()) + BoxBytes(Box(TRUN, Words(TrunWords(ps, ds, 0)))) && (b.p == old(b.p) || fresh(b.p))
  {
    hide BE, Words, Entries, BoxBytes;
    ghost var before := b.Bytes();
    var pos := b.Begin(TRUN);
    ghost var start := b.Bytes();
    RunWordsNone();
    assert start + [] == start;
    ghost var none: seq<u32>, n: u32 := [], |ps| % U32_END;
    WordsPush(none, 0x701, start); WordsPush(none + [0x701], n, start); WordsPush(none + [0x701] + [n], 0, start);
    b.B32(0x701);
    b.B32(|ps| % U32_END);
    b.B32(0);
    PutEntries(b, ps, ds);
    ghost var three := none + [0x701] + [n] + [0];
    WordsMore(three, Entries(ps, ds));
    assert TrunWords(ps, ds, 0) == three + Entries(ps, ds);
    assert start + Words(three) + Words(Entries(ps, ds)) == start + (Words(three) + Words(Entries(ps, ds)));
    b.End(pos, before, TRUN, Words(TrunWords(ps, ds, 0)));
  }

  /** The header of a fragment, its offset still zero. */
  method PutMoof(b: Buf, seqNo: u32, base: u64, ps: seq<Pending>, ds: seq<u32>)
    requires b.Valid() && |ds| == |ps|
    modifies b, b.p
    ensures b.Valid() && b.Bytes() == old(b.Bytes()) + BoxBytes(Moof(seqNo, base, ps, ds, 0)) && (b.p == old(b.p) || fresh(b.p))
  {
    hide BE, Words, Entries, BoxBytes, BoxList, TrunWords, TfdtWords;
    ghost var before := b.Bytes();
    var pos := b.Begin(MOOF);
    ghost var start := b.Bytes();
    PutWords(b, MFHD, [0, seqNo]);
    PutTraf(b, base, ps, ds);
    TwoAdded(start, Box(MFHD, Words([0, seqNo])), Traf(base, ps, ds, 0));
    b.End(pos, before, MOOF, BoxList([Box(MFHD, Words([0, seqNo])), Traf(base, ps, ds, 0)]));
  }

  method PutTraf(b: Buf, base: u64, ps: seq<Pending>, ds: seq<u32>)
    requires b.Valid() && |ds| == |ps|
    modifies b, b.p
    ensures b.Valid() && b.Bytes() == old(b.Bytes()) + BoxBytes(Traf(base, ps, ds, 0)) && (b.p == old(b.p) || fresh(b.p))
  {
    hide BE, Words, Entries, BoxBytes, BoxList, TrunWords;
    ghost var before := b.Bytes();
    var pos := b.Begin(TRAF);
    ghost var start := b.Bytes();
    PutWords(b, TFHD, [0x2_0000, 1]);
    PutWords(b, TFDT, [0x0100_0000, base / U32_END, base % U32_END]);
    PutTrun(b, ps, ds);
    ThreeAdded(start, Box(TFHD, Words([0x2_0000, 1])), Box(TFDT, Words(TfdtWords(base))), Box(TRUN, Words(TrunWords(ps, ds, 0))));
    b.End(pos, before, TRAF, BoxList([Box(TFHD, Words([0x2_0000, 1])), Box(TFDT, Words(TfdtWords(base))), Box(TRUN, Words(TrunWords(ps, ds, 0)))]));
  }

  /** The header with its offset: that of the payload behind the header of the media box. */
  method MakeMoof(seqNo: u32, base: u64, ps: seq<Pending>, ds: seq<u32>) returns (d: seq<byte>)
    requires |ds| == |ps|
    ensures d == BoxBytes(Moof(seqNo, base, ps, ds, (MoofSize(|ps|) + 8) % U32_END))
  {
    hide BE, Words, Entries, BoxBytes, Moof, Front;
    var b := new Buf();
    PutMoof(b, seqNo, base, ps, ds);
    assert [] + BoxBytes(Moof(seqNo, base, ps, ds, 0)) == BoxBytes(Moof(seqNo, base, ps, ds, 0));
    MoofSizeIs(seqNo, base, ps, ds, 0);
    MoofBytes(seqNo, base, ps, ds, 0);
    var offset := (b.len + 8) % U32_END;
    MoofBytes(seqNo, base, ps, ds, offset);
    OffsetPatched(Front(seqNo, base, |ps|), BE(0, 4), BE(offset, 4), Words(Entries(ps, ds)));
    b.Patch(OFFSET_AT, offset);
    d := b.p[..b.len];
  }

  lemma OffsetPatched(front: seq<byte>, zero: seq<byte>, v: seq<byte>, rest: seq<byte>)
    requires |front| == OFFSET_AT && |zero| == |v| == 4
    ensures var whole := front + zero + rest; whole[..OFFSET_AT] + v + whole[OFFSET_AT + 4..] == front + v + rest
  {
    var whole := front + zero + rest;
    assert whole[..OFFSET_AT] == front && whole[OFFSET_AT + 4..] == rest;
  }

  // ---- the muxer ----

  class FragMuxer {
    const moov: Box
    const dflt: u32
    var file: seq<byte>
    var track: Track
    var sps: bool
    var init: bool
    var seqNo: u32
    var base: u64
    const frag: Buf
    var pend: seq<Pending>
    ghost var boxes: seq<Box>

    ghost predicate Valid()
      reads this, frag
    {
      frag.Valid() && file == BoxList(boxes)
    }

    ghost function Value(): FragMovie
      requires Valid()
      reads this, frag, frag.p
    {
      FragMovie(track, sps, init, seqNo, base, frag.Bytes(), pend, boxes)
    }

    constructor (head: Box, moov: Box, dflt: u32)
      ensures Valid() && Value() == Start(head) && fresh(frag) && fresh(frag.p) && this.moov == moov && this.dflt == dflt
    {
      hide BE, BoxBytes;
      this.moov, this.dflt := moov, dflt;
      track, sps, init, seqNo, base, pend := NoCodec, false, false, 0, 0, [];
      boxes := [head];
      frag := new Buf();
      var b := new Buf();
      PutBox(b, head);
      file := b.p[..b.len];
      new;
      OneBoxList(head);
    }

    /** Appends finished bytes of one box. */
    method Append(d: seq<byte>, ghost x: Box)
      requires Valid() && d == BoxBytes(x)
      modifies `file, `boxes
      ensures Valid() && Value() == old(Value()).(boxes := old(boxes) + [x])
    {
      hide BoxBytes, BoxList;
      ListJoin(boxes, [x]);
      OneBoxList(x);
      file := file + d;
      boxes := boxes + [x];
    }

    /** Durations of the waiting samples. */
    method ComputeDurations() returns (ds: array<u32>)
      ensures fresh(ds) && ds[..] == FragDurations(pend, dflt)
    {
      ds := new u32[|pend|];
      var i := 0;
      while i < |pend|
        invariant 0 <= i <= |pend| && forall k :: 0 <= k < i ==> ds[k] == FragDuration(pend, dflt, k)
      {
        var d: u32;
        if i + 1 < |pend| && pend[i + 1].pts > pend[i].pts {
          d := (pend[i + 1].pts - pend[i].pts) % U32_END;
        } else {
          d := dflt;
        }
        ds[i] := if d != 0 then d else dflt;
        i := i + 1;
      }
    }

    /** Header and payload of the waiting samples into the file. */
    method WriteFragment(n: u32, ds: seq<u32>)
      requires Valid() && |ds| == |pend|
      modifies `file, `boxes
      ensures Valid()
      ensures var m := old(Value());
        Value() == m.(boxes := m.boxes + [Moof(n, m.base, m.pend, ds, (MoofSize(|m.pend|) + 8) % U32_END), Box(MDAT, m.data)])
    {
      hide BoxBytes, BoxList, Moof, BE;
      ghost var was := boxes;
      var header := MakeMoof(n, base, pend, ds);
      ghost var moof := Moof(n, base, pend, ds, (MoofSize(|pend|) + 8) % U32_END);
      Append(header, moof);
      var size := (frag.len + 8) % U32_END;
      var data := frag.p[..frag.len];
      MediaBox(data, size);
      Append(BE(size, 4) + MDAT + data, Box(MDAT, data));
      assert was + [moof] + [Box(MDAT, data)] == was + [moof, Box(MDAT, data)];
    }

    /** Writes the waiting samples as a fragment. */
    method FlushFragment()
      requires Valid()
      modifies this, frag
      ensures Valid() && Value() == Flush(old(Value()), dflt) && frag.p == old(frag.p)
    {
      hide BoxBytes, BoxList, Moof, FragDurations, Sum, BE, MoofSize;
      if |pend| == 0 {
        return;
      }
      var ds := ComputeDurations();
      var total := TotalOf(ds);
      var n := (seqNo + 1) % U32_END;
      WriteFragment(n, ds[..]);
      seqNo, base, pend := n, (base + total) % U64_END, [];
      frag.len := 0;
    }

    /** The movie box, once there are parameter sets for it. */
    method WriteInitOnce()
      requires Valid()
      modifies this
      ensures Valid() && Value() == WriteInit(old(Value()), moov)
    {
      hide BoxBytes, BoxList;
      if !init && sps {
        var b := new Buf();
        PutBox(b, moov);
        assert [] + BoxBytes(moov) == BoxBytes(moov);
        Append(b.p[..b.len], moov);
        init := true;
      }
    }

    /** The sample of a frame joins the waiting ones. */
    method Enqueue(au: seq<byte>, key: bool, pts: u64)
      requires Valid()
      modifies this, frag, frag.p
      ensures Valid() && (frag.p == old(frag.p) || fresh(frag.p))
      ensures var m := old(Value()); Value() == m.(data := m.data + au, pend := m.pend + [Pending(|au| % U32_END, key, pts)])
    {
      hide BoxList;
      frag.Mem(au);
      pend := pend + [Pending(|au| % U32_END, key, pts)];
    }

    /** Codec of the first frame; whether parameter sets have come. */
    method NoteStream(c: Codec, seen: bool)
      requires Valid()
      modifies `track, `sps
      ensures Valid() && Value() == old(Value()).(track := Has(c), sps := old(sps) || seen)
    {
      hide BoxList;
      track, sps := Has(c), sps || seen;
    }

    /** One frame; a key frame first closes the fragment before it. */
    method AddOne(f: Frame)
      requires Valid()
      modifies this, frag, frag.p
      ensures Valid() && Value() == AddFrame(old(Value()), f, moov, dflt) && (frag.p == old(frag.p) || fresh(frag.p))
    {
      hide BoxBytes, BoxList, Flush, WriteInit, Scan, Vcl, Sized, HasKeyNal, HasSps, SampleNals, Content, KeyOf, AddFrame;
      AddParts(Value(), f, moov, dflt);
      var c := if track.NoCodec? then f.codec else track.codec;
      var au, key, seen := CollectAu(c, f.annexb);
      AuIs(c, f);
      NoteStream(c, seen);
      if |au| == 0 {
        return;
      }
      key := key || f.key;
      WriteInitOnce();
      if key {
        FlushFragment();
      }
      Enqueue(au, key, f.pts);
    }

    method FinishFile()
      requires Valid()
      modifies this, frag
      ensures Valid() && file == BoxList(Finish(old(Value()), moov, dflt).boxes)
    {
      hide BoxBytes, BoxList, Flush, WriteInit;
      WriteInitOnce();
      FlushFragment();
    }
  }

  /** The frame's NAL units for a sample behind their lengths, whether one is a key picture, and
      whether the frame brought a sequence parameter set. */
  method CollectAu(c: Codec, annexb: seq<byte>) returns (au: seq<byte>, key: bool, seen: bool)
    ensures var all := Scan(annexb, 0);
      au == Sized(Vcl(c, all)) && key == HasKeyNal(c, Vcl(c, all)) && seen == HasSps(c, all)
  {
    hide BE, Sized, Vcl, HasKeyNal, PayloadType, IsVcl, IsKey, Scan;
    var nals := ScanNals(annexb);
    au, key, seen := [], false, false;
    var i := 0;
    NothingYet(c, nals);
    while i < |nals|
      invariant 0 <= i <= |nals| && au == Sized(Vcl(c, nals[..i])) && key == HasKeyNal(c, Vcl(c, nals[..i])) && seen == HasSps(c, nals[..i])
    {
      var nal := nals[i];
      VclMore(c, nals, i);
      SpsMore(c, nals, i);
      seen := seen || IsSps(c, nal);
      if |nal| > 0 && IsVcl(c, PayloadType(c, nal)) {
        SizedPush(Vcl(c, nals[..i]), nal);
        KeyMore(c, Vcl(c, nals[..i]), nal);
        au := au + BE(|nal| % U32_END, 4) + nal;
        key := key || IsKey(c, PayloadType(c, nal));
      } else {
        assert Vcl(c, nals[..i]) + [] == Vcl(c, nals[..i]);
      }
      i := i + 1;
    }
    assert nals[..i] == nals;
  }

  lemma SpsMore(c: Codec, nals: seq<Nal>, i: nat)
    requires i < |nals|
    ensures HasSps(c, nals[..i + 1]) <==> HasSps(c, nals[..i]) || IsSps(c, nals[i])
  {
    hide IsSps;
    var a, b := nals[..i], nals[..i + 1];
    if HasSps(c, a) {
      var k :| 0 <= k < |a| && IsSps(c, a[k]);
      assert b[k] == a[k];
    }
    if IsSps(c, nals[i]) {
      assert b[i] == nals[i];
    }
    if HasSps(c, b) {
      var k :| 0 <= k < |b| && IsSps(c, b[k]);
      assert k < i ==> a[k] == b[k];
    }
  }

  lemma AuIs(c: Codec, f: Frame)
    ensures Content(c, f) == [] <==> SampleNals(c, f) == []
    ensures var nals := Vcl(c, Scan(f.annexb, 0)); Content(c, f) == Sized(nals) && KeyOf(c, f) == (HasKeyNal(c, nals) || f.key)
  {
    hide BE;
    if SampleNals(c, f) != [] {
      SizedNotEmpty(SampleNals(c, f));
    }
  }

  lemma OneBoxList(x: Box)
    ensures BoxList([x]) == BoxBytes(x)
  {
    hide BoxBytes;
    assert [x][1..] == [] && BoxBytes(x) + [] == BoxBytes(x);
  }

  lemma MediaBox(data: seq<byte>, size: u32)
    requires size == (|data| + 8) % U32_END
    ensures BE(size, 4) + MDAT + data == BoxBytes(Box(MDAT, data))
  {
    hide BE;
  }
}
