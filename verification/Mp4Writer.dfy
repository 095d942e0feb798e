/** The MP4 muxer as an object: samples written as frames come, sizes filled in afterwards, tables
    and movie box at the end. */
module Mp4Writer {
  import opened Bytes
  import opened Rtp
  import opened NalScan
  import opened Boxes
  import opened Mp4
  import opened Mp4File

  // ---- tables into the buffer ----

  /** One box of words. */
  method PutWords(b: Buf, kind: Kind, ws: seq<u32>)
    requires b.Valid()
    modifies b, b.p
    ensures b.Valid() && b.Bytes() == old(b.Bytes()) + BoxBytes(Box(kind, Words(ws))) && (b.p == old(b.p) || fresh(b.p))
  {
    hide BE, BoxBytes;
    ghost var before := b.Bytes();
    var pos := b.Begin(kind);
    ghost var start := b.Bytes();
    var i := 0;
    assert ws[..0] == [] && start + Words([]) == start;
    while i < |ws|
      invariant 0 <= i <= |ws| && b.Valid() && b.Bytes() == start + Words(ws[..i]) && (b.p == old(b.p) || fresh(b.p))
    {
      b.B32(ws[i]);
      assert ws[..i + 1][..i] == ws[..i];
      assert start + Words(ws[..i]) + BE(ws[i], 4) == start + (Words(ws[..i]) + BE(ws[i], 4));
      i := i + 1;
    }
    assert ws[..i] == ws;
    b.End(pos, before, kind, Words(ws));
  }

  /** Runs of equal durations; gives their number. */
  method PutRuns(b: Buf, ds: seq<u32>) returns (runs: nat)
    requires b.Valid()
    modifies b, b.p
    ensures b.Valid() && b.Bytes() == old(b.Bytes()) + Words(RunWords(Runs(ds))) && runs == |Runs(ds)| && (b.p == old(b.p) || fresh(b.p))
  {
    hide BE, Words, RunWords, Runs, RunLength;
    ghost var start, all := b.Bytes(), Runs(ds);
    ghost var done: seq<(nat, u32)> := [];
    var i: nat := 0;
    runs := 0;
    assert ds[0..] == ds && done + all == all;
    RunWordsNone();
    assert start + [] == start;
    while i < |ds|
      invariant 0 <= i <= |ds| && runs == |done| && done + Runs(ds[i..]) == all
      invariant b.Valid() && b.Bytes() == start + Words(RunWords(done)) && (b.p == old(b.p) || fresh(b.p))
    {
      var d := ds[i];
      var c := CountRun(ds, i);
      b.B32(c % U32_END);
      b.B32(d);
      NextRun(ds, i, done, start);
      done := done + [(c, d)];
      runs, i := runs + 1, i + c;
    }
    RunsEnd(ds, i, done);
  }

  lemma RunsEnd(ds: seq<u32>, i: nat, done: seq<(nat, u32)>)
    requires i == |ds|
    ensures done + Runs(ds[i..]) == done
  {
  }

  /** The time table, with equal durations run together; the number of runs is filled in at the end. */
  method PutStts(b: Buf, ds: seq<u32>)
    requires b.Valid()
    modifies b, b.p
    ensures b.Valid() && b.Bytes() == old(b.Bytes()) + BoxBytes(Box(STTS, Words(SttsWords(ds)))) && (b.p == old(b.p) || fresh(b.p))
  {
    hide BE, BoxBytes, Words, RunWords, Runs;
    ghost var before := b.Bytes();
    var pos := b.Begin(STTS);
    b.B32(0);
    ghost var start := b.Bytes();
    var countPos := b.len;
    b.B32(0);
    var runs := PutRuns(b, ds);
    b.Patch(countPos, runs % U32_END);
    SttsBody(start, RunWords(Runs(ds)), runs % U32_END, before + BE(0, 4) + STTS);
    b.End(pos, before, STTS, Words(SttsWords(ds)));
  }

  /** How many durations from `i` on are equal. */
  method CountRun(ds: seq<u32>, i: nat) returns (c: nat)
    requires i < |ds|
    ensures c == RunLength(ds[i..])
  {
    c := 1;
    while i + c < |ds| && ds[i + c] == ds[i]
      invariant 1 <= c && i + c <= |ds| && RunLength(ds[i..]) == c - 1 + RunLength(ds[i + c - 1..]) && ds[i + c - 1] == ds[i]
    {
      assert ds[i + c - 1..][1..] == ds[i + c..];
      c := c + 1;
    }
  }

  lemma RunWordsNone()
    ensures RunWords([]) == [] && Words([]) == []
  {
  }

  lemma NextRun(ds: seq<u32>, i: nat, done: seq<(nat, u32)>, front: seq<byte>)
    requires i < |ds|
    ensures var c, d := RunLength(ds[i..]), ds[i];
      && i + c <= |ds| && done + Runs(ds[i..]) == done + [(c, d)] + Runs(ds[i + c..])
      && front + Words(RunWords(done)) + BE(c % U32_END, 4) + BE(d, 4) == front + Words(RunWords(done + [(c, d)]))
  {
    hide BE, RunWords, RunLength, Words;
    var c, d := RunLength(ds[i..]), ds[i];
    assert ds[i..][c..] == ds[i + c..];
    RunWordsPush(done, c, d);
    WordsPush(RunWords(done), c % U32_END, front);
    WordsPush(RunWords(done) + [c % U32_END], d, front);
    assert RunWords(done) + [c % U32_END] + [d] == RunWords(done) + [c % U32_END, d];
  }

  lemma RunWordsPush(done: seq<(nat, u32)>, c: nat, d: u32)
    ensures RunWords(done + [(c, d)]) == RunWords(done) + [c % U32_END, d]
  {
    assert (done + [(c, d)])[..|done|] == done;
  }

  /** The count patched between the leading zero and the runs. */
  lemma SttsBody(start: seq<byte>, ws: seq<u32>, n: u32, head: seq<byte>)
    requires start == head + BE(0, 4)
    ensures var whole := start + BE(0, 4) + Words(ws);
      whole[..|start|] + BE(n, 4) + whole[|start| + 4..] == head + Words([0, n] + ws)
  {
    hide BE, Words;
    var whole := start + BE(0, 4) + Words(ws);
    assert whole[..|start|] == start && whole[|start| + 4..] == Words(ws);
    WordsMore([0, n], ws);
    TwoWords(n);
    assert head + BE(0, 4) + BE(n, 4) + Words(ws) == head + (BE(0, 4) + BE(n, 4) + Words(ws));
  }

  lemma TwoWords(n: u32)
    ensures Words([0, n]) == BE(0, 4) + BE(n, 4)
  {
    hide BE, Words;
    WordsMore([0], [n]);
    WordsOne(0); WordsOne(n);
    assert [0] + [n] == [0, n];
  }

  /** The numbers of the key samples; gives how many. */
  method PutKeyNumbers(b: Buf, ss: seq<Sample>) returns (nk: nat)
    requires b.Valid()
    modifies b, b.p
    ensures b.Valid() && b.Bytes() == old(b.Bytes()) + Words(KeyNumbers(KeysOf(ss))) && nk == |KeyNumbers(KeysOf(ss))|
    ensures b.p == old(b.p) || fresh(b.p)
  {
    hide BE, Words, KeyNumbers;
    ghost var start, keys := b.Bytes(), KeysOf(ss);
    var j := 0;
    nk := 0;
    NoKeys(start, keys);
    while j < |ss|
      invariant 0 <= j <= |ss| && nk == |KeyNumbers(keys[..j])|
      invariant b.Valid() && b.Bytes() == start + Words(KeyNumbers(keys[..j])) && (b.p == old(b.p) || fresh(b.p))
    {
      NextKey(keys, j);
      if ss[j].key {
        b.B32((j + 1) % U32_END);
        WordsPush(KeyNumbers(keys[..j]), (j + 1) % U32_END, start);
        nk := nk + 1;
      }
      j := j + 1;
    }
    assert keys[..j] == keys;
  }

  lemma NoKeys(start: seq<byte>, keys: seq<bool>)
    ensures KeyNumbers(keys[..0]) == [] && start + Words([]) == start
  {
  }

  lemma NextKey(keys: seq<bool>, j: nat)
    requires j < |keys|
    ensures KeyNumbers(keys[..j + 1]) == if keys[j] then KeyNumbers(keys[..j]) + [(j + 1) % U32_END] else KeyNumbers(keys[..j])
  {
    assert keys[..j + 1][..j] == keys[..j] && KeyNumbers(keys[..j]) + [] == KeyNumbers(keys[..j]);
  }

  /** The sync table; its count is filled in at the end too. */
  method PutStss(b: Buf, ss: seq<Sample>)
    requires b.Valid()
    modifies b, b.p
    ensures b.Valid() && b.Bytes() == old(b.Bytes()) + BoxBytes(Box(STSS, Words(StssWords(ss)))) && (b.p == old(b.p) || fresh(b.p))
  {
    hide BE, BoxBytes, Words, KeyNumbers, KeysOf;
    ghost var before := b.Bytes();
    var pos := b.Begin(STSS);
    b.B32(0);
    ghost var start := b.Bytes();
    var countPos := b.len;
    b.B32(0);
    var nk := PutKeyNumbers(b, ss);
    b.Patch(countPos, nk % U32_END);
    SttsBody(start, KeyNumbers(KeysOf(ss)), nk % U32_END, before + BE(0, 4) + STSS);
    b.End(pos, before, STSS, Words(StssWords(ss)));
  }

  lemma WordsPush(ws: seq<u32>, w: u32, front: seq<byte>)
    ensures front + Words(ws) + BE(w, 4) == front + Words(ws + [w])
  {
    hide BE;
    WordsMore(ws, [w]);
    WordsOne(w);
  }

  /** A finished box whose body is given. */
  method PutBox(b: Buf, x: Box)
    requires b.Valid()
    modifies b, b.p
    ensures b.Valid() && b.Bytes() == old(b.Bytes()) + BoxBytes(x) && (b.p == old(b.p) || fresh(b.p))
  {
    ghost var before := b.Bytes();
    var pos := b.Begin(x.kind);
    b.Mem(x.body);
    b.End(pos, before, x.kind, x.body);
  }

  method PutStbl(b: Buf, ss: seq<Sample>, ds: seq<u32>, entry: seq<byte>)
    requires b.Valid()
    modifies b, b.p
    ensures b.Valid() && b.Bytes() == old(b.Bytes()) + BoxBytes(Box(STBL, BoxList(Tables(ss, ds, entry)))) && (b.p == old(b.p) || fresh(b.p))
  {
    hide BE, BoxBytes, BoxList, Words, SttsWords, StssWords, StscWords, StszWords, StcoWords;
    ghost var before := b.Bytes();
    var pos := b.Begin(STBL);
    ghost var start := b.Bytes();
    PutTimes(b, ss, ds, entry);
    PutPlaces(b, ss);
    ghost var ts := Tables(ss, ds, entry);
    assert ts == ts[..3] + ts[3..];
    ListsAdded(start, ts[..3], ts[3..]);
    b.End(pos, before, STBL, BoxList(ts));
  }

  /** Description, times and key samples. */
  method PutTimes(b: Buf, ss: seq<Sample>, ds: seq<u32>, entry: seq<byte>)
    requires b.Valid()
    modifies b, b.p
    ensures b.Valid() && b.Bytes() == old(b.Bytes()) + BoxList(Tables(ss, ds, entry)[..3]) && (b.p == old(b.p) || fresh(b.p))
  {
    hide BE, BoxBytes, BoxList, Words, SttsWords, StssWords, StscWords, StszWords, StcoWords, Stsd;
    ghost var start := b.Bytes();
    PutBox(b, Stsd(entry));
    PutStts(b, ds);
    PutStss(b, ss);
    ThreeAdded(start, Stsd(entry), Box(STTS, Words(SttsWords(ds))), Box(STSS, Words(StssWords(ss))));
    assert Tables(ss, ds, entry)[..3] == [Stsd(entry), Box(STTS, Words(SttsWords(ds))), Box(STSS, Words(StssWords(ss)))];
  }

  /** One chunk with all samples, their sizes and its place. */
  method PutPlaces(b: Buf, ss: seq<Sample>)
    requires b.Valid()
    modifies b, b.p
    ensures var ts := [Box(STSC, Words(StscWords(ss))), Box(STSZ, Words(StszWords(ss))), Box(STCO, Words(StcoWords(ss)))];
      b.Valid() && b.Bytes() == old(b.Bytes()) + BoxList(ts) && (b.p == old(b.p) || fresh(b.p))
  {
    hide BE, BoxBytes, BoxList, Words, StscWords, StszWords, StcoWords;
    ghost var start := b.Bytes();
    PutWords(b, STSC, StscWords(ss));
    PutWords(b, STSZ, StszWords(ss));
    PutWords(b, STCO, StcoWords(ss));
    ThreeAdded(start, Box(STSC, Words(StscWords(ss))), Box(STSZ, Words(StszWords(ss))), Box(STCO, Words(StcoWords(ss))));
  }

  lemma {:induction false} ListJoin(a: seq<Box>, b: seq<Box>)
    ensures BoxList(a + b) == BoxList(a) + BoxList(b)
    decreases |a|
  {
    hide BoxBytes;
    if a == [] {
      assert a + b == b;
    } else {
      assert (a + b)[0] == a[0] && (a + b)[1..] == a[1..] + b;
      ListJoin(a[1..], b);
    }
  }

  lemma ListsAdded(front: seq<byte>, a: seq<Box>, b: seq<Box>)
    ensures front + BoxList(a) + BoxList(b) == front + BoxList(a + b)
  {
    hide BoxList;
    ListJoin(a, b);
    assert front + BoxList(a) + BoxList(b) == front + (BoxList(a) + BoxList(b));
  }

  /** The movie box, from the outside in. */
  method PutMoov(b: Buf, s: Settings, ss: seq<Sample>, ds: seq<u32>, total: nat, entry: seq<byte>)
    requires b.Valid() && total == Sum(ds)
    modifies b, b.p
    ensures b.Valid() && b.Bytes() == old(b.Bytes()) + BoxBytes(Moov(s, ss, ds, entry)) && (b.p == old(b.p) || fresh(b.p))
  {
    hide BE, BoxBytes, BoxList, Words, Tables, Mvhd, Trak;
    ghost var before := b.Bytes();
    var pos := b.Begin(MOOV);
    ghost var start := b.Bytes();
    PutBox(b, Mvhd(s, total));
    PutTrak(b, s, ss, ds, total, entry);
    TwoAdded(start, Mvhd(s, total), Trak(s, ss, ds, entry));
    b.End(pos, before, MOOV, BoxList([Mvhd(s, total), Trak(s, ss, ds, entry)]));
  }

  method PutTrak(b: Buf, s: Settings, ss: seq<Sample>, ds: seq<u32>, total: nat, entry: seq<byte>)
    requires b.Valid() && total == Sum(ds)
    modifies b, b.p
    ensures b.Valid() && b.Bytes() == old(b.Bytes()) + BoxBytes(Trak(s, ss, ds, entry)) && (b.p == old(b.p) || fresh(b.p))
  {
    hide BE, BoxBytes, BoxList, Tkhd, Mdhd, Minf;
    ghost var before := b.Bytes();
    var pos := b.Begin(TRAK);
    ghost var start := b.Bytes();
    PutBox(b, Tkhd(s, total));
    PutMdia(b, s, ss, ds, total, entry);
    ghost var mdia := Box(MDIA, BoxList([Mdhd(s, total), HDLR_BOX, Minf(ss, ds, entry)]));
    TwoAdded(start, Tkhd(s, total), mdia);
    b.End(pos, before, TRAK, BoxList([Tkhd(s, total), mdia]));
  }

  method PutMdia(b: Buf, s: Settings, ss: seq<Sample>, ds: seq<u32>, total: nat, entry: seq<byte>)
    requires b.Valid() && total == Sum(ds)
    modifies b, b.p
    ensures var body := BoxList([Mdhd(s, total), HDLR_BOX, Minf(ss, ds, entry)]);
      b.Valid() && b.Bytes() == old(b.Bytes()) + BoxBytes(Box(MDIA, body)) && (b.p == old(b.p) || fresh(b.p))
  {
    hide BE, BoxBytes, BoxList, Mdhd, Minf;
    ghost var before := b.Bytes();
    var pos := b.Begin(MDIA);
    ghost var start := b.Bytes();
    PutBox(b, Mdhd(s, total));
    PutBox(b, HDLR_BOX);
    PutMinf(b, ss, ds, entry);
    ThreeAdded(start, Mdhd(s, total), HDLR_BOX, Minf(ss, ds, entry));
    b.End(pos, before, MDIA, BoxList([Mdhd(s, total), HDLR_BOX, Minf(ss, ds, entry)]));
  }

  method PutMinf(b: Buf, ss: seq<Sample>, ds: seq<u32>, entry: seq<byte>)
    requires b.Valid()
    modifies b, b.p
    ensures b.Valid() && b.Bytes() == old(b.Bytes()) + BoxBytes(Minf(ss, ds, entry)) && (b.p == old(b.p) || fresh(b.p))
  {
    hide BE, BoxBytes, BoxList, Words, Tables;
    ghost var before := b.Bytes();
    var pos := b.Begin(MINF);
    ghost var start := b.Bytes();
    PutBox(b, VMHD_BOX);
    PutBox(b, DINF_BOX);
    PutStbl(b, ss, ds, entry);
    ghost var stbl := Box(STBL, BoxList(Tables(ss, ds, entry)));
    ThreeAdded(start, VMHD_BOX, DINF_BOX, stbl);
    b.End(pos, before, MINF, BoxList([VMHD_BOX, DINF_BOX, stbl]));
  }

  lemma TwoAdded(front: seq<byte>, x: Box, y: Box)
    ensures front + BoxBytes(x) + BoxBytes(y) == front + BoxList([x, y])
  {
    hide BoxBytes, BoxList;
    TwoBoxes(x, y);
    assert front + BoxBytes(x) + BoxBytes(y) == front + (BoxBytes(x) + BoxBytes(y));
  }

  lemma ThreeAdded(front: seq<byte>, x: Box, y: Box, z: Box)
    ensures front + BoxBytes(x) + BoxBytes(y) + BoxBytes(z) == front + BoxList([x, y, z])
  {
    hide BoxBytes, BoxList;
    ThreeBoxes(x, y, z);
    assert front + BoxBytes(x) + BoxBytes(y) + BoxBytes(z) == front + (BoxBytes(x) + BoxBytes(y) + BoxBytes(z));
  }

  // ---- the muxer ----

  /** Where a frame's NAL units lie in the file so far. */
  lemma VclMore(c: Codec, nals: seq<Nal>, i: nat)
    requires i < |nals|
    ensures Vcl(c, nals[..i + 1]) == Vcl(c, nals[..i]) + if nals[i] != [] && IsVcl(c, PayloadType(c, nals[i])) then [nals[i]] else []
  {
    assert nals[..i + 1][..i] == nals[..i];
  }

  lemma KeyMore(c: Codec, a: seq<Nal>, n: Nal)
    requires n != []
    ensures HasKeyNal(c, a + [n]) <==> HasKeyNal(c, a) || IsKey(c, PayloadType(c, n))
  {
    if HasKeyNal(c, a) {
      var i :| 0 <= i < |a| && a[i] != [] && IsKey(c, PayloadType(c, a[i]));
      assert (a + [n])[i] == a[i];
    }
    if IsKey(c, PayloadType(c, n)) {
      assert (a + [n])[|a|] == n;
    }
    if HasKeyNal(c, a + [n]) {
      var i :| 0 <= i < |a + [n]| && (a + [n])[i] != [] && IsKey(c, PayloadType(c, (a + [n])[i]));
    }
  }

  lemma SizedPush(a: seq<Nal>, n: Nal)
    ensures Sized(a + [n]) == Sized(a) + BE(|n| % U32_END, 4) + n
  {
    assert (a + [n])[..|a|] == a;
  }

  class Muxer {
    const settings: Settings
    var file: seq<byte>
    var mdatPos: nat
    var track: Track
    var samples: seq<Sample>
    ghost var data: seq<byte>

    /** The file holds the first boxes, the header of the media box without its size, and the samples. */
    ghost predicate Valid()
      reads this
    {
      file == BoxBytes(FTYP_BOX) + BE(0, 4) + MDAT + data && mdatPos == |BoxBytes(FTYP_BOX)|
    }

    ghost function Value(): Movie
      reads this
    {
      Movie(track, BoxBytes(FTYP_BOX), data, samples)
    }

    constructor (settings: Settings)
      ensures Valid() && Value() == AddAll(BoxBytes(FTYP_BOX), []) && this.settings == settings
    {
      hide BE, BoxBytes;
      this.settings := settings;
      track, samples, data := NoCodec, [], [];
      var b := new Buf();
      PutBox(b, FTYP_BOX);
      var front := b.p[..b.len];
      b.B32(0);
      b.Mem(MDAT);
      assert [] + BoxBytes(FTYP_BOX) == BoxBytes(FTYP_BOX) == front;
      file, mdatPos := b.p[..b.len], |front|;
      assert front + BE(0, 4) + MDAT + [] == front + BE(0, 4) + MDAT;
    }

    /** One frame; a frame without coded pictures adds nothing. */
    method AddFrame(f: Frame)
      requires Valid()
      modifies `file, `track, `samples, `data
      ensures Valid() && Value() == Add(old(Value()), f)
    {
      hide BE, BoxBytes, Sized, Vcl, HasKeyNal, PayloadType, IsVcl, IsKey;
      if track.NoCodec? {
        track := Has(f.codec);
      }
      var c := track.codec;
      var nals := ScanNals(f.annexb);
      ghost var was, before := data, file;
      ghost var head := |BoxBytes(FTYP_BOX)| + 8;
      var started, key := false, false;
      var off: u32, size: u32 := 0, 0;
      var i := 0;
      NothingYet(c, nals);
      assert was + [] == was;
      while i < |nals|
        invariant 0 <= i <= |nals| && Valid() && track == Has(c) && samples == old(samples)
        invariant var vcl := Vcl(c, nals[..i]);
          && data == was + Sized(vcl) && size == |Sized(vcl)| % U32_END && key == HasKeyNal(c, vcl)
          && started == (vcl != []) && (started ==> off == (head + |was|) % U32_END)
      {
        var nal := nals[i];
        VclMore(c, nals, i);
        if |nal| > 0 && IsVcl(c, PayloadType(c, nal)) {
          ghost var vcl := Vcl(c, nals[..i]);
          if !started {
            SizedNone(vcl);
            off, started := |file| % U32_END, true;
          }
          SizedPush(vcl, nal);
          KeyMore(c, vcl, nal);
          size := AddNal(nal, was, vcl, size);
          key := key || IsKey(c, PayloadType(c, nal));
        } else {
          assert Vcl(c, nals[..i]) + [] == Vcl(c, nals[..i]);
        }
        i := i + 1;
      }
      assert nals[..i] == nals;
      SizedNone(Vcl(c, nals));
      if !started {
        return;
      }
      samples := samples + [Sample(off, size, key || f.key, f.pts)];
    }

    /** A NAL unit behind its length, at the end of the file. */
    method AddNal(nal: Nal, ghost was: seq<byte>, ghost vcl: seq<Nal>, size: u32) returns (newSize: u32)
      requires Valid() && data == was + Sized(vcl) && size == |Sized(vcl)| % U32_END
      modifies `file, `data
      ensures Valid() && data == was + Sized(vcl + [nal]) && newSize == |Sized(vcl + [nal])| % U32_END
    {
      hide BE, BoxBytes, Sized;
      var more := BE(|nal| % U32_END, 4) + nal;
      SizedPush(vcl, nal);
      file := file + more;
      data := data + more;
      assert was + Sized(vcl) + more == was + (Sized(vcl) + BE(|nal| % U32_END, 4) + nal);
      newSize := (size + |more|) % U32_END;
      AddSizes(|Sized(vcl)|, |more|);
    }

    /** The durations of all samples, each from its successor or its predecessor. */
    method ComputeDurations() returns (ds: array<u32>)
      ensures fresh(ds) && ds[..] == DurationsOf(settings, samples)
    {
      hide Duration;
      var dflt := settings.scale / (if settings.fps != 0 then settings.fps else 15);
      ghost var pts := PtsOf(samples);
      ds := new u32[|samples|];
      var i := 0;
      while i < |samples|
        invariant 0 <= i <= |samples| && forall k :: 0 <= k < i ==> ds[k] == Duration(pts, dflt, k)
      {
        DurationStep(pts, dflt, i);
        var d: u32;
        if i + 1 < |samples| && samples[i + 1].pts > samples[i].pts {
          d := (samples[i + 1].pts - samples[i].pts) % U32_END;
        } else if i > 0 {
          d := ds[i - 1];
        } else {
          d := dflt;
        }
        ds[i] := if d == 0 then dflt else d;
        i := i + 1;
      }
    }

    /** Fills in the size of the media box and appends the movie box. */
    method Finish(entry: seq<byte>)
      requires Valid()
      modifies `file
      ensures file == FileOf(old(Value()), settings, entry)
    {
      hide BE, BoxBytes, Moov, Sum, DurationsOf;
      var size := (|file| - mdatPos) % U32_END;
      file := file[..mdatPos] + BE(size, 4) + file[mdatPos + 4..];
      MediaBoxClosed(BoxBytes(FTYP_BOX), BE(0, 4), BE(size, 4), data);
      var ds := ComputeDurations();
      var total := TotalOf(ds);
      var b := new Buf();
      PutMoov(b, settings, samples, ds[..], total, entry);
      assert [] + BoxBytes(Moov(settings, samples, ds[..], entry)) == b.p[..b.len];
      file := file + b.p[..b.len];
    }
  }

  lemma DurationStep(pts: seq<u64>, dflt: u32, i: nat)
    requires i < |pts|
    ensures var d := if i + 1 < |pts| && pts[i + 1] > pts[i] then (pts[i + 1] - pts[i]) % U32_END
                     else if i > 0 then Duration(pts, dflt, i - 1) else dflt;
      Duration(pts, dflt, i) == if d == 0 then dflt else d
  {
  }

  method TotalOf(ds: array<u32>) returns (total: nat)
    ensures total == Sum(ds[..])
  {
    total := 0;
    var i := 0;
    assert ds[..0] == [];
    while i < ds.Length
      invariant 0 <= i <= ds.Length && total == Sum(ds[..i])
    {
      SumMore(ds[..], i);
      assert ds[..][..i] == ds[..i] && ds[..][..i + 1] == ds[..i + 1];
      total := total + ds[i];
      i := i + 1;
    }
    assert ds[..i] == ds[..];
  }

  lemma NothingYet(c: Codec, nals: seq<Nal>)
    ensures nals[..0] == [] && Vcl(c, []) == [] && Sized([]) == [] && !HasKeyNal(c, [])
  {
  }

  lemma SizedNone(vcl: seq<Nal>)
    ensures vcl == [] ==> Sized(vcl) == []
  {
  }

  lemma AddSizes(a: nat, b: nat)
    ensures (a % U32_END + b) % U32_END == (a + b) % U32_END
  {
  }

  lemma MediaBoxClosed(head: seq<byte>, zero: seq<byte>, size: seq<byte>, data: seq<byte>)
    requires |zero| == 4 && size == BE((8 + |data|) % U32_END, 4)
    ensures var file := head + zero + MDAT + data;
      file[..|head|] + size + file[|head| + 4..] == head + BoxBytes(Box(MDAT, data))
  {
    hide BE;
    BoxClosed(head, zero, size, MDAT, data);
  }
}
