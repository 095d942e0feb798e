/** The whole exported file: media box first, movie box last, and what a player finds in it. */
module Mp4File {
  import opened Bytes
  import opened Rtp
  import opened Boxes
  import opened Mp4

  const FTYP: Kind := [0x66, 0x74, 0x79, 0x70]
  const MDAT: Kind := [0x6d, 0x64, 0x61, 0x74]
  const MOOV: Kind := [0x6d, 0x6f, 0x6f, 0x76]
  const MVHD: Kind := [0x6d, 0x76, 0x68, 0x64]
  const TRAK: Kind := [0x74, 0x72, 0x61, 0x6b]
  const TKHD: Kind := [0x74, 0x6b, 0x68, 0x64]
  const MDIA: Kind := [0x6d, 0x64, 0x69, 0x61]
  const MDHD: Kind := [0x6d, 0x64, 0x68, 0x64]
  const HDLR: Kind := [0x68, 0x64, 0x6c, 0x72]
  const MINF: Kind := [0x6d, 0x69, 0x6e, 0x66]
  const VMHD: Kind := [0x76, 0x6d, 0x68, 0x64]
  const DINF: Kind := [0x64, 0x69, 0x6e, 0x66]
  const DREF: Kind := [0x64, 0x72, 0x65, 0x66]
  const URL: Kind := [0x75, 0x72, 0x6c, 0x20]
  const STBL: Kind := [0x73, 0x74, 0x62, 0x6c]
  const STSD: Kind := [0x73, 0x74, 0x73, 0x64]
  const STTS: Kind := [0x73, 0x74, 0x74, 0x73]
  const STSS: Kind := [0x73, 0x74, 0x73, 0x73]
  const STSC: Kind := [0x73, 0x74, 0x73, 0x63]
  const STSZ: Kind := [0x73, 0x74, 0x73, 0x7a]
  const STCO: Kind := [0x73, 0x74, 0x63, 0x6f]

  /** Picture size, time scale and frame rate, defaults filled in. */
  datatype Settings = Settings(width: u32, height: u32, scale: u32, fps: u32)

  function DefaultDuration(s: Settings): u32 { s.scale / (if s.fps != 0 then s.fps else 15) }

  const IDENTITY: seq<byte> := [0, 1, 0, 0] + Zeros(12) + [0, 1, 0, 0] + Zeros(12) + [0x40, 0, 0, 0]

  const FTYP_BOX: Box :=
    Box(FTYP, [0x69, 0x73, 0x6f, 0x6d] + Words([0x200]) + [0x69, 0x73, 0x6f, 0x6d, 0x69, 0x73, 0x6f, 0x32, 0x6d, 0x70, 0x34, 0x31, 0x68, 0x76, 0x63, 0x31])

  // ---- the movie box ----

  function MovieDuration(s: Settings, total: nat): u32 { U32(total * 1000 / (if s.scale != 0 then s.scale else 1)) }

  function Mvhd(s: Settings, total: nat): Box {
    Box(MVHD, Words([0, 0, 0, 1000, MovieDuration(s, total), 0x1_0000]) + [1, 0, 0, 0] + Words([0, 0]) + IDENTITY
              + Words([0, 0, 0, 0, 0, 0, 2]))
  }

  function Tkhd(s: Settings, total: nat): Box {
    Box(TKHD, Words([7, 0, 0, 1, 0, MovieDuration(s, total), 0, 0]) + Zeros(8) + IDENTITY
              + Words([s.width * 0x1_0000 % U32_END, s.height * 0x1_0000 % U32_END]))
  }

  function Mdhd(s: Settings, total: nat): Box { Box(MDHD, Words([0, 0, 0, s.scale, total % U32_END]) + [0x55, 0xC4, 0, 0]) }

  const HDLR_BOX: Box :=
    Box(HDLR, Words([0, 0]) + [0x76, 0x69, 0x64, 0x65] + Words([0, 0, 0])
              + [0x56, 0x69, 0x64, 0x65, 0x6f, 0x48, 0x61, 0x6e, 0x64, 0x6c, 0x65, 0x72, 0])

  const VMHD_BOX: Box := Box(VMHD, Words([1]) + Zeros(8))

  const DINF_BOX: Box := Box(DINF, BoxList([Box(DREF, Words([0, 1]) + BoxList([Box(URL, Words([1]))]))]))

  /** The sample description, around the entry with the decoder configuration. */
  function Stsd(entry: seq<byte>): Box { Box(STSD, Words([0, 1]) + entry) }

  function Tables(ss: seq<Sample>, ds: seq<u32>, entry: seq<byte>): seq<Box> {
    [Stsd(entry), Box(STTS, Words(SttsWords(ds))), Box(STSS, Words(StssWords(ss))), Box(STSC, Words(StscWords(ss))),
     Box(STSZ, Words(StszWords(ss))), Box(STCO, Words(StcoWords(ss)))]
  }

  function Minf(ss: seq<Sample>, ds: seq<u32>, entry: seq<byte>): Box {
    Box(MINF, BoxList([VMHD_BOX, DINF_BOX, Box(STBL, BoxList(Tables(ss, ds, entry)))]))
  }

  function Trak(s: Settings, ss: seq<Sample>, ds: seq<u32>, entry: seq<byte>): Box {
    Box(TRAK, BoxList([Tkhd(s, Sum(ds)), Box(MDIA, BoxList([Mdhd(s, Sum(ds)), HDLR_BOX, Minf(ss, ds, entry)]))]))
  }

  function Moov(s: Settings, ss: seq<Sample>, ds: seq<u32>, entry: seq<byte>): Box {
    Box(MOOV, BoxList([Mvhd(s, Sum(ds)), Trak(s, ss, ds, entry)]))
  }

  function DurationsOf(s: Settings, ss: seq<Sample>): seq<u32> { Durations(PtsOf(ss), DefaultDuration(s)) }

  function FileOf(m: Movie, s: Settings, entry: seq<byte>): seq<byte> {
    m.head + BoxBytes(Box(MDAT, m.data)) + BoxBytes(Moov(s, m.samples, DurationsOf(s, m.samples), entry))
  }

  // ---- finding the tables ----

  const TABLE_PATH: seq<Kind> := [MOOV, TRAK, MDIA, MINF, STBL]

  /** The words of a sample table of the first track. */
  function Table(file: seq<byte>, kind: Kind): seq<u32> {
    var t := Lookup(file, TABLE_PATH + [kind]);
    if t == [] then [] else ReadWords(t[0])
  }

  lemma LookupStep(d: seq<byte>, bs: seq<Box>, path: seq<Kind>)
    requires d == BoxList(bs) && |d| < U32_END && path != []
    ensures Lookup(d, path) == if Find(bs, path[0]) == [] then [] else Lookup(Find(bs, path[0])[0], path[1..])
  {
    hide BoxList, ReadBoxes;
    BoxesReadBack(bs);
  }

  lemma {:induction false} ListSize(bs: seq<Box>, i: nat)
    requires i < |bs|
    ensures |bs[i].body| < |BoxList(bs)|
    decreases |bs|
  {
    hide BoxBytes;
    if i > 0 {
      ListSize(bs[1..], i - 1);
    }
  }

  lemma LookupEnds(d: seq<byte>)
    ensures Lookup(d, []) == [d]
  {
  }

  /** One level down, where the list of boxes is known. */
  lemma Descend(bs: seq<Box>, i: nat, path: seq<Kind>)
    requires i < |bs| && |BoxList(bs)| < U32_END && path != [] && bs[i].kind == path[0]
    requires forall j :: 0 <= j < i ==> bs[j].kind != path[0]
    ensures |bs[i].body| < U32_END && Lookup(BoxList(bs), path) == Lookup(bs[i].body, path[1..])
  {
    hide BoxList, Lookup;
    ListSize(bs, i);
    LookupStep(BoxList(bs), bs, path);
    FindIs(bs, i, path[0]);
  }

  lemma {:induction false} FindIs(bs: seq<Box>, i: nat, kind: Kind)
    requires i < |bs| && bs[i].kind == kind && forall j :: 0 <= j < i ==> bs[j].kind != kind
    ensures Find(bs, kind) == [bs[i].body]
    decreases |bs|
  {
    if i > 0 {
      FindIs(bs[1..], i - 1, kind);
    }
  }

  lemma TwoBoxes(a: Box, b: Box)
    ensures BoxList([a, b]) == BoxBytes(a) + BoxBytes(b)
  {
    hide BoxBytes;
    assert [a, b][1..] == [b] && [b][1..] == [] && BoxBytes(b) + [] == BoxBytes(b);
    assert BoxList([b]) == BoxBytes(b) + BoxList([]);
  }

  lemma ThreeBoxes(a: Box, b: Box, c: Box)
    ensures BoxList([a, b, c]) == BoxBytes(a) + BoxBytes(b) + BoxBytes(c)
  {
    hide BoxBytes;
    TwoBoxes(b, c);
    assert [a, b, c][1..] == [b, c];
    assert BoxBytes(a) + (BoxBytes(b) + BoxBytes(c)) == BoxBytes(a) + BoxBytes(b) + BoxBytes(c);
  }

  lemma LeafKinds(s: Settings, total: nat)
    ensures Mvhd(s, total).kind == MVHD && Tkhd(s, total).kind == TKHD && Mdhd(s, total).kind == MDHD
  {
    hide Words;
  }

  /** The way from the file to the table of a kind. */
  lemma TableFound(m: Movie, s: Settings, entry: seq<byte>, i: nat)
    requires m.head == BoxBytes(FTYP_BOX) && |FileOf(m, s, entry)| < U32_END && 1 <= i < 6
    ensures var ts := Tables(m.samples, DurationsOf(s, m.samples), entry);
      Lookup(FileOf(m, s, entry), TABLE_PATH + [ts[i].kind]) == [ts[i].body]
  {
    hide BoxBytes, BoxList, Lookup, Words, Mvhd, Tkhd, Mdhd, SttsWords, StssWords, StscWords, StszWords, StcoWords;
    var ss, ds := m.samples, DurationsOf(s, m.samples);
    var ts := Tables(ss, ds, entry);
    var kind := ts[i].kind;
    var path := TABLE_PATH + [kind];
    LeafKinds(s, Sum(ds));
    ThreeBoxes(FTYP_BOX, Box(MDAT, m.data), Moov(s, ss, ds, entry));
    Descend([FTYP_BOX, Box(MDAT, m.data), Moov(s, ss, ds, entry)], 2, path);
    assert path[1..] == [TRAK, MDIA, MINF, STBL, kind];
    Descend([Mvhd(s, Sum(ds)), Trak(s, ss, ds, entry)], 1, [TRAK, MDIA, MINF, STBL, kind]);
    assert [TRAK, MDIA, MINF, STBL, kind][1..] == [MDIA, MINF, STBL, kind];
    Descend([Tkhd(s, Sum(ds)), Box(MDIA, BoxList([Mdhd(s, Sum(ds)), HDLR_BOX, Minf(ss, ds, entry)]))], 1, [MDIA, MINF, STBL, kind]);
    assert [MDIA, MINF, STBL, kind][1..] == [MINF, STBL, kind];
    Descend([Mdhd(s, Sum(ds)), HDLR_BOX, Minf(ss, ds, entry)], 2, [MINF, STBL, kind]);
    assert [MINF, STBL, kind][1..] == [STBL, kind];
    Descend([VMHD_BOX, DINF_BOX, Box(STBL, BoxList(ts))], 2, [STBL, kind]);
    assert [STBL, kind][1..] == [kind];
    Descend(ts, i, [kind]);
    assert [kind][1..] == [];
    LookupEnds(ts[i].body);
  }

  lemma TableRead(m: Movie, s: Settings, entry: seq<byte>)
    requires m.head == BoxBytes(FTYP_BOX) && |FileOf(m, s, entry)| < U32_END
    ensures var file := FileOf(m, s, entry); var ds := DurationsOf(s, m.samples);
      && Table(file, STTS) == SttsWords(ds) && Table(file, STSS) == StssWords(m.samples) && Table(file, STSC) == StscWords(m.samples)
      && Table(file, STSZ) == StszWords(m.samples) && Table(file, STCO) == StcoWords(m.samples)
  {
    hide FileOf, Lookup, SttsWords, StssWords, StscWords, StszWords, StcoWords, Words;
    var ds := DurationsOf(s, m.samples);
    TableFound(m, s, entry, 1); TableFound(m, s, entry, 2); TableFound(m, s, entry, 3);
    TableFound(m, s, entry, 4); TableFound(m, s, entry, 5);
    WordsReadBack(SttsWords(ds)); WordsReadBack(StssWords(m.samples)); WordsReadBack(StscWords(m.samples));
    WordsReadBack(StszWords(m.samples)); WordsReadBack(StcoWords(m.samples));
  }

  // ---- the samples ----

  /** The bytes of the samples before sample `i`. */
  function Before(ss: seq<Sample>, i: nat): nat
    requires i <= |ss|
  {
    Sum(SizesOf(ss)[..i])
  }

  /** Sample `i` is that of frame `f`: where and how long, key or not, when, and its bytes. */
  ghost predicate SampleIs(m: Movie, c: Codec, i: nat, f: Frame)
    requires i < |m.samples|
  {
    var content, at := Sized(SampleNals(c, f)), Before(m.samples, i);
    && m.samples[i].off == |m.head| + 8 + at && m.samples[i].size == |content| && m.samples[i].pts == f.pts
    && m.samples[i].key == (HasKeyNal(c, SampleNals(c, f)) || f.key)
    && at + |content| <= |m.data| && m.data[at..at + |content|] == content
  }

  /** As long as the file stays below 4 GiB, the samples are those of the frames that have any. */
  ghost predicate MovieIs(m: Movie, fs: seq<Frame>) {
    && (fs != [] ==> m.track == Has(fs[0].codec)) && (fs == [] ==> m.track == NoCodec)
    && |m.samples| == |Kept(fs)|
    && (|m.head| + 8 + |m.data| < U32_END ==>
          && |m.data| == Before(m.samples, |m.samples|)
          && forall i :: 0 <= i < |m.samples| ==> SampleIs(m, fs[0].codec, i, Kept(fs)[i]))
  }

  lemma BeforeKept(ss: seq<Sample>, x: Sample, i: nat)
    requires i <= |ss|
    ensures Before(ss + [x], i) == Before(ss, i) && Before(ss + [x], |ss| + 1) == Before(ss, |ss|) + x.size
  {
    assert SizesOf(ss + [x])[..i] == SizesOf(ss)[..i] && SizesOf(ss)[..|ss|] == SizesOf(ss + [x])[..|ss|];
    SumMore(SizesOf(ss + [x]), |ss|);
  }

  lemma SampleKept(m: Movie, t: Movie, c: Codec, i: nat, f: Frame, more: seq<byte>, x: Sample)
    requires i < |m.samples| && SampleIs(m, c, i, f) && t.head == m.head && t.data == m.data + more && t.samples == m.samples + [x]
    ensures SampleIs(t, c, i, f)
  {
    hide Sum, Sized, HasKeyNal, SampleNals;
    BeforeKept(m.samples, x, i);
    var at, n := Before(m.samples, i), |Sized(SampleNals(c, f))|;
    assert t.data[at..at + n] == m.data[at..at + n];
  }

  lemma AddIs(m: Movie, fs: seq<Frame>, f: Frame)
    requires MovieIs(m, fs)
    ensures MovieIs(Add(m, f), fs + [f])
  {
    hide Before, Sized, HasKeyNal, SampleIs, SampleNals;
    var c := CodecOf(m.track, f);
    KeptMore(fs, f);
    if SampleNals(c, f) != [] {
      AddSample(m, fs, f);
    } else {
      AddNothing(m, fs, f);
    }
  }

  lemma AddNothing(m: Movie, fs: seq<Frame>, f: Frame)
    requires MovieIs(m, fs) && SampleNals(CodecOf(m.track, f), f) == []
    ensures var t := Add(m, f);
      && t == m.(track := Has(CodecOf(m.track, f)))
      && (|t.head| + 8 + |t.data| < U32_END ==> forall i :: 0 <= i < |t.samples| ==> SampleIs(t, CodecOf(m.track, f), i, Kept(fs)[i]))
      && (|t.head| + 8 + |t.data| < U32_END ==> |t.data| == Before(t.samples, |t.samples|))
  {
    hide Before, Sized, HasKeyNal, SampleIs, SampleNals;
    var t, c := Add(m, f), CodecOf(m.track, f);
    if |t.head| + 8 + |t.data| < U32_END {
      forall i | 0 <= i < |t.samples|
        ensures SampleIs(t, c, i, Kept(fs)[i])
      {
        SameSample(m, t, c, i, Kept(fs)[i]);
      }
    }
  }

  lemma AddSample(m: Movie, fs: seq<Frame>, f: Frame)
    requires MovieIs(m, fs) && SampleNals(CodecOf(m.track, f), f) != []
    ensures var t, c, ks := Add(m, f), CodecOf(m.track, f), Kept(fs) + [f];
      && t.track == Has(c) && |t.samples| == |ks|
      && (|t.head| + 8 + |t.data| < U32_END ==> |t.data| == Before(t.samples, |t.samples|)
                                                && forall i :: 0 <= i < |t.samples| ==> SampleIs(t, c, i, ks[i]))
  {
    hide Before, Sized, HasKeyNal, SampleIs, SampleNals;
    var t, c := Add(m, f), CodecOf(m.track, f);
    var content, ks := Sized(SampleNals(c, f)), Kept(fs) + [f];
    if |t.head| + 8 + |t.data| < U32_END {
      var x := t.samples[|m.samples|];
      BeforeKept(m.samples, x, |m.samples|);
      forall i | 0 <= i < |t.samples|
        ensures SampleIs(t, c, i, ks[i])
      {
        if i < |m.samples| {
          SampleKept(m, t, c, i, ks[i], content, x);
        } else {
          assert t.data[|m.data|..|m.data| + |content|] == content;
          NewSample(t, c, f, |m.data|);
        }
      }
    }
  }

  lemma SameSample(m: Movie, t: Movie, c: Codec, i: nat, f: Frame)
    requires i < |m.samples| && SampleIs(m, c, i, f) && t.head == m.head && t.data == m.data && t.samples == m.samples
    ensures SampleIs(t, c, i, f)
  {
  }

  lemma NewSample(t: Movie, c: Codec, f: Frame, at: nat)
    requires t.samples != [] && at == Before(t.samples, |t.samples| - 1)
    requires var content, x := Sized(SampleNals(c, f)), t.samples[|t.samples| - 1];
      && x.off == |t.head| + 8 + at && x.size == |content| && x.pts == f.pts && x.key == (HasKeyNal(c, SampleNals(c, f)) || f.key)
      && at + |content| <= |t.data| && t.data[at..at + |content|] == content
    ensures SampleIs(t, c, |t.samples| - 1, f)
  {
  }

  lemma KeptMore(fs: seq<Frame>, f: Frame)
    ensures var c := if fs == [] then f.codec else fs[0].codec;
      Kept(fs + [f]) == Kept(fs) + if SampleNals(c, f) != [] then [f] else []
  {
    hide SampleNals;
    assert (fs + [f])[..|fs|] == fs;
  }

  lemma {:induction false} AllIs(head: seq<byte>, fs: seq<Frame>)
    ensures MovieIs(AddAll(head, fs), fs) && AddAll(head, fs).head == head
    decreases |fs|
  {
    hide Add, MovieIs;
    if fs == [] {
      EmptyMovie(head);
    } else {
      AllIs(head, fs[..|fs| - 1]);
      AddIs(AddAll(head, fs[..|fs| - 1]), fs[..|fs| - 1], fs[|fs| - 1]);
      assert fs[..|fs| - 1] + [fs[|fs| - 1]] == fs;
      AddKeepsHead(AddAll(head, fs[..|fs| - 1]), fs[|fs| - 1]);
    }
  }

  lemma AddKeepsHead(m: Movie, f: Frame)
    ensures Add(m, f).head == m.head
  {
  }

  lemma EmptyMovie(head: seq<byte>)
    ensures MovieIs(Movie(NoCodec, head, [], []), [])
  {
    assert SizesOf([])[..0] == [];
  }

  // ---- what a player reads ----

  function Ranges(file: seq<byte>): seq<Range> { ReadRanges(Table(file, STSC), Table(file, STSZ), Table(file, STCO)) }

  lemma SamplesContiguous(m: Movie, fs: seq<Frame>)
    requires MovieIs(m, fs) && |m.head| + 8 + |m.data| < U32_END && m.samples != []
    ensures Contiguous(m.samples, m.samples[0].off)
  {
    hide Sum;
    assert SizesOf(m.samples)[..0] == [];
    SumNothing();
    forall i | 0 <= i < |m.samples|
      ensures m.samples[i].off == m.samples[0].off + Sum(SizesOf(m.samples)[..i])
    {
      assert SampleIs(m, fs[0].codec, i, Kept(fs)[i]) && SampleIs(m, fs[0].codec, 0, Kept(fs)[0]);
    }
  }

  lemma SumNothing()
    ensures Sum([]) == 0
  {
  }

  /** The bytes of the media box, seen from the start of the file. */
  lemma DataInFile(m: Movie, s: Settings, entry: seq<byte>, at: nat, n: nat)
    requires at + n <= |m.data|
    ensures var file, off := FileOf(m, s, entry), |m.head| + 8 + at;
      off + n <= |file| && file[off..off + n] == m.data[at..at + n]
  {
    hide Moov, BE;
    var b := BE((8 + |m.data|) % U32_END, 4) + MDAT;
    var moov := BoxBytes(Moov(s, m.samples, DurationsOf(s, m.samples), entry));
    assert FileOf(m, s, entry) == m.head + b + m.data + moov;
  }

  /** The file for a list of frames. */
  function Export(fs: seq<Frame>, s: Settings, entry: seq<byte>): seq<byte> {
    FileOf(AddAll(BoxBytes(FTYP_BOX), fs), s, entry)
  }

  /** By the tables of the file, sample `j` is frame `f`: its NAL units behind their lengths, and
      marked as a key sample exactly if it is one. */
  ghost predicate SampleReads(file: seq<byte>, j: nat, c: Codec, f: Frame) {
    && j < |Ranges(file)|
    && var r := Ranges(file)[j];
    && r.off + r.size <= |file| && ReadSized(file[r.off..r.off + r.size]) == SampleNals(c, f)
    && ((exists x :: x in ReadStss(Table(file, STSS)) && x == j + 1) <==> HasKeyNal(c, SampleNals(c, f)) || f.key)
  }

  function KeptPts(fs: seq<Frame>): (r: seq<u64>)
    ensures |r| == |Kept(fs)|
  {
    seq(|Kept(fs)|, i requires 0 <= i < |Kept(fs)| => Kept(fs)[i].pts)
  }

  /** A file below 4 GiB, read by its own tables: one sample for every added frame that has coded
      pictures, in order; and the time table expands to the durations between their times. */
  lemma {:induction false} ExportReadsBack(fs: seq<Frame>, s: Settings, entry: seq<byte>)
    requires |Export(fs, s, entry)| < U32_END
    ensures var file := Export(fs, s, entry);
      && (fs != [] ==> |Ranges(file)| == |Kept(fs)| && forall j :: 0 <= j < |Kept(fs)| ==> SampleReads(file, j, fs[0].codec, Kept(fs)[j]))
      && ReadStts(Table(file, STTS)) == Durations(KeptPts(fs), DefaultDuration(s))
  {
    hide FileOf, SampleReads, Sized, HasKeyNal, SampleNals, SttsWords, ReadStts, Table, AddAll, BoxBytes, Ranges, SampleIs, Before, Durations;
    var m, file := AddAll(BoxBytes(FTYP_BOX), fs), Export(fs, s, entry);
    AllIs(BoxBytes(FTYP_BOX), fs);
    FileCovers(m, s, entry);
    SamplesFew(m, fs);
    TableRead(m, s, entry);
    SttsReads(DurationsOf(s, m.samples));
    PtsKept(m, fs);
    forall j | 0 <= j < |Kept(fs)|
      ensures |Ranges(file)| == |Kept(fs)| && SampleReads(file, j, fs[0].codec, Kept(fs)[j])
    {
      ExportedSample(m, fs, s, entry, j);
    }
    if Kept(fs) == [] {
      NoRanges(m, s, entry);
    } else {
      ExportedSample(m, fs, s, entry, 0);
    }
  }

  lemma PtsKept(m: Movie, fs: seq<Frame>)
    requires MovieIs(m, fs) && |m.head| + 8 + |m.data| < U32_END
    ensures PtsOf(m.samples) == KeptPts(fs)
  {
    hide Sized, HasKeyNal, SampleNals, Before;
    forall i | 0 <= i < |m.samples|
      ensures m.samples[i].pts == KeptPts(fs)[i]
    {
      assert SampleIs(m, fs[0].codec, i, Kept(fs)[i]);
    }
  }

  lemma NoRanges(m: Movie, s: Settings, entry: seq<byte>)
    requires m.head == BoxBytes(FTYP_BOX) && |FileOf(m, s, entry)| < U32_END && m.samples == []
    ensures Ranges(FileOf(m, s, entry)) == []
  {
    hide FileOf, Table, BoxBytes;
    TableRead(m, s, entry);
    assert StscWords([])[2..] == [1, 0, 1] && StcoWords([])[2..3] == [0] && StszWords([])[3..3] == [];
    assert PerChunk([1, 0, 1], 1) == 0 && [0][1..] == [];
    assert Locate([1, 0, 1], [], [0], 1) == InChunk([], 0, 0) + Locate([1, 0, 1], [], [], 2) == [];
  }

  lemma {:induction false} ExportedSample(m: Movie, fs: seq<Frame>, s: Settings, entry: seq<byte>, j: nat)
    requires m.head == BoxBytes(FTYP_BOX) && MovieIs(m, fs) && |FileOf(m, s, entry)| < U32_END && j < |Kept(fs)|
    ensures var file := FileOf(m, s, entry);
      |Ranges(file)| == |Kept(fs)| && SampleReads(file, j, fs[0].codec, Kept(fs)[j])
  {
    hide FileOf, Sized, HasKeyNal, SampleNals, StssWords, StscWords, StszWords, StcoWords, ReadRanges, ReadStss, Table, BoxBytes, Before;
    var ss, c, f := m.samples, fs[0].codec, Kept(fs)[j];
    FileCovers(m, s, entry);
    assert SampleIs(m, c, j, f);
    SamplesContiguous(m, fs);
    SamplesFew(m, fs);
    TableRead(m, s, entry);
    RangesRead(ss, j);
    var nals := SampleNals(c, f);
    DataInFile(m, s, entry, Before(ss, j), |Sized(nals)|);
    SizedReadsBack(nals);
    StssReads(ss, j + 1);
  }

  lemma FileCovers(m: Movie, s: Settings, entry: seq<byte>)
    ensures |m.head| + 8 + |m.data| <= |FileOf(m, s, entry)|
  {
    hide Moov;
  }

  /** Every sample has at least its length prefix. */
  lemma SamplesFew(m: Movie, fs: seq<Frame>)
    requires MovieIs(m, fs) && |m.head| + 8 + |m.data| < U32_END
    ensures |m.samples| < U32_END
  {
    hide Sum, Sized;
    forall i | 0 <= i < |m.samples|
      ensures m.samples[i].size > 0
    {
      assert SampleIs(m, fs[0].codec, i, Kept(fs)[i]);
      KeptHasNals(fs, i);
      SizedNotEmpty(SampleNals(fs[0].codec, Kept(fs)[i]));
    }
    SumAtLeast(SizesOf(m.samples));
    assert SizesOf(m.samples)[..|m.samples|] == SizesOf(m.samples);
  }

  lemma {:induction false} KeptHasNals(fs: seq<Frame>, i: nat)
    requires i < |Kept(fs)|
    ensures fs != [] && SampleNals(fs[0].codec, Kept(fs)[i]) != []
    decreases |fs|
  {
    hide SampleNals;
    if i < |Kept(fs[..|fs| - 1])| {
      KeptHasNals(fs[..|fs| - 1], i);
    }
  }

  lemma SizedNotEmpty(nals: seq<Nal>)
    requires nals != []
    ensures |Sized(nals)| >= 4
  {
    hide BE;
  }

  lemma {:induction false} SumAtLeast(ds: seq<u32>)
    requires forall i :: 0 <= i < |ds| ==> ds[i] > 0
    ensures Sum(ds) >= |ds|
    decreases |ds|
  {
    if ds != [] {
      SumAtLeast(ds[..|ds| - 1]);
    }
  }
}
