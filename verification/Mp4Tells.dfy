/** The exported file as a player opens it, said of the frames alone: boxes by their four letters, which units of
    a frame are pictures, what each sample holds, and what the headers say. */
module Mp4Tells {
  import opened Bytes
  import opened Rtp
  import opened NalScan
  import opened Boxes
  import opened Mp4
  import opened Mp4File
  import FragMp4

  // ---- names ----

  function Name(t: string): Kind
    requires |t| == 4
  {
    [t[0] as int % 256, t[1] as int % 256, t[2] as int % 256, t[3] as int % 256]
  }

  lemma Names()
    ensures FTYP == Name("ftyp") && MDAT == Name("mdat") && MOOV == Name("moov") && MVHD == Name("mvhd") && TRAK == Name("trak")
    ensures TKHD == Name("tkhd") && MDIA == Name("mdia") && MDHD == Name("mdhd") && HDLR == Name("hdlr") && MINF == Name("minf")
    ensures VMHD == Name("vmhd") && DINF == Name("dinf") && DREF == Name("dref") && URL == Name("url ") && STBL == Name("stbl")
    ensures STSD == Name("stsd") && STTS == Name("stts") && STSS == Name("stss") && STSC == Name("stsc") && STSZ == Name("stsz") && STCO == Name("stco")
    ensures FragMp4.MOOF == Name("moof") && FragMp4.MFHD == Name("mfhd") && FragMp4.TRAF == Name("traf") && FragMp4.TFHD == Name("tfhd")
    ensures FragMp4.TFDT == Name("tfdt") && FragMp4.TRUN == Name("trun")
  {
  }

  // ---- pictures ----

  /** Table 7-1 of H.264 and of H.265: a coded slice. */
  predicate Coded(c: Codec, nal: Nal) {
    nal != [] && match c
      case H264 => 1 <= nal[0] % 32 <= 5
      case H265 => nal[0] < 64 || 128 <= nal[0] < 192
  }

  /** And one of a picture at which decoding can begin. */
  predicate Begins(c: Codec, nal: Nal) {
    nal != [] && match c
      case H264 => nal[0] % 32 == 5
      case H265 => 32 <= nal[0] % 128 < 44
  }

  function Pictures(c: Codec, nals: seq<Nal>): seq<Nal> {
    if nals == [] then [] else (if Coded(c, nals[0]) then [nals[0]] else []) + Pictures(c, nals[1..])
  }

  lemma KindIs(c: Codec, nal: Nal)
    requires nal != []
    ensures IsVcl(c, PayloadType(c, nal)) <==> Coded(c, nal)
    ensures IsKey(c, PayloadType(c, nal)) <==> Begins(c, nal)
  {
    if c == H265 {
      var b: nat := nal[0];
      assert b / 2 % 64 == b % 128 / 2;
    }
  }

  lemma VclMore(c: Codec, nals: seq<Nal>)
    requires nals != []
    ensures var n := |nals| - 1; Vcl(c, nals) == Vcl(c, nals[..n]) + if Coded(c, nals[n]) then [nals[n]] else []
  {
    hide IsVcl, PayloadType, Coded;
    var n := |nals| - 1;
    if nals[n] != [] {
      KindIs(c, nals[n]);
    } else {
      NothingCoded(c);
    }
  }

  lemma NoVcl(c: Codec)
    ensures Vcl(c, []) == []
  {
  }

  lemma {:induction false} VclFront(c: Codec, nals: seq<Nal>)
    requires nals != []
    ensures Vcl(c, nals) == (if Coded(c, nals[0]) then [nals[0]] else []) + Vcl(c, nals[1..])
    decreases |nals|
  {
    hide Vcl, Coded;
    var n := |nals| - 1;
    VclMore(c, nals);
    NoVcl(c);
    if n == 0 {
      assert nals[..0] == [] && nals[1..] == [];
    } else {
      VclFront(c, nals[..n]);
      VclMore(c, nals[1..]);
      assert nals[..n][1..] == nals[1..][..n - 1] && nals[..n][0] == nals[0] && nals[1..][n - 1] == nals[n];
    }
  }

  lemma NothingCoded(c: Codec)
    ensures !Coded(c, [])
  {
  }

  lemma {:induction false} VclIs(c: Codec, nals: seq<Nal>)
    ensures Vcl(c, nals) == Pictures(c, nals)
    decreases |nals|
  {
    hide Coded;
    if nals != [] {
      VclFront(c, nals);
      VclIs(c, nals[1..]);
    }
  }

  lemma KeyIs(c: Codec, nals: seq<Nal>)
    ensures HasKeyNal(c, nals) <==> exists n :: n in nals && Begins(c, n)
  {
    hide IsKey, PayloadType;
    if HasKeyNal(c, nals) {
      var i :| 0 <= i < |nals| && nals[i] != [] && IsKey(c, PayloadType(c, nals[i]));
      KindIs(c, nals[i]);
    }
    if n :| n in nals && Begins(c, n) {
      var i :| 0 <= i < |nals| && nals[i] == n;
      KindIs(c, n);
    }
  }

  /** What of a frame is shown. */
  function Shown(c: Codec, f: Frame): seq<Nal> { Pictures(c, Scan(f.annexb, 0)) }

  /** The frames of which anything is; the codec is that of the first frame. */
  function WithPictures(c: Codec, fs: seq<Frame>): seq<Frame> {
    if fs == [] then [] else (if Shown(c, fs[0]) != [] then [fs[0]] else []) + WithPictures(c, fs[1..])
  }

  function KeptFor(c: Codec, fs: seq<Frame>): seq<Frame> {
    if fs == [] then [] else KeptFor(c, fs[..|fs| - 1]) + if SampleNals(c, fs[|fs| - 1]) != [] then [fs[|fs| - 1]] else []
  }

  lemma {:induction false} KeptIsFor(fs: seq<Frame>)
    requires fs != []
    ensures Kept(fs) == KeptFor(fs[0].codec, fs)
    decreases |fs|
  {
    hide SampleNals;
    if |fs| > 1 {
      KeptIsFor(fs[..|fs| - 1]);
    } else {
      assert fs[..0] == [];
    }
  }

  lemma ShownIs(c: Codec, f: Frame)
    ensures SampleNals(c, f) == Shown(c, f)
  {
    hide Scan;
    VclIs(c, Scan(f.annexb, 0));
  }

  lemma {:induction false} KeptFront(c: Codec, fs: seq<Frame>)
    requires fs != []
    ensures KeptFor(c, fs) == (if Shown(c, fs[0]) != [] then [fs[0]] else []) + KeptFor(c, fs[1..])
    decreases |fs|
  {
    hide SampleNals, Shown;
    var n := |fs| - 1;
    ShownIs(c, fs[n]);
    if n == 0 {
      assert fs[..0] == [] && fs[1..] == [];
    } else {
      KeptFront(c, fs[..n]);
      assert fs[..n][1..] == fs[1..][..n - 1] && fs[..n][0] == fs[0] && fs[1..][n - 1] == fs[n];
    }
  }

  lemma {:induction false} KeptIs(c: Codec, fs: seq<Frame>)
    ensures KeptFor(c, fs) == WithPictures(c, fs)
    decreases |fs|
  {
    hide Shown;
    if fs != [] {
      KeptFront(c, fs);
      KeptIs(c, fs[1..]);
    }
  }

  /** A sequence parameter set that there is room for. */
  lemma SpsIs(c: Codec, nal: Nal)
    ensures FragMp4.IsSps(c, nal) <==> nal != [] && |nal| < 512 && if c == H264 then nal[0] % 32 == 7 else nal[0] % 128 == 66 || nal[0] % 128 == 67
  {
    if nal != [] && c == H265 {
      var b: nat := nal[0];
      assert b / 2 % 64 == b % 128 / 2;
    }
  }

  lemma HasSpsIs(c: Codec, nals: seq<Nal>)
    ensures FragMp4.HasSps(c, nals) <==> exists n :: n in nals && FragMp4.IsSps(c, n)
  {
    hide FragMp4.IsSps;
  }

  /** Section 8.8.3.1: a key sample depends on no other; any other is not a sync sample. */
  lemma FlagsAre(p: FragMp4.Pending, d: u32)
    ensures FragMp4.Entries([p], [d]) == [d, p.size, if p.key then 2 * 0x100_0000 else 0x1_0000]
  {
    assert [p][..0] == [] && [d][..0] == [] && FragMp4.Entries([], []) == [];
  }

  // ---- the file ----

  function Place(kind: Kind): seq<Kind> { [Name("moov"), Name("trak"), Name("mdia"), Name("minf"), Name("stbl"), kind] }

  /** The numbers of four bytes in the box found along the path. */
  function Numbers(file: seq<byte>, path: seq<Kind>): seq<u32> {
    var t := Lookup(file, path);
    if t == [] then [] else ReadWords(t[0])
  }

  lemma TableAt(file: seq<byte>, kind: Kind)
    ensures Table(file, kind) == Numbers(file, Place(kind))
  {
    Names();
    assert TABLE_PATH + [kind] == Place(kind);
  }

  /** Sample `j` as the tables tell it: the bytes from `r.off` on. */
  function Located(file: seq<byte>): seq<Range> {
    ReadRanges(Numbers(file, Place(Name("stsc"))), Numbers(file, Place(Name("stsz"))), Numbers(file, Place(Name("stco"))))
  }

  predicate Holds(file: seq<byte>, r: Range, c: Codec, f: Frame) {
    r.off + r.size <= |file| && ReadSized(file[r.off..r.off + r.size]) == Shown(c, f)
  }

  predicate Entry(c: Codec, f: Frame) { f.key || exists n :: n in Shown(c, f) && Begins(c, n) }

  /** What a player finds by the file's own tables: one sample for every frame with a picture in it, in order, holding
      just its pictures; the samples listed to begin at are those of key frames, named so or having such a
      picture. */
  ghost predicate Tells(file: seq<byte>, fs: seq<Frame>)
    requires fs != []
  {
    var c := fs[0].codec;
    var shown := WithPictures(c, fs);
    && |Located(file)| == |shown|
    && (forall j :: 0 <= j < |shown| ==> Holds(file, Located(file)[j], c, shown[j]))
    && (forall j :: 0 <= j < |shown| ==>
          ((exists x :: x in ReadStss(Numbers(file, Place(Name("stss")))) && x == j + 1) <==> Entry(c, shown[j])))
  }

  /** A file below 4 GiB tells its frames. */
  lemma FileTells(fs: seq<Frame>, s: Settings, entry: seq<byte>)
    requires fs != [] && |Export(fs, s, entry)| < U32_END
    ensures Tells(Export(fs, s, entry), fs)
  {
    hide Export, Lookup, ReadRanges, ReadStss, Place, SampleNals, ReadSized, Kept, WithPictures, Holds, Entry, Table, Numbers, SampleReads, Ranges, KeptFor, Durations, DefaultDuration;
    var file, c := Export(fs, s, entry), fs[0].codec;
    KeptIsFor(fs);
    KeptIs(c, fs);
    Names();
    ExportReadsBack(fs, s, entry);
    TableAt(file, STSC); TableAt(file, STSZ); TableAt(file, STCO); TableAt(file, STSS);
    assert Ranges(file) == Located(file) by { RangesAre(file); }
    forall j | 0 <= j < |WithPictures(c, fs)|
      ensures Holds(file, Located(file)[j], c, WithPictures(c, fs)[j])
      ensures (exists x :: x in ReadStss(Numbers(file, Place(Name("stss")))) && x == j + 1) <==> Entry(c, WithPictures(c, fs)[j])
    {
      SampleTells(file, j, c, WithPictures(c, fs)[j]);
    }
  }

  lemma RangesAre(file: seq<byte>)
    ensures Ranges(file) == Located(file)
  {
    hide Lookup, ReadRanges, Place, Table, Numbers;
    Names();
    TableAt(file, STSC); TableAt(file, STSZ); TableAt(file, STCO);
  }

  lemma SampleTells(file: seq<byte>, j: nat, c: Codec, f: Frame)
    requires SampleReads(file, j, c, f)
    ensures j < |Ranges(file)| && Holds(file, Ranges(file)[j], c, f)
    ensures (exists x :: x in ReadStss(Table(file, STSS)) && x == j + 1) <==> Entry(c, f)
  {
    hide Ranges, ReadStss, Table, Scan, ReadSized, Begins;
    VclIs(c, Scan(f.annexb, 0));
    KeyIs(c, SampleNals(c, f));
  }

  /** The version of the tables is 0; sizes are listed one by one; there is one chunk. */
  lemma Versions(m: Movie, s: Settings, entry: seq<byte>)
    requires m.head == BoxBytes(FTYP_BOX) && |FileOf(m, s, entry)| < U32_END
    ensures var file := FileOf(m, s, entry);
      && |Table(file, STTS)| >= 2 && |Table(file, STSS)| >= 2 && |Table(file, STSC)| >= 2 && |Table(file, STSZ)| >= 3 && |Table(file, STCO)| >= 2
      && Table(file, STTS)[0] == Table(file, STSS)[0] == Table(file, STSC)[0] == Table(file, STSZ)[0] == Table(file, STCO)[0] == 0
      && Table(file, STSZ)[1] == 0 && Table(file, STSC)[1] == Table(file, STCO)[1] == 1
  {
    hide FileOf, Table, Runs, KeyNumbers, RunWords;
    TableRead(m, s, entry);
  }

  // ---- the headers ----

  lemma Four(a: byte, b: byte, c: byte, d: byte, n: u32)
    requires n == ((a * 256 + b) * 256 + c) * 256 + d
    ensures [a, b, c, d] == Words([n])
  {
    hide BE;
    WordsOne(n);
    BE4(n);
    assert n / 256 == (a * 256 + b) * 256 + c && n / 0x1_0000 == a * 256 + b && n / 0x100_0000 == a;
  }

  lemma ZeroWords(n: nat)
    ensures Zeros(4 * n) == Words(seq(n, _ => 0))
    decreases n
  {
    hide BE;
    var ws := seq(n, _ => 0);
    if n == 0 {
      assert ws == [] && Zeros(0) == [];
    } else {
      ZeroWords(n - 1);
      assert ws[..n - 1] == seq(n - 1, _ => 0);
      BE4(0);
      assert Zeros(4 * n) == Zeros(4 * (n - 1)) + [0, 0, 0, 0];
    }
  }

  lemma IdentityIs()
    ensures IDENTITY == Words([0x1_0000, 0, 0, 0, 0x1_0000, 0, 0, 0, 0x4000_0000])
  {
    hide Words;
    Four(0, 1, 0, 0, 0x1_0000); Four(0x40, 0, 0, 0, 0x4000_0000);
    ZeroWords(3);
    var z: seq<u32> := [0, 0, 0];
    assert seq(3, _ => 0) == z;
    WordsMore([0x1_0000], z);
    WordsMore([0x1_0000] + z, [0x1_0000]);
    WordsMore([0x1_0000] + z + [0x1_0000], z);
    WordsMore([0x1_0000] + z + [0x1_0000] + z, [0x4000_0000]);
    assert [0x1_0000] + z + [0x1_0000] + z + [0x4000_0000] == [0x1_0000, 0, 0, 0, 0x1_0000, 0, 0, 0, 0x4000_0000];
  }

  /** Section 8.2.2: a time scale of 1000, the duration in it, and the usual values. */
  lemma MovieHeader(s: Settings, total: nat)
    ensures ReadWords(Mvhd(s, total).body)
         == [0, 0, 0, 1000, total * 1000 / (if s.scale == 0 then 1 else s.scale) % 0x1_0000_0000, 0x1_0000, 0x100_0000, 0, 0,
             0x1_0000, 0, 0, 0, 0x1_0000, 0, 0, 0, 0x4000_0000, 0, 0, 0, 0, 0, 0, 2]
  {
    hide Words, IDENTITY;
    var d := MovieDuration(s, total);
    var a, b, c, e, g := [0, 0, 0, 1000, d, 0x1_0000], [0x100_0000], [0, 0], [0x1_0000, 0, 0, 0, 0x1_0000, 0, 0, 0, 0x4000_0000], [0, 0, 0, 0, 0, 0, 2];
    Four(1, 0, 0, 0, 0x100_0000);
    IdentityIs();
    WordsMore(a, b); WordsMore(a + b, c); WordsMore(a + b + c, e); WordsMore(a + b + c + e, g);
    WordsReadBack(a + b + c + e + g);
  }

  /** Section 8.3.2: track 1, enabled and in the movie; its duration; width and height in 16.16 bits. */
  lemma TrackHeader(s: Settings, total: nat)
    ensures ReadWords(Tkhd(s, total).body)
         == [7, 0, 0, 1, 0, total * 1000 / (if s.scale == 0 then 1 else s.scale) % 0x1_0000_0000, 0, 0, 0, 0,
             0x1_0000, 0, 0, 0, 0x1_0000, 0, 0, 0, 0x4000_0000, s.width * 0x1_0000 % 0x1_0000_0000, s.height * 0x1_0000 % 0x1_0000_0000]
  {
    hide Words, IDENTITY;
    var d := MovieDuration(s, total);
    var a, b, e, g := [7, 0, 0, 1, 0, d, 0, 0], [0, 0], [0x1_0000, 0, 0, 0, 0x1_0000, 0, 0, 0, 0x4000_0000],
                      [s.width * 0x1_0000 % U32_END, s.height * 0x1_0000 % U32_END];
    ZeroWords(2);
    assert seq(2, _ => 0) == b;
    IdentityIs();
    WordsMore(a, b); WordsMore(a + b, e); WordsMore(a + b + e, g);
    WordsReadBack(a + b + e + g);
  }

  /** Section 8.4.2: the time scale of the samples and their duration in it; no language. */
  lemma MediaHeader(s: Settings, total: nat)
    ensures ReadWords(Mdhd(s, total).body) == [0, 0, 0, s.scale, total % 0x1_0000_0000, 0x55C4_0000]
  {
    hide Words;
    Four(0x55, 0xC4, 0, 0, 0x55C4_0000);
    var a := [0, 0, 0, s.scale, total % U32_END];
    WordsMore(a, [0x55C4_0000]);
    WordsReadBack(a + [0x55C4_0000]);
  }

  /** The headers are where a player looks for them. */
  lemma HeadersFound(m: Movie, s: Settings, entry: seq<byte>)
    requires m.head == BoxBytes(FTYP_BOX) && |FileOf(m, s, entry)| < U32_END
    ensures var file, total := FileOf(m, s, entry), Sum(DurationsOf(s, m.samples));
      && Lookup(file, [Name("moov"), Name("mvhd")]) == [Mvhd(s, total).body]
      && Lookup(file, [Name("moov"), Name("trak"), Name("tkhd")]) == [Tkhd(s, total).body]
      && Lookup(file, [Name("moov"), Name("trak"), Name("mdia"), Name("mdhd")]) == [Mdhd(s, total).body]
      && file[4..8] == Name("ftyp")
  {
    hide FileOf, Lookup, Words, Mvhd, Tkhd, Mdhd, Sum, Name;
    Names();
    Starts(m, s, entry);
    MovieHeaderFound(m, s, entry);
    TrackFound(m, s, entry);
    MediaFound(m, s, entry);
  }

  /** From the file into the movie box. */
  lemma InMovie(m: Movie, s: Settings, entry: seq<byte>, path: seq<Kind>)
    requires m.head == BoxBytes(FTYP_BOX) && |FileOf(m, s, entry)| < U32_END && path != [] && path[0] == MOOV
    ensures var moov := Moov(s, m.samples, DurationsOf(s, m.samples), entry);
      |moov.body| < U32_END && Lookup(FileOf(m, s, entry), path) == Lookup(moov.body, path[1..])
  {
    hide BoxBytes, BoxList, Lookup, Mvhd, Trak, Sum;
    var moov := Moov(s, m.samples, DurationsOf(s, m.samples), entry);
    ThreeBoxes(FTYP_BOX, Box(MDAT, m.data), moov);
    Descend([FTYP_BOX, Box(MDAT, m.data), moov], 2, path);
  }

  lemma MovieHeaderFound(m: Movie, s: Settings, entry: seq<byte>)
    requires m.head == BoxBytes(FTYP_BOX) && |FileOf(m, s, entry)| < U32_END
    ensures Lookup(FileOf(m, s, entry), [MOOV, MVHD]) == [Mvhd(s, Sum(DurationsOf(s, m.samples))).body]
  {
    hide BoxBytes, BoxList, Lookup, Mvhd, Trak, Sum, FileOf;
    var ds := DurationsOf(s, m.samples);
    LeafKinds(s, Sum(ds));
    InMovie(m, s, entry, [MOOV, MVHD]);
    assert [MOOV, MVHD][1..] == [MVHD] && [MVHD][1..] == [];
    Descend([Mvhd(s, Sum(ds)), Trak(s, m.samples, ds, entry)], 0, [MVHD]);
    LookupEnds(Mvhd(s, Sum(ds)).body);
  }

  /** From the file into the track. */
  lemma InTrack(m: Movie, s: Settings, entry: seq<byte>, path: seq<Kind>)
    requires m.head == BoxBytes(FTYP_BOX) && |FileOf(m, s, entry)| < U32_END && |path| >= 2 && path[0] == MOOV && path[1] == TRAK
    ensures var trak := Trak(s, m.samples, DurationsOf(s, m.samples), entry);
      |trak.body| < U32_END && Lookup(FileOf(m, s, entry), path) == Lookup(trak.body, path[2..])
  {
    hide BoxBytes, BoxList, Lookup, Mvhd, Sum, FileOf, Tkhd, Mdhd, Minf;
    var ds := DurationsOf(s, m.samples);
    LeafKinds(s, Sum(ds));
    InMovie(m, s, entry, path);
    Descend([Mvhd(s, Sum(ds)), Trak(s, m.samples, ds, entry)], 1, path[1..]);
    assert path[1..][1..] == path[2..];
  }

  lemma TrackFound(m: Movie, s: Settings, entry: seq<byte>)
    requires m.head == BoxBytes(FTYP_BOX) && |FileOf(m, s, entry)| < U32_END
    ensures Lookup(FileOf(m, s, entry), [MOOV, TRAK, TKHD]) == [Tkhd(s, Sum(DurationsOf(s, m.samples))).body]
  {
    hide BoxBytes, BoxList, Lookup, Sum, FileOf, Tkhd, Mdhd, Minf;
    var ds := DurationsOf(s, m.samples);
    LeafKinds(s, Sum(ds));
    InTrack(m, s, entry, [MOOV, TRAK, TKHD]);
    assert [MOOV, TRAK, TKHD][2..] == [TKHD] && [TKHD][1..] == [];
    Descend([Tkhd(s, Sum(ds)), Box(MDIA, BoxList([Mdhd(s, Sum(ds)), HDLR_BOX, Minf(m.samples, ds, entry)]))], 0, [TKHD]);
    LookupEnds(Tkhd(s, Sum(ds)).body);
  }

  lemma MediaFound(m: Movie, s: Settings, entry: seq<byte>)
    requires m.head == BoxBytes(FTYP_BOX) && |FileOf(m, s, entry)| < U32_END
    ensures Lookup(FileOf(m, s, entry), [MOOV, TRAK, MDIA, MDHD]) == [Mdhd(s, Sum(DurationsOf(s, m.samples))).body]
  {
    hide BoxBytes, BoxList, Lookup, Sum, FileOf, Tkhd, Mdhd, Minf;
    var ds := DurationsOf(s, m.samples);
    LeafKinds(s, Sum(ds));
    InTrack(m, s, entry, [MOOV, TRAK, MDIA, MDHD]);
    assert [MOOV, TRAK, MDIA, MDHD][2..] == [MDIA, MDHD] && [MDIA, MDHD][1..] == [MDHD] && [MDHD][1..] == [];
    var media := [Mdhd(s, Sum(ds)), HDLR_BOX, Minf(m.samples, ds, entry)];
    Descend([Tkhd(s, Sum(ds)), Box(MDIA, BoxList(media))], 1, [MDIA, MDHD]);
    Descend(media, 0, [MDHD]);
    LookupEnds(media[0].body);
  }

  lemma Starts(m: Movie, s: Settings, entry: seq<byte>)
    requires m.head == BoxBytes(FTYP_BOX)
    ensures |FileOf(m, s, entry)| >= 8 && FileOf(m, s, entry)[4..8] == FTYP
  {
    hide Moov, BE;
  }

  // ---- fixed boxes and fragments ----

  /** The brands of the file, and a handler of video; the data is in the file itself. */
  lemma FixedBoxes()
    ensures FTYP_BOX.body == Name("isom") + Words([512]) + (Name("isom") + Name("iso2") + Name("mp41") + Name("hvc1"))
    ensures |HDLR_BOX.body| == 37 && HDLR_BOX.body[8..12] == Name("vide") && DINF_BOX.kind == Name("dinf") && VMHD_BOX.kind == Name("vmhd")
    ensures DINF_BOX.body == BoxList([Box(Name("dref"), Words([0, 1]) + BoxList([Box(Name("url "), Words([1]))]))])
  {
    hide Words, BoxList;
    Names();
    WordsReadBack([0, 0]);
    WordsReadBack([0, 0, 0]);
  }

  /** The headers of a fragment: its number; track 1, with offsets from the start of the fragment; its time. */
  lemma FragmentHeaders(seqNo: u32, base: u64, ps: seq<FragMp4.Pending>, ds: seq<u32>, offset: u32)
    requires |ds| == |ps| && FragMp4.MoofSize(|ps|) < U32_END
    ensures var body := FragMp4.Moof(seqNo, base, ps, ds, offset).body;
      && Numbers(body, [Name("mfhd")]) == [0, seqNo] && Numbers(body, [Name("traf"), Name("tfhd")]) == [0x2_0000, 1]
      && Numbers(body, [Name("traf"), Name("tfdt")]) == [0x100_0000, base / 0x1_0000_0000, base % 0x1_0000_0000]
  {
    hide Words, BoxBytes, BoxList, Lookup, FragMp4.TrunWords, Name;
    Names();
    FragMp4.WordsFound(seqNo, base, ps, ds, offset);
    FragMp4.MoofSizeIs(seqNo, base, ps, ds, offset);
    var traf := FragMp4.Traf(base, ps, ds, offset);
    var inner := [Box(FragMp4.TFHD, Words([0x2_0000, 1])), Box(FragMp4.TFDT, Words(FragMp4.TfdtWords(base))), Box(FragMp4.TRUN, Words(FragMp4.TrunWords(ps, ds, offset)))];
    Descend([Box(FragMp4.MFHD, Words([0, seqNo])), traf], 1, [FragMp4.TRAF, FragMp4.TFHD]);
    assert [FragMp4.TRAF, FragMp4.TFHD][1..] == [FragMp4.TFHD] && [FragMp4.TFHD][1..] == [];
    Descend(inner, 0, [FragMp4.TFHD]);
    LookupEnds(inner[0].body);
    WordsReadBack([0x2_0000, 1]);
  }
}
