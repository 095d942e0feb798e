/** The MP4 export: samples, their tables, and a reader of those tables by ISO/IEC 14496-12. */
module Mp4 {
  import opened Bytes
  import opened Rtp
  import opened NalScan
  import opened Boxes

  // ---- NAL units of a frame ----

  predicate IsVcl(c: Codec, kind: nat) { if c == H265 then kind <= 31 else 1 <= kind <= 5 }

  predicate IsKey(c: Codec, kind: nat) { if c == H265 then 16 <= kind <= 21 else kind == 5 }

  /** The NAL units that go into the sample. */
  function Vcl(c: Codec, nals: seq<Nal>): seq<Nal> {
    if nals == [] then []
    else Vcl(c, nals[..|nals| - 1])
         + if nals[|nals| - 1] != [] && IsVcl(c, PayloadType(c, nals[|nals| - 1])) then [nals[|nals| - 1]] else []
  }

  /** NAL units behind four-byte lengths. */
  function Sized(nals: seq<Nal>): seq<byte> {
    if nals == [] then [] else Sized(nals[..|nals| - 1]) + BE(|nals[|nals| - 1]| % U32_END, 4) + nals[|nals| - 1]
  }

  /** A reader of length-prefixed NAL units. */
  function ReadSized(d: seq<byte>): seq<Nal>
    decreases |d|
  {
    if |d| < 4 || |d| < 4 + FromBE(d[..4]) then []
    else [d[4..4 + FromBE(d[..4])]] + ReadSized(d[4 + FromBE(d[..4])..])
  }

  lemma {:induction false} SizedMore(a: seq<Nal>, b: seq<Nal>)
    ensures Sized(a + b) == Sized(a) + Sized(b)
    decreases |b|
  {
    if b == [] {
      assert a + b == a && Sized(a) + [] == Sized(a);
    } else {
      var n := b[|b| - 1];
      assert (a + b)[..|a + b| - 1] == a + b[..|b| - 1];
      SizedMore(a, b[..|b| - 1]);
    }
  }

  lemma {:induction false} SizedReadsBack(nals: seq<Nal>)
    requires |Sized(nals)| < U32_END
    ensures ReadSized(Sized(nals)) == nals
    decreases |nals|
  {
    hide BE;
    if nals != [] {
      var n, rest := nals[0], Sized(nals[1..]);
      SizedMore([n], nals[1..]);
      assert [n] + nals[1..] == nals;
      SizedOne(n);
      var d := Sized(nals);
      assert d == BE(|n|, 4) + n + rest;
      Pow256Values();
      BEFits(|n|, 4);
      assert d[..4] == BE(|n|, 4) && d[4..4 + |n|] == n && d[4 + |n|..] == rest;
      SizedReadsBack(nals[1..]);
    }
  }

  lemma SizedOne(n: Nal)
    ensures Sized([n]) == BE(|n| % U32_END, 4) + n
  {
    hide BE;
    assert [n][..0] == [] && Sized([]) == [];
    assert [] + BE(|n| % U32_END, 4) == BE(|n| % U32_END, 4);
  }

  // ---- samples ----

  datatype Frame = Frame(annexb: seq<byte>, pts: u64, key: bool, codec: Codec)

  datatype Sample = Sample(off: u32, size: u32, key: bool, pts: u64)

  datatype Track = NoCodec | Has(codec: Codec)

  /** `head` is what stands before the media box; `data` its contents so far. */
  datatype Movie = Movie(track: Track, head: seq<byte>, data: seq<byte>, samples: seq<Sample>)

  /** The codec of the first frame is that of all. */
  function CodecOf(t: Track, f: Frame): Codec { if t.Has? then t.codec else f.codec }

  function SampleNals(c: Codec, f: Frame): seq<Nal> { Vcl(c, Scan(f.annexb, 0)) }

  predicate HasKeyNal(c: Codec, nals: seq<Nal>) { exists i :: 0 <= i < |nals| && nals[i] != [] && IsKey(c, PayloadType(c, nals[i])) }

  /** A frame without any NAL unit for the sample leaves nothing but its parameter sets. */
  function Add(m: Movie, f: Frame): Movie {
    var c := CodecOf(m.track, f);
    var nals := SampleNals(c, f);
    var t := m.(track := Has(c));
    if nals == [] then t
    else t.(data := m.data + Sized(nals),
            samples := m.samples + [Sample((|m.head| + 8 + |m.data|) % U32_END, |Sized(nals)| % U32_END, HasKeyNal(c, nals) || f.key, f.pts)])
  }

  function AddAll(head: seq<byte>, fs: seq<Frame>): Movie {
    if fs == [] then Movie(NoCodec, head, [], []) else Add(AddAll(head, fs[..|fs| - 1]), fs[|fs| - 1])
  }

  /** The frames that become samples, with the codec of the track. */
  function Kept(fs: seq<Frame>): seq<Frame> {
    if fs == [] then []
    else
      var f := fs[|fs| - 1];
      Kept(fs[..|fs| - 1]) + if SampleNals(fs[0].codec, f) != [] then [f] else []
  }

  // ---- durations ----

  /** The time to the next frame where that is later, else the previous duration. */
  function Duration(pts: seq<u64>, dflt: u32, i: nat): u32
    requires i < |pts|
  {
    var d := if i + 1 < |pts| && pts[i + 1] > pts[i] then (pts[i + 1] - pts[i]) % U32_END
             else if i > 0 then Duration(pts, dflt, i - 1) else dflt;
    if d == 0 then dflt else d
  }

  function Durations(pts: seq<u64>, dflt: u32): (r: seq<u32>)
    ensures |r| == |pts|
  {
    seq(|pts|, i requires 0 <= i < |pts| => Duration(pts, dflt, i))
  }

  function Sum(ds: seq<u32>): nat { if ds == [] then 0 else Sum(ds[..|ds| - 1]) + ds[|ds| - 1] }

  function PtsOf(ss: seq<Sample>): (r: seq<u64>)
    ensures |r| == |ss|
  {
    seq(|ss|, i requires 0 <= i < |ss| => ss[i].pts)
  }

  ghost predicate Steady(pts: seq<u64>) {
    forall i :: 0 <= i < |pts| - 1 ==> pts[i] < pts[i + 1] < pts[i] + U32_END
  }

  /** The durations before sample `j` add up to the time of its frame, counted from the first. */
  ghost predicate OnTime(pts: seq<u64>, dflt: u32, j: nat)
    requires j < |pts|
  {
    Sum(Durations(pts, dflt)[..j]) + pts[0] == pts[j]
  }

  /** Every sample is on time when, and unless the default duration is zero only when, the times
      rise by less than 2^32 each. */
  lemma TimesExact(pts: seq<u64>, dflt: u32)
    ensures Steady(pts) ==> forall j :: 0 <= j < |pts| ==> OnTime(pts, dflt, j)
    ensures dflt > 0 && (forall j :: 0 <= j < |pts| ==> OnTime(pts, dflt, j)) ==> Steady(pts)
  {
    if Steady(pts) {
      forall j | 0 <= j < |pts|
        ensures OnTime(pts, dflt, j)
      {
        SteadyTimes(pts, dflt, j);
      }
    }
    if dflt > 0 && forall j :: 0 <= j < |pts| ==> OnTime(pts, dflt, j) {
      forall i | 0 <= i < |pts| - 1
        ensures pts[i] < pts[i + 1] < pts[i] + U32_END
      {
        SumMore(Durations(pts, dflt), i);
        assert OnTime(pts, dflt, i) && OnTime(pts, dflt, i + 1);
        DurationPositive(pts, dflt, i);
      }
    }
  }

  lemma SumMore(ds: seq<u32>, i: nat)
    requires i < |ds|
    ensures Sum(ds[..i + 1]) == Sum(ds[..i]) + ds[i]
  {
    assert ds[..i + 1][..i] == ds[..i];
  }

  lemma {:induction false} SteadyTimes(pts: seq<u64>, dflt: u32, j: nat)
    requires Steady(pts) && j < |pts|
    ensures OnTime(pts, dflt, j)
    decreases j
  {
    if j == 0 {
      assert Durations(pts, dflt)[..0] == [];
    } else {
      SteadyTimes(pts, dflt, j - 1);
      SteadyDuration(pts, dflt, j - 1);
      hide Duration, Steady;
      SumMore(Durations(pts, dflt), j - 1);
    }
  }

  lemma SteadyDuration(pts: seq<u64>, dflt: u32, i: nat)
    requires Steady(pts) && i + 1 < |pts|
    ensures Duration(pts, dflt, i) + pts[i] == pts[i + 1]
  {
    assert pts[i] < pts[i + 1] < pts[i] + U32_END;
  }

  lemma {:induction false} DurationPositive(pts: seq<u64>, dflt: u32, i: nat)
    requires i < |pts| && dflt > 0
    ensures 0 < Duration(pts, dflt, i) < U32_END
  {
  }

  // ---- tables ----

  function Words(ws: seq<u32>): seq<byte> { if ws == [] then [] else Words(ws[..|ws| - 1]) + BE(ws[|ws| - 1], 4) }

  function ReadWords(d: seq<byte>): seq<u32>
    decreases |d|
  {
    if |d| < 4 then [] else WordBound(d[..4]); [FromBE(d[..4])] + ReadWords(d[4..])
  }

  lemma WordBound(d: seq<byte>)
    requires |d| == 4
    ensures FromBE(d) < U32_END
  {
    var a, b, c := d[..3], d[..3][..2], d[..3][..2][..1];
    assert c[..0] == [] && FromBE(c) == c[0];
    assert FromBE(b) == 256 * FromBE(c) + b[1] && FromBE(a) == 256 * FromBE(b) + a[2] && FromBE(d) == 256 * FromBE(a) + d[3];
  }

  lemma {:induction false} WordsMore(a: seq<u32>, b: seq<u32>)
    ensures Words(a + b) == Words(a) + Words(b)
    decreases |b|
  {
    hide BE;
    if b == [] {
      assert a + b == a && Words(a) + [] == Words(a);
    } else {
      assert (a + b)[..|a + b| - 1] == a + b[..|b| - 1];
      WordsMore(a, b[..|b| - 1]);
    }
  }

  lemma WordsOne(w: u32)
    ensures Words([w]) == BE(w, 4)
  {
    hide BE;
    assert [w][..0] == [] && Words([]) == [] && [] + BE(w, 4) == BE(w, 4);
  }

  lemma {:induction false} WordsReadBack(ws: seq<u32>)
    ensures ReadWords(Words(ws)) == ws && |Words(ws)| == 4 * |ws|
    decreases |ws|
  {
    hide BE;
    if ws != [] {
      WordsMore([ws[0]], ws[1..]);
      WordsOne(ws[0]);
      assert [ws[0]] + ws[1..] == ws;
      WordsReadBack(ws[1..]);
      Pow256Values();
      BEFits(ws[0], 4);
      var d := Words(ws);
      assert d[..4] == BE(ws[0], 4) && d[4..] == Words(ws[1..]);
    }
  }

  /** How many durations from the start are equal to the first. */
  function RunLength(ds: seq<u32>): (n: nat)
    requires ds != []
    ensures 0 < n <= |ds| && forall i :: 0 <= i < n ==> ds[i] == ds[0]
  {
    if |ds| > 1 && ds[1] == ds[0] then 1 + RunLength(ds[1..]) else 1
  }

  /** Run lengths with durations. */
  function Runs(ds: seq<u32>): seq<(nat, u32)>
    decreases |ds|
  {
    if ds == [] then [] else [(RunLength(ds), ds[0])] + Runs(ds[RunLength(ds)..])
  }

  function RunWords(rs: seq<(nat, u32)>): (r: seq<u32>)
    ensures |r| == 2 * |rs|
  {
    if rs == [] then [] else RunWords(rs[..|rs| - 1]) + [rs[|rs| - 1].0 % U32_END, rs[|rs| - 1].1]
  }

  /** Numbers, from 1, of the key samples. */
  function KeyNumbers(keys: seq<bool>): (r: seq<u32>)
    ensures |r| <= |keys|
  {
    if keys == [] then [] else KeyNumbers(keys[..|keys| - 1]) + if keys[|keys| - 1] then [|keys| % U32_END] else []
  }

  function KeysOf(ss: seq<Sample>): (r: seq<bool>)
    ensures |r| == |ss|
  {
    seq(|ss|, i requires 0 <= i < |ss| => ss[i].key)
  }

  function SizesOf(ss: seq<Sample>): (r: seq<u32>)
    ensures |r| == |ss|
  {
    seq(|ss|, i requires 0 <= i < |ss| => ss[i].size)
  }

  function SttsWords(ds: seq<u32>): seq<u32> { [0, |Runs(ds)| % U32_END] + RunWords(Runs(ds)) }

  function StssWords(ss: seq<Sample>): seq<u32> { [0, |KeyNumbers(KeysOf(ss))| % U32_END] + KeyNumbers(KeysOf(ss)) }

  function StscWords(ss: seq<Sample>): seq<u32> { [0, 1, 1, |ss| % U32_END, 1] }

  function StszWords(ss: seq<Sample>): seq<u32> { [0, 0, |ss| % U32_END] + SizesOf(ss) }

  function StcoWords(ss: seq<Sample>): seq<u32> { [0, 1, if ss == [] then 0 else ss[0].off] }

  // ---- reading the tables ----

  /** Section 8.6.1.2: runs of equal durations, expanded. */
  function ReadStts(ws: seq<u32>): seq<u32> {
    if |ws| < 2 || |ws| < 2 + 2 * ws[1] as int then [] else ExpandRuns(ws[2..2 + 2 * ws[1] as int])
  }

  function Repeat(n: nat, d: u32): (r: seq<u32>)
    ensures |r| == n
  {
    seq(n, _ => d)
  }

  function ExpandRuns(ws: seq<u32>): seq<u32> {
    if |ws| < 2 then [] else Repeat(ws[0], ws[1]) + ExpandRuns(ws[2..])
  }

  /** Section 8.6.2: numbers of the sync samples. */
  function ReadStss(ws: seq<u32>): seq<u32> { if |ws| < 2 || |ws| < 2 + ws[1] as int then [] else ws[2..2 + ws[1] as int] }

  /** Section 8.7.3.2, with sizes in the table. */
  function ReadStsz(ws: seq<u32>): seq<u32> { if |ws| < 3 || ws[1] != 0 || |ws| < 3 + ws[2] as int then [] else ws[3..3 + ws[2] as int] }

  /** Section 8.7.5. */
  function ReadStco(ws: seq<u32>): seq<u32> { if |ws| < 2 || |ws| < 2 + ws[1] as int then [] else ws[2..2 + ws[1] as int] }

  /** Section 8.7.4: samples in chunk `k`, counted from 1, by the last entry that starts at or before it. */
  function PerChunk(ws: seq<u32>, k: nat): nat {
    if |ws| < 3 || ws[0] > k then 0
    else if |ws| >= 6 && ws[3] <= k then PerChunk(ws[3..], k) else ws[1]
  }

  datatype Range = Range(off: nat, size: nat)

  /** `n` samples one behind the other. */
  function InChunk(sizes: seq<u32>, off: nat, n: nat): seq<Range> {
    if n == 0 || sizes == [] then [] else [Range(off, sizes[0])] + InChunk(sizes[1..], off + sizes[0], n - 1)
  }

  /** Chunk after chunk from `k` on. */
  function Locate(stsc: seq<u32>, sizes: seq<u32>, chunks: seq<u32>, k: nat): seq<Range>
    decreases |chunks|
  {
    if chunks == [] then []
    else
      var n := PerChunk(stsc, k);
      InChunk(sizes, chunks[0], n) + Locate(stsc, if n <= |sizes| then sizes[n..] else [], chunks[1..], k + 1)
  }

  /** Where the tables say the samples are. */
  function ReadRanges(stsc: seq<u32>, stsz: seq<u32>, stco: seq<u32>): seq<Range> {
    if |stsc| < 2 then [] else Locate(stsc[2..], ReadStsz(stsz), ReadStco(stco), 1)
  }

  // ---- the tables say what the samples are ----

  lemma {:induction false} RunWordsRead(rs: seq<(nat, u32)>, i: nat)
    requires i < |rs|
    ensures RunWords(rs)[2 * i] == rs[i].0 % U32_END && RunWords(rs)[2 * i + 1] == rs[i].1
    decreases |rs|
  {
    if i < |rs| - 1 {
      RunWordsRead(rs[..|rs| - 1], i);
    }
  }

  lemma {:induction false} RunWordsFront(rs: seq<(nat, u32)>)
    requires rs != []
    ensures RunWords(rs) == [rs[0].0 % U32_END, rs[0].1] + RunWords(rs[1..])
    decreases |rs|
  {
    var n := |rs| - 1;
    if n == 0 {
      assert rs[..0] == [] && rs[1..] == [] && RunWords([]) == [];
    } else {
      RunWordsFront(rs[..n]);
      assert rs[..n][1..] == rs[1..][..n - 1];
    }
  }

  lemma {:induction false} RunsExpand(ds: seq<u32>)
    requires |ds| < U32_END
    ensures ExpandRuns(RunWords(Runs(ds))) == ds && |Runs(ds)| <= |ds|
    decreases |ds|
  {
    if ds != [] {
      var n := RunLength(ds);
      RunsExpand(ds[n..]);
      RunWordsFront(Runs(ds));
      assert Runs(ds)[1..] == Runs(ds[n..]);
      hide Runs, RunWords;
      var ws := RunWords(Runs(ds));
      assert ws[2..] == RunWords(Runs(ds[n..])) && ws[0] == n && ws[1] == ds[0];
      assert Repeat(n, ds[0]) == ds[..n];
      assert ds == ds[..n] + ds[n..];
    }
  }

  /** The time table gives the durations back. */
  lemma SttsReads(ds: seq<u32>)
    requires |ds| < U32_END
    ensures ReadStts(SttsWords(ds)) == ds
  {
    hide ExpandRuns;
    RunsExpand(ds);
    var ws := SttsWords(ds);
    assert ws[2..2 + 2 * ws[1] as int] == RunWords(Runs(ds));
  }

  lemma {:induction false} KeyNumbersAre(keys: seq<bool>, x: u32)
    requires |keys| < U32_END
    ensures x in KeyNumbers(keys) <==> 1 <= x <= |keys| && keys[x - 1]
    decreases |keys|
  {
    if keys != [] {
      KeyNumbersAre(keys[..|keys| - 1], x);
    }
  }

  /** The sync table lists exactly the key samples. */
  lemma StssReads(ss: seq<Sample>, x: u32)
    requires |ss| < U32_END
    ensures x in ReadStss(StssWords(ss)) <==> 1 <= x <= |ss| && ss[x - 1].key
  {
    var ks := KeyNumbers(KeysOf(ss));
    KeyNumbersAre(KeysOf(ss), x);
    assert StssWords(ss)[2..2 + |ks|] == ks;
  }

  /** Samples that lie one behind the other from `off` on. */
  ghost predicate Contiguous(ss: seq<Sample>, off: nat) {
    forall i :: 0 <= i < |ss| ==> ss[i].off == off + Sum(SizesOf(ss)[..i])
  }

  lemma {:induction false} InChunkIs(sizes: seq<u32>, off: nat, i: nat)
    requires i < |sizes|
    ensures var r := InChunk(sizes, off, |sizes|); |r| == |sizes| && r[i] == Range(off + Sum(sizes[..i]), sizes[i])
    decreases |sizes|
  {
    InChunkSize(sizes, off);
    if i > 0 {
      InChunkIs(sizes[1..], off + sizes[0], i - 1);
      SumFront(sizes[..i]);
      assert sizes[..i][1..] == sizes[1..][..i - 1];
    }
  }

  lemma {:induction false} InChunkSize(sizes: seq<u32>, off: nat)
    ensures |InChunk(sizes, off, |sizes|)| == |sizes|
    decreases |sizes|
  {
    if sizes != [] {
      InChunkSize(sizes[1..], off + sizes[0]);
    }
  }

  lemma {:induction false} SumFront(ds: seq<u32>)
    requires ds != []
    ensures Sum(ds) == ds[0] + Sum(ds[1..])
    decreases |ds|
  {
    var n := |ds| - 1;
    if n == 0 {
      assert ds[..0] == [] && ds[1..] == [];
    } else {
      SumFront(ds[..n]);
      assert ds[..n][1..] == ds[1..][..n - 1];
    }
  }

  /** Chunk, size and offset tables together place every sample where it is. */
  lemma RangesRead(ss: seq<Sample>, i: nat)
    requires i < |ss| < U32_END && Contiguous(ss, ss[0].off)
    ensures var r := ReadRanges(StscWords(ss), StszWords(ss), StcoWords(ss));
      |r| == |ss| && r[i] == Range(ss[i].off, ss[i].size)
  {
    hide InChunk;
    var sizes := SizesOf(ss);
    assert StszWords(ss)[3..3 + |ss|] == sizes;
    assert StscWords(ss)[2..] == [1, |ss|, 1];
    assert StcoWords(ss)[2..2 + 1] == [ss[0].off];
    assert [ss[0].off][1..] == [];
    assert PerChunk([1, |ss|, 1], 1) == |ss|;
    InChunkIs(sizes, ss[0].off, i);
    var r := InChunk(sizes, ss[0].off, |ss|);
    assert Locate([1, |ss|, 1], sizes, [ss[0].off], 1) == r + [] == r;
  }
}
