/** The fragmented MP4 export: fragments that start at key frames, and a reader of fragments by
    sections 8.8.4 to 8.8.12 of ISO/IEC 14496-12. */
module FragMp4 {
  import opened Bytes
  import opened Rtp
  import opened NalScan
  import opened Boxes
  import opened Mp4
  import opened Mp4File

  const MOOF: Kind := [0x6d, 0x6f, 0x6f, 0x66]
  const MFHD: Kind := [0x6d, 0x66, 0x68, 0x64]
  const TRAF: Kind := [0x74, 0x72, 0x61, 0x66]
  const TFHD: Kind := [0x74, 0x66, 0x68, 0x64]
  const TFDT: Kind := [0x74, 0x66, 0x64, 0x74]
  const TRUN: Kind := [0x74, 0x72, 0x75, 0x6e]
  const U64_END: nat := 0x1_0000_0000_0000_0000

  /** A sample waiting for its fragment. */
  datatype Pending = Pending(size: u32, key: bool, pts: u64)

  /** `boxes` is the file so far; `init` says whether the movie box has been written, `sps` whether
      the parameter sets for it have been seen. */
  datatype FragMovie = FragMovie(track: Track, sps: bool, init: bool, seqNo: u32, base: u64, data: seq<byte>, pend: seq<Pending>, boxes: seq<Box>)

  // ---- a fragment ----

  function FragDuration(ps: seq<Pending>, dflt: u32, i: nat): u32
    requires i < |ps|
  {
    var d := if i + 1 < |ps| && ps[i + 1].pts > ps[i].pts then (ps[i + 1].pts - ps[i].pts) % U32_END else dflt;
    if d == 0 then dflt else d
  }

  function FragDurations(ps: seq<Pending>, dflt: u32): (r: seq<u32>)
    ensures |r| == |ps|
  {
    seq(|ps|, i requires 0 <= i < |ps| => FragDuration(ps, dflt, i))
  }

  const SYNC_FLAGS: u32 := 0x0200_0000
  const OTHER_FLAGS: u32 := 0x0001_0000

  /** Duration, size and flags of each sample. */
  function Entries(ps: seq<Pending>, ds: seq<u32>): (r: seq<u32>)
    requires |ds| == |ps|
    ensures |r| == 3 * |ps|
  {
    if ps == [] then []
    else Entries(ps[..|ps| - 1], ds[..|ps| - 1]) + [ds[|ps| - 1], ps[|ps| - 1].size, if ps[|ps| - 1].key then SYNC_FLAGS else OTHER_FLAGS]
  }

  function TrunWords(ps: seq<Pending>, ds: seq<u32>, offset: u32): seq<u32>
    requires |ds| == |ps|
  {
    [0x701, |ps| % U32_END, offset] + Entries(ps, ds)
  }

  function TfdtWords(base: u64): seq<u32> { [0x0100_0000, base / U32_END, base % U32_END] }

  function Traf(base: u64, ps: seq<Pending>, ds: seq<u32>, offset: u32): Box
    requires |ds| == |ps|
  {
    Box(TRAF, BoxList([Box(TFHD, Words([0x2_0000, 1])), Box(TFDT, Words(TfdtWords(base))), Box(TRUN, Words(TrunWords(ps, ds, offset)))]))
  }

  function Moof(seqNo: u32, base: u64, ps: seq<Pending>, ds: seq<u32>, offset: u32): Box
    requires |ds| == |ps|
  {
    Box(MOOF, BoxList([Box(MFHD, Words([0, seqNo])), Traf(base, ps, ds, offset)]))
  }

  /** The size of a fragment's header does not depend on the offset it contains. */
  function MoofSize(n: nat): nat { 88 + 12 * n }

  function Flush(m: FragMovie, dflt: u32): FragMovie {
    if m.pend == [] then m
    else
      var ds := FragDurations(m.pend, dflt);
      var n := (m.seqNo + 1) % U32_END;
      m.(seqNo := n, base := (m.base + Sum(ds)) % U64_END, data := [], pend := [],
         boxes := m.boxes + [Moof(n, m.base, m.pend, ds, (MoofSize(|m.pend|) + 8) % U32_END), Box(MDAT, m.data)])
  }

  // ---- frames ----

  predicate IsSps(c: Codec, nal: Nal) { nal != [] && |nal| < 512 && PayloadType(c, nal) == if c == H265 then 33 else 7 }

  predicate HasSps(c: Codec, nals: seq<Nal>) { exists i :: 0 <= i < |nals| && IsSps(c, nals[i]) }

  /** The movie box goes out as soon as there are parameter sets for it. */
  function WriteInit(m: FragMovie, moov: Box): FragMovie {
    if !m.init && m.sps then m.(init := true, boxes := m.boxes + [moov]) else m
  }

  /** A key frame closes the fragment before it. */
  function AddFrame(m: FragMovie, f: Frame, moov: Box, dflt: u32): FragMovie {
    var c := CodecOf(m.track, f);
    var all := Scan(f.annexb, 0);
    var nals := Vcl(c, all);
    var t := m.(track := Has(c), sps := m.sps || HasSps(c, all));
    if nals == [] then t
    else
      var key := HasKeyNal(c, nals) || f.key;
      var i := WriteInit(t, moov);
      var u := if key then Flush(i, dflt) else i;
      u.(data := u.data + Sized(nals), pend := u.pend + [Pending(|Sized(nals)| % U32_END, key, f.pts)])
  }

  function Start(head: Box): FragMovie { FragMovie(NoCodec, false, false, 0, 0, [], [], [head]) }

  function AddFrames(head: Box, fs: seq<Frame>, moov: Box, dflt: u32): FragMovie {
    if fs == [] then Start(head) else AddFrame(AddFrames(head, fs[..|fs| - 1], moov, dflt), fs[|fs| - 1], moov, dflt)
  }

  function Finish(m: FragMovie, moov: Box, dflt: u32): FragMovie { Flush(WriteInit(m, moov), dflt) }

  // ---- reading fragments ----

  datatype FragSample = FragSample(dur: nat, sync: bool, data: seq<byte>)

  /** `left` is what the samples leave of the payload. */
  datatype Fragment = NoFragment | Fragment(seqNo: nat, time: nat, samples: seq<FragSample>, left: seq<byte>)

  /** Sample after sample out of the payload, by the words of the run table from entry `i` on. */
  function TakeSamples(ws: seq<u32>, payload: seq<byte>): (r: (seq<FragSample>, seq<byte>))
    decreases |ws|
  {
    if |ws| < 3 || ws[1] as int > |payload| then ([], payload)
    else
      var (more, left) := TakeSamples(ws[3..], payload[ws[1]..]);
      ([FragSample(ws[0], ws[2] / 0x1_0000 % 2 == 0, payload[..ws[1]])] + more, left)
  }

  function WordsAt(d: seq<byte>, path: seq<Kind>): seq<u32> {
    var t := Lookup(d, path);
    if t == [] then [] else ReadWords(t[0])
  }

  /** A fragment from the words of its boxes; the data offset counts from the start of `whole`. */
  function Decode(mfhd: seq<u32>, tfdt: seq<u32>, trun: seq<u32>, whole: seq<byte>): Fragment {
    if |mfhd| != 2 || |tfdt| != 3 || tfdt[0] != 0x0100_0000 || |trun| < 3 || trun[0] != 0x701 || |trun| != 3 + 3 * trun[1] as int
       || trun[2] as int > |whole| then NoFragment
    else
      var (samples, left) := TakeSamples(trun[3..], whole[trun[2]..]);
      Fragment(mfhd[1], tfdt[1] as int * U32_END + tfdt[2], samples, left)
  }

  /** A movie fragment and the media box behind it. */
  function ReadFragment(moof: Box, mdat: Box): Fragment {
    Decode(WordsAt(moof.body, [MFHD]), WordsAt(moof.body, [TRAF, TFDT]), WordsAt(moof.body, [TRAF, TRUN]), BoxBytes(moof) + BoxBytes(mdat))
  }

  /** All fragments of a list of boxes. */
  function ReadFragments(bs: seq<Box>): seq<Fragment> {
    var n := |bs|;
    if n < 2 then []
    else if bs[n - 2].kind == MOOF && bs[n - 1].kind == MDAT then ReadFragments(bs[..n - 2]) + [ReadFragment(bs[n - 2], bs[n - 1])]
    else ReadFragments(bs[..n - 1])
  }

  // ---- a fragment reads back ----

  function PendingSizes(ps: seq<Pending>): (r: seq<u32>)
    ensures |r| == |ps|
  {
    seq(|ps|, i requires 0 <= i < |ps| => ps[i].size)
  }

  /** The samples a reader should find: the payload cut by the sizes. */
  function Cut(ps: seq<Pending>, ds: seq<u32>, payload: seq<byte>): seq<FragSample>
    requires |ds| == |ps| && Sum(PendingSizes(ps)) == |payload|
    decreases |ps|
  {
    if ps == [] then []
    else
      SumSizes(ps);
      [FragSample(ds[0], ps[0].key, payload[..ps[0].size])] + Cut(ps[1..], ds[1..], payload[ps[0].size..])
  }

  lemma SumSizes(ps: seq<Pending>)
    requires ps != []
    ensures Sum(PendingSizes(ps)) == ps[0].size + Sum(PendingSizes(ps[1..]))
  {
    SumFront(PendingSizes(ps));
    assert PendingSizes(ps)[1..] == PendingSizes(ps[1..]);
  }

  lemma {:induction false} EntriesFront(ps: seq<Pending>, ds: seq<u32>)
    requires ps != [] && |ds| == |ps|
    ensures Entries(ps, ds) == [ds[0], ps[0].size, if ps[0].key then SYNC_FLAGS else OTHER_FLAGS] + Entries(ps[1..], ds[1..])
    decreases |ps|
  {
    var n := |ps| - 1;
    if n == 0 {
      assert ps[..0] == [] && ps[1..] == [] && Entries([], []) == [];
    } else {
      EntriesFront(ps[..n], ds[..n]);
      assert ps[..n][1..] == ps[1..][..n - 1] && ds[..n][1..] == ds[1..][..n - 1];
    }
  }

  lemma {:induction false} EntriesRead(ps: seq<Pending>, ds: seq<u32>, payload: seq<byte>)
    requires |ds| == |ps| && Sum(PendingSizes(ps)) == |payload|
    ensures TakeSamples(Entries(ps, ds), payload) == (Cut(ps, ds, payload), [])
    decreases |ps|
  {
    if ps == [] {
      assert PendingSizes(ps) == [];
    } else {
      hide Entries;
      EntriesFront(ps, ds);
      SumSizes(ps);
      var ws := Entries(ps, ds);
      assert ws[3..] == Entries(ps[1..], ds[1..]);
      EntriesRead(ps[1..], ds[1..], payload[ps[0].size..]);
    }
  }

  lemma MoofSizeIs(seqNo: u32, base: u64, ps: seq<Pending>, ds: seq<u32>, offset: u32)
    requires |ds| == |ps|
    ensures |BoxBytes(Moof(seqNo, base, ps, ds, offset))| == MoofSize(|ps|)
  {
    hide Words, BoxBytes, Entries;
    WordsReadBack([0, seqNo]); WordsReadBack([0x2_0000, 1]); WordsReadBack(TfdtWords(base)); WordsReadBack(TrunWords(ps, ds, offset));
    ThreeBoxes(Box(TFHD, Words([0x2_0000, 1])), Box(TFDT, Words(TfdtWords(base))), Box(TRUN, Words(TrunWords(ps, ds, offset))));
    TwoBoxes(Box(MFHD, Words([0, seqNo])), Traf(base, ps, ds, offset));
  }

  lemma WordsFound(seqNo: u32, base: u64, ps: seq<Pending>, ds: seq<u32>, offset: u32)
    requires |ds| == |ps| && MoofSize(|ps|) < U32_END
    ensures var body := Moof(seqNo, base, ps, ds, offset).body;
      && WordsAt(body, [MFHD]) == [0, seqNo] && WordsAt(body, [TRAF, TFDT]) == TfdtWords(base)
      && WordsAt(body, [TRAF, TRUN]) == TrunWords(ps, ds, offset)
  {
    hide Words, BoxBytes, BoxList, Lookup, TrunWords, TfdtWords;
    MoofSizeIs(seqNo, base, ps, ds, offset);
    var outer := [Box(MFHD, Words([0, seqNo])), Traf(base, ps, ds, offset)];
    var inner := [Box(TFHD, Words([0x2_0000, 1])), Box(TFDT, Words(TfdtWords(base))), Box(TRUN, Words(TrunWords(ps, ds, offset)))];
    Descend(outer, 0, [MFHD]);
    assert [MFHD][1..] == [];
    LookupEnds(outer[0].body);
    Descend(outer, 1, [TRAF, TFDT]); Descend(outer, 1, [TRAF, TRUN]);
    assert [TRAF, TFDT][1..] == [TFDT] && [TRAF, TRUN][1..] == [TRUN];
    Descend(inner, 1, [TFDT]); Descend(inner, 2, [TRUN]);
    assert [TFDT][1..] == [] && [TRUN][1..] == [];
    LookupEnds(inner[1].body); LookupEnds(inner[2].body);
    WordsReadBack([0, seqNo]); WordsReadBack(TfdtWords(base)); WordsReadBack(TrunWords(ps, ds, offset));
  }

  lemma PayloadAt(front: seq<byte>, payload: seq<byte>)
    ensures (front + BoxBytes(Box(MDAT, payload)))[|front| + 8..] == payload
  {
    hide BE;
    assert BoxBytes(Box(MDAT, payload))[8..] == payload;
    var whole := front + BoxBytes(Box(MDAT, payload));
    assert whole[|front| + 8..] == whole[|front|..][8..] == payload;
  }

  lemma TrunParts(ps: seq<Pending>, ds: seq<u32>, offset: u32)
    requires |ds| == |ps| < U32_END
    ensures var ws := TrunWords(ps, ds, offset);
      |ws| == 3 + 3 * |ps| && ws[0] == 0x701 && ws[1] == |ps| && ws[2] == offset && ws[3..] == Entries(ps, ds)
  {
    hide Entries;
  }

  lemma TwoHalves(base: u64)
    ensures base / U32_END * U32_END + base % U32_END == base
  {
  }

  /** A written fragment is read back: its number and time, and all of its payload, cut into its
      samples by the sizes in its table. */
  lemma FragmentReadsBack(seqNo: u32, base: u64, ps: seq<Pending>, ds: seq<u32>, offset: u32, payload: seq<byte>)
    requires |ds| == |ps| && Sum(PendingSizes(ps)) == |payload| && offset == MoofSize(|ps|) + 8
    ensures ReadFragment(Moof(seqNo, base, ps, ds, offset), Box(MDAT, payload)) == Fragment(seqNo, base, Cut(ps, ds, payload), [])
  {
    hide WordsAt, BoxBytes, Moof, TrunWords, TfdtWords, Cut, Decode, Sum, PendingSizes;
    var moof := Moof(seqNo, base, ps, ds, offset);
    MoofSizeIs(seqNo, base, ps, ds, offset);
    WordsFound(seqNo, base, ps, ds, offset);
    var whole := BoxBytes(moof) + BoxBytes(Box(MDAT, payload));
    PayloadAt(BoxBytes(moof), payload);
    DecodeIs(seqNo, base, ps, ds, offset, whole, payload);
  }

  lemma DecodeIs(seqNo: u32, base: u64, ps: seq<Pending>, ds: seq<u32>, offset: u32, whole: seq<byte>, payload: seq<byte>)
    requires |ds| == |ps| < U32_END && Sum(PendingSizes(ps)) == |payload| && offset <= |whole| && whole[offset..] == payload
    ensures Decode([0, seqNo], TfdtWords(base), TrunWords(ps, ds, offset), whole) == Fragment(seqNo, base, Cut(ps, ds, payload), [])
  {
    hide Entries, TakeSamples, Cut, TrunWords;
    TrunParts(ps, ds, offset);
    EntriesRead(ps, ds, payload);
    TwoHalves(base);
  }
}
