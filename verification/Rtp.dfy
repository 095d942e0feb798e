/** Video frames as RTP packets over an RTSP connection: the split of an access unit into NAL
    units, single packets and fragmentation units for H.264 and H.265, and interleaved framing;
    with the receiver's side of RFC 6184, RFC 7798 and RFC 2326 as its reference. */
module Rtp {
  import opened Bytes

  datatype Codec = H264 | H265

  type Nal = seq<byte>
  type Payload = seq<byte>

  const MAX_PAYLOAD: nat := 1400
  const VIDEO_PT: byte := 96
  const MAX_NALS: nat := 64

  // ---- one NAL unit into payloads ----

  /** Bytes of the NAL header, which fragments carry in another form. */
  function NalHeader(c: Codec): nat { if c == H264 then 1 else 2 }

  function Flags(first: bool, last: bool): nat { (if first then 0x80 else 0) + if last then 0x40 else 0 }

  /** What stands before the data of a fragment: FU indicator or payload header, and FU header. */
  function FuHeader(c: Codec, nal: Nal, first: bool, last: bool): seq<byte>
    requires |nal| >= NalHeader(c)
  {
    match c
    case H264 => [nal[0] / 32 * 32 + 28, Flags(first, last) + nal[0] % 32]
    case H265 => [nal[0] / 128 * 128 + 49 * 2 + nal[0] % 2, nal[1], Flags(first, last) + nal[0] / 2 % 64]
  }

  /** Data bytes per fragment. */
  function FuRoom(c: Codec): nat { MAX_PAYLOAD - NalHeader(c) - 1 }

  /** The fragments of the NAL unit from byte `off` on. */
  function Fragments(c: Codec, nal: Nal, off: nat): seq<Payload>
    requires |nal| >= NalHeader(c)
    decreases |nal| - off
  {
    if off >= |nal| then []
    else
      var n := if |nal| - off > FuRoom(c) then FuRoom(c) else |nal| - off;
      [FuHeader(c, nal, off == NalHeader(c), off + n == |nal|) + nal[off..off + n]] + Fragments(c, nal, off + n)
  }

  function NalPayloads(c: Codec, nal: Nal): seq<Payload> {
    if nal == [] then [] else if |nal| <= MAX_PAYLOAD then [nal] else Fragments(c, nal, NalHeader(c))
  }

  // ---- the receiver ----

  /** NAL units recovered so far, and the one being put together from fragments. */
  datatype Receiver = Receiver(nals: seq<Nal>, partial: seq<byte>, open: bool)

  /** The type a payload announces: 1 to 23 (H.264) or 0 to 47 (H.265) is a NAL unit as it is. */
  function PayloadType(c: Codec, p: Payload): nat
    requires p != []
  {
    if c == H264 then p[0] % 32 else p[0] / 2 % 64
  }

  predicate Whole(c: Codec, kind: nat) { if c == H264 then 1 <= kind <= 23 else kind <= 47 }

  function FuType(c: Codec): nat { if c == H264 then 28 else 49 }

  /** The NAL header a fragment stands for. */
  function Restored(c: Codec, p: Payload): seq<byte>
    requires |p| > NalHeader(c)
  {
    match c
    case H264 => [p[0] / 32 * 32 + p[1] % 32]
    case H265 => [p[0] / 128 * 128 + p[2] % 64 * 2 + p[0] % 2, p[1]]
  }

  /** Section 5.8 of RFC 6184 and section 4.4.3 of RFC 7798, besides single NAL unit packets. */
  function Receive(c: Codec, r: Receiver, p: Payload): Receiver {
    if p == [] then r
    else if Whole(c, PayloadType(c, p)) then Receiver(r.nals + [p], [], false)
    else if PayloadType(c, p) == FuType(c) && |p| > NalHeader(c) + 1 then
      var h := NalHeader(c);
      var start, end := p[h] / 128 == 1, p[h] / 64 % 2 == 1;
      var whole := if start then Restored(c, p) + p[h + 1..] else r.partial + p[h + 1..];
      if !start && !r.open then r
      else if end then Receiver(r.nals + [whole], [], false) else Receiver(r.nals, whole, true)
    else r
  }

  function ReceiveAll(c: Codec, r: Receiver, ps: seq<Payload>): Receiver
    decreases |ps|
  {
    if ps == [] then r else ReceiveAll(c, Receive(c, r, ps[0]), ps[1..])
  }

  // ---- a NAL unit comes out as it went in ----

  /** A NAL unit of a type that travels as such, header included. */
  predicate Sendable(c: Codec, nal: Nal) { |nal| >= NalHeader(c) && nal != [] && Whole(c, PayloadType(c, nal)) }

  lemma FuHeaderReads(c: Codec, nal: Nal, first: bool, last: bool, data: seq<byte>)
    requires |nal| >= NalHeader(c) && data != []
    ensures var p, h := FuHeader(c, nal, first, last) + data, NalHeader(c);
      && |p| == h + 1 + |data| && PayloadType(c, p) == FuType(c) && p[h + 1..] == data
      && (p[h] / 128 == 1 <==> first) && (p[h] / 64 % 2 == 1 <==> last) && Restored(c, p) == nal[..h]
  {
    if c == H264 {
      Fu264Reads(nal, first, last, data);
    } else {
      Fu265Reads(nal, first, last, data);
    }
  }

  lemma Fu264Reads(nal: Nal, first: bool, last: bool, data: seq<byte>)
    requires nal != []
    ensures var p := FuHeader(H264, nal, first, last) + data;
      && |p| == 2 + |data| && PayloadType(H264, p) == FuType(H264) && p[2..] == data
      && (p[1] / 128 == 1 <==> first) && (p[1] / 64 % 2 == 1 <==> last) && Restored(H264, p) == nal[..1]
  {
    hide Flags;
    OctetH264(nal[0], first, last);
    var p := FuHeader(H264, nal, first, last) + data;
    assert Restored(H264, p) == [nal[0]] == nal[..1];
  }

  lemma Fu265Reads(nal: Nal, first: bool, last: bool, data: seq<byte>)
    requires |nal| >= 2
    ensures var p := FuHeader(H265, nal, first, last) + data;
      && |p| == 3 + |data| && PayloadType(H265, p) == FuType(H265) && p[3..] == data
      && (p[2] / 128 == 1 <==> first) && (p[2] / 64 % 2 == 1 <==> last) && Restored(H265, p) == nal[..2]
  {
    hide Flags;
    OctetH265(nal[0], first, last);
    var p := FuHeader(H265, nal, first, last) + data;
    assert Restored(H265, p) == [nal[0], nal[1]] == nal[..2];
  }

  lemma OctetH264(b: byte, first: bool, last: bool)
    ensures var i, f := b / 32 * 32 + 28, Flags(first, last) + b % 32;
      && i % 32 == 28 && i / 32 * 32 + f % 32 == b && (f / 128 == 1 <==> first) && (f / 64 % 2 == 1 <==> last) && i < 256 && f < 256
  {
  }

  lemma OctetH265(b: byte, first: bool, last: bool)
    ensures var i, f := b / 128 * 128 + 49 * 2 + b % 2, Flags(first, last) + b / 2 % 64;
      && i / 2 % 64 == 49 && i / 128 * 128 + f % 64 * 2 + i % 2 == b && (f / 128 == 1 <==> first) && (f / 64 % 2 == 1 <==> last)
      && i < 256 && f < 256
  {
    ThreeFields(b);
    FieldsOf(b / 128, 49, b % 2);
    FlagBits(b / 2 % 64, first, last);
  }

  lemma ThreeFields(b: byte)
    ensures b == b / 128 * 128 + b / 2 % 64 * 2 + b % 2
  {
  }

  lemma FieldsOf(hi: nat, mid: nat, lo: nat)
    requires hi < 2 && mid < 64 && lo < 2
    ensures var i := hi * 128 + mid * 2 + lo; i / 2 % 64 == mid && i / 128 == hi && i % 2 == lo && i < 256
  {
  }

  lemma FlagBits(kind: nat, first: bool, last: bool)
    requires kind < 64
    ensures var f := Flags(first, last) + kind; f % 64 == kind && (f / 128 == 1 <==> first) && (f / 64 % 2 == 1 <==> last) && f < 256
  {
  }

  /** The fragments from byte `off` on, at a receiver that has the bytes before. */
  lemma {:induction false} FragmentsArrive(c: Codec, nal: Nal, off: nat, r: Receiver)
    requires |nal| > MAX_PAYLOAD && NalHeader(c) <= off < |nal|
    requires off > NalHeader(c) ==> r.open && r.partial == nal[..off]
    ensures ReceiveAll(c, r, Fragments(c, nal, off)) == Receiver(r.nals + [nal], [], false)
    decreases |nal| - off
  {
    hide FuHeader, Restored;
    var n := if |nal| - off > FuRoom(c) then FuRoom(c) else |nal| - off;
    var first, last := off == NalHeader(c), off + n == |nal|;
    var ps := Fragments(c, nal, off);
    var p := FuHeader(c, nal, first, last) + nal[off..off + n];
    FuHeaderReads(c, nal, first, last, nal[off..off + n]);
    assert ps[0] == p && ps[1..] == Fragments(c, nal, off + n);
    assert nal[..off] + nal[off..off + n] == nal[..off + n];
    if last {
      assert nal[..off + n] == nal;
      assert Fragments(c, nal, off + n) == [];
    } else {
      FragmentsArrive(c, nal, off + n, Receive(c, r, p));
    }
  }

  /** Whatever the receiver held before, a NAL unit comes out as it went in. */
  lemma NalArrives(c: Codec, nal: Nal, r: Receiver)
    requires Sendable(c, nal)
    ensures ReceiveAll(c, r, NalPayloads(c, nal)) == Receiver(r.nals + [nal], [], false)
  {
    if |nal| <= MAX_PAYLOAD {
      assert NalPayloads(c, nal)[1..] == [];
    } else {
      FragmentsArrive(c, nal, NalHeader(c), r);
    }
  }

  /** Fragments fit a packet; the start bit is on the first only, the end bit on the last only. */
  lemma {:induction false} FragmentShape(c: Codec, nal: Nal, off: nat)
    requires |nal| > MAX_PAYLOAD && NalHeader(c) <= off < |nal|
    ensures var ps, h := Fragments(c, nal, off), NalHeader(c);
      && ps != [] && (|nal| - off > FuRoom(c) ==> |ps| >= 2)
      && forall i :: 0 <= i < |ps| ==>
        && h + 1 < |ps[i]| <= MAX_PAYLOAD
        && (ps[i][h] / 128 == 1 <==> i == 0 && off == h) && (ps[i][h] / 64 % 2 == 1 <==> i == |ps| - 1)
    decreases |nal| - off
  {
    hide FuHeader, Restored;
    var n := if |nal| - off > FuRoom(c) then FuRoom(c) else |nal| - off;
    var first, last := off == NalHeader(c), off + n == |nal|;
    FuHeaderReads(c, nal, first, last, nal[off..off + n]);
    var ps, rest := Fragments(c, nal, off), Fragments(c, nal, off + n);
    assert ps[0] == FuHeader(c, nal, first, last) + nal[off..off + n];
    assert forall i :: 1 <= i < |ps| ==> ps[i] == rest[i - 1];
    if !last {
      FragmentShape(c, nal, off + n);
    } else {
      assert rest == [];
    }
  }

  lemma NalShape(c: Codec, nal: Nal)
    requires Sendable(c, nal)
    ensures var ps, h := NalPayloads(c, nal), NalHeader(c);
      && ps != [] && (|nal| <= 1400 ==> ps == [nal]) && (|nal| > 1400 ==> |ps| >= 2)
      && (forall i :: 0 <= i < |ps| ==> 0 < |ps[i]| <= 1400)
      && (|nal| > 1400 ==> forall i :: 0 <= i < |ps| ==>
            |ps[i]| > h + 1 && (ps[i][h] / 128 == 1 <==> i == 0) && (ps[i][h] / 64 % 2 == 1 <==> i == |ps| - 1))
  {
    if |nal| > 1400 {
      FragmentShape(c, nal, NalHeader(c));
    }
  }

  // ---- the access unit ----

  predicate Code3At(d: seq<byte>, i: nat) { i + 3 <= |d| && d[i] == 0 && d[i + 1] == 0 && d[i + 2] == 1 }

  predicate Code4At(d: seq<byte>, i: nat) { i + 4 <= |d| && d[i] == 0 && d[i + 1] == 0 && d[i + 2] == 0 && d[i + 3] == 1 }

  /** The first start code from `from` on; the length of the data when there is none. */
  function FindCode(d: seq<byte>, from: nat): (i: nat)
    ensures i == |d| || (from <= i && i + 3 <= |d| && (Code3At(d, i) || Code4At(d, i)))
    decreases |d| - from
  {
    if from + 3 > |d| then |d|
    else if Code3At(d, from) || Code4At(d, from) then from
    else FindCode(d, from + 1)
  }

  function CodeLength(d: seq<byte>, i: nat): nat { if Code3At(d, i) then 3 else 4 }

  /** The NAL units from the start code at `i` on, at most `room` of them; the search for the next
      start code leaves out the first byte behind the code. */
  function NalsFrom(d: seq<byte>, i: nat, room: nat): seq<Nal>
    requires i < |d| && (Code3At(d, i) || Code4At(d, i)) && room > 0
    decreases room
  {
    var at := i + CodeLength(d, i);
    var next := FindCode(d, at + 1);
    if next >= |d| || room == 1 then [d[at..]] else [d[at..next]] + NalsFrom(d, next, room - 1)
  }

  /** The NAL units of an access unit; without any start code the whole is one. */
  function NalsOf(d: seq<byte>): seq<Nal> {
    var first := FindCode(d, 0);
    if first >= |d| then [d] else NalsFrom(d, first, MAX_NALS)
  }

  // ---- splitting undoes joining ----

  function StartCode(long: bool): seq<byte> { if long then [0, 0, 0, 1] else [0, 0, 1] }

  /** NAL units behind start codes of three or four bytes. */
  function Join(nals: seq<Nal>, long: seq<bool>): seq<byte>
    requires |long| == |nals|
  {
    if nals == [] then [] else StartCode(long[0]) + nals[0] + Join(nals[1..], long[1..])
  }

  /** A NAL unit as the standards make it: no start code inside, and a last byte that is not zero. */
  ghost predicate WellFormed(nal: Nal) {
    && nal != [] && nal[|nal| - 1] != 0
    && forall i :: 0 <= i < |nal| ==> !Code3At(nal, i)
  }

  lemma {:induction false} FindCodeIs(d: seq<byte>, from: nat, to: nat)
    requires from <= to <= |d| && (forall i :: from <= i < to ==> !Code3At(d, i) && !Code4At(d, i))
    requires to == |d| || Code3At(d, to) || Code4At(d, to)
    ensures FindCode(d, from) == to
    decreases |d| - from
  {
    if from < to && from + 3 <= |d| {
      FindCodeIs(d, from + 1, to);
    }
  }

  /** No start code begins inside a well-formed NAL unit, whatever follows it. */
  lemma NoCodeInside(d: seq<byte>, at: nat, nal: Nal, i: nat)
    requires WellFormed(nal) && at + |nal| <= |d| && d[at..at + |nal|] == nal && at <= i < at + |nal|
    ensures !Code3At(d, i) && !Code4At(d, i)
  {
    var end := at + |nal|;
    assert forall j :: at <= j < end ==> d[j] == nal[j - at];
    assert d[end - 1] != 0;
    assert !Code3At(nal, i - at);
    if Code4At(d, i) {
      assert i + 3 < end + 3;
      if i + 4 <= end {
        assert Code3At(nal, i + 1 - at);
        assert false;
      }
    }
  }

  /** From a start code, over a well-formed NAL unit, to the next start code or the end. */
  lemma NextCode(d: seq<byte>, before: seq<byte>, long: bool, nal: Nal, rest: seq<byte>)
    requires d == before + StartCode(long) + nal + rest && WellFormed(nal)
    requires var next := |before| + |StartCode(long)| + |nal|; rest == [] || Code3At(d, next) || Code4At(d, next)
    ensures var at := |before| + |StartCode(long)|;
      && (Code3At(d, |before|) || Code4At(d, |before|)) && |before| + CodeLength(d, |before|) == at
      && d[at..at + |nal|] == nal && FindCode(d, at + 1) == at + |nal|
  {
    var at := |before| + |StartCode(long)|;
    var next := at + |nal|;
    hide Code3At, Code4At, WellFormed, StartCode, CodeLength;
    Parts(before, StartCode(long), nal, rest);
    CodeHere(d, before, long, nal + rest);
    forall i | at + 1 <= i < next
      ensures !Code3At(d, i) && !Code4At(d, i)
    {
      NoCodeInside(d, at, nal, i);
    }
    assert |nal| > 0 by { NotEmpty(nal); }
    FindCodeIs(d, at + 1, next);
  }

  lemma Parts(a: seq<byte>, b: seq<byte>, c: seq<byte>, rest: seq<byte>)
    ensures a + b + c + rest == a + b + (c + rest)
    ensures (a + b + c + rest)[|a| + |b|..|a| + |b| + |c|] == c
  {
  }

  lemma NotEmpty(nal: Nal)
    requires WellFormed(nal)
    ensures nal != []
  {
  }

  /** The split of the rest of an access unit, starting at one of its start codes. */
  lemma {:induction false} SplitFrom(before: seq<byte>, nals: seq<Nal>, long: seq<bool>, room: nat)
    requires 0 < |nals| <= room && |long| == |nals| && forall i :: 0 <= i < |nals| ==> WellFormed(nals[i])
    ensures var d := before + Join(nals, long);
      && |before| < |d| && (Code3At(d, |before|) || Code4At(d, |before|)) && NalsFrom(d, |before|, room) == nals
    decreases |nals|
  {
    hide Code3At, Code4At, CodeLength, FindCode, WellFormed, StartCode, Join, NalsFrom;
    var d, nal := before + Join(nals, long), nals[0];
    var head := before + StartCode(long[0]) + nal;
    var rest := Join(nals[1..], long[1..]);
    JoinFront(before, nals, long);
    CodeNotEmpty(long[0]);
    if |nals| > 1 {
      SplitFrom(head, nals[1..], long[1..], room - 1);
      assert head + rest == d;
    }
    assert WellFormed(nal);
    NextCode(d, before, long[0], nal, rest);
    NalsFromFront(d, |before|, |before| + |StartCode(long[0])|, nal, rest, room);
  }

  lemma CodeNotEmpty(long: bool)
    ensures StartCode(long) != []
  {
  }

  lemma JoinFront(before: seq<byte>, nals: seq<Nal>, long: seq<bool>)
    requires 0 < |nals| == |long|
    ensures before + Join(nals, long) == before + StartCode(long[0]) + nals[0] + Join(nals[1..], long[1..])
    ensures |nals| == 1 ==> Join(nals[1..], long[1..]) == [] && nals == [nals[0]]
    ensures nals == [nals[0]] + nals[1..]
  {
    hide StartCode;
    var code, rest := StartCode(long[0]), Join(nals[1..], long[1..]);
    assert before + (code + nals[0] + rest) == before + code + nals[0] + rest;
  }

  lemma NalsFromFront(d: seq<byte>, i: nat, at: nat, nal: Nal, rest: seq<byte>, room: nat)
    requires i < |d| && (Code3At(d, i) || Code4At(d, i)) && room > 0 && i + CodeLength(d, i) == at
    requires |d| == at + |nal| + |rest| && d[at..at + |nal|] == nal && FindCode(d, at + 1) == at + |nal|
    requires rest != [] ==> room > 1
    ensures NalsFrom(d, i, room) == [nal] + if rest == [] then [] else NalsFrom(d, at + |nal|, room - 1)
  {
    hide Code3At, Code4At, CodeLength, FindCode;
    assert rest == [] ==> d[at..] == nal;
  }

  lemma CodeHere(d: seq<byte>, before: seq<byte>, long: bool, after: seq<byte>)
    requires d == before + StartCode(long) + after
    ensures (Code3At(d, |before|) || Code4At(d, |before|)) && CodeLength(d, |before|) == |StartCode(long)|
  {
    assert d[|before|..|before| + |StartCode(long)|] == StartCode(long);
    assert forall i :: 0 <= i < |StartCode(long)| ==> d[|before| + i] == StartCode(long)[i];
  }

  lemma {:induction false} AtMostRoom(d: seq<byte>, i: nat, room: nat)
    requires i < |d| && (Code3At(d, i) || Code4At(d, i)) && room > 0
    ensures |NalsFrom(d, i, room)| <= room
    decreases room
  {
    hide Code3At, Code4At, FindCode;
    FindCodeFinds(d, i + CodeLength(d, i) + 1);
    var next := FindCode(d, i + CodeLength(d, i) + 1);
    if next < |d| && room > 1 {
      AtMostRoom(d, next, room - 1);
    }
  }

  lemma FindCodeFinds(d: seq<byte>, i: nat)
    ensures var next := FindCode(d, i); next < |d| ==> Code3At(d, next) || Code4At(d, next)
  {
  }

  /** Well-formed NAL units behind start codes of either length are split as they were joined if and only if
      there are at most 64 of them. */
  lemma SplitJoin(nals: seq<Nal>, long: seq<bool>)
    requires nals != [] && |long| == |nals| && forall i :: 0 <= i < |nals| ==> WellFormed(nals[i])
    ensures NalsOf(Join(nals, long)) == nals <==> |nals| <= 64
  {
    var d := Join(nals, long);
    if |nals| <= MAX_NALS {
      assert [] + d == d;
      SplitFrom([], nals, long, MAX_NALS);
      FindCodeIs(d, 0, 0);
    } else {
      hide Join, Code3At, Code4At, FindCode, NalsFrom;
      FindCodeFinds(d, 0);
      if FindCode(d, 0) < |d| {
        AtMostRoom(d, FindCode(d, 0), MAX_NALS);
      }
    }
  }
}
