/** MPEG-2 transport streams: packets, PES headers and stream tables as the uploader writes them,
    with the demultiplexer of ISO/IEC 13818-1, sections 2.4.3.2 to 2.4.4.9, as their reference. */
module Ts {
  import opened Bytes
  import Crc

  const TS_PKT: nat := 188
  const BODY: nat := 184
  const PID_PAT: nat := 0
  const PID_PMT: nat := 0x1000
  const PID_VIDEO: nat := 0x100
  const PID_AUDIO: nat := 0x101
  const STREAM_VIDEO: byte := 0xE0
  const STREAM_AUDIO: byte := 0xC0
  const PTS_END: nat := 0x2_0000_0000

  function Fill(n: nat): (s: seq<byte>)
    ensures |s| == n
  {
    seq(n, _ => 0xFF)
  }

  // ---- packets ----

  datatype Adaptation = NoField | Field(body: seq<byte>)

  datatype Packet = Packet(start: bool, pid: nat, cc: nat, field: Adaptation, payload: seq<byte>)

  function FieldBytes(a: Adaptation): seq<byte>
    requires a.Field? ==> |a.body| < 256
  {
    match a
    case NoField => []
    case Field(body) => [|body|] + body
  }

  /** A packet that fills its 188 bytes. */
  ghost predicate Whole(p: Packet) {
    && p.pid < 0x2000 && p.cc < 16 && (p.field.Field? ==> |p.field.body| <= 182)
    && |FieldBytes(p.field)| + |p.payload| == BODY
  }

  function PacketBytes(p: Packet): (b: seq<byte>)
    requires Whole(p)
    ensures |b| == TS_PKT && b[0] == 0x47
  {
    [0x47, (if p.start then 0x40 else 0) + p.pid / 0x100, p.pid % 0x100, (if p.field.Field? then 0x30 else 0x10) + p.cc]
    + FieldBytes(p.field) + p.payload
  }

  datatype Parsed = Bad | Good(packet: Packet)

  /** A transport packet by sections 2.4.3.2 and 2.4.3.4, as far as it carries payload. */
  function ParsePacket(b: seq<byte>): Parsed
    requires |b| == TS_PKT
  {
    var pid, cc, control := b[1] as int % 32 * 256 + b[2] as int, b[3] as int % 16, b[3] as int / 16;
    var start := b[1] / 64 % 2 == 1;
    if b[0] != 0x47 then Bad
    else if control == 1 then Good(Packet(start, pid, cc, NoField, b[4..]))
    else if control == 3 && b[4] <= 182 then Good(Packet(start, pid, cc, Field(b[5..5 + b[4]]), b[5 + b[4]..]))
    else Bad
  }

  lemma PacketReadsBack(p: Packet)
    requires Whole(p)
    ensures ParsePacket(PacketBytes(p)) == Good(p)
  {
    var b := PacketBytes(p);
    HeaderBits(p.pid, p.cc, p.start, p.field.Field?);
    match p.field
    case NoField =>
      assert b[4..] == p.payload;
    case Field(body) =>
      assert b[4..] == [|body|] + body + p.payload;
      assert b[4] == |body| && b[5..] == b[4..][1..];
      assert b[5..5 + |body|] == body && b[5 + |body|..] == p.payload;
  }

  lemma HeaderBits(pid: nat, cc: nat, start: bool, field: bool)
    requires pid < 0x2000 && cc < 16
    ensures var b1, b2, b3 := (if start then 0x40 else 0) + pid / 0x100, pid % 0x100, (if field then 0x30 else 0x10) + cc;
      && b1 % 32 * 256 + b2 == pid && (b1 / 64 % 2 == 1 <==> start) && b3 % 16 == cc && b3 / 16 == if field then 3 else 1
  {
    assert pid / 0x100 < 32;
  }

  function Stream(ps: seq<Packet>): seq<byte>
    requires forall i :: 0 <= i < |ps| ==> Whole(ps[i])
  {
    if ps == [] then [] else PacketBytes(ps[0]) + Stream(ps[1..])
  }

  /** All packets of a stream, 188 bytes at a time. */
  function ParseStream(b: seq<byte>): seq<Packet>
    decreases |b|
  {
    if |b| < TS_PKT then []
    else match ParsePacket(b[..TS_PKT])
      case Bad => []
      case Good(p) => [p] + ParseStream(b[TS_PKT..])
  }

  lemma {:induction false} StreamReadsBack(ps: seq<Packet>)
    requires forall i :: 0 <= i < |ps| ==> Whole(ps[i])
    ensures |Stream(ps)| == TS_PKT * |ps| && ParseStream(Stream(ps)) == ps
    decreases |ps|
  {
    hide PacketBytes, ParsePacket;
    if ps != [] {
      PacketReadsBack(ps[0]);
      StreamReadsBack(ps[1..]);
      var b := Stream(ps);
      assert b[..TS_PKT] == PacketBytes(ps[0]) && b[TS_PKT..] == Stream(ps[1..]);
    }
  }

  // ---- PES ----

  /** The five bytes of a PTS: 3, 15 and 15 bits, each group followed by a marker bit. */
  function PtsBytes(p: nat): seq<byte> {
    [0x21 + p / 0x4000_0000 % 8 * 2, p / 0x40_0000 % 0x100, 1 + p / 0x8000 % 0x80 * 2, p / 0x80 % 0x100, 1 + p % 0x80 * 2]
  }

  function PesHeader(sid: byte, esLen: nat, pts: nat): (h: seq<byte>)
    ensures |h| == 14
  {
    var len := if sid == STREAM_VIDEO then 0 else (esLen + 8) % 0x1_0000;
    [0, 0, 1, sid, len / 0x100, len % 0x100, 0x80, 0x80, 5] + PtsBytes(pts)
  }

  datatype Pes = NotPes | Pes(sid: byte, length: nat, pts: nat, es: seq<byte>)

  /** Section 2.4.3.6 for a header with a PTS and no other optional field. */
  function ParsePes(d: seq<byte>): Pes {
    if |d| < 14 || d[..3] != [0, 0, 1] || d[6] / 64 != 2 || d[7] / 64 != 2 || d[8] < 5 || |d| < 9 + d[8] as int
       || d[9] / 16 != 2 || d[9] % 2 != 1 || d[11] % 2 != 1 || d[13] % 2 != 1 then NotPes
    else Pes(d[3], d[4] as int * 0x100 + d[5] as int,
             d[9] as int / 2 % 8 * 0x4000_0000 + d[10] as int * 0x40_0000 + d[11] as int / 2 * 0x8000 + d[12] as int * 0x80 + d[13] as int / 2,
             d[9 + d[8] as int..])
  }

  lemma PtsReadsBack(p: nat)
    ensures var b := PtsBytes(p);
      && b[0] / 16 == 2 && b[0] % 2 == 1 && b[2] % 2 == 1 && b[4] % 2 == 1
      && b[0] as int / 2 % 8 * 0x4000_0000 + b[1] as int * 0x40_0000 + b[2] as int / 2 * 0x8000 + b[3] as int * 0x80 + b[4] as int / 2
         == p % PTS_END
  {
    var a, b, c, d, e := p / 0x4000_0000 % 8, p / 0x40_0000 % 0x100, p / 0x8000 % 0x80, p / 0x80 % 0x100, p % 0x80;
    DigitsOfPts(p);
    assert (0x21 + a * 2) / 2 % 8 == a && (1 + c * 2) / 2 == c && (1 + e * 2) / 2 == e;
  }

  lemma DigitsOfPts(p: nat)
    ensures p % PTS_END == p / 0x4000_0000 % 8 * 0x4000_0000 + p / 0x40_0000 % 0x100 * 0x40_0000
                           + p / 0x8000 % 0x80 * 0x8000 + p / 0x80 % 0x100 * 0x80 + p % 0x80
  {
    var p1 := p / 0x80;
    var p2 := p1 / 0x100;
    var p3 := p2 / 0x80;
    var p4 := p3 / 0x100;
    assert p2 == p / 0x8000 && p3 == p / 0x40_0000 && p4 == p / 0x4000_0000;
    assert p == p1 * 0x80 + p % 0x80 && p1 == p2 * 0x100 + p1 % 0x100;
    assert p2 == p3 * 0x80 + p2 % 0x80 && p3 == p4 * 0x100 + p3 % 0x100;
    var q, r := p4 / 8, p4 % 8;
    assert p4 == q * 8 + r;
    ModUnique(p, PTS_END, q, r * 0x4000_0000 + p3 % 0x100 * 0x40_0000 + p2 % 0x80 * 0x8000 + p1 % 0x100 * 0x80 + p % 0x80);
  }

  /** The header and what follows it come apart again: stream, time modulo 2^33, and the data. */
  lemma PesReadsBack(sid: byte, esLen: nat, pts: nat, rest: seq<byte>)
    ensures ParsePes(PesHeader(sid, esLen, pts) + rest)
         == Pes(sid, if sid == STREAM_VIDEO then 0 else (esLen + 8) % 0x1_0000, pts % PTS_END, rest)
  {
    var len := if sid == STREAM_VIDEO then 0 else (esLen + 8) % 0x1_0000;
    var head, tail := [0, 0, 1, sid, len / 0x100, len % 0x100, 0x80, 0x80, 5], PtsBytes(pts);
    var d := head + tail + rest;
    assert PesHeader(sid, esLen, pts) + rest == d;
    assert d[..3] == [0, 0, 1] && d[3] == sid;
    assert d[9] == tail[0] && d[10] == tail[1] && d[11] == tail[2] && d[12] == tail[3] && d[13] == tail[4];
    assert d[14..] == rest;
    PtsReadsBack(pts);
  }

  /** The clock reference of a key picture: flags, 33-bit base, reserved bits, extension 0. */
  function PcrField(p: nat): (f: seq<byte>)
    ensures |f| == 7
  {
    [0x50, p / 0x200_0000 % 0x100, p / 0x2_0000 % 0x100, p / 0x200 % 0x100, p / 2 % 0x100, p % 2 * 0x80 + 0x7E, 0]
  }

  /** Random access, and the clock reference of section 2.4.3.5. */
  lemma PcrReadsBack(p: nat)
    ensures var f := PcrField(p);
      && f[0] / 64 % 2 == 1 && f[0] / 16 % 2 == 1
      && f[1] as int * 0x200_0000 + f[2] as int * 0x2_0000 + f[3] as int * 0x200 + f[4] as int * 2 + f[5] as int / 0x80 == p % PTS_END
      && f[5] % 2 == 0 && f[6] == 0
  {
    var p1 := p / 2;
    var p2 := p1 / 0x100;
    var p3 := p2 / 0x100;
    var p4 := p3 / 0x100;
    assert p2 == p / 0x200 && p3 == p / 0x2_0000 && p4 == p / 0x200_0000;
    assert p == p1 * 2 + p % 2 && p1 == p2 * 0x100 + p1 % 0x100 && p2 == p3 * 0x100 + p2 % 0x100 && p3 == p4 * 0x100 + p3 % 0x100;
    var q, r := p4 / 0x100, p4 % 0x100;
    assert p4 == q * 0x100 + r;
    ModUnique(p, PTS_END, q, r * 0x200_0000 + p3 % 0x100 * 0x2_0000 + p2 % 0x100 * 0x200 + p1 % 0x100 * 2 + p % 2);
  }

  // ---- a PES in packets ----

  /** Stuffing of `n` bytes including its length byte. */
  function Stuffing(n: nat): Adaptation
    requires n > 0
  {
    Field(if n == 1 then [] else [0] + Fill(n - 2))
  }

  /** A packet with the data from `off` on; a short rest is stuffed up. */
  function DataPacket(pid: nat, cc: nat, start: bool, data: seq<byte>, off: nat): Packet
    requires off < |data|
  {
    var remain := |data| - off;
    if remain < BODY then Packet(start, pid, cc, Stuffing(BODY - remain), data[off..])
    else Packet(start, pid, cc, NoField, data[off..off + BODY])
  }

  const PCR_BODY: nat := 176

  /** The first packet of a key picture; a short picture leaves it filled up behind the data. */
  function PcrPacket(pid: nat, cc: nat, data: seq<byte>, pts: nat): Packet {
    Packet(true, pid, cc, Field(PcrField(pts)), if |data| < PCR_BODY then data + Fill(PCR_BODY - |data|) else data[..PCR_BODY])
  }

  /** The packets for the data from `off` on. */
  function DataPackets(pid: nat, cc: nat, data: seq<byte>, off: nat): seq<Packet>
    decreases |data| - off
  {
    if off >= |data| then []
    else [DataPacket(pid, cc, off == 0, data, off)] + DataPackets(pid, (cc + 1) % 16, data, if off + BODY < |data| then off + BODY else |data|)
  }

  function PesPackets(pid: nat, cc: nat, data: seq<byte>, pcr: bool, pts: nat): seq<Packet> {
    if pcr then [PcrPacket(pid, cc, data, pts)] + DataPackets(pid, (cc + 1) % 16, data, if |data| < PCR_BODY then |data| else PCR_BODY)
    else DataPackets(pid, cc, data, 0)
  }

  function Payloads(ps: seq<Packet>): seq<byte> { if ps == [] then [] else ps[0].payload + Payloads(ps[1..]) }

  /** Packets of one PES: whole, of one PID, counting up from `cc`, the first one marked. */
  ghost predicate Sequence(ps: seq<Packet>, pid: nat, cc: nat, start: bool) {
    forall i :: 0 <= i < |ps| ==>
      Whole(ps[i]) && ps[i].pid == pid && ps[i].cc == (cc + i) % 16 && ps[i].start == (start && i == 0)
  }

  lemma SequenceMore(p: Packet, ps: seq<Packet>, pid: nat, cc: nat)
    requires Whole(p) && p.pid == pid && p.cc == cc < 16 && Sequence(ps, pid, (cc + 1) % 16, false)
    ensures Sequence([p] + ps, pid, cc, p.start)
  {
    hide Whole;
    var all := [p] + ps;
    forall i | 0 <= i < |all|
      ensures Whole(all[i]) && all[i].pid == pid && all[i].cc == (cc + i) % 16 && all[i].start == (p.start && i == 0)
    {
      if i > 0 {
        assert all[i] == ps[i - 1];
        CountOn(cc, i);
      }
    }
  }

  lemma CountOn(cc: nat, i: nat)
    requires cc < 16 && i > 0
    ensures ((cc + 1) % 16 + (i - 1)) % 16 == (cc + i) % 16
  {
  }

  lemma {:induction false} DataArrives(pid: nat, cc: nat, data: seq<byte>, off: nat)
    requires pid < 0x2000 && cc < 16 && off <= |data|
    ensures var ps := DataPackets(pid, cc, data, off);
      && Sequence(ps, pid, cc, off == 0) && Payloads(ps) == data[off..]
      && |ps| == (|data| - off + BODY - 1) / BODY
    decreases |data| - off
  {
    if off < |data| {
      hide Whole, Sequence, DataPacket;
      var to := if off + BODY < |data| then off + BODY else |data|;
      DataArrives(pid, (cc + 1) % 16, data, to);
      DataPacketIs(pid, cc, data, off, to);
      SequenceMore(DataPacket(pid, cc, off == 0, data, off), DataPackets(pid, (cc + 1) % 16, data, to), pid, cc);
      assert data[off..] == data[off..to] + data[to..];
    } else {
      NoSequence(pid, cc, off == 0);
    }
  }

  lemma DataPacketIs(pid: nat, cc: nat, data: seq<byte>, off: nat, to: nat)
    requires pid < 0x2000 && cc < 16 && off < |data| && to == if off + BODY < |data| then off + BODY else |data|
    ensures var p := DataPacket(pid, cc, off == 0, data, off);
      Whole(p) && p.payload == data[off..to] && p.pid == pid && p.cc == cc && p.start == (off == 0)
  {
  }

  lemma NoSequence(pid: nat, cc: nat, start: bool)
    ensures Sequence([], pid, cc, start)
  {
  }

  /** What a receiver finds behind the data: nothing, except in a short key picture. */
  function Trailer(data: seq<byte>, pcr: bool): seq<byte> {
    if pcr && |data| < PCR_BODY then Fill(PCR_BODY - |data|) else []
  }

  /** The packets of a PES carry its bytes, in order and in counting packets; behind the data of a
      key picture that leaves room in its first packet there is fill. */
  lemma PesArrives(pid: nat, cc: nat, data: seq<byte>, pcr: bool, pts: nat)
    requires pid < 0x2000 && cc < 16 && data != []
    ensures var ps := PesPackets(pid, cc, data, pcr, pts);
      ps != [] && Sequence(ps, pid, cc, true) && Payloads(ps) == data + Trailer(data, pcr)
  {
    if pcr {
      var to := if |data| < PCR_BODY then |data| else PCR_BODY;
      var p := PcrPacket(pid, cc, data, pts);
      DataArrives(pid, (cc + 1) % 16, data, to);
      assert Whole(p);
      SequenceMore(p, DataPackets(pid, (cc + 1) % 16, data, to), pid, cc);
      if |data| < PCR_BODY {
        assert DataPackets(pid, (cc + 1) % 16, data, to) == [];
        assert Payloads([]) == [] && p.payload + [] == p.payload;
      } else {
        assert data == data[..to] + data[to..] && data + [] == data;
      }
    } else {
      DataArrives(pid, cc, data, 0);
      assert data[0..] == data && data + [] == data;
    }
  }

  // ---- stream tables ----

  function PatSection(): seq<byte> { [0x00, 0xB0, 0x0D, 0x00, 0x01, 0xC1, 0x00, 0x00, 0x00, 0x01, 0xF0, 0x00] }

  function VideoType(h265: bool): byte { if h265 then 0x24 else 0x1B }

  function PmtSection(h265: bool): seq<byte> {
    [0x02, 0xB0, 0x17, 0x00, 0x01, 0xC1, 0x00, 0x00, 0xE1, 0x00, 0xF0, 0x00,
     VideoType(h265), 0xE1, 0x00, 0xF0, 0x00, 0x0F, 0xE1, 0x01, 0xF0, 0x00]
  }

  /** A section with its checksum. */
  function Sealed(section: seq<byte>): seq<byte> { section + BE(Crc.MpegCrc(section), 4) }

  /** A packet holding one short section behind a zero pointer. */
  function PsiPacket(pid: nat, cc: nat, section: seq<byte>): Packet
    requires |section| <= 179
  {
    Packet(true, pid, cc, NoField, [0] + Sealed(section) + Fill(179 - |section|))
  }

  datatype Section = NoSection | Section(table: byte, body: seq<byte>)

  /** A section at the start of a payload, by sections 2.4.4.1 and 2.4.4.11: its checksum must be right. */
  function ParseSection(payload: seq<byte>): Section {
    if |payload| < 4 || payload[0] != 0 then NoSection
    else
      var s := payload[1..];
      var len := s[1] as int % 16 * 256 + s[2] as int;
      if len < 9 || |s| < 3 + len || Crc.MpegCrc(s[..3 + len]) != 0 then NoSection
      else Section(s[0], s[8..3 + len - 4])
  }

  /** Pairs of program number and PID of the program map, section 2.4.4.3. */
  function Programs(body: seq<byte>): seq<(nat, nat)>
    decreases |body|
  {
    if |body| < 4 then []
    else [(body[0] as int * 256 + body[1] as int, body[2] as int % 32 * 256 + body[3] as int)] + Programs(body[4..])
  }

  /** Stream types with PIDs, section 2.4.4.8, after clock PID and program descriptors. */
  function Streams(body: seq<byte>): seq<(byte, nat)>
    decreases |body|
  {
    if |body| < 5 then []
    else
      var skip := 5 + body[3] as int % 16 * 256 + body[4] as int;
      [(body[0], body[1] as int % 32 * 256 + body[2] as int)] + if skip <= |body| then Streams(body[skip..]) else []
  }

  lemma SectionReadsBack(section: seq<byte>)
    requires 8 <= |section| <= 179 && section[1] as int % 16 * 256 + section[2] as int == |section| + 1
    ensures var p := PsiPacket(0, 0, section).payload;
      |p| == BODY && ParseSection(p) == Section(section[0], section[8..])
  {
    hide BE, Crc.MpegCrc;
    var sealed := Sealed(section);
    var p := [0] + sealed + Fill(179 - |section|);
    var s := p[1..];
    Crc.SectionChecks(section);
    assert s[..|section| + 4] == sealed;
    assert s[0] == sealed[0] == section[0] && s[1] == sealed[1] == section[1] && s[2] == sealed[2] == section[2];
    assert s[8..|section|] == section[8..];
  }

  lemma OneProgram()
    ensures PatSection()[8..] == [0x00, 0x01, 0xF0, 0x00] && Programs(PatSection()[8..]) == [(1, PID_PMT)]
  {
    var a := PatSection()[8..];
    assert a[4..] == [];
    assert Programs(a) == [(1, PID_PMT)] + Programs(a[4..]);
  }

  lemma TwoStreams(h265: bool)
    ensures var body := PmtSection(h265)[8..];
      && |body| == 14 && body[..4] == [0xE1, 0x00, 0xF0, 0x00]
      && Streams(body[4..]) == [(VideoType(h265), PID_VIDEO), (0x0F, PID_AUDIO)]
  {
    hide Streams, PmtSection;
    PmtBody(h265);
    var body := PmtSection(h265)[8..];
    var audio := [0x0F, 0xE1, 0x01, 0xF0, 0x00];
    assert body[4..] == [VideoType(h265), 0xE1, 0x00, 0xF0, 0x00] + audio;
    StreamsFront(body[4..], VideoType(h265), 0x00, audio);
    assert audio == [0x0F, 0xE1, 0x01, 0xF0, 0x00] + [];
    StreamsFront(audio, 0x0F, 0x01, []);
    NoStreams();
  }

  lemma PmtBody(h265: bool)
    ensures |PmtSection(h265)| == 22
    ensures PmtSection(h265)[8..] == [0xE1, 0x00, 0xF0, 0x00] + ([VideoType(h265), 0xE1, 0x00, 0xF0, 0x00] + [0x0F, 0xE1, 0x01, 0xF0, 0x00])
  {
  }

  lemma NoStreams()
    ensures Streams([]) == []
  {
  }

  lemma StreamsFront(body: seq<byte>, kind: byte, lo: byte, rest: seq<byte>)
    requires body == [kind, 0xE1, lo, 0xF0, 0x00] + rest
    ensures Streams(body) == [(kind, 0x100 + lo as int)] + Streams(rest)
  {
    assert body[5..] == rest;
  }

  /** A receiver finds the program map. */
  lemma PatReadsBack()
    ensures var pat := ParseSection(PsiPacket(PID_PAT, 0, PatSection()).payload);
      pat.Section? && pat.table == 0 && Programs(pat.body) == [(1, PID_PMT)]
  {
    hide Sealed, ParseSection, Programs;
    SectionReadsBack(PatSection());
    OneProgram();
  }

  /** And in the program map the video, which has the clock, and the audio. */
  lemma PmtReadsBack(h265: bool)
    ensures var pmt := ParseSection(PsiPacket(PID_PMT, 0, PmtSection(h265)).payload);
      && pmt.Section? && pmt.table == 2 && |pmt.body| >= 4
      && pmt.body[0] as int % 32 * 256 + pmt.body[1] as int == PID_VIDEO && pmt.body[2] as int % 16 * 256 + pmt.body[3] as int == 0
      && Streams(pmt.body[4..]) == [(VideoType(h265), PID_VIDEO), (0x0F, PID_AUDIO)]
  {
    hide Sealed, ParseSection, Streams;
    SectionReadsBack(PmtSection(h265));
    TwoStreams(h265);
    var body := PmtSection(h265)[8..];
    assert body[..4][0] == body[0] && body[..4][1] == body[1] && body[..4][2] == body[2] && body[..4][3] == body[3];
  }
}
