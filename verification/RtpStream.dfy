/** RTP packets on the wire: one access unit after another, interleaved with the RTSP
    conversation as in section 10.12 of RFC 2326, and what a client reads back. */
module RtpStream {
  import opened Bytes
  import opened Rtp

  const DOLLAR: byte := 0x24
  const RTP_HEADER: nat := 12

  /** The fields of a packet; version 2, no padding, extension or contributing sources. */
  datatype Packet = Packet(channel: byte, marker: bool, kind: byte, seqNo: u16, ts: u32, ssrc: u32, payload: Payload)

  /** What a connection keeps for the packets it sends. */
  datatype Sender = Sender(channel: byte, seqNo: u16, ssrc: u32, ts: u32)

  function Skip(s: Sender, n: nat): Sender { s.(seqNo := (s.seqNo + n) % 0x1_0000) }

  /** The packets of one NAL unit; the marker goes on the last packet of the last one. */
  function NalPackets(s: Sender, ts: u32, ps: seq<Payload>, lastNal: bool): (r: seq<Packet>)
    ensures |r| == |ps|
  {
    seq(|ps|, i requires 0 <= i < |ps| =>
      Packet(s.channel, lastNal && i == |ps| - 1, VIDEO_PT, (s.seqNo + i) % 0x1_0000, ts, s.ssrc, ps[i]))
  }

  function AuPackets(s: Sender, c: Codec, nals: seq<Nal>, ts: u32): seq<Packet>
    decreases |nals|
  {
    if nals == [] then []
    else
      var ps := NalPayloads(c, nals[0]);
      NalPackets(s, ts, ps, |nals| == 1) + AuPackets(Skip(s, |ps|), c, nals[1..], ts)
  }

  function AllPayloads(c: Codec, nals: seq<Nal>): seq<Payload> {
    if nals == [] then [] else NalPayloads(c, nals[0]) + AllPayloads(c, nals[1..])
  }

  /** The timestamp of a frame: 90 kHz, or 3000 ticks after the last one when it has no time. */
  function Stamp(s: Sender, ms: u64): (u32, Sender) {
    if ms != 0 then (ms * 90 % 0x1_0000_0000_0000_0000 % 0x1_0000_0000, s)
    else (U32(s.ts + 3000), s.(ts := U32(s.ts + 3000)))
  }

  // ---- on the wire ----

  function PacketBytes(p: Packet): seq<byte> {
    [DOLLAR, p.channel] + BE((RTP_HEADER + |p.payload|) % 0x1_0000, 2)
    + [0x80, (if p.marker then 0x80 else 0) + p.kind % 0x80]
    + BE(p.seqNo, 2) + BE(p.ts, 4) + BE(p.ssrc, 4) + p.payload
  }

  function Wire(ps: seq<Packet>): seq<byte> { if ps == [] then [] else PacketBytes(ps[0]) + Wire(ps[1..]) }

  datatype Parsed = Bad | Good(packet: Packet, rest: seq<byte>)

  /** One interleaved unit holding an RTP packet with the plain 12-byte header of RFC 3550. */
  function ParseOne(b: seq<byte>): Parsed {
    if |b| < 4 || b[0] != DOLLAR then Bad
    else
      var len := FromBE(b[2..4]);
      if len < RTP_HEADER || |b| < 4 + len || b[4] != 0x80 then Bad
      else
        FromBEFits(b[6..8], 2); FromBEFits(b[8..12], 4); FromBEFits(b[12..16], 4);
        Good(Packet(b[1], b[5] / 0x80 == 1, b[5] % 0x80, FromBE(b[6..8]), FromBE(b[8..12]), FromBE(b[12..16]), b[16..4 + len]),
             b[4 + len..])
  }

  lemma {:induction false} FromBEBound(s: seq<byte>)
    ensures FromBE(s) < Pow256(|s|)
  {
    if s != [] {
      FromBEBound(s[..|s| - 1]);
      assert FromBE(s) == 256 * FromBE(s[..|s| - 1]) + s[|s| - 1];
      assert Pow256(|s|) == 256 * Pow256(|s| - 1);
    }
  }

  lemma FromBEFits(s: seq<byte>, k: nat)
    requires |s| == k && (k == 2 || k == 4)
    ensures FromBE(s) < if k == 2 then 0x1_0000 else 0x1_0000_0000
  {
    FromBEBound(s);
    Pow256Values();
  }

  /** All packets of a byte stream, up to the first thing that is none. */
  function Parse(b: seq<byte>): seq<Packet>
    decreases |b|
  {
    match ParseOne(b)
    case Bad => []
    case Good(p, rest) => [p] + Parse(rest)
  }

  /** The packets the server sends: payload that fits, a payload type of seven bits. */
  predicate Sent(p: Packet) { |p.payload| <= MAX_PAYLOAD && p.kind < 0x80 }

  lemma PacketParts(p: Packet, rest: seq<byte>)
    requires Sent(p)
    ensures var b, n := PacketBytes(p) + rest, RTP_HEADER + |p.payload|;
      && |b| >= 4 + n && b[0] == DOLLAR && b[1] == p.channel && b[2..4] == BE(n, 2) && b[4] == 0x80
      && b[5] == (if p.marker then 0x80 else 0) + p.kind
      && b[6..8] == BE(p.seqNo, 2) && b[8..12] == BE(p.ts, 4) && b[12..16] == BE(p.ssrc, 4)
      && b[16..4 + n] == p.payload && b[4 + n..] == rest
  {
    var n := RTP_HEADER + |p.payload|;
    var x, y, z, w := BE(n, 2), BE(p.seqNo, 2), BE(p.ts, 4), BE(p.ssrc, 4);
    var head := [DOLLAR, p.channel] + x + [0x80, (if p.marker then 0x80 else 0) + p.kind];
    var b := head + y + z + w + p.payload + rest;
    assert PacketBytes(p) + rest == b;
    assert b[..6] == head && head[2..4] == x && head[4] == 0x80;
    assert b[2..4] == head[2..4] && b[6..8] == y && b[8..12] == z && b[12..16] == w;
    assert b[16..4 + n] == p.payload && b[4 + n..] == rest;
  }

  /** A packet is read back as it was written. */
  lemma PacketReadsBack(p: Packet, rest: seq<byte>)
    requires Sent(p)
    ensures ParseOne(PacketBytes(p) + rest) == Good(p, rest)
  {
    hide PacketBytes;
    PacketParts(p, rest);
    Pow256Values();
    BEFits(RTP_HEADER + |p.payload|, 2);
    BEFits(p.seqNo, 2); BEFits(p.ts, 4); BEFits(p.ssrc, 4);
    MarkerBits(p.kind, p.marker);
  }

  lemma MarkerBits(kind: nat, marker: bool)
    requires kind < 0x80
    ensures var b := (if marker then 0x80 else 0) + kind; (b / 0x80 == 1 <==> marker) && b % 0x80 == kind
  {
  }

  lemma {:induction false} WireReadsBack(ps: seq<Packet>)
    requires forall i :: 0 <= i < |ps| ==> Sent(ps[i])
    ensures Parse(Wire(ps)) == ps
    decreases |ps|
  {
    hide PacketBytes, ParseOne;
    if ps == [] {
      NothingParses();
    } else {
      PacketReadsBack(ps[0], Wire(ps[1..]));
      WireReadsBack(ps[1..]);
    }
  }

  lemma NothingParses()
    ensures ParseOne([]).Bad?
  {
  }

  // ---- the packets of an access unit ----

  ghost predicate AllSendable(c: Codec, nals: seq<Nal>) { forall i :: 0 <= i < |nals| ==> Sendable(c, nals[i]) }

  /** Packet `i` of an access unit with `n` packets. */
  function AuPacket(s: Sender, ts: u32, i: nat, n: nat, payload: Payload): Packet {
    Packet(s.channel, i == n - 1, VIDEO_PT, (s.seqNo + i) % 0x1_0000, ts, s.ssrc, payload)
  }

  lemma AuPacketLater(s: Sender, ts: u32, k: nat, i: nat, n: nat, payload: Payload)
    ensures AuPacket(Skip(s, k), ts, i, n, payload) == AuPacket(s, ts, k + i, k + n, payload)
  {
    assert ((s.seqNo + k) % 0x1_0000 + i) % 0x1_0000 == (s.seqNo + k + i) % 0x1_0000;
  }

  lemma FirstNal(s: Sender, c: Codec, nals: seq<Nal>, ts: u32, i: nat)
    requires nals != [] && i < |NalPayloads(c, nals[0])| && (|nals| > 1 ==> |AuPackets(s, c, nals, ts)| > |NalPayloads(c, nals[0])|)
    ensures AuPackets(s, c, nals, ts)[i] == AuPacket(s, ts, i, |AuPackets(s, c, nals, ts)|, NalPayloads(c, nals[0])[i])
  {
    hide NalPayloads;
    assert |nals| == 1 ==> nals[1..] == [];
  }

  /** Payload by payload, with consecutive sequence numbers, one timestamp, and the marker on the
      last packet only. */
  lemma {:induction false} AuShape(s: Sender, c: Codec, nals: seq<Nal>, ts: u32)
    requires AllSendable(c, nals)
    ensures var ps, all := AuPackets(s, c, nals, ts), AllPayloads(c, nals);
      && |ps| == |all| && (nals != [] ==> ps != [])
      && forall i :: 0 <= i < |ps| ==> ps[i] == AuPacket(s, ts, i, |ps|, all[i]) && 0 < |all[i]| <= MAX_PAYLOAD
    decreases |nals|
  {
    hide NalPayloads;
    if nals != [] {
      var first := NalPayloads(c, nals[0]);
      NalShape(c, nals[0]);
      AuShape(Skip(s, |first|), c, nals[1..], ts);
      var ps, all := AuPackets(s, c, nals, ts), AllPayloads(c, nals);
      var rest := AuPackets(Skip(s, |first|), c, nals[1..], ts);
      forall i | 0 <= i < |ps|
        ensures ps[i] == AuPacket(s, ts, i, |ps|, all[i]) && 0 < |all[i]| <= MAX_PAYLOAD
      {
        if i < |first| {
          FirstNal(s, c, nals, ts, i);
        } else {
          AuPacketLater(s, ts, |first|, i - |first|, |rest|, all[i]);
        }
      }
    }
  }

  lemma {:induction false} PayloadsArrive(c: Codec, nals: seq<Nal>, r: Receiver)
    requires AllSendable(c, nals)
    ensures ReceiveAll(c, r, AllPayloads(c, nals)).nals == r.nals + nals
    decreases |nals|
  {
    hide NalPayloads, Receive;
    if nals == [] {
      assert r.nals + nals == r.nals;
    } else {
      NalArrives(c, nals[0], r);
      ReceiveMore(c, r, NalPayloads(c, nals[0]), AllPayloads(c, nals[1..]));
      PayloadsArrive(c, nals[1..], Receiver(r.nals + [nals[0]], [], false));
      assert r.nals + [nals[0]] + nals[1..] == r.nals + nals;
    }
  }

  lemma {:induction false} ReceiveMore(c: Codec, r: Receiver, a: seq<Payload>, b: seq<Payload>)
    ensures ReceiveAll(c, r, a + b) == ReceiveAll(c, ReceiveAll(c, r, a), b)
    decreases |a|
  {
    hide Receive;
    if a == [] {
      assert a + b == b;
    } else {
      assert (a + b)[0] == a[0] && (a + b)[1..] == a[1..] + b;
      ReceiveMore(c, Receive(c, r, a[0]), a[1..], b);
    }
  }

  /** The payloads of packets, in order. */
  function PayloadsOf(ps: seq<Packet>): (r: seq<Payload>)
    ensures |r| == |ps|
  {
    seq(|ps|, i requires 0 <= i < |ps| => ps[i].payload)
  }

  /** The bytes that go out for a frame. */
  function FrameBytes(s: Sender, c: Codec, data: seq<byte>, ms: u64): seq<byte> {
    if data == [] then [] else Wire(AuPackets(s, c, NalsOf(data), Stamp(s, ms).0))
  }

  /** A client that reads the bytes of a frame gets the frame's NAL units, from a receiver in any
      state and for start codes of either length. */
  lemma FrameArrives(s: Sender, c: Codec, nals: seq<Nal>, long: seq<bool>, ms: u64, r: Receiver)
    requires 0 < |nals| <= 64 && |long| == |nals| && AllSendable(c, nals)
    requires forall i :: 0 <= i < |nals| ==> WellFormed(nals[i])
    ensures ReceiveAll(c, r, PayloadsOf(Parse(FrameBytes(s, c, Join(nals, long), ms)))).nals == r.nals + nals
  {
    hide Join, NalsOf, AuPackets, AllPayloads, PacketBytes, NalPayloads, Receive;
    JoinNotEmpty(nals, long);
    SplitJoin(nals, long);
    var ts := Stamp(s, ms).0;
    var ps := AuPackets(s, c, nals, ts);
    AuShape(s, c, nals, ts);
    WireReadsBack(ps);
    assert PayloadsOf(ps) == AllPayloads(c, nals);
    PayloadsArrive(c, nals, r);
  }

  lemma JoinNotEmpty(nals: seq<Nal>, long: seq<bool>)
    requires nals != [] && |long| == |nals|
    ensures Join(nals, long) != []
  {
    assert |StartCode(long[0])| > 0;
  }
}
