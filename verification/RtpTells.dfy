/** A video frame as a client finds it on the connection, read byte by byte as section 10.12 of RFC 2326 and
    section 5.1 of RFC 3550 lay it out. */
module RtpTells {
  import opened Bytes
  import opened Rtp
  import opened RtpStream

  /** The packet at the start, and its length in all. */
  datatype Seen = Nothing | Seen(packet: Packet, size: nat)

  function Big(a: nat, b: nat): nat { 256 * a + b }

  /** Dollar sign, channel, two bytes of length; then version 2 and no more, marker and type, sequence number,
      time, source, and the payload. */
  function Look(b: seq<byte>): Seen {
    if |b| < 16 || b[0] != 36 || Big(b[2], b[3]) < 12 || |b| < 4 + Big(b[2], b[3]) || b[4] != 128 then Nothing
    else
      Bounds(b);
      Seen(Packet(b[1], b[5] >= 128, if b[5] >= 128 then b[5] - 128 else b[5], Big(b[6], b[7]),
                  Big(Big(Big(b[8], b[9]), b[10]), b[11]), Big(Big(Big(b[12], b[13]), b[14]), b[15]), b[16..4 + Big(b[2], b[3])]),
           4 + Big(b[2], b[3]))
  }

  lemma Bounds(b: seq<byte>)
    requires |b| >= 16
    ensures Big(b[6], b[7]) < 0x1_0000 && Big(Big(Big(b[8], b[9]), b[10]), b[11]) < 0x1_0000_0000
    ensures Big(Big(Big(b[12], b[13]), b[14]), b[15]) < 0x1_0000_0000
  {
  }

  lemma TwoBytes(n: nat)
    requires n < 0x1_0000
    ensures var s := BE(n, 2); Big(s[0], s[1]) == n
  {
    BE2(n);
  }

  lemma FourBytes(n: nat)
    requires n < 0x1_0000_0000
    ensures var s := BE(n, 4); Big(Big(Big(s[0], s[1]), s[2]), s[3]) == n
  {
    BE4(n);
    assert n / 0x1_0000 == 256 * (n / 0x100_0000) + n / 0x1_0000 % 256;
    assert n / 0x100 == 256 * (n / 0x1_0000) + n / 0x100 % 256;
  }

  /** What is sent is what is seen. */
  lemma PacketSeen(p: Packet, rest: seq<byte>)
    requires |p.payload| <= 1400 && p.kind < 128
    ensures var b := PacketBytes(p) + rest; Look(b) == Seen(p, 16 + |p.payload|) && b[16 + |p.payload|..] == rest
  {
    hide PacketBytes, BE;
    var b, n := PacketBytes(p) + rest, 12 + |p.payload|;
    PacketParts(p, rest);
    TwoBytes(n); TwoBytes(p.seqNo); FourBytes(p.ts); FourBytes(p.ssrc);
    var w, x, y, z := BE(n, 2), BE(p.seqNo, 2), BE(p.ts, 4), BE(p.ssrc, 4);
    assert b[2] == w[0] && b[3] == w[1] by { assert b[2..4][0] == w[0] && b[2..4][1] == w[1]; }
    assert b[6] == x[0] && b[7] == x[1] by { assert b[6..8][0] == x[0] && b[6..8][1] == x[1]; }
    Same4(b, 8, y); Same4(b, 12, z);
  }

  lemma Same4(b: seq<byte>, i: nat, y: seq<byte>)
    requires i + 4 <= |b| && b[i..i + 4] == y
    ensures b[i] == y[0] && b[i + 1] == y[1] && b[i + 2] == y[2] && b[i + 3] == y[3]
  {
    assert b[i..i + 4][0] == b[i] && b[i..i + 4][1] == b[i + 1] && b[i..i + 4][2] == b[i + 2] && b[i..i + 4][3] == b[i + 3];
  }

  /** All packets, one after the other. */
  function LookAll(b: seq<byte>): seq<Packet>
    decreases |b|
  {
    match Look(b)
    case Nothing => []
    case Seen(p, size) => [p] + LookAll(b[size..])
  }

  lemma {:induction false} WireSeen(ps: seq<Packet>)
    requires forall i :: 0 <= i < |ps| ==> |ps[i].payload| <= 1400 && ps[i].kind < 128
    ensures LookAll(Wire(ps)) == ps
    decreases |ps|
  {
    hide PacketBytes, Look;
    if ps == [] {
      NothingSeen();
    } else {
      PacketSeen(ps[0], Wire(ps[1..]));
      WireSeen(ps[1..]);
    }
  }

  lemma NothingSeen()
    ensures Look([]) == Nothing
  {
  }

  /** The packets of a frame: type 96, numbered on from the last, all with the frame's time at 90 kHz or, without
      one, 3000 ticks after the last such, the marker on the last only; of at most 1400 bytes of payload, from which
      a receiver in any state gets the units of the frame. */
  lemma FrameTells(s: Sender, c: Codec, nals: seq<Nal>, long: seq<bool>, ms: u64, r: Receiver)
    requires 0 < |nals| <= 64 && |long| == |nals| && AllSendable(c, nals)
    requires forall i :: 0 <= i < |nals| ==> WellFormed(nals[i])
    ensures var ps := LookAll(FrameBytes(s, c, Join(nals, long), ms));
      && ps != [] && ReceiveAll(c, r, PayloadsOf(ps)).nals == r.nals + nals
      && forall i :: 0 <= i < |ps| ==>
           && ps[i].channel == s.channel && ps[i].kind == 96 && ps[i].seqNo == (s.seqNo + i) % 0x1_0000 && ps[i].ssrc == s.ssrc
           && ps[i].ts == (if ms > 0 then ms * 90 else s.ts + 3000) % 0x1_0000_0000
           && (ps[i].marker <==> i == |ps| - 1) && 0 < |ps[i].payload| <= 1400
  {
    hide Join, NalsOf, AuPackets, AllPayloads, PacketBytes, NalPayloads, Receive, Look;
    JoinNotEmpty(nals, long);
    SplitJoin(nals, long);
    var ts := Stamp(s, ms).0;
    StampIs(s, ms);
    var ps := AuPackets(s, c, nals, ts);
    AuShape(s, c, nals, ts);
    WireSeen(ps);
    assert PayloadsOf(ps) == AllPayloads(c, nals);
    PayloadsArrive(c, nals, r);
  }

  /** A frame without a time moves the connection's own clock, others do not. */
  lemma StampIs(s: Sender, ms: u64)
    ensures Stamp(s, ms).0 == (if ms > 0 then ms * 90 else s.ts + 3000) % 0x1_0000_0000
    ensures Stamp(s, ms).1 == if ms > 0 then s else s.(ts := (s.ts + 3000) % 0x1_0000_0000)
  {
    if ms > 0 {
      var n := ms * 90;
      var q, m := n / 0x1_0000_0000_0000_0000, n % 0x1_0000_0000_0000_0000;
      assert n == 0x1_0000_0000 * (0x1_0000_0000 * q + m / 0x1_0000_0000) + m % 0x1_0000_0000;
      ModUnique(n, 0x1_0000_0000, 0x1_0000_0000 * q + m / 0x1_0000_0000, m % 0x1_0000_0000);
    }
  }
}
