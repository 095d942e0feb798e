/** The sending side of an RTSP connection: fixed buffers, fragment loops and the running
    sequence number. */
module RtpSender {
  import opened Bytes
  import opened Rtp
  import opened RtpStream

  // ---- start codes ----

  /** The first start code from `from` on, and its length. */
  method FindStartCode(d: seq<byte>, from: nat) returns (pos: nat, sc: nat)
    ensures pos == FindCode(d, from) && (pos < |d| ==> sc == CodeLength(d, pos)) && 3 <= sc <= 4
  {
    var i := from;
    while i + 3 <= |d|
      invariant from <= i && FindCode(d, i) == FindCode(d, from)
    {
      if d[i] == 0 && d[i + 1] == 0 && d[i + 2] == 1 {
        return i, 3;
      }
      if i + 4 <= |d| && d[i] == 0 && d[i + 1] == 0 && d[i + 2] == 0 && d[i + 3] == 1 {
        return i, 4;
      }
      i := i + 1;
    }
    return |d|, 3;
  }

  /** Where the start codes are, from the one at `i` on. */
  function Codes(d: seq<byte>, i: nat, room: nat): seq<nat>
    requires i < |d| && (Code3At(d, i) || Code4At(d, i)) && room > 0
    decreases room
  {
    var next := FindCode(d, i + CodeLength(d, i) + 1);
    [i] + if next >= |d| || room == 1 then [] else Codes(d, next, room - 1)
  }

  /** NAL unit `k` lies between start code `k`, of length `lengths[k]`, and the next one or the end. */
  predicate Cut(d: seq<byte>, starts: seq<nat>, lengths: seq<nat>, k: nat, nal: Nal) {
    && k < |starts| == |lengths|
    && starts[k] + lengths[k] <= (if k + 1 < |starts| then starts[k + 1] else |d|) <= |d|
    && nal == d[starts[k] + lengths[k]..if k + 1 < |starts| then starts[k + 1] else |d|]
  }

  function Lengths(d: seq<byte>, starts: seq<nat>): (r: seq<nat>)
    ensures |r| == |starts|
  {
    seq(|starts|, k requires 0 <= k < |starts| => CodeLength(d, starts[k]))
  }

  lemma {:induction false} NalsBetween(d: seq<byte>, i: nat, room: nat)
    requires i < |d| && (Code3At(d, i) || Code4At(d, i)) && room > 0
    ensures var cs, nals := Codes(d, i, room), NalsFrom(d, i, room);
      |nals| == |cs| && cs[0] == i && forall k :: 0 <= k < |cs| ==> Cut(d, cs, Lengths(d, cs), k, nals[k])
    decreases room
  {
    hide Code3At, Code4At, CodeLength, FindCode;
    CodeEnds(d, i);
    var next := FindCode(d, i + CodeLength(d, i) + 1);
    var cs, nals := Codes(d, i, room), NalsFrom(d, i, room);
    if next < |d| && room > 1 {
      NalsBetween(d, next, room - 1);
      var later, rest := Codes(d, next, room - 1), NalsFrom(d, next, room - 1);
      NextIsLater(d, i + CodeLength(d, i) + 1);
      forall k | 0 <= k < |cs|
        ensures Cut(d, cs, Lengths(d, cs), k, nals[k])
      {
        if k > 0 {
          CutLater(d, i, later, k - 1, rest[k - 1]);
        }
      }
    }
  }

  lemma CutLater(d: seq<byte>, i: nat, later: seq<nat>, k: nat, nal: Nal)
    requires Cut(d, later, Lengths(d, later), k, nal)
    ensures Cut(d, [i] + later, Lengths(d, [i] + later), k + 1, nal)
  {
    hide CodeLength;
  }

  lemma NextIsLater(d: seq<byte>, from: nat)
    ensures FindCode(d, from) == |d| || from <= FindCode(d, from)
  {
  }

  lemma CodeEnds(d: seq<byte>, i: nat)
    requires Code3At(d, i) || Code4At(d, i)
    ensures i + CodeLength(d, i) <= |d|
  {
  }

  // ---- lists of packets ----

  lemma {:induction false} WireMore(a: seq<Packet>, b: seq<Packet>)
    ensures Wire(a + b) == Wire(a) + Wire(b)
    decreases |a|
  {
    hide PacketBytes;
    if a == [] {
      assert a + b == b;
    } else {
      assert (a + b)[0] == a[0] && (a + b)[1..] == a[1..] + b;
      WireMore(a[1..], b);
    }
  }

  lemma WireOne(p: Packet)
    ensures Wire([p]) == PacketBytes(p)
  {
    hide PacketBytes;
    assert [p][1..] == [];
  }

  class Conn {
    var channel: int
    var seqNo: u16
    const ssrc: u32
    var ts: u32
    var out: seq<byte>   // everything written to the socket

    ghost function Value(): Sender
      reads this
    {
      Sender(channel % 0x100, seqNo, ssrc, ts)
    }

    constructor (ssrc: u32, channel: int)
      ensures Value() == Sender(channel % 0x100, 0, ssrc, 0) && out == []
    {
      this.ssrc, this.channel, seqNo, ts, out := ssrc, channel, 0, 0, [];
    }

    /** One packet; one with too long a payload is not sent. */
    method SendRtp(marker: bool, kind: byte, stamp: u32, payload: seq<byte>) returns (rc: int)
      requires kind < 0x80
      modifies `seqNo, `out
      ensures |payload| > MAX_PAYLOAD ==> rc == -1 && Value() == old(Value()) && out == old(out)
      ensures |payload| <= MAX_PAYLOAD ==>
        && rc == 0 && Value() == Skip(old(Value()), 1)
        && out == old(out) + PacketBytes(Packet(old(Value()).channel, marker, kind, old(seqNo), stamp, ssrc, payload))
    {
      if |payload| > MAX_PAYLOAD {
        return -1;
      }
      var len := RTP_HEADER + |payload|;
      var pkt := new byte[4 + RTP_HEADER + MAX_PAYLOAD + 8];
      pkt[0], pkt[1], pkt[2], pkt[3] := DOLLAR, channel % 0x100, len / 0x100 % 0x100, len % 0x100;
      FillHeader(pkt, marker, kind, stamp);
      forall i | 0 <= i < |payload| {
        pkt[16 + i] := payload[i];
      }
      ghost var p := Packet(channel % 0x100, marker, kind, seqNo, stamp, ssrc, payload);
      assert pkt[..16 + |payload|] == PacketBytes(p) by {
        assert pkt[..16 + |payload|] == pkt[..4] + pkt[4..16] + pkt[16..16 + |payload|];
        assert pkt[16..16 + |payload|] == payload;
        HeadBytes(p, pkt[..4], pkt[4..16]);
      }
      out := out + pkt[..16 + |payload|];
      seqNo := (seqNo + 1) % 0x1_0000;
      rc := 0;
    }

    /** The RTP header behind the four bytes of the interleaved frame. */
    method FillHeader(pkt: array<byte>, marker: bool, kind: byte, stamp: u32)
      requires kind < 0x80 && pkt.Length >= 16
      modifies pkt
      ensures pkt[..4] == old(pkt[..4]) && forall i :: 16 <= i < pkt.Length ==> pkt[i] == old(pkt[i])
      ensures pkt[4..16] == [0x80, (if marker then 0x80 else 0) + kind] + BE(seqNo, 2) + BE(stamp, 4) + BE(ssrc, 4)
    {
      BE2(seqNo); BE4(stamp); BE4(ssrc);
      pkt[4], pkt[5] := 0x80, (if marker then 0x80 else 0) + kind;
      pkt[6], pkt[7] := seqNo / 0x100 % 0x100, seqNo % 0x100;
      pkt[8], pkt[9], pkt[10], pkt[11] := stamp / 0x100_0000 % 0x100, stamp / 0x1_0000 % 0x100, stamp / 0x100 % 0x100, stamp % 0x100;
      pkt[12], pkt[13], pkt[14], pkt[15] := ssrc / 0x100_0000 % 0x100, ssrc / 0x1_0000 % 0x100, ssrc / 0x100 % 0x100, ssrc % 0x100;
      TwelveBytes(pkt[4..16]);
    }

    /** One NAL unit, whole or in fragments. */
    method SendNal(c: Codec, nal: Nal, stamp: u32, last: bool)
      modifies `seqNo, `out
      ensures var ps := NalPayloads(c, nal);
        && Value() == Skip(old(Value()), |ps|) && out == old(out) + Wire(NalPackets(old(Value()), stamp, ps, last))
    {
      hide PacketBytes, Fragments;
      if |nal| == 0 {
        return;
      }
      if |nal| <= MAX_PAYLOAD {
        var rc := SendRtp(last, VIDEO_PT, stamp, nal);
        assert NalPackets(old(Value()), stamp, [nal], last) == [Packet(old(Value()).channel, last, VIDEO_PT, old(seqNo), stamp, ssrc, nal)];
        WireOne(Packet(old(Value()).channel, last, VIDEO_PT, old(seqNo), stamp, ssrc, nal));
        return;
      }
      SendFragments(c, nal, stamp, last);
    }

    method SendFragments(c: Codec, nal: Nal, stamp: u32, last: bool)
      requires |nal| > MAX_PAYLOAD
      modifies `seqNo, `out
      ensures var ps := Fragments(c, nal, NalHeader(c));
        && Value() == Skip(old(Value()), |ps|) && out == old(out) + Wire(NalPackets(old(Value()), stamp, ps, last))
    {
      hide PacketBytes, FuHeader, Fragments, NalPackets, Skip, Wire;
      ghost var s, all, was := Value(), Fragments(c, nal, NalHeader(c)), out;
      ghost var done: seq<Payload> := [];
      var off, first := NalHeader(c), true;
      FirstFragment(s, stamp, all, last);
      while off < |nal|
        invariant NalHeader(c) <= off <= |nal| && first == (off == NalHeader(c))
        invariant done + Fragments(c, nal, off) == all && Value() == Skip(s, |done|)
        invariant out == was + Wire(NalPackets(s, stamp, all, last)[..|done|])
      {
        var n := if |nal| - off > FuRoom(c) then FuRoom(c) else |nal| - off;
        var end := n == |nal| - off;
        FragmentsStep(c, nal, off, done);
        var buf := FillFragment(c, nal, off, n, first, end);
        var rc := SendRtp(last && end, VIDEO_PT, stamp, buf);
        NextPacket(s, stamp, all, last, |done|);
        off, first, done := off + n, false, done + [buf];
      }
      FragmentsEnd(c, nal, off);
      assert done == all;
      assert NalPackets(s, stamp, all, last)[..|all|] == NalPackets(s, stamp, all, last);
    }

    /** The fragment as it is put together in the buffer. */
    method FillFragment(c: Codec, nal: Nal, off: nat, n: nat, first: bool, end: bool) returns (data: seq<byte>)
      requires |nal| >= NalHeader(c) && off + n <= |nal| && n <= FuRoom(c)
      ensures data == FuHeader(c, nal, first, end) + nal[off..off + n] && |data| <= MAX_PAYLOAD
    {
      var buf := new byte[MAX_PAYLOAD];
      var header := FuHeader(c, nal, first, end);
      var h := NalHeader(c) + 1;
      forall i | 0 <= i < h {
        buf[i] := header[i];
      }
      forall i | 0 <= i < n {
        buf[h + i] := nal[off + i];
      }
      assert buf[..h] == header && buf[h..h + n] == nal[off..off + n];
      assert buf[..h + n] == buf[..h] + buf[h..h + n];
      data := buf[..h + n];
    }

    /** The frame's timestamp; a frame without a time moves the connection's own clock on. */
    method TakeStamp(ms: u64) returns (stamp: u32)
      modifies `ts
      ensures (stamp, Value()) == Stamp(old(Value()), ms)
    {
      if ms != 0 {
        stamp := ms * 90 % 0x1_0000_0000_0000_0000 % 0x1_0000_0000;
      } else {
        ts := U32(ts + 3000);
        stamp := ts;
      }
    }

    /** A whole frame; beyond 64 start codes the rest stays in the last NAL unit. */
    method SendAccessUnit(c: Codec, d: seq<byte>, ms: u64)
      modifies `seqNo, `ts, `out
      ensures out == old(out) + FrameBytes(old(Value()), c, d, ms)
      ensures d != [] ==> Value() == Skip(Stamp(old(Value()), ms).1, |AuPackets(old(Value()), c, NalsOf(d), Stamp(old(Value()), ms).0)|)
      ensures d == [] ==> Value() == old(Value())
    {
      hide Code3At, Code4At, FindCode, PacketBytes, NalPayloads, NalsFrom, Wire, AuPackets, Skip, Stamp, Codes, Lengths;
      if |d| == 0 {
        assert out + [] == out;
        return;
      }
      ghost var s0 := Value();
      var stamp := TakeStamp(ms);
      StampOnlyTs(s0, ms);
      AuIgnoresTs(s0, Value(), c, NalsOf(d), stamp);
      var pos, sc := FindStartCode(d, 0);
      if pos >= |d| {
        assert Cut(d, [0], [0], 0, d);
        SendNals(c, d, [d], stamp, [0], [0]);
      } else {
        SendCut(c, d, stamp, pos, sc);
      }
    }

    method SendCut(c: Codec, d: seq<byte>, stamp: u32, pos: nat, sc: nat)
      requires pos < |d| && (Code3At(d, pos) || Code4At(d, pos)) && sc == CodeLength(d, pos)
      modifies `seqNo, `out
      ensures var ps := AuPackets(old(Value()), c, NalsFrom(d, pos, MAX_NALS), stamp);
        out == old(out) + Wire(ps) && Value() == Skip(old(Value()), |ps|)
    {
      hide Code3At, Code4At, FindCode, PacketBytes, NalPayloads, NalsFrom, Wire, AuPackets, Skip, Codes, Cut;
      NalsBetween(d, pos, MAX_NALS);
      var starts, lengths, count := CollectCodes(d, pos, sc);
      SendNals(c, d, NalsFrom(d, pos, MAX_NALS), stamp, starts[..count], lengths[..count]);
    }

    /** The places and lengths of up to 64 start codes. */
    method CollectCodes(d: seq<byte>, first: nat, firstSc: nat) returns (starts: array<nat>, lengths: array<nat>, count: nat)
      requires first < |d| && (Code3At(d, first) || Code4At(d, first)) && firstSc == CodeLength(d, first)
      ensures fresh(starts) && fresh(lengths) && starts.Length == lengths.Length == MAX_NALS && count <= MAX_NALS
      ensures starts[..count] == Codes(d, first, MAX_NALS) && lengths[..count] == Lengths(d, starts[..count])
    {
      hide Code3At, Code4At, FindCode, CodeLength, Codes;
      starts, lengths := new nat[MAX_NALS], new nat[MAX_NALS];
      count := 0;
      var pos, sc := first, firstSc;
      ghost var all := Codes(d, first, MAX_NALS);
      assert starts[..0] + all == all;
      while pos < |d| && count < MAX_NALS
        invariant pos <= |d| && count <= MAX_NALS
        invariant pos < |d| ==> (Code3At(d, pos) || Code4At(d, pos)) && sc == CodeLength(d, pos)
        invariant starts[..count] + MoreCodes(d, pos, MAX_NALS - count) == all
        invariant lengths[..count] == Lengths(d, starts[..count])
      {
        ghost var before, lens := starts[..count], lengths[..count];
        starts[count], lengths[count] := pos, sc;
        assert starts[..count + 1] == before + [pos] && lengths[..count + 1] == lens + [sc];
        CodesStep(d, pos, MAX_NALS - count, before);
        count := count + 1;
        pos, sc := FindNext(d, pos + sc + 1);
      }
      assert starts[..count] + [] == starts[..count];
    }

    /** The NAL units one by one, the last with the marker. */
    method SendNals(c: Codec, d: seq<byte>, ghost nals: seq<Nal>, stamp: u32, starts: seq<nat>, lengths: seq<nat>)
      requires |nals| == |starts| == |lengths| && forall k :: 0 <= k < |nals| ==> Cut(d, starts, lengths, k, nals[k])
      modifies `seqNo, `out
      ensures var ps := AuPackets(old(Value()), c, nals, stamp);
        out == old(out) + Wire(ps) && Value() == Skip(old(Value()), |ps|)
    {
      hide PacketBytes, NalPayloads, Wire, AuPackets, NalPackets, Skip;
      ghost var s, all, was := Value(), AuPackets(Value(), c, nals, stamp), out;
      ghost var done: seq<Packet> := [];
      WireNothing();
      SkipNothing(s);
      var k := 0;
      assert nals[0..] == nals && done + all == all;
      while k < |starts|
        invariant 0 <= k <= |starts| && done + AuPackets(Skip(s, |done|), c, nals[k..], stamp) == all
        invariant Value() == Skip(s, |done|) && out == was + Wire(done)
      {
        assert Cut(d, starts, lengths, k, nals[k]);
        var to := if k + 1 < |starts| then starts[k + 1] else |d|;
        ghost var more := NalPackets(Value(), stamp, NalPayloads(c, nals[k]), k + 1 == |starts|);
        SendNal(c, d[starts[k] + lengths[k]..to], stamp, k + 1 == |starts|);
        AuStep(s, c, nals, k, stamp, done, more, was);
        done, k := done + more, k + 1;
      }
      AuEnds(Skip(s, |done|), c, nals[k..], stamp);
      assert done == all;
    }
  }

  /** The next start code to collect, if any. */
  method FindNext(d: seq<byte>, from: nat) returns (pos: nat, sc: nat)
    ensures pos == FindCode(d, from) && pos <= |d|
    ensures pos < |d| ==> (Code3At(d, pos) || Code4At(d, pos)) && sc == CodeLength(d, pos)
  {
    pos, sc := FindStartCode(d, from);
  }

  function MoreCodes(d: seq<byte>, pos: nat, room: nat): seq<nat>
    requires pos < |d| ==> Code3At(d, pos) || Code4At(d, pos)
  {
    if pos < |d| && room > 0 then Codes(d, pos, room) else []
  }

  // ---- steps of the loops ----

  lemma HeadBytes(p: Packet, frame: seq<byte>, header: seq<byte>)
    requires p.kind < 0x80
    requires frame == [DOLLAR, p.channel, (RTP_HEADER + |p.payload|) / 0x100 % 0x100, (RTP_HEADER + |p.payload|) % 0x100]
    requires |p.payload| <= MAX_PAYLOAD
    requires header == [0x80, (if p.marker then 0x80 else 0) + p.kind] + BE(p.seqNo, 2) + BE(p.ts, 4) + BE(p.ssrc, 4)
    ensures frame + header + p.payload == PacketBytes(p)
  {
    hide BE;
    BE2(RTP_HEADER + |p.payload|);
    var x, y := BE((RTP_HEADER + |p.payload|) % 0x1_0000, 2), [0x80, (if p.marker then 0x80 else 0) + p.kind];
    assert frame == [DOLLAR, p.channel] + x;
    var t := BE(p.seqNo, 2) + BE(p.ts, 4) + BE(p.ssrc, 4);
    assert header == y + t;
    assert frame + header + p.payload == [DOLLAR, p.channel] + x + y + BE(p.seqNo, 2) + BE(p.ts, 4) + BE(p.ssrc, 4) + p.payload;
  }

  lemma TwelveBytes(s: seq<byte>)
    requires |s| == 12
    ensures s == [s[0], s[1]] + [s[2], s[3]] + [s[4], s[5], s[6], s[7]] + [s[8], s[9], s[10], s[11]]
  {
  }

  lemma WireNothing()
    ensures Wire([]) == []
  {
  }

  lemma SkipTwice(s: Sender, a: nat, b: nat)
    ensures Skip(Skip(s, a), b) == Skip(s, a + b)
  {
    assert ((s.seqNo + a) % 0x1_0000 + b) % 0x1_0000 == (s.seqNo + a + b) % 0x1_0000;
  }

  lemma FirstFragment(s: Sender, ts: u32, all: seq<Payload>, last: bool)
    ensures [] + all == all && Skip(s, 0) == s && Wire(NalPackets(s, ts, all, last)[..0]) == []
  {
  }

  lemma NextPacket(s: Sender, ts: u32, all: seq<Payload>, last: bool, k: nat)
    requires k < |all|
    ensures var ps, now := NalPackets(s, ts, all, last), Skip(s, k);
      && ps[k] == Packet(now.channel, last && k == |all| - 1, VIDEO_PT, now.seqNo, ts, now.ssrc, all[k])
      && Wire(ps[..k + 1]) == Wire(ps[..k]) + PacketBytes(ps[k])
      && Skip(now, 1) == Skip(s, k + 1)
  {
    hide PacketBytes, Wire;
    var ps := NalPackets(s, ts, all, last);
    assert ps[..k + 1] == ps[..k] + [ps[k]];
    WireMore(ps[..k], [ps[k]]);
    WireOne(ps[k]);
    SkipTwice(s, k, 1);
  }

  lemma FragmentsStep(c: Codec, nal: Nal, off: nat, done: seq<Payload>)
    requires |nal| >= NalHeader(c) && off < |nal|
    ensures var n := if |nal| - off > FuRoom(c) then FuRoom(c) else |nal| - off;
      var p := FuHeader(c, nal, off == NalHeader(c), off + n == |nal|) + nal[off..off + n];
      var all := done + Fragments(c, nal, off);
      && all == done + [p] + Fragments(c, nal, off + n) && |all| > |done| && all[|done|] == p
      && (off + n == |nal| <==> |done| == |all| - 1)
  {
    hide FuHeader;
    var n := if |nal| - off > FuRoom(c) then FuRoom(c) else |nal| - off;
    assert Fragments(c, nal, off + n) == [] <==> off + n >= |nal|;
  }

  lemma FragmentsEnd(c: Codec, nal: Nal, off: nat)
    requires |nal| >= NalHeader(c) && off >= |nal|
    ensures Fragments(c, nal, off) == []
  {
  }

  lemma CodesStep(d: seq<byte>, i: nat, room: nat, before: seq<nat>)
    requires i < |d| && (Code3At(d, i) || Code4At(d, i)) && room > 0
    ensures before + MoreCodes(d, i, room) == before + [i] + MoreCodes(d, FindCode(d, i + CodeLength(d, i) + 1), room - 1)
  {
    hide Code3At, Code4At, CodeLength, FindCode;
  }

  lemma StampOnlyTs(s: Sender, ms: u64)
    ensures Stamp(s, ms).1 == s.(ts := Stamp(s, ms).1.ts)
  {
  }

  lemma SkipNothing(s: Sender)
    ensures Skip(s, 0) == s
  {
  }

  lemma AuEnds(s: Sender, c: Codec, nals: seq<Nal>, stamp: u32)
    requires nals == []
    ensures AuPackets(s, c, nals, stamp) == []
  {
  }

  /** One more NAL unit sent. */
  lemma AuStep(s: Sender, c: Codec, nals: seq<Nal>, k: nat, stamp: u32, done: seq<Packet>, more: seq<Packet>, was: seq<byte>)
    requires k < |nals| && more == NalPackets(Skip(s, |done|), stamp, NalPayloads(c, nals[k]), k + 1 == |nals|)
    ensures done + AuPackets(Skip(s, |done|), c, nals[k..], stamp)
         == (done + more) + AuPackets(Skip(s, |done + more|), c, nals[k + 1..], stamp)
    ensures was + Wire(done) + Wire(more) == was + Wire(done + more)
    ensures Skip(Skip(s, |done|), |NalPayloads(c, nals[k])|) == Skip(s, |done + more|)
  {
    hide NalPayloads, NalPackets, Wire, Skip;
    assert nals[k..][0] == nals[k] && nals[k..][1..] == nals[k + 1..];
    SkipTwice(s, |done|, |more|);
    WireMore(done, more);
    var rest := AuPackets(Skip(s, |done + more|), c, nals[k + 1..], stamp);
    assert AuPackets(Skip(s, |done|), c, nals[k..], stamp) == more + rest;
    assert done + (more + rest) == (done + more) + rest;
  }

  lemma {:induction false} AuIgnoresTs(s: Sender, t: Sender, c: Codec, nals: seq<Nal>, stamp: u32)
    requires t == s.(ts := t.ts)
    ensures AuPackets(t, c, nals, stamp) == AuPackets(s, c, nals, stamp)
    decreases |nals|
  {
    hide NalPayloads;
    if nals != [] {
      var ps := NalPayloads(c, nals[0]);
      AuIgnoresTs(Skip(s, |ps|), Skip(t, |ps|), c, nals[1..], stamp);
      assert NalPackets(t, stamp, ps, |nals| == 1) == NalPackets(s, stamp, ps, |nals| == 1);
    }
  }
}
