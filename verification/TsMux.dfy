/** The transport stream writer as an object: a growing buffer and one packet at a time. */
module TsMux {
  import opened Bytes
  import opened Ts
  import opened TsRun
  import Crc

  function Least(a: nat, b: nat): (n: nat)
    ensures n <= a && n <= b && (n == a || n == b)
  {
    if a < b then a else b
  }

  /** The four bytes every packet starts with. */
  function Head(start: bool, pid: nat, cc: nat, field: bool): (h: seq<byte>)
    requires pid < 0x2000 && cc < 16
    ensures |h| == 4
  {
    [0x47, (if start then 0x40 else 0) + pid / 0x100, pid % 0x100, (if field then 0x30 else 0x10) + cc]
  }

  lemma PacketIs(p: Packet, head: seq<byte>, field: seq<byte>, payload: seq<byte>)
    requires Whole(p) && head == Head(p.start, p.pid, p.cc, p.field.Field?) && field == FieldBytes(p.field) && payload == p.payload
    ensures head + field + payload == PacketBytes(p)
  {
  }

  method PutHead(pkt: array<byte>, start: bool, pid: nat, cc: nat, field: bool)
    requires pkt.Length == TS_PKT && pid < 0x2000 && cc < 16
    modifies pkt
    ensures pkt[..4] == Head(start, pid, cc, field) && pkt[4..] == old(pkt[4..])
  {
    pkt[0], pkt[1], pkt[2] := 0x47, (if start then 0x40 else 0) + pid / 0x100, pid % 0x100;
    pkt[3] := (if field then 0x30 else 0x10) + cc;
  }

  /** Stuffing of `n` bytes, its length byte first. */
  method PutStuffing(pkt: array<byte>, n: nat)
    requires pkt.Length == TS_PKT && 0 < n <= BODY
    modifies pkt
    ensures pkt[..4] == old(pkt[..4]) && pkt[4..4 + n] == FieldBytes(Stuffing(n)) && pkt[4 + n..] == old(pkt[4 + n..])
  {
    pkt[4] := n - 1;
    if n >= 2 {
      pkt[5] := 0;
    }
    var k := 6;
    while k < 4 + n && k < TS_PKT
      invariant 6 <= k && (k <= 4 + n || k == 6)
      invariant pkt[..4] == old(pkt[..4]) && pkt[4] == n - 1 && (n >= 2 ==> pkt[5] == 0)
      invariant forall i :: 6 <= i < k && i < 4 + n ==> pkt[i] == 0xFF
      invariant forall i :: 4 + n <= i < TS_PKT ==> pkt[i] == old(pkt[i])
    {
      pkt[k] := 0xFF;
      k := k + 1;
    }
    StuffingIs(pkt[4..4 + n], n);
  }

  lemma StuffingIs(s: seq<byte>, n: nat)
    requires 0 < n <= BODY && |s| == n && s[0] == n - 1 && (n >= 2 ==> s[1] == 0) && forall i :: 2 <= i < n ==> s[i] == 0xFF
    ensures s == FieldBytes(Stuffing(n))
  {
    if n == 1 {
      assert s == [0] + [];
    } else {
      assert s == [n - 1] + ([0] + Fill(n - 2));
    }
  }

  /** Flags and clock reference, their length first. */
  method PutPcr(pkt: array<byte>, pts: nat)
    requires pkt.Length == TS_PKT
    modifies pkt
    ensures pkt[..4] == old(pkt[..4]) && pkt[4..12] == FieldBytes(Field(PcrField(pts))) && pkt[12..] == old(pkt[12..])
  {
    pkt[5] := 0x40;
    pkt[5] := pkt[5] + 0x10;
    pkt[6], pkt[7], pkt[8], pkt[9] := pts / 0x200_0000 % 0x100, pts / 0x2_0000 % 0x100, pts / 0x200 % 0x100, pts / 2 % 0x100;
    pkt[10], pkt[11] := pts % 2 * 0x80 + 0x7E, 0;
    pkt[4] := 1 + 6;
    EightBytes(pkt[4..12]);
  }

  lemma EightBytes(s: seq<byte>)
    requires |s| == 8
    ensures s == [s[0]] + [s[1], s[2], s[3], s[4], s[5], s[6], s[7]]
  {
  }

  method Copy(pkt: array<byte>, at: nat, src: seq<byte>, off: nat, n: nat)
    requires at + n <= pkt.Length && off + n <= |src|
    modifies pkt
    ensures pkt[at..at + n] == src[off..off + n] && pkt[..at] == old(pkt[..at]) && pkt[at + n..] == old(pkt[at + n..])
  {
    forall i | 0 <= i < n {
      pkt[at + i] := src[off + i];
    }
  }

  /** Copies from header and data, as much as fits between `at` and the end of the packet. */
  method PutPayload(pkt: array<byte>, at: nat, header: seq<byte>, es: seq<byte>, off0: nat, off1: nat) returns (n0: nat, n1: nat)
    requires pkt.Length == TS_PKT && at <= TS_PKT && off0 <= |header| && off1 <= |es| && (off0 < |header| ==> off1 == 0)
    modifies pkt
    ensures n0 == Least(|header| - off0, TS_PKT - at) && n1 == Least(|es| - off1, TS_PKT - at - n0)
    ensures pkt[..at] == old(pkt[..at]) && pkt[at + n0 + n1..] == old(pkt[at + n0 + n1..])
    ensures pkt[at..at + n0 + n1] == (header + es)[off0 + off1..off0 + off1 + n0 + n1]
  {
    n0 := Least(|header| - off0, TS_PKT - at);
    n1 := Least(|es| - off1, TS_PKT - at - n0);
    Copy(pkt, at, header, off0, n0);
    Copy(pkt, at + n0, es, off1, n1);
    assert pkt[at..at + n0] == pkt[..at + n0][at..];
    PartsAcross(header, es, off0, off1, n0, n1);
    TwoParts(pkt[..], at, n0, n1);
  }

  lemma TwoParts(s: seq<byte>, at: nat, n0: nat, n1: nat)
    requires at + n0 + n1 <= |s|
    ensures s[at..at + n0 + n1] == s[at..at + n0] + s[at + n0..at + n0 + n1]
  {
  }

  lemma PartsAcross(header: seq<byte>, es: seq<byte>, off0: nat, off1: nat, n0: nat, n1: nat)
    requires off0 + n0 <= |header| && off1 + n1 <= |es| && (off0 < |header| ==> off1 == 0) && (n1 > 0 ==> off0 + n0 == |header|)
    ensures header[off0..off0 + n0] + es[off1..off1 + n1] == (header + es)[off0 + off1..off0 + off1 + n0 + n1]
  {
    var l, r := header[off0..off0 + n0] + es[off1..off1 + n1], (header + es)[off0 + off1..off0 + off1 + n0 + n1];
    assert |l| == |r|;
    forall i | 0 <= i < |l|
      ensures l[i] == r[i]
    {
      assert r[i] == (header + es)[off0 + off1 + i];
    }
  }

  /** A packet put together from its parts. */
  lemma Assembled(s: seq<byte>, at: nat, head: seq<byte>, field: seq<byte>, p: Packet)
    requires |s| == TS_PKT && at <= TS_PKT && |head| == 4 && s[..4] == head && at == 4 + |field| && s[4..at] == field
    requires Whole(p) && head == Head(p.start, p.pid, p.cc, p.field.Field?) && field == FieldBytes(p.field) && s[at..] == p.payload
    ensures s == PacketBytes(p)
  {
    PacketIs(p, head, field, s[at..]);
    assert s == s[..4] + s[4..at] + s[at..];
  }

  /** The payload of a packet without a clock: all there is, or as much as fits. */
  lemma PlainPayload(pid: nat, cc: nat, start: bool, data: seq<byte>, off: nat)
    requires off < |data| && pid < 0x2000 && cc < 16
    ensures var p := DataPacket(pid, cc, start, data, off);
      && Whole(p) && p.payload == data[off..off + Least(|data| - off, BODY)] && p.start == start && p.pid == pid && p.cc == cc
      && p.field == if |data| - off < BODY then Stuffing(BODY - (|data| - off)) else NoField
  {
  }

  /** A packet that carries no clock. */
  method PlainPacket(pid: nat, cc: nat, first: bool, header: seq<byte>, es: seq<byte>, off0: nat, off1: nat)
    returns (pkt: array<byte>, n0: nat, n1: nat)
    requires pid < 0x2000 && cc < 16 && off0 <= |header| && off1 <= |es| && (off0 < |header| ==> off1 == 0)
    requires off0 + off1 < |header + es|
    ensures fresh(pkt) && n0 <= |header| - off0 && n1 <= |es| - off1 && (off0 + n0 < |header| ==> n1 == 0)
    ensures n0 + n1 == Least(|header + es| - off0 - off1, BODY)
    ensures var p := DataPacket(pid, cc, first, header + es, off0 + off1); Whole(p) && pkt[..] == PacketBytes(p)
  {
    hide Fill, Stuffing, DataPacket;
    ghost var data, off := header + es, off0 + off1;
    ghost var p := DataPacket(pid, cc, first, data, off);
    PlainPayload(pid, cc, first, data, off);
    var remain := |header| - off0 + (|es| - off1);
    pkt := new byte[TS_PKT](_ => 0xFF);
    var at := 4;
    PutHead(pkt, first, pid, cc, remain < BODY);
    ghost var head := pkt[..4];
    if remain < BODY {
      PutStuffing(pkt, BODY - remain);
      at := 4 + (BODY - remain);
    }
    assert pkt[4..at] == FieldBytes(p.field) && pkt[..4] == head;
    ghost var front := pkt[..at];
    n0, n1 := PutPayload(pkt, at, header, es, off0, off1);
    assert at + n0 + n1 == TS_PKT;
    SameFront(front, pkt[..], at);
    assert pkt[at..] == pkt[at..at + n0 + n1];
    Assembled(pkt[..], at, head, FieldBytes(p.field), p);
  }

  lemma SameFront(front: seq<byte>, s: seq<byte>, at: nat)
    requires 4 <= at <= |s| && s[..at] == front
    ensures s[..4] == front[..4] && s[4..at] == front[4..]
  {
  }

  /** The first packet of a key picture. */
  method ClockPacket(pid: nat, cc: nat, header: seq<byte>, es: seq<byte>, pts: nat) returns (pkt: array<byte>, n0: nat, n1: nat)
    requires pid < 0x2000 && cc < 16
    ensures fresh(pkt) && n0 <= |header| && n1 <= |es| && (n0 < |header| ==> n1 == 0)
    ensures n0 + n1 == Least(|header + es|, PCR_BODY)
    ensures var p := PcrPacket(pid, cc, header + es, pts); Whole(p) && pkt[..] == PacketBytes(p)
  {
    hide PcrField, PacketBytes, Whole, PcrPacket, FieldBytes;
    ghost var data := header + es;
    pkt := new byte[TS_PKT](_ => 0xFF);
    PutHead(pkt, true, pid, cc, true);
    ghost var head := pkt[..4];
    PutPcr(pkt, pts);
    ghost var front := pkt[..12];
    assert front[..4] == head && front[4..] == pkt[4..12];
    assert forall i :: 12 <= i < TS_PKT ==> pkt[i] == pkt[12..][i - 12] == 0xFF;
    n0, n1 := PutPayload(pkt, 12, header, es, 0, 0);
    ghost var n := n0 + n1;
    assert forall i :: 12 + n <= i < TS_PKT ==> pkt[i] == pkt[12 + n..][i - 12 - n] == 0xFF;
    assert pkt[..][..12] == front && pkt[..][12..12 + n] == data[0..n] == data[..n];
    ClockAssembled(pid, cc, data, pts, pkt[..], front, n);
  }

  lemma ClockAssembled(pid: nat, cc: nat, data: seq<byte>, pts: nat, s: seq<byte>, front: seq<byte>, n: nat)
    requires pid < 0x2000 && cc < 16 && |s| == TS_PKT && s[..12] == front && n == Least(|data|, PCR_BODY)
    requires front[..4] == Head(true, pid, cc, true) && front[4..] == FieldBytes(Field(PcrField(pts)))
    requires s[12..12 + n] == data[..n] && forall i :: 12 + n <= i < TS_PKT ==> s[i] == 0xFF
    ensures Whole(PcrPacket(pid, cc, data, pts)) && s == PacketBytes(PcrPacket(pid, cc, data, pts))
  {
    hide PcrField, Fill;
    var p := PcrPacket(pid, cc, data, pts);
    SameFront(front, s, 12);
    var t := s[12..];
    assert t[..n] == s[12..12 + n];
    assert forall i :: n <= i < PCR_BODY ==> t[i] == s[12 + i] == 0xFF;
    ClockPayload(data, t, n);
    Assembled(s, 12, front[..4], FieldBytes(p.field), p);
  }

  lemma ClockPayload(data: seq<byte>, s: seq<byte>, n: nat)
    requires |s| == PCR_BODY && n == Least(|data|, PCR_BODY) && s[..n] == data[..n] && forall i :: n <= i < PCR_BODY ==> s[i] == 0xFF
    ensures s == if |data| < PCR_BODY then data + Fill(PCR_BODY - |data|) else data[..PCR_BODY]
  {
    if |data| < PCR_BODY {
      assert data[..n] == data && s[n..] == Fill(PCR_BODY - n);
      assert s == s[..n] + s[n..];
    } else {
      assert s[..n] == s;
    }
  }

  /** A table in a packet of its own. */
  method MakePsi(pid: nat, cc: nat, section: seq<byte>) returns (data: seq<byte>)
    requires pid < 0x2000 && cc < 16 && |section| <= 179
    ensures Whole(PsiPacket(pid, cc, section)) && data == PacketBytes(PsiPacket(pid, cc, section))
  {
    hide BE, Crc.MpegCrc;
    var crc := Crc.ComputeMpegCrc(section);
    var sec := section + BE(crc, 4);
    var pkt := new byte[TS_PKT](_ => 0xFF);
    PutHead(pkt, true, pid, cc, false);
    ghost var head := pkt[..4];
    assert forall i :: 4 <= i < TS_PKT ==> pkt[i] == pkt[4..][i - 4] == 0xFF;
    pkt[4] := 0;
    ghost var front := pkt[..5];
    assert front[..4] == head && front[4] == 0;
    Copy(pkt, 5, sec, 0, |sec|);
    assert forall i :: 5 + |sec| <= i < TS_PKT ==> pkt[i] == pkt[5 + |sec|..][i - 5 - |sec|] == 0xFF;
    data := pkt[..];
    assert data[..5] == front && data[5..5 + |sec|] == sec[0..|sec|] == sec;
    PsiAssembled(pid, cc, section, data, head);
  }

  lemma PsiAssembled(pid: nat, cc: nat, section: seq<byte>, s: seq<byte>, head: seq<byte>)
    requires pid < 0x2000 && cc < 16 && |section| <= 179 && |s| == TS_PKT && head == Head(true, pid, cc, false)
    requires s[..5][..4] == head && s[4] == 0 && s[5..|section| + 9] == Sealed(section)
    requires forall i :: |section| + 9 <= i < TS_PKT ==> s[i] == 0xFF
    ensures Whole(PsiPacket(pid, cc, section)) && s == PacketBytes(PsiPacket(pid, cc, section))
  {
    hide BE, Crc.MpegCrc, Sealed;
    var t := s[4..];
    SealedSize(section);
    assert t[1..|section| + 5] == s[5..|section| + 9];
    PsiPayload(section, t);
    assert s[..4] == s[..5][..4];
    Assembled(s, 4, head, [], PsiPacket(pid, cc, section));
  }

  lemma SealedSize(section: seq<byte>)
    ensures |Sealed(section)| == |section| + 4
  {
  }

  /** The next packet of a PES, with the clock in the first one of a key picture. */
  method MakePacket(pid: nat, cc: nat, first: bool, clock: bool, header: seq<byte>, es: seq<byte>, off0: nat, off1: nat, pts: nat)
    returns (data: seq<byte>, n0: nat, n1: nat, ghost p: Packet)
    requires pid < 0x2000 && cc < 16 && off0 <= |header| && off1 <= |es| && (off0 < |header| ==> off1 == 0)
    requires off0 + off1 < |header + es| && first == (off0 + off1 == 0)
    ensures p == if first && clock then PcrPacket(pid, cc, header + es, pts) else DataPacket(pid, cc, first, header + es, off0 + off1)
    ensures Whole(p) && data == PacketBytes(p) && n0 <= |header| - off0 && n1 <= |es| - off1 && (off0 + n0 < |header| ==> n1 == 0)
    ensures n0 + n1 == Least(|header + es| - off0 - off1, if first && clock then PCR_BODY else BODY)
  {
    hide PcrPacket, DataPacket, PacketBytes, Whole;
    var pkt: array<byte>;
    if first && clock {
      pkt, n0, n1 := ClockPacket(pid, cc, header, es, pts);
      p := PcrPacket(pid, cc, header + es, pts);
    } else {
      pkt, n0, n1 := PlainPacket(pid, cc, first, header, es, off0, off1);
      p := DataPacket(pid, cc, first, header + es, off0 + off1);
    }
    data := pkt[..];
  }

  class Writer {
    const h265: bool
    var buf: array<byte>
    var len: nat
    var wrotePsi: bool
    var ccPat: nat
    var ccPmt: nat
    var ccV: nat
    var ccA: nat
    ghost var cur: seq<Packet>
    ghost var past: seq<Packet>

    ghost function Value(): Mux
      reads this
    {
      Mux(h265, cur, past, wrotePsi, ccPat, ccPmt, ccV, ccA)
    }

    /** The buffer holds the current slice. */
    ghost predicate Valid()
      reads this, buf
    {
      && len <= buf.Length && (forall i :: 0 <= i < |cur| ==> Whole(cur[i])) && buf[..len] == Stream(cur)
      && ccPat < 16 && ccPmt < 16 && ccV < 16 && ccA < 16
    }

    constructor (h265: bool)
      ensures Valid() && Value() == New(h265) && fresh(buf)
    {
      this.h265, len, wrotePsi := h265, 0, false;
      ccPat, ccPmt, ccV, ccA := 0, 0, 0, 0;
      cur, past := [], [];
      buf := new byte[0];
    }

    /** Makes room for `add` more bytes, doubling the buffer as often as it takes. */
    method Ensure(add: nat)
      requires len <= buf.Length
      modifies `buf
      ensures len + add <= buf.Length && buf[..len] == old(buf[..len]) && (buf == old(buf) || fresh(buf))
    {
      if len + add <= buf.Length {
        return;
      }
      var cap := if buf.Length > 0 then buf.Length * 2 else 65536;
      while cap < len + add
        invariant cap > 0
      {
        cap := cap * 2;
      }
      var grown := new byte[cap](_ => 0);
      forall i | 0 <= i < len {
        grown[i] := buf[i];
      }
      assert grown[..len] == buf[..len];
      buf := grown;
    }

    /** Appends one packet. */
    method Put(pkt: seq<byte>, ghost p: Packet)
      requires Valid() && Whole(p) && pkt == PacketBytes(p)
      modifies `buf, `len, `cur, buf
      ensures Valid() && cur == old(cur) + [p] && (buf == old(buf) || fresh(buf))
    {
      hide PacketBytes, Whole;
      ghost var was := buf[..len];
      Ensure(|pkt|);
      forall i | 0 <= i < |pkt| {
        buf[len + i] := pkt[i];
      }
      assert buf[..len + |pkt|] == was + pkt;
      StreamMore(cur, p);
      len := len + |pkt|;
      cur := cur + [p];
    }

    /** One table in one packet. */
    method EmitPsi(pid: nat, cc: nat, section: seq<byte>) returns (next: nat)
      requires Valid() && pid < 0x2000 && cc < 16 && |section| <= 179
      modifies `buf, `len, `cur, buf
      ensures Valid() && next == (cc + 1) % 16 && cur == old(cur) + [PsiPacket(pid, cc, section)] && (buf == old(buf) || fresh(buf))
    {
      hide PsiPacket, PacketBytes;
      var pkt := MakePsi(pid, cc, section);
      Put(pkt, PsiPacket(pid, cc, section));
      next := (cc + 1) % 16;
    }

    method EnsureTables()
      requires Valid()
      modifies this, buf
      ensures Valid() && Value() == EnsurePsi(old(Value())) && (buf == old(buf) || fresh(buf))
    {
      hide PatSection, PmtSection, PsiPacket;
      if !wrotePsi {
        SectionSizes(h265);
        ccPat := EmitPsi(PID_PAT, ccPat, PatSection());
        ccPmt := EmitPsi(PID_PMT, ccPmt, PmtSection(h265));
        wrotePsi := true;
      }
    }

    /** Header and data of one PES, packet by packet; gives the next counter. */
    method EmitPes(pid: nat, cc: nat, header: seq<byte>, es: seq<byte>, pts: nat, clock: bool) returns (next: nat)
      requires Valid() && pid < 0x2000 && cc < 16 && header != []
      modifies `buf, `len, `cur, buf
      ensures var ps := PesPackets(pid, cc, header + es, clock, pts);
        Valid() && cur == old(cur) + ps && next == (cc + |ps|) % 16 && (buf == old(buf) || fresh(buf))
    {
      hide PacketBytes, Whole, PcrPacket, DataPacket, Stream, PesPackets, DataPackets;
      ghost var data, was := header + es, cur;
      ghost var all, done: seq<Packet> := PesPackets(pid, cc, header + es, clock, pts), [];
      next := cc;
      var first := true;
      var off0: nat, off1: nat := 0, 0;
      while off0 < |header| || off1 < |es|
        invariant off0 <= |header| && off1 <= |es| && (off0 < |header| ==> off1 == 0) && first == (off0 + off1 == 0)
        invariant Valid() && cur == was + done && next == (cc + |done|) % 16 && (buf == old(buf) || fresh(buf))
        invariant done + (if first then PesPackets(pid, next, data, clock, pts) else DataPackets(pid, next, data, off0 + off1)) == all
        decreases |header| - off0 + (|es| - off1)
      {
        var pkt, n0, n1, p := MakePacket(pid, next, first, clock, header, es, off0, off1, pts);
        PesStep(pid, next, data, clock, pts, first, off0 + off1, done, p);
        Put(pkt, p);
        CountOne(cc, |done|);
        assert was + done + [p] == was + (done + [p]);
        next := (next + 1) % 16;
        off0, off1, first := off0 + n0, off1 + n1, false;
        done := done + [p];
      }
      PesEnds(pid, next, data, off0 + off1);
      assert done == all;
    }

    /** One picture. */
    method WriteVideo(es: seq<byte>, pts: u64, key: bool) returns (code: int)
      requires Valid()
      modifies this, buf
      ensures Valid() && Value() == Apply(old(Value()), Video(es, pts, key)) && code == if es == [] then -1 else 0
      ensures buf == old(buf) || fresh(buf)
    {
      hide EnsurePsi, PesPackets, PesHeader;
      if |es| == 0 {
        return -1;
      }
      EnsureTables();
      ghost var n := Value();
      ccV := EmitPes(PID_VIDEO, ccV, PesHeader(STREAM_VIDEO, |es|, pts), es, pts, key);
      assert Value() == n.(cur := n.cur + PesOf(n, Video(es, pts, key)), ccV := ccV);
      code := 0;
    }

    /** One audio frame. */
    method WriteAudio(es: seq<byte>, pts: u64) returns (code: int)
      requires Valid()
      modifies this, buf
      ensures Valid() && Value() == Apply(old(Value()), Audio(es, pts)) && code == if es == [] then -1 else 0
      ensures buf == old(buf) || fresh(buf)
    {
      hide EnsurePsi, PesPackets, PesHeader;
      if |es| == 0 {
        return -1;
      }
      EnsureTables();
      ghost var n := Value();
      ccA := EmitPes(PID_AUDIO, ccA, PesHeader(STREAM_AUDIO, |es|, pts), es, pts, false);
      assert Value() == n.(cur := n.cur + PesOf(n, Audio(es, pts)), ccA := ccA);
      code := 0;
    }

    /** Starts the next slice in the same buffer. */
    method NextSlice()
      requires Valid()
      modifies `len, `wrotePsi, `cur, `past
      ensures Valid() && Value() == Apply(old(Value()), Reset)
    {
      len, wrotePsi := 0, false;
      cur, past := [], past + cur;
    }
  }

  // ---- steps of the loops ----

  lemma {:induction false} StreamMore(ps: seq<Packet>, p: Packet)
    requires (forall i :: 0 <= i < |ps| ==> Whole(ps[i])) && Whole(p)
    ensures forall i :: 0 <= i < |ps + [p]| ==> Whole((ps + [p])[i])
    ensures Stream(ps + [p]) == Stream(ps) + PacketBytes(p)
    decreases |ps|
  {
    hide Whole, PacketBytes;
    if ps == [] {
      assert [p][1..] == [] && ps + [p] == [p] && Stream([]) == [];
      assert PacketBytes(p) + [] == PacketBytes(p) == [] + PacketBytes(p);
    } else {
      assert (ps + [p])[0] == ps[0] && (ps + [p])[1..] == ps[1..] + [p];
      StreamMore(ps[1..], p);
    }
  }

  lemma PsiPayload(section: seq<byte>, s: seq<byte>)
    requires |section| <= 179 && |s| == BODY && s[0] == 0 && s[1..|section| + 5] == Sealed(section)
    requires forall i :: |section| + 5 <= i < BODY ==> s[i] == 0xFF
    ensures s == [0] + Sealed(section) + Fill(179 - |section|)
  {
    hide BE, Crc.MpegCrc;
    assert s[|section| + 5..] == Fill(179 - |section|);
    assert s == [s[0]] + s[1..|section| + 5] + s[|section| + 5..];
  }

  lemma PesStep(pid: nat, cc: nat, data: seq<byte>, clock: bool, pts: nat, first: bool, off: nat, done: seq<Packet>, p: Packet)
    requires off < |data| && cc < 16 && first == (off == 0)
    requires p == if first && clock then PcrPacket(pid, cc, data, pts) else DataPacket(pid, cc, first, data, off)
    ensures var to := off + Least(|data| - off, if first && clock then PCR_BODY else BODY);
      done + (if first then PesPackets(pid, cc, data, clock, pts) else DataPackets(pid, cc, data, off))
      == done + [p] + DataPackets(pid, (cc + 1) % 16, data, to)
  {
    hide PcrPacket, DataPacket;
  }

  lemma CountOne(cc: nat, n: nat)
    ensures ((cc + n) % 16 + 1) % 16 == (cc + (n + 1)) % 16
  {
  }

  lemma PesEnds(pid: nat, cc: nat, data: seq<byte>, off: nat)
    requires off >= |data|
    ensures DataPackets(pid, cc, data, off) == []
  {
  }
}
