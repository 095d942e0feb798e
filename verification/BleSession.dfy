/** The BLE side of the recorder as an object: the growing assembly buffer, and the link its
    replies go out on. */
module BleSession {
  import opened Bytes
  import opened Ble

  /** The link takes `room` more packets and refuses the rest. */
  class Link {
    var sent: seq<Packet>
    var room: nat

    constructor (room: nat)
      ensures sent == [] && this.room == room
    {
      sent, this.room := [], room;
    }

    method Notify(pkt: Packet) returns (ok: bool)
      modifies this
      ensures ok == (old(room) > 0)
      ensures sent == (if ok then old(sent) + [pkt] else old(sent)) && room == if ok then old(room) - 1 else 0
    {
      ok := room > 0;
      if ok {
        sent, room := sent + [pkt], room - 1;
      }
    }
  }

  /** What the link took of the packets handed to it. */
  function Taken(pkts: seq<Packet>, room: nat): seq<Packet> { pkts[..AtMost(|pkts|, room)] }

  /** The first packet into the buffer. */
  method FillFirst(pkt: array<byte>, payload: seq<byte>, enc: bool, mtu: nat) returns (n: nat)
    requires MIN_MTU <= mtu <= pkt.Length
    modifies pkt
    ensures n == AtMost(|payload|, mtu - FIRST_HDR) && pkt[..FIRST_HDR + n] == FirstPacket(payload, enc, mtu)
  {
    n := AtMost(|payload|, mtu - FIRST_HDR);
    forall i | 0 <= i < n {
      pkt[FIRST_HDR + i] := payload[i];
    }
    var lo: byte, hi: byte := |payload| % 256, |payload| / 256 % 256;
    pkt[0], pkt[1], pkt[2], pkt[3], pkt[4], pkt[5] := PKT_FIRST, lo, hi, 0, 0, if enc then 1 else 0;
    assert forall i :: 0 <= i < n ==> pkt[FIRST_HDR + i] == payload[i];
    Copied(pkt[..], FIRST_HDR, payload, n);
    SixAndMore(pkt[..], n);
  }

  lemma Copied(s: seq<byte>, at: nat, payload: seq<byte>, n: nat)
    requires at + n <= |s| && n <= |payload| && forall i :: 0 <= i < n ==> s[at + i] == payload[i]
    ensures s[at..at + n] == payload[..n]
  {
  }

  lemma SixAndMore(s: seq<byte>, n: nat)
    requires FIRST_HDR + n <= |s|
    ensures s[..FIRST_HDR + n] == [s[0], s[1], s[2], s[3], s[4], s[5]] + s[FIRST_HDR..FIRST_HDR + n]
  {
    var six := s[..FIRST_HDR];
    assert six == [six[0], six[1], six[2], six[3], six[4], six[5]];
    assert s[..FIRST_HDR + n] == six + s[FIRST_HDR..FIRST_HDR + n];
  }

  /** A later packet into the buffer; what lies behind it there is left from earlier packets. */
  method FillCont(pkt: array<byte>, payload: seq<byte>, off: nat, n: nat)
    requires off + n <= |payload| && CONT_HDR + n <= pkt.Length
    modifies pkt
    ensures pkt[..CONT_HDR + n] == [if off + n >= |payload| then PKT_LAST else PKT_MID] + payload[off..off + n]
  {
    pkt[0] := if off + n >= |payload| then PKT_LAST else PKT_MID;
    forall i | 0 <= i < n {
      pkt[CONT_HDR + i] := payload[off + i];
    }
  }

  /** Cuts a message and sends the packets until the link refuses one; the number of packets, or -1. */
  method FrameEncode(payload: seq<byte>, enc: bool, asked: int, link: Link) returns (npkt: int)
    modifies link
    ensures var pkts := Packets(payload, enc, asked);
      && link.sent == old(link.sent) + Taken(pkts, old(link.room))
      && link.room == old(link.room) - |Taken(pkts, old(link.room))|
      && npkt == if old(link.room) >= |pkts| then |pkts| else -1
  {
    hide FirstPacket, Rest;
    var mtu := if asked < MIN_MTU then DEFAULT_MTU else asked;
    var pkt := new byte[MAX_MTU];
    if mtu > pkt.Length {
      mtu := pkt.Length;
    }
    ghost var pkts := Packets(payload, enc, asked);
    var n := FillFirst(pkt, payload, enc, mtu);
    assert pkts == [pkt[..FIRST_HDR + n]] + Rest(payload, n, mtu);
    var ok := link.Notify(pkt[..FIRST_HDR + n]);
    if !ok {
      assert Taken(pkts, 0) == [];
      return -1;
    }
    ghost var room := link.room;
    npkt := SendRest(payload, n, mtu, pkt, link);
    assert Taken(pkts, room + 1) == [pkts[0]] + Taken(Rest(payload, n, mtu), room);
    if npkt != -1 {
      npkt := npkt + 1;
    }
  }

  /** The packets after the first. */
  method SendRest(payload: seq<byte>, start: nat, mtu: nat, pkt: array<byte>, link: Link) returns (npkt: int)
    requires MIN_MTU <= mtu <= pkt.Length && start <= |payload|
    modifies pkt, link
    ensures var pkts := Rest(payload, start, mtu);
      && link.sent == old(link.sent) + Taken(pkts, old(link.room))
      && link.room == old(link.room) - |Taken(pkts, old(link.room))|
      && npkt == if old(link.room) >= |pkts| then |pkts| else -1
  {
    hide Rest;
    ghost var pkts, was, room := Rest(payload, start, mtu), link.sent, link.room;
    ghost var done: seq<Packet> := [];
    npkt := 0;
    var off := start;
    assert done + pkts == pkts;
    while off < |payload|
      invariant 0 <= off <= |payload| && npkt == |done| && done + Rest(payload, off, mtu) == pkts
      invariant link.sent == was + done && link.room == room - npkt
    {
      var n := AtMost(|payload| - off, mtu - CONT_HDR);
      RestStep(payload, off, mtu, done);
      FillCont(pkt, payload, off, n);
      ghost var next := pkt[..CONT_HDR + n];
      var ok := link.Notify(pkt[..CONT_HDR + n]);
      if !ok {
        assert Taken(pkts, room) == done;
        return -1;
      }
      assert was + done + [next] == was + (done + [next]);
      done := done + [next];
      npkt, off := npkt + 1, off + n;
    }
    NothingLeft(payload, off, mtu);
    assert done == pkts;
  }

  lemma RestStep(p: seq<byte>, off: nat, mtu: nat, done: seq<Packet>)
    requires MIN_MTU <= mtu && off < |p|
    ensures var n := AtMost(|p| - off, mtu - CONT_HDR);
      var next := [if off + n >= |p| then PKT_LAST else PKT_MID] + p[off..off + n];
      done + Rest(p, off, mtu) == done + [next] + Rest(p, off + n, mtu) && |Rest(p, off, mtu)| > 0
  {
    var n := AtMost(|p| - off, mtu - CONT_HDR);
    var next := [if off + n >= |p| then PKT_LAST else PKT_MID] + p[off..off + n];
    assert Rest(p, off, mtu) == [next] + Rest(p, off + n, mtu);
  }

  class Session {
    const mtu: int
    const dispatch: Message -> seq<byte>
    const link: Link
    var asmBuf: array<byte>
    var asmLen: nat
    var asmTotal: nat
    var asmEnc: bool
    var asmActive: bool
    var delivered: seq<Message>

    ghost predicate Valid()
      reads this
    {
      asmLen <= asmBuf.Length
    }

    ghost function Value(): Rx
      requires Valid()
      reads this, asmBuf
    {
      Rx(asmActive, asmTotal, asmEnc, asmBuf[..asmLen])
    }

    constructor (mtu: int, dispatch: Message -> seq<byte>, link: Link)
      ensures Valid() && Value() == IDLE && delivered == [] && this.mtu == mtu && this.dispatch == dispatch && this.link == link
      ensures fresh(asmBuf)
    {
      this.mtu, this.dispatch, this.link := mtu, dispatch, link;
      asmBuf := new byte[0];
      asmLen, asmTotal, asmEnc, asmActive, delivered := 0, 0, false, false, [];
    }

    /** Makes room for `need` bytes, doubling the buffer as often as it takes. */
    method Reserve(need: nat)
      requires Valid()
      modifies `asmBuf
      ensures Valid() && Value() == old(Value()) && asmBuf.Length >= need
      ensures asmBuf == old(asmBuf) || fresh(asmBuf)
    {
      if need <= asmBuf.Length {
        return;
      }
      var cap := if asmBuf.Length > 0 then asmBuf.Length else 256;
      while cap < need
        invariant cap > 0 && cap >= asmBuf.Length
      {
        cap := cap * 2;
      }
      var grown := new byte[cap];
      forall i | 0 <= i < asmBuf.Length {
        grown[i] := asmBuf[i];
      }
      assert grown[..asmLen] == asmBuf[..asmLen];
      asmBuf := grown;
    }

    method Reset()
      modifies `asmLen, `asmTotal, `asmEnc, `asmActive
      ensures Valid() && Value() == IDLE
    {
      asmLen, asmTotal, asmEnc, asmActive := 0, 0, false, false;
    }

    /** Adds bytes behind those already there. */
    method Append(data: seq<byte>)
      requires Valid()
      modifies `asmBuf, `asmLen, asmBuf
      ensures Valid() && Value() == old(Value()).(buf := old(Value()).buf + data)
      ensures asmBuf == old(asmBuf) || fresh(asmBuf)
    {
      ghost var was := asmBuf[..asmLen];
      Reserve(asmLen + |data|);
      forall i | 0 <= i < |data| {
        asmBuf[asmLen + i] := data[i];
      }
      assert asmBuf[..asmLen + |data|] == was + data;
      asmLen := asmLen + |data|;
    }

    /** Hands the whole message over and sends the reply back in packets. */
    method Deliver()
      requires Valid()
      modifies this, asmBuf, link
      ensures Valid() && Value() == IDLE
      ensures var m := Message(old(Value()).buf, old(asmEnc));
        && delivered == old(delivered) + [m]
        && link.sent == old(link.sent) + Taken(Packets(dispatch(m), m.enc, mtu), old(link.room))
      ensures asmBuf == old(asmBuf) || fresh(asmBuf)
    {
      ghost var was := Value().buf;
      Reserve(asmLen + 1);
      asmBuf[asmLen] := 0;
      assert asmBuf[..asmLen] == was;
      var m := Message(asmBuf[..asmLen], asmEnc);
      delivered := delivered + [m];
      var sent := FrameEncode(dispatch(m), m.enc, mtu, link);
      Reset();
    }

    /** A message complete by now is cut to its length and delivered. */
    method DeliverComplete()
      requires Valid()
      modifies this, asmBuf, link
      ensures asmBuf == old(asmBuf) || fresh(asmBuf)
      ensures Valid() && Reacted(Settle(old(Value())), Value(), old(delivered), delivered, old(link.sent), old(link.room), link.sent)
    {
      if asmActive && asmLen >= asmTotal {
        assert asmBuf[..asmTotal] == asmBuf[..asmLen][..asmTotal];
        asmLen := asmTotal;
        Deliver();
      }
    }

    /** The state, the deliveries and the replies are those of `r`. */
    ghost predicate Reacted(r: Reaction, rx: Rx, before: seq<Message>, after: seq<Message>,
                            sent: seq<Packet>, room: nat, sentAfter: seq<Packet>) {
      && rx == r.rx && after == before + r.out
      && sentAfter == sent + if r.out == [] then [] else Taken(Packets(dispatch(r.out[0]), r.out[0].enc, mtu), room)
    }

    /** Starts a new message, whatever was going on. */
    method Begin(pkt: Packet)
      requires Valid() && |pkt| >= FIRST_HDR
      modifies `asmBuf, `asmLen, `asmTotal, `asmEnc, `asmActive, asmBuf
      ensures Valid() && Value() == Rx(true, pkt[1] as int + pkt[2] as int * 256, pkt[5] != 0, pkt[FIRST_HDR..])
      ensures asmBuf == old(asmBuf) || fresh(asmBuf)
    {
      Reset();
      asmActive, asmTotal, asmEnc := true, pkt[1] as int + pkt[2] as int * 256, pkt[5] != 0;
      Append(pkt[FIRST_HDR..]);
      assert [] + pkt[FIRST_HDR..] == pkt[FIRST_HDR..];
    }

    /** One packet written by the peer. */
    method OnRx(pkt: Packet) returns (code: int)
      requires Valid()
      modifies this, asmBuf, link
      ensures Valid() && code == if OnPacket(old(Value()), pkt).refused then -1 else 0
      ensures Reacted(OnPacket(old(Value()), pkt), Value(), old(delivered), delivered, old(link.sent), old(link.room), link.sent)
      ensures asmBuf == old(asmBuf) || fresh(asmBuf)
    {
      hide Taken, Packets;
      if |pkt| < 1 {
        return -1;
      }
      if pkt[0] == PKT_FIRST {
        if |pkt| < FIRST_HDR {
          return -1;
        }
        if pkt[1] as int + pkt[2] as int * 256 > MAX_MSG {
          Reset();
          return -1;
        }
        Begin(pkt);
      } else if pkt[0] == PKT_MID || pkt[0] == PKT_LAST {
        if !asmActive {
          return -1;
        }
        Append(pkt[CONT_HDR..]);
      } else {
        return -1;
      }
      DeliverComplete();
      code := 0;
    }
  }
}
