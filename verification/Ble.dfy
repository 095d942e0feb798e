/** Messages over Bluetooth LE: cut into packets of the link's size, and put together again. */
module Ble {
  import opened Bytes

  const PKT_FIRST: byte := 1
  const PKT_MID: byte := 2
  const PKT_LAST: byte := 0
  const FIRST_HDR: nat := 6
  const CONT_HDR: nat := 1
  const MAX_MSG: nat := 16 * 1024
  const MIN_MTU: nat := 7
  const DEFAULT_MTU: nat := 40
  const MAX_MTU: nat := 512

  type Packet = seq<byte>

  datatype Message = Message(data: seq<byte>, enc: bool)

  // ---- cutting ----

  function ClampMtu(mtu: int): (m: nat)
    ensures MIN_MTU <= m <= MAX_MTU && (MIN_MTU <= mtu <= MAX_MTU ==> m == mtu)
  {
    if mtu < MIN_MTU then DEFAULT_MTU else if mtu > MAX_MTU then MAX_MTU else mtu
  }

  function AtMost(a: nat, b: nat): (n: nat)
    ensures n <= a && n <= b
  {
    if a < b then a else b
  }

  function FirstPacket(p: seq<byte>, enc: bool, mtu: nat): Packet
    requires MIN_MTU <= mtu
  {
    [PKT_FIRST, |p| % 256, |p| / 256 % 256, 0, 0, if enc then 1 else 0] + p[..AtMost(|p|, mtu - FIRST_HDR)]
  }

  /** The packets for the message from `off` on. */
  function Rest(p: seq<byte>, off: nat, mtu: nat): seq<Packet>
    requires MIN_MTU <= mtu
    decreases |p| - off
  {
    if off >= |p| then []
    else
      var n := AtMost(|p| - off, mtu - CONT_HDR);
      [[if off + n >= |p| then PKT_LAST else PKT_MID] + p[off..off + n]] + Rest(p, off + n, mtu)
  }

  function Packets(p: seq<byte>, enc: bool, mtu: int): seq<Packet> {
    var m := ClampMtu(mtu);
    [FirstPacket(p, enc, m)] + Rest(p, AtMost(|p|, m - FIRST_HDR), m)
  }

  // ---- putting together ----

  /** The message being put together. */
  datatype Rx = Rx(active: bool, total: nat, enc: bool, buf: seq<byte>)

  const IDLE: Rx := Rx(false, 0, false, [])

  /** `refused` is the error return; at most one message comes out of a packet. */
  datatype Reaction = Reaction(rx: Rx, refused: bool, out: seq<Message>)

  /** A message is complete as soon as the announced number of bytes is there. */
  function Settle(r: Rx): Reaction {
    if r.active && |r.buf| >= r.total then Reaction(IDLE, false, [Message(r.buf[..r.total], r.enc)])
    else Reaction(r, false, [])
  }

  function OnPacket(r: Rx, pkt: Packet): Reaction {
    if |pkt| < 1 then Reaction(r, true, [])
    else if pkt[0] == PKT_FIRST then
      if |pkt| < FIRST_HDR then Reaction(r, true, [])
      else
        var total: nat := pkt[1] as int + pkt[2] as int * 256;
        if total > MAX_MSG then Reaction(IDLE, true, [])
        else Settle(Rx(true, total, pkt[5] != 0, pkt[FIRST_HDR..]))
    else if pkt[0] == PKT_MID || pkt[0] == PKT_LAST then
      if !r.active then Reaction(r, true, [])
      else Settle(r.(buf := r.buf + pkt[CONT_HDR..]))
    else Reaction(r, true, [])
  }

  /** Feeding packets one by one: the final state and all messages that came out. */
  function Feed(r: Rx, pkts: seq<Packet>): (Rx, seq<Message>)
    decreases |pkts|
  {
    if pkts == [] then (r, [])
    else
      var one := OnPacket(r, pkts[0]);
      var (last, more) := Feed(one.rx, pkts[1..]);
      (last, one.out + more)
  }

  // ---- what the packets look like ----

  lemma {:induction false} RestShape(p: seq<byte>, off: nat, mtu: nat)
    requires MIN_MTU <= mtu && off <= |p|
    ensures var r := Rest(p, off, mtu);
      && |r| == (|p| - off + mtu - 2) / (mtu - 1)
      && forall i :: 0 <= i < |r| ==> CONT_HDR < |r[i]| <= mtu && r[i][0] == if i == |r| - 1 then PKT_LAST else PKT_MID
    decreases |p| - off
  {
    if off >= |p| {
      CeilStep(0, mtu - 1);
    } else {
      var n := AtMost(|p| - off, mtu - CONT_HDR);
      var rest := Rest(p, off + n, mtu);
      RestShape(p, off + n, mtu);
      CeilStep(|p| - off, mtu - 1);
      assert rest == [] <==> off + n >= |p|;
    }
  }

  lemma CeilStep(left: nat, cap: nat)
    requires cap > 0
    ensures left == 0 ==> (left + cap - 1) / cap == 0
    ensures 0 < left <= cap ==> (left + cap - 1) / cap == 1
    ensures left > cap ==> (left + cap - 1) / cap == 1 + (left - cap + cap - 1) / cap
  {
    if 0 < left <= cap {
      assert left + cap - 1 == cap * 1 + (left - 1);
      ModUnique(left + cap - 1, cap, 1, left - 1);
    } else if left > cap {
      var q, m := (left - 1) / cap, (left - 1) % cap;
      assert left - 1 == cap * q + m;
      assert left + cap - 1 == cap * (q + 1) + m by {
        assert cap * (q + 1) == cap * q + cap;
      }
      ModUnique(left + cap - 1, cap, q + 1, m);
    }
  }

  /** Every packet fits the link; and the message takes one packet and as many more as its rest needs. */
  lemma PacketsFit(p: seq<byte>, enc: bool, mtu: int)
    ensures var pkts, m := Packets(p, enc, mtu), ClampMtu(mtu); var first := AtMost(|p|, m - FIRST_HDR);
      && (forall i :: 0 <= i < |pkts| ==> |pkts[i]| <= m)
      && |pkts| == 1 + (|p| - first + m - 2) / (m - 1)
      && pkts[0][0] == PKT_FIRST
      && forall i :: 1 <= i < |pkts| ==> |pkts[i]| > CONT_HDR && pkts[i][0] == if i == |pkts| - 1 then PKT_LAST else PKT_MID
  {
    var m := ClampMtu(mtu);
    var first := AtMost(|p|, m - FIRST_HDR);
    var pkts, rest := Packets(p, enc, mtu), Rest(p, first, m);
    RestShape(p, first, m);
    assert forall i :: 1 <= i < |pkts| ==> pkts[i] == rest[i - 1];
  }

  // ---- round trip ----

  lemma FeedStep(r: Rx, pkts: seq<Packet>)
    requires pkts != []
    ensures Feed(r, pkts).0 == Feed(OnPacket(r, pkts[0]).rx, pkts[1..]).0
    ensures Feed(r, pkts).1 == OnPacket(r, pkts[0]).out + Feed(OnPacket(r, pkts[0]).rx, pkts[1..]).1
    ensures OnPacket(r, pkts[0]).out == [] ==> Feed(r, pkts).1 == Feed(OnPacket(r, pkts[0]).rx, pkts[1..]).1
    ensures pkts[1..] == [] ==> Feed(r, pkts).1 == OnPacket(r, pkts[0]).out
  {
    hide OnPacket;
    var a, b := OnPacket(r, pkts[0]).out, Feed(OnPacket(r, pkts[0]).rx, pkts[1..]).1;
    assert [] + b == b && a + [] == a;
  }

  /** One more packet of the rest, at a receiver that has the beginning of the message. */
  lemma OneMore(r: Rx, p: seq<byte>, off: nat, mtu: nat)
    requires MIN_MTU <= mtu && off < |p| && r == Rx(true, |p|, r.enc, p[..off])
    ensures var pkts := Rest(p, off, mtu); var to := off + AtMost(|p| - off, mtu - CONT_HDR);
      && pkts != [] && pkts[1..] == Rest(p, to, mtu) && off < to <= |p|
      && OnPacket(r, pkts[0]) == (if to < |p| then Reaction(r.(buf := p[..to]), false, []) else Reaction(IDLE, false, [Message(p, r.enc)]))
  {
    hide OnPacket;
    var to := off + AtMost(|p| - off, mtu - CONT_HDR);
    ContArrives(r, p, off, to, if to >= |p| then PKT_LAST else PKT_MID);
  }

  lemma ContArrives(r: Rx, p: seq<byte>, off: nat, to: nat, kind: byte)
    requires off < to <= |p| && r == Rx(true, |p|, r.enc, p[..off]) && (kind == PKT_MID || kind == PKT_LAST)
    ensures OnPacket(r, [kind] + p[off..to])
         == if to < |p| then Reaction(r.(buf := p[..to]), false, []) else Reaction(IDLE, false, [Message(p, r.enc)])
  {
    assert ([kind] + p[off..to])[CONT_HDR..] == p[off..to];
    assert p[..off] + p[off..to] == p[..to];
    assert p[..|p|] == p;
  }

  /** The rest of a message arriving there: the message comes out with the last packet. */
  lemma {:induction false} RestArrives(r: Rx, p: seq<byte>, off: nat, mtu: nat)
    requires MIN_MTU <= mtu && off < |p| && r == Rx(true, |p|, r.enc, p[..off])
    ensures var pkts := Rest(p, off, mtu);
      && pkts != [] && Feed(r, pkts) == (IDLE, [Message(p, r.enc)]) && Feed(r, pkts[..|pkts| - 1]).1 == []
    decreases |p| - off
  {
    hide OnPacket, Rest;
    OneMore(r, p, off, mtu);
    var pkts := Rest(p, off, mtu);
    FeedStep(r, pkts);
    var to := off + AtMost(|p| - off, mtu - CONT_HDR);
    if to < |p| {
      RestArrives(r.(buf := p[..to]), p, to, mtu);
      assert pkts[..|pkts| - 1][0] == pkts[0] && pkts[..|pkts| - 1][1..] == pkts[1..][..|pkts| - 2];
      FeedStep(r, pkts[..|pkts| - 1]);
    } else {
      NothingLeft(p, to, mtu);
      assert pkts == [pkts[0]];
    }
  }

  lemma NothingLeft(p: seq<byte>, off: nat, mtu: nat)
    requires MIN_MTU <= mtu && off >= |p|
    ensures Rest(p, off, mtu) == []
  {
  }

  lemma FirstArrives(r: Rx, p: seq<byte>, enc: bool, mtu: nat)
    requires |p| <= MAX_MSG && MIN_MTU <= mtu
    ensures var n := AtMost(|p|, mtu - FIRST_HDR);
      OnPacket(r, FirstPacket(p, enc, mtu))
      == if n < |p| then Reaction(Rx(true, |p|, enc, p[..n]), false, []) else Reaction(IDLE, false, [Message(p, enc)])
  {
    FirstAnnounces(r, p, enc, mtu);
    assert p[..|p|] == p;
  }

  /** Whatever the receiver was in the middle of, a message of at most 16384 bytes arrives exactly
      once, unchanged, with its last packet, and leaves the receiver idle. */
  lemma RoundTrip(r: Rx, p: seq<byte>, enc: bool, mtu: int)
    requires |p| <= MAX_MSG
    ensures var pkts := Packets(p, enc, mtu);
      Feed(r, pkts) == (IDLE, [Message(p, enc)]) && Feed(r, pkts[..|pkts| - 1]).1 == []
  {
    hide OnPacket, Rest, FirstPacket;
    var m := ClampMtu(mtu);
    var n := AtMost(|p|, m - FIRST_HDR);
    var pkts := Packets(p, enc, mtu);
    FirstArrives(r, p, enc, m);
    FeedStep(r, pkts);
    assert pkts[1..] == Rest(p, n, m);
    if n < |p| {
      RestArrives(Rx(true, |p|, enc, p[..n]), p, n, m);
      assert pkts[..|pkts| - 1][0] == pkts[0] && pkts[..|pkts| - 1][1..] == pkts[1..][..|pkts| - 2];
      FeedStep(r, pkts[..|pkts| - 1]);
    } else {
      NothingLeft(p, n, m);
    }
  }

  /** Packets of a message nobody announced. */
  lemma {:induction false} RestIgnored(p: seq<byte>, off: nat, mtu: nat)
    requires MIN_MTU <= mtu
    ensures Feed(IDLE, Rest(p, off, mtu)) == (IDLE, [])
    decreases |p| - off
  {
    if off < |p| {
      FeedStep(IDLE, Rest(p, off, mtu));
      RestIgnored(p, off + AtMost(|p| - off, mtu - CONT_HDR), mtu);
    }
  }

  /** What the two length bytes of the header announce. */
  function Announced(p: seq<byte>): nat { |p| % 0x1_0000 }

  lemma FirstAnnounces(r: Rx, p: seq<byte>, enc: bool, mtu: nat)
    requires MIN_MTU <= mtu
    ensures var n, k := AtMost(|p|, mtu - FIRST_HDR), Announced(p);
      k <= |p| && OnPacket(r, FirstPacket(p, enc, mtu))
      == if k > MAX_MSG then Reaction(IDLE, true, [])
         else if n < k then Reaction(Rx(true, k, enc, p[..n]), false, []) else Reaction(IDLE, false, [Message(p[..k], enc)])
  {
    var n, k := AtMost(|p|, mtu - FIRST_HDR), Announced(p);
    LengthBytes(|p|);
    assert FirstPacket(p, enc, mtu)[FIRST_HDR..] == p[..n];
    assert k <= n ==> p[..n][..k] == p[..k];
  }

  lemma LengthBytes(n: nat)
    ensures n % 256 + n / 256 % 256 * 256 == n % 0x1_0000
  {
    var low, mid, high := n % 256, n / 256 % 256, n / 256 / 256;
    assert n == 256 * (n / 256) + low && n / 256 == 256 * high + mid;
    ModUnique(n, 0x1_0000, high, mid * 256 + low);
  }

  /** The rest of a message of which `k` bytes were announced: these come out as soon as they are
      there, and what follows is ignored. */
  lemma {:induction false} RestCompletes(r: Rx, p: seq<byte>, off: nat, k: nat, mtu: nat)
    requires MIN_MTU <= mtu && off < k <= |p| && r == Rx(true, k, r.enc, p[..off])
    ensures Feed(r, Rest(p, off, mtu)) == (IDLE, [Message(p[..k], r.enc)])
    decreases |p| - off
  {
    var to := off + AtMost(|p| - off, mtu - CONT_HDR);
    var pkts := Rest(p, off, mtu);
    ContAdds(r, p, off, to, k, if to >= |p| then PKT_LAST else PKT_MID);
    assert pkts[1..] == Rest(p, to, mtu);
    hide OnPacket, Rest;
    FeedStep(r, pkts);
    if to < k {
      RestCompletes(r.(buf := p[..to]), p, to, k, mtu);
    } else {
      RestIgnored(p, to, mtu);
      assert [Message(p[..k], r.enc)] + [] == [Message(p[..k], r.enc)];
    }
  }

  lemma ContAdds(r: Rx, p: seq<byte>, off: nat, to: nat, k: nat, kind: byte)
    requires off < to <= |p| && off < k <= |p| && r == Rx(true, k, r.enc, p[..off]) && (kind == PKT_MID || kind == PKT_LAST)
    ensures OnPacket(r, [kind] + p[off..to])
         == if to < k then Reaction(r.(buf := p[..to]), false, []) else Reaction(IDLE, false, [Message(p[..k], r.enc)])
  {
    assert ([kind] + p[off..to])[CONT_HDR..] == p[off..to];
    assert p[..off] + p[off..to] == p[..to];
    assert to >= k ==> p[..to][..k] == p[..k];
  }

  /** What comes out of the packets of a message of any length: the announced number of its first bytes
      when that is at most 16384, and nothing otherwise. So a message arrives if and only if it
      has at most 16384 bytes; of longer ones those up to 16384 bytes beyond a multiple of 65536
      come out cut off, and the others are lost. */
  lemma ArrivesIff(r: Rx, p: seq<byte>, enc: bool, mtu: int)
    ensures Feed(r, Packets(p, enc, mtu)).0 == IDLE
    ensures Feed(r, Packets(p, enc, mtu)).1 ==
      if |p| % 65536 <= 16384 then [Message(p[..|p| % 65536], enc)] else []
    ensures Feed(r, Packets(p, enc, mtu)).1 == [Message(p, enc)] <==> |p| <= 16384
  {
    hide OnPacket, Rest, FirstPacket;
    var m := ClampMtu(mtu);
    var n, k := AtMost(|p|, m - FIRST_HDR), Announced(p);
    var pkts := Packets(p, enc, mtu);
    FirstAnnounces(r, p, enc, m);
    FeedStep(r, pkts);
    assert pkts[1..] == Rest(p, n, m);
    if k <= MAX_MSG && n < k {
      RestCompletes(Rx(true, k, enc, p[..n]), p, n, k, m);
    } else {
      RestIgnored(p, n, m);
    }
    assert |p| <= MAX_MSG ==> k == |p| && p[..|p|] == p;
  }

  /** Messages sent one after the other come out one after the other. */
  lemma {:induction false} Conversation(r: Rx, ms: seq<Message>, mtu: int)
    requires forall i :: 0 <= i < |ms| ==> |ms[i].data| <= MAX_MSG
    ensures Feed(r, AllPackets(ms, mtu)).1 == ms
    decreases |ms|
  {
    if ms == [] {
      assert Feed(r, []).1 == [];
    } else {
      RoundTrip(r, ms[0].data, ms[0].enc, mtu);
      hide Packets, Feed;
      FeedMore(r, Packets(ms[0].data, ms[0].enc, mtu), AllPackets(ms[1..], mtu));
      Conversation(IDLE, ms[1..], mtu);
      assert ms == [ms[0]] + ms[1..];
    }
  }

  function AllPackets(ms: seq<Message>, mtu: int): seq<Packet> {
    if ms == [] then [] else Packets(ms[0].data, ms[0].enc, mtu) + AllPackets(ms[1..], mtu)
  }

  lemma {:induction false} FeedMore(r: Rx, a: seq<Packet>, b: seq<Packet>)
    ensures Feed(r, a + b) == (Feed(Feed(r, a).0, b).0, Feed(r, a).1 + Feed(Feed(r, a).0, b).1)
    decreases |a|
  {
    hide OnPacket;
    if a == [] {
      assert a + b == b && [] + Feed(r, b).1 == Feed(r, b).1;
    } else {
      assert (a + b)[0] == a[0] && (a + b)[1..] == a[1..] + b;
      FeedStep(r, a); FeedStep(r, a + b);
      var m := OnPacket(r, a[0]);
      FeedMore(m.rx, a[1..], b);
      var x, y := Feed(m.rx, a[1..]).1, Feed(Feed(m.rx, a[1..]).0, b).1;
      assert m.out + (x + y) == (m.out + x) + y;
    }
  }

  // ---- packets as they are on the air ----

  /** The size in use. */
  function InUse(mtu: int): nat { if mtu < 7 then 40 else if mtu > 512 then 512 else mtu }

  function Upto(a: nat, n: nat): nat { if n < a then n else a }

  /** Where the data of packet `i` begins. */
  function Offset(m: nat, n: nat, i: nat): nat
    requires m >= 7
  {
    if i == 0 then 0 else Upto(n, m - 6 + (i - 1) * (m - 1))
  }

  /** Packet `i` of `count`: the first has the marks 1, the length with its low byte first, two zeros and
      whether the message is enciphered; the last one has the mark 0, and those between 2. */
  predicate OnAir(p: seq<byte>, enc: bool, m: nat, count: nat, i: nat, pkt: Packet)
    requires m >= 7
  {
    var from, to := Offset(m, |p|, i), Offset(m, |p|, i + 1);
    from <= to <= |p| &&
    pkt == (if i == 0 then [1, |p| % 256, |p| / 256 % 256, 0, 0, if enc then 1 else 0]
            else [if i == count - 1 then 0 else 2]) + p[from..to]
  }

  lemma OffsetSteps(m: nat, n: nat, i: nat)
    requires m >= 7
    ensures Offset(m, n, 1) == Upto(n, m - 6)
    ensures i > 0 ==> Offset(m, n, i + 1) == Upto(n, Offset(m, n, i) + (m - 1)) && Offset(m, n, i) <= Offset(m, n, i + 1)
  {
    if i > 0 {
      assert i * (m - 1) == (i - 1) * (m - 1) + (m - 1);
    }
  }

  lemma {:induction false} RestOnAir(p: seq<byte>, enc: bool, m: nat, i: nat)
    requires m >= 7 && i > 0
    ensures var r := Rest(p, Offset(m, |p|, i), m);
      && (forall j :: 0 <= j < |r| ==> OnAir(p, enc, m, i + |r|, i + j, r[j]))
      && Offset(m, |p|, i + |r|) == |p| && (r != [] ==> Offset(m, |p|, i + |r| - 1) < |p|)
    decreases |p| - Offset(m, |p|, i)
  {
    hide OnAir, Offset;
    var off := Offset(m, |p|, i);
    OffsetSteps(m, |p|, i);
    assert off <= |p| by { OffsetBelow(m, |p|, i); }
    if off < |p| {
      var r := Rest(p, off, m);
      var to := Offset(m, |p|, i + 1);
      assert to == off + AtMost(|p| - off, m - 1);
      var rest := Rest(p, to, m);
      assert r == [[if to >= |p| then PKT_LAST else PKT_MID] + p[off..to]] + rest;
      RestOnAir(p, enc, m, i + 1);
      ContOnAir(p, enc, m, i + |r|, i, rest == []);
      forall j | 0 <= j < |r|
        ensures OnAir(p, enc, m, i + |r|, i + j, r[j])
      {
        if j > 0 {
          assert r[j] == rest[j - 1];
        }
      }
    }
  }

  lemma OffsetBelow(m: nat, n: nat, i: nat)
    requires m >= 7
    ensures Offset(m, n, i) <= n
  {
  }

  lemma ContOnAir(p: seq<byte>, enc: bool, m: nat, count: nat, i: nat, last: bool)
    requires m >= 7 && i > 0 && (last <==> i == count - 1)
    requires Offset(m, |p|, i) <= Offset(m, |p|, i + 1) <= |p|
    ensures OnAir(p, enc, m, count, i, [if last then 0 else 2] + p[Offset(m, |p|, i)..Offset(m, |p|, i + 1)])
  {
    hide Offset;
  }

  /** The packets of a message, each in full; none is empty but the only one of an empty message. */
  lemma PacketsOnAir(p: seq<byte>, enc: bool, mtu: int)
    ensures var m, r := InUse(mtu), Packets(p, enc, mtu);
      && (forall i :: 0 <= i < |r| ==> OnAir(p, enc, m, |r|, i, r[i]))
      && Offset(m, |p|, |r|) == |p| && (|r| > 1 ==> Offset(m, |p|, |r| - 1) < |p|)
  {
    hide Rest;
    var m, r := InUse(mtu), Packets(p, enc, mtu);
    RestOnAir(p, enc, m, 1);
    OffsetSteps(m, |p|, 0);
    assert OnAir(p, enc, m, |r|, 0, r[0]);
    forall i | 0 <= i < |r|
      ensures OnAir(p, enc, m, |r|, i, r[i])
    {
      if i > 0 {
        assert r[i] == Rest(p, Offset(m, |p|, 1), m)[i - 1];
      }
    }
  }

  // ---- packets from anyone ----

  /** What is refused: an empty packet, an unknown mark, a first packet that is too short or announces more than
      16384 bytes, and any other while nothing is being put together. Only too long a message changes anything:
      what was being put together is dropped. */
  lemma RefusedIff(r: Rx, pkt: Packet)
    ensures var x := OnPacket(r, pkt);
      && (x.refused <==> pkt == [] || pkt[0] > 2 || (pkt[0] == 1 && (|pkt| < 6 || pkt[1] as int + 256 * pkt[2] as int > 16384))
                         || (pkt[0] != 1 && !r.active))
      && (x.refused ==> x.out == [] && x.rx == if pkt != [] && pkt[0] == 1 && |pkt| >= 6 then Rx(false, 0, false, []) else r)
  {
  }

  /** The data behind the marks of these packets. */
  function Behind(pkts: seq<Packet>): seq<byte> {
    if pkts == [] then [] else Behind(pkts[..|pkts| - 1]) + (if pkts[|pkts| - 1] == [] then [] else pkts[|pkts| - 1][1..])
  }

  /** After any first packet that announces `n` bytes, and any others behind it: the message comes out, cut to what
      was announced, with the packet that completes it, and until then all of it is kept. */
  lemma {:induction false} AnyPieces(r: Rx, first: Packet, pkts: seq<Packet>)
    requires |first| >= 6 && first[0] == 1 && first[1] as int + 256 * first[2] as int <= 16384
    requires forall i :: 0 <= i < |pkts| ==> pkts[i] != [] && (pkts[i][0] == 0 || pkts[i][0] == 2)
    requires pkts != [] ==> |first[6..] + Behind(pkts[..|pkts| - 1])| < first[1] as int + 256 * first[2] as int
    ensures var n, all := first[1] as int + 256 * first[2] as int, first[6..] + Behind(pkts);
      Feed(r, [first] + pkts) == if |all| < n then (Rx(true, n, first[5] != 0, all), []) else (Rx(false, 0, false, []), [Message(all[..n], first[5] != 0)])
    decreases |pkts|
  {
    hide Feed, OnPacket;
    var n: nat := first[1] as int + 256 * first[2] as int;
    if pkts == [] {
      assert first[6..] + [] == first[6..];
      FirstTaken(r, first);
      assert [first] + [] == [first];
      FedOne(r, first);
    } else {
      var l := |pkts| - 1;
      var most, last := pkts[..l], pkts[l];
      if most != [] {
        assert Behind(most[..l - 1]) <= Behind(most);
        assert most[..l - 1] == pkts[..l - 1];
      }
      AnyPieces(r, first, most);
      assert [first] + pkts == ([first] + most) + [last];
      FeedMore(r, [first] + most, [last]);
      var held := first[6..] + Behind(most);
      FedOne(Rx(true, n, first[5] != 0, held), last);
      assert first[6..] + Behind(pkts) == held + last[1..];
      MoreTaken(Rx(true, n, first[5] != 0, held), last);
      var out := OnPacket(Rx(true, n, first[5] != 0, held), last).out;
      assert [] + out == out;
    }
  }

  lemma FirstTaken(r: Rx, first: Packet)
    requires |first| >= 6 && first[0] == 1 && first[1] as int + 256 * first[2] as int <= 16384
    ensures var n: nat, all := first[1] as int + 256 * first[2] as int, first[6..];
      OnPacket(r, first) == if |all| < n then Reaction(Rx(true, n, first[5] != 0, all), false, [])
                            else Reaction(Rx(false, 0, false, []), false, [Message(all[..n], first[5] != 0)])
  {
  }

  lemma MoreTaken(r: Rx, pkt: Packet)
    requires r.active && pkt != [] && (pkt[0] == 0 || pkt[0] == 2)
    ensures var all := r.buf + pkt[1..];
      OnPacket(r, pkt) == if |all| < r.total then Reaction(r.(buf := all), false, [])
                          else Reaction(Rx(false, 0, false, []), false, [Message(all[..r.total], r.enc)])
  {
  }

  lemma FedOne(r: Rx, pkt: Packet)
    ensures Feed(r, [pkt]) == (OnPacket(r, pkt).rx, OnPacket(r, pkt).out)
  {
    assert [pkt][1..] == [];
    assert Feed(OnPacket(r, pkt).rx, []) == (OnPacket(r, pkt).rx, []);
    assert OnPacket(r, pkt).out + [] == OnPacket(r, pkt).out;
  }
}
