/** What a client writes and what the server makes of it, said of the list of units the client writes: requests,
    and packets by section 10.12 of RFC 2326. */
module RtspUnits {
  import opened Bytes
  import opened RtspReader

  datatype Unit = Packet(channel: byte, payload: seq<byte>) | Text(text: seq<byte>)

  predicate Blank(t: seq<byte>, i: nat)
    requires i + 4 <= |t|
  {
    t[i] == 13 && t[i + 1] == 10 && t[i + 2] == 13 && t[i + 3] == 10
  }

  /** A unit that fits the buffer of 8192 bytes; a request ends at its only blank line and does not begin
      like a packet. */
  predicate WellFormed(u: Unit) {
    match u
    case Packet(_, payload) => |payload| <= 8188
    case Text(t) =>
      && 4 <= |t| <= 8192 && t[0] != 0x24 && Blank(t, |t| - 4)
      && forall i :: 0 <= i < |t| - 4 ==> !Blank(t, i)
  }

  /** A dollar sign, the channel, the length with its high byte first, the payload; or the request. */
  function Written(u: Unit): seq<byte>
    requires WellFormed(u)
  {
    match u
    case Packet(channel, payload) => [0x24, channel, (|payload| / 256) as byte, (|payload| % 256) as byte] + payload
    case Text(t) => t
  }

  function Stream(us: seq<Unit>): seq<byte>
    requires forall u :: u in us ==> WellFormed(u)
  {
    if us == [] then [] else Written(us[0]) + Stream(us[1..])
  }

  /** What is handed on, up to and with a request that tears down: every request of fewer than 2048 bytes, and of
      every packet on the talk channel of the moment what follows its first 12 bytes. */
  function Expected(app: App, audio: int, us: seq<Unit>): seq<Handled>
    decreases |us|
  {
    if us == [] then []
    else match us[0]
      case Packet(channel, payload) =>
        (if channel as int == audio && app.talk && |payload| > 12 then [Talk(payload[12..])] else []) + Expected(app, audio, us[1..])
      case Text(t) =>
        if |t| >= 2048 then Expected(app, audio, us[1..])
        else if app.effect(t).teardown then [Request(t)]
        else [Request(t)] + Expected(app, if app.effect(t).setAudio then app.effect(t).audio else audio, us[1..])
  }

  predicate TearsDown(app: App, u: Unit) { u.Text? && |u.text| < 2048 && app.effect(u.text).teardown }

  // ---- one unit ----

  lemma {:induction false} FirstBlank(b: seq<byte>, i: nat, from: nat)
    requires from <= i && BlankLineAt(b, i) && forall j :: from <= j < i ==> !BlankLineAt(b, j)
    ensures FindBlankLine(b, from) == i
    decreases i - from
  {
    if from < i {
      FirstBlank(b, i, from + 1);
    }
  }

  /** The unit read is the unit written, whatever comes after it. */
  lemma UnitReadsBack(u: Unit, rest: seq<byte>)
    requires WellFormed(u)
    ensures UnitSize(Written(u) + rest) == |Written(u)| <= BUFFER && 4 <= |Written(u)|
    ensures (Written(u) + rest)[..|Written(u)|] == Written(u) && (Written(u) + rest)[|Written(u)|..] == rest
  {
    var b := Written(u) + rest;
    match u
    case Packet(channel, payload) =>
      assert b[0] == 0x24 && b[2] as int == |payload| / 256 && b[3] as int == |payload| % 256;
    case Text(t) =>
      var n := |t| - 4;
      assert forall j :: 0 <= j < |t| ==> b[j] == t[j];
      assert Blank(t, n);
      assert BlankLineAt(b, n);
      forall j | 0 <= j < n
        ensures !BlankLineAt(b, j)
      {
        assert !Blank(t, j);
      }
      FirstBlank(b, n, 0);
  }

  /** Part of a unit is not a unit. */
  lemma PartWaits(u: Unit, m: nat)
    requires WellFormed(u) && m < |Written(u)|
    ensures UnitSize(Written(u)[..m]) == 0
  {
    var b := Written(u)[..m];
    match u
    case Packet(channel, payload) =>
      if m >= 4 {
        assert b[2] as int == |payload| / 256 && b[3] as int == |payload| % 256;
      }
    case Text(t) =>
      var i := FindBlankLine(b, 0);
      assert i < |b| ==> Blank(t, i);
  }

  /** What is done with it. */
  lemma UnitHandled(app: App, s: State, u: Unit)
    requires WellFormed(u) && 4 <= |Written(u)|
    ensures var t := HandleUnit(app, s, Written(u));
      && t.dead == (s.dead || TearsDown(app, u))
      && match u
         case Packet(channel, payload) =>
           t == s.(handled := s.handled + if channel as int == s.audio && app.talk && |payload| > 12 then [Talk(payload[12..])] else [])
         case Text(text) =>
           if |text| >= 2048 then t == s
           else t.handled == s.handled + [Request(text)]
                && t.audio == if app.effect(text).setAudio then app.effect(text).audio else s.audio
  {
    if u.Packet? && |u.payload| > 12 {
      assert Written(u)[16..] == u.payload[12..];
    }
  }

  // ---- the whole list ----

  lemma {:induction false} WholeIsExpected(app: App, s: State, us: seq<Unit>, tail: seq<byte>)
    requires !s.dead && (forall u :: u in us ==> WellFormed(u)) && UnitSize(tail) == 0
    ensures var w := Whole(app, s, Stream(us) + tail);
      w.handled == s.handled + Expected(app, s.audio, us) && (w.dead <==> exists u :: u in us && TearsDown(app, u))
    decreases |us|
  {
    hide HandleUnit, UnitSize, TearsDown;
    if us == [] {
      assert Stream(us) + tail == tail;
    } else {
      var u, rest := us[0], us[1..];
      var b := Stream(us) + tail;
      assert b == Written(u) + (Stream(rest) + tail);
      UnitReadsBack(u, Stream(rest) + tail);
      UnitHandled(app, s, u);
      var t := HandleUnit(app, s, Written(u));
      assert Whole(app, s, b) == Whole(app, t, Stream(rest) + tail);
      assert us == [u] + rest;
      if t.dead {
        TornDown(app, s, us);
        assert Whole(app, t, Stream(rest) + tail) == t;
      } else {
        WholeIsExpected(app, t, rest, tail);
        ExpectedStep(app, s, us, t);
      }
    }
  }

  lemma TornDown(app: App, s: State, us: seq<Unit>)
    requires us != [] && TearsDown(app, us[0])
    ensures Expected(app, s.audio, us) == [Request(us[0].text)]
  {
  }

  /** What one unit that does not tear down adds, and the talk channel behind it. */
  function First(app: App, audio: int, u: Unit): seq<Handled> {
    match u
    case Packet(channel, payload) => if channel as int == audio && app.talk && |payload| > 12 then [Talk(payload[12..])] else []
    case Text(t) => if |t| >= 2048 then [] else [Request(t)]
  }

  function NextAudio(app: App, audio: int, u: Unit): int {
    if u.Text? && |u.text| < 2048 && app.effect(u.text).setAudio then app.effect(u.text).audio else audio
  }

  lemma ExpectedFirst(app: App, audio: int, us: seq<Unit>)
    requires us != [] && !TearsDown(app, us[0])
    ensures Expected(app, audio, us) == First(app, audio, us[0]) + Expected(app, NextAudio(app, audio, us[0]), us[1..])
  {
    if us[0].Text? && |us[0].text| >= 2048 {
      assert [] + Expected(app, audio, us[1..]) == Expected(app, audio, us[1..]);
    }
  }

  lemma HandledFirst(app: App, s: State, u: Unit)
    requires WellFormed(u) && 4 <= |Written(u)| && !s.dead && !HandleUnit(app, s, Written(u)).dead
    ensures var t := HandleUnit(app, s, Written(u));
      !TearsDown(app, u) && t.handled == s.handled + First(app, s.audio, u) && t.audio == NextAudio(app, s.audio, u)
  {
    hide HandleUnit, Written, WellFormed;
    UnitHandled(app, s, u);
    assert s.handled + [] == s.handled;
  }

  lemma ExpectedStep(app: App, s: State, us: seq<Unit>, t: State)
    requires us != [] && WellFormed(us[0]) && 4 <= |Written(us[0])| && t == HandleUnit(app, s, Written(us[0])) && !t.dead && !s.dead
    ensures t.handled + Expected(app, t.audio, us[1..]) == s.handled + Expected(app, s.audio, us)
  {
    hide HandleUnit, Written, WellFormed, Expected, TearsDown, First, NextAudio;
    HandledFirst(app, s, us[0]);
    ExpectedFirst(app, s.audio, us);
  }

  /** For every list of units a client writes, part of one more at the end, and for every cut of the bytes into
      reads: what the server handles is what is expected of the list; behind a request that tears down, more
      may follow. */
  lemma ServedAsWritten(app: App, s: State, us: seq<Unit>, last: Unit, m: nat, sizes: nat -> nat)
    requires !s.dead && (forall u :: u in us ==> WellFormed(u)) && WellFormed(last) && m < |Written(last)|
    ensures var handled := Serve(app, s, [], Stream(us) + Written(last)[..m], 0, sizes).handled;
      && s.handled + Expected(app, s.audio, us) <= handled
      && ((forall u :: u in us ==> !TearsDown(app, u)) ==> handled == s.handled + Expected(app, s.audio, us))
  {
    hide Serve, Whole, UnitSize, TearsDown;
    var tail := Written(last)[..m];
    PartWaits(last, m);
    WholeIsExpected(app, s, us, tail);
    ServeIsWhole(app, s, [], Stream(us) + tail, 0, sizes);
    assert [] + (Stream(us) + tail) == Stream(us) + tail;
  }
}
