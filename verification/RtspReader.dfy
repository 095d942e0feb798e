/** The reading side of an RTSP connection: requests and interleaved talk audio out of one byte
    stream, whatever pieces the stream arrives in. */
module RtspReader {
  import opened Bytes

  const BUFFER: nat := 8192
  const MAX_REQUEST: nat := 2048
  const RTP_HEADER: nat := 12
  const DOLLAR: byte := 0x24

  // ---- units of the stream ----

  /** The end of a request: CR LF CR LF. */
  predicate BlankLineAt(b: seq<byte>, i: nat) { i + 4 <= |b| && b[i] == 13 && b[i + 1] == 10 && b[i + 2] == 13 && b[i + 3] == 10 }

  /** The first blank line from `from` on; the length when there is none. */
  function FindBlankLine(b: seq<byte>, from: nat): (i: nat)
    ensures i == |b| || (from <= i && BlankLineAt(b, i))
    decreases |b| - from
  {
    if from + 4 > |b| then |b| else if BlankLineAt(b, from) then from else FindBlankLine(b, from + 1)
  }

  /** The size of the unit at the start of `b`; 0 when it is not complete. */
  function UnitSize(b: seq<byte>): (n: nat)
    ensures n <= |b|
  {
    if b == [] then 0
    else if b[0] == DOLLAR then
      if |b| < 4 then 0
      else
        var total: nat := 4 + b[2] as int * 256 + b[3] as int;
        if |b| < total then 0 else total
    else
      var end := FindBlankLine(b, 0);
      if end == |b| then 0 else end + 4
  }

  // ---- what is done with them ----

  datatype Handled = Request(text: seq<byte>) | Talk(audio: seq<byte>)

  /** What a request does to the connection: it may set up the talk channel, or tear down. */
  datatype Effect = Effect(setAudio: bool, audio: int, teardown: bool)

  /** `talk` says whether the application takes talk audio; `effect` is the request handler. */
  datatype App = App(talk: bool, effect: seq<byte> -> Effect)

  datatype State = State(audio: int, dead: bool, handled: seq<Handled>)

  function HandleUnit(app: App, s: State, u: seq<byte>): State
    requires 4 <= |u|
  {
    if u[0] == DOLLAR then
      if u[1] as int == s.audio && app.talk && |u| - 4 > RTP_HEADER then s.(handled := s.handled + [Talk(u[4 + RTP_HEADER..])]) else s
    else if |u| < MAX_REQUEST then
      var e := app.effect(u);
      State(if e.setAudio then e.audio else s.audio, s.dead || e.teardown, s.handled + [Request(u)])
    else s
  }

  /** Handles the complete units of the buffer, one after the other. */
  function Drain(app: App, s: State, b: seq<byte>): (r: (State, seq<byte>))
    ensures |r.1| <= |b| && UnitSize(r.1) == 0
    decreases |b|
  {
    var n := UnitSize(b);
    if n == 0 then (s, b)
    else
      UnitAtLeast4(b);
      Drain(app, HandleUnit(app, s, b[..n]), b[n..])
  }

  lemma UnitAtLeast4(b: seq<byte>)
    ensures UnitSize(b) == 0 || 4 <= UnitSize(b) <= |b|
  {
  }

  /** The connection's loop: `buf` is buffered, `stream` still to come, and read number `k` brings
      at most `sizes(k)` bytes, at least one, and no more than the buffer has room for. */
  function Serve(app: App, s: State, buf: seq<byte>, stream: seq<byte>, k: nat, sizes: nat -> nat): State
    requires |buf| <= BUFFER
    decreases |stream|
  {
    if s.dead then s
    else
      var (t, rest) := Drain(app, s, buf);
      if |rest| == BUFFER then t.(dead := true)
      else
        var n := ReadSize(sizes(k), BUFFER - |rest|, |stream|);
        if n == 0 then t else Serve(app, t, rest + stream[..n], stream[n..], k + 1, sizes)
  }

  function ReadSize(wish: nat, room: nat, left: nat): (n: nat)
    requires room > 0
    ensures n <= room && n <= left && (n == 0 <==> left == 0)
  {
    var w := if wish == 0 then 1 else wish;
    var m := if w < room then w else room;
    if m < left then m else left
  }

  // ---- the stream parsed as a whole ----

  /** One unit after another, until a request tears down, a unit does not fit the buffer or the
      stream has no further complete unit. */
  function Whole(app: App, s: State, stream: seq<byte>): State
    decreases |stream|
  {
    var n := UnitSize(stream);
    if s.dead || n == 0 || n > BUFFER then s
    else
      UnitAtLeast4(stream);
      Whole(app, HandleUnit(app, s, stream[..n]), stream[n..])
  }

  // ---- units do not depend on what follows ----

  lemma {:induction false} FindExtends(a: seq<byte>, b: seq<byte>, from: nat)
    ensures FindBlankLine(a, from) < |a| ==> FindBlankLine(a + b, from) == FindBlankLine(a, from)
    ensures FindBlankLine(a + b, from) + 4 <= |a| ==> FindBlankLine(a, from) == FindBlankLine(a + b, from)
    decreases |a| - from
  {
    if from + 4 <= |a| {
      assert forall j :: from <= j < from + 4 ==> (a + b)[j] == a[j];
      if !BlankLineAt(a, from) {
        FindExtends(a, b, from + 1);
      }
    }
  }

  /** A complete unit stays the same unit, and an incomplete one is completed only by more bytes. */
  lemma UnitExtends(a: seq<byte>, b: seq<byte>)
    ensures UnitSize(a) != 0 ==> UnitSize(a + b) == UnitSize(a)
    ensures UnitSize(a) == 0 ==> UnitSize(a + b) == 0 || UnitSize(a + b) > |a|
  {
    if a == [] {
    } else if a[0] == DOLLAR {
      assert |a| >= 4 ==> (a + b)[2] == a[2] && (a + b)[3] == a[3];
    } else {
      FindExtends(a, b, 0);
    }
  }

  /** Handling only adds to what was handled. */
  lemma {:induction false} DrainAdds(app: App, s: State, b: seq<byte>)
    ensures s.handled <= Drain(app, s, b).0.handled
    ensures s.dead ==> Drain(app, s, b).0.dead
    decreases |b|
  {
    var n := UnitSize(b);
    if n != 0 {
      UnitAtLeast4(b);
      DrainAdds(app, HandleUnit(app, s, b[..n]), b[n..]);
    }
  }

  /** Draining the buffer does the first part of parsing the whole; a request that tears down ends
      the whole, while the rest of the buffer is still drained. */
  lemma {:induction false} DrainIsWhole(app: App, s: State, b: seq<byte>, stream: seq<byte>)
    requires |b| <= BUFFER && !s.dead
    ensures var (t, rest) := Drain(app, s, b); var w := Whole(app, s, b + stream);
      && (t.dead ==> w.dead && w.handled <= t.handled)
      && (!t.dead ==> w == Whole(app, t, rest + stream))
    decreases |b|
  {
    var n := UnitSize(b);
    UnitExtends(b, stream);
    if n != 0 {
      UnitAtLeast4(b);
      var u := HandleUnit(app, s, b[..n]);
      assert (b + stream)[..n] == b[..n] && (b + stream)[n..] == b[n..] + stream;
      if u.dead {
        DrainAdds(app, u, b[n..]);
      } else {
        DrainIsWhole(app, u, b[n..], stream);
      }
    }
  }

  lemma IncompleteEnds(app: App, s: State, b: seq<byte>)
    requires UnitSize(b) == 0 || UnitSize(b) > BUFFER
    ensures Whole(app, s, b) == s
  {
  }

  /** For every stream and every way it is cut into reads, the requests and talk audio handled are
      those of the whole stream, up to a tear-down. */
  lemma {:induction false} ServeIsWhole(app: App, s: State, buf: seq<byte>, stream: seq<byte>, k: nat, sizes: nat -> nat)
    requires |buf| <= BUFFER && !s.dead
    ensures var r, w := Serve(app, s, buf, stream, k, sizes), Whole(app, s, buf + stream);
      if w.dead then w.handled <= r.handled else w.handled == r.handled
    decreases |stream|
  {
    hide UnitSize, Drain, Whole;
    DrainIsWhole(app, s, buf, stream);
    var (t, rest) := Drain(app, s, buf);
    UnitExtends(rest, stream);
    if |rest| == BUFFER {
      IncompleteEnds(app, t, rest + stream);
    } else {
      var n := ReadSize(sizes(k), BUFFER - |rest|, |stream|);
      if n == 0 {
        assert rest + stream == rest;
        IncompleteEnds(app, t, rest);
      } else if !t.dead {
        assert rest + stream == (rest + stream[..n]) + stream[n..];
        ServeIsWhole(app, t, rest + stream[..n], stream[n..], k + 1, sizes);
      } else {
        ServeDead(app, t, rest + stream[..n], stream[n..], k + 1, sizes);
      }
    }
  }

  lemma ServeDead(app: App, s: State, buf: seq<byte>, stream: seq<byte>, k: nat, sizes: nat -> nat)
    requires |buf| <= BUFFER && s.dead
    ensures Serve(app, s, buf, stream, k, sizes) == s
  {
  }

  /** So without a tear-down the cut makes no difference at all. */
  lemma CutDoesNotMatter(app: App, s: State, stream: seq<byte>, a: nat -> nat, b: nat -> nat)
    requires !s.dead && !Whole(app, s, stream).dead
    ensures Serve(app, s, [], stream, 0, a).handled == Serve(app, s, [], stream, 0, b).handled
  {
    assert [] + stream == stream;
    ServeIsWhole(app, s, [], stream, 0, a);
    ServeIsWhole(app, s, [], stream, 0, b);
  }

  // ---- after a tear-down the cut does matter ----

  const BLANK_REQUEST: seq<byte> := [13, 10, 13, 10]

  lemma TwoBlankRequests()
    ensures UnitSize(BLANK_REQUEST) == 4 && UnitSize(BLANK_REQUEST + BLANK_REQUEST) == 4
    ensures (BLANK_REQUEST + BLANK_REQUEST)[..4] == BLANK_REQUEST && (BLANK_REQUEST + BLANK_REQUEST)[4..] == BLANK_REQUEST
  {
    assert BlankLineAt(BLANK_REQUEST, 0);
    assert BlankLineAt(BLANK_REQUEST + BLANK_REQUEST, 0);
  }

  /** Two requests of which the first tears down: read at once both are handled, read one by one
      only the first. */
  lemma CutMattersAfterTeardown(app: App, s: State)
    requires !s.dead && app.effect(BLANK_REQUEST).teardown
    ensures var both := BLANK_REQUEST + BLANK_REQUEST;
      && Serve(app, s, [], both, 0, _ => 8).handled == s.handled + [Request(BLANK_REQUEST), Request(BLANK_REQUEST)]
      && Serve(app, s, [], both, 0, _ => 4).handled == s.handled + [Request(BLANK_REQUEST)]
  {
    hide UnitSize;
    TwoBlankRequests();
    var one, both := BLANK_REQUEST, BLANK_REQUEST + BLANK_REQUEST;
    NothingToDo();
    var t := HandleUnit(app, s, one);
    assert both[..8] == both && both[8..] == [] && [] + both == both && [] + one == one && one[4..] == [] && one[..4] == one;
    assert Drain(app, t, one) == Drain(app, HandleUnit(app, t, one), []);
    assert Drain(app, s, both) == Drain(app, t, one);
    assert Drain(app, s, one) == Drain(app, t, []);
    assert Serve(app, s, [], both, 0, _ => 8) == Serve(app, s, both, [], 1, _ => 8);
    assert Serve(app, s, [], both, 0, _ => 4) == Serve(app, s, one, one, 1, _ => 4);
    assert Serve(app, s, both, [], 1, _ => 8) == HandleUnit(app, t, one);
    ServeDead(app, t, [] + one, [], 2, _ => 4);
    assert Serve(app, s, one, one, 1, _ => 4) == t;
  }

  /** The first tear-down of a stream: the state behind it, the size of its unit, what follows it. */
  datatype Tear = NoTear | Tear(state: State, unit: nat, behind: seq<byte>)

  function FindTear(app: App, s: State, stream: seq<byte>): (r: Tear)
    requires !s.dead
    ensures r.Tear? ==> r.state.dead && 0 < r.unit <= BUFFER && r.unit + |r.behind| <= |stream|
    decreases |stream|
  {
    var n := UnitSize(stream);
    if n == 0 || n > BUFFER then NoTear
    else
      UnitAtLeast4(stream);
      var u := HandleUnit(app, s, stream[..n]);
      if u.dead then Tear(u, n, stream[n..]) else FindTear(app, u, stream[n..])
  }

  lemma {:induction false} TearIsWhole(app: App, s: State, stream: seq<byte>)
    requires !s.dead
    ensures var r := FindTear(app, s, stream); var w := Whole(app, s, stream);
      (r.Tear? <==> w.dead) && (r.Tear? ==> w == r.state)
    decreases |stream|
  {
    var n := UnitSize(stream);
    if n != 0 && n <= BUFFER {
      UnitAtLeast4(stream);
      var u := HandleUnit(app, s, stream[..n]);
      if !u.dead {
        TearIsWhole(app, u, stream[n..]);
      }
    }
  }

  /** What a cut may still have in the buffer behind the tear-down. */
  function Window(r: Tear): seq<byte>
    requires r.Tear? && r.unit <= BUFFER
  {
    if |r.behind| < BUFFER - r.unit then r.behind else r.behind[..BUFFER - r.unit]
  }

  // ---- every cut ----

  /** More bytes only add to what is handled. */
  lemma {:induction false} DrainGrows(app: App, s: State, a: seq<byte>, b: seq<byte>)
    ensures Drain(app, s, a).0.handled <= Drain(app, s, a + b).0.handled
    decreases |a|
  {
    var n := UnitSize(a);
    UnitExtends(a, b);
    if n == 0 {
      DrainAdds(app, s, a + b);
    } else {
      UnitAtLeast4(a);
      assert (a + b)[..n] == a[..n] && (a + b)[n..] == a[n..] + b;
      DrainGrows(app, HandleUnit(app, s, a[..n]), a[n..], b);
    }
  }

  /** Draining a buffer with a tear-down in it: the first part of what follows is drained too. Without
      one, the tear-down is still ahead. */
  lemma {:induction false} DrainTear(app: App, s: State, b: seq<byte>, stream: seq<byte>)
    requires !s.dead && |b| <= BUFFER && FindTear(app, s, b + stream).Tear?
    ensures var r := FindTear(app, s, b + stream); var (t, rest) := Drain(app, s, b);
      if t.dead then |b| >= r.unit && exists m: nat :: m <= |Window(r)| && t == Drain(app, r.state, Window(r)[..m]).0
      else FindTear(app, t, rest + stream) == r
    decreases |b|
  {
    var n := UnitSize(b);
    UnitExtends(b, stream);
    if n != 0 {
      UnitAtLeast4(b);
      var u := HandleUnit(app, s, b[..n]);
      assert (b + stream)[..n] == b[..n] && (b + stream)[n..] == b[n..] + stream;
      var r := FindTear(app, s, b + stream);
      if u.dead {
        DrainAdds(app, u, b[n..]);
        assert Window(r)[..|b| - n] == b[n..];
      } else {
        DrainTear(app, u, b[n..], stream);
      }
    }
  }

  /** Every cut handles what comes before the tear-down, the tear-down itself, and the units in some
      part of the window behind it. */
  lemma {:induction false} ServeTear(app: App, s: State, buf: seq<byte>, stream: seq<byte>, k: nat, sizes: nat -> nat)
    requires !s.dead && |buf| <= BUFFER && FindTear(app, s, buf + stream).Tear?
    ensures var r := FindTear(app, s, buf + stream);
      exists m: nat :: m <= |Window(r)| && Serve(app, s, buf, stream, k, sizes).handled == Drain(app, r.state, Window(r)[..m]).0.handled
    decreases |stream|
  {
    hide UnitSize, Drain, FindTear;
    var (t, rest) := Drain(app, s, buf);
    DrainTear(app, s, buf, stream);
    if t.dead {
      if |rest| < BUFFER {
        var n := ReadSize(sizes(k), BUFFER - |rest|, |stream|);
        if n > 0 {
          ServeDead(app, t, rest + stream[..n], stream[n..], k + 1, sizes);
        }
      }
    } else {
      TearAhead(app, t, rest, stream);
      var n := ReadSize(sizes(k), BUFFER - |rest|, |stream|);
      assert rest + stream == (rest + stream[..n]) + stream[n..];
      ServeTear(app, t, rest + stream[..n], stream[n..], k + 1, sizes);
    }
  }

  /** With a tear-down ahead there is more to read, and room for it. */
  lemma TearAhead(app: App, s: State, buf: seq<byte>, stream: seq<byte>)
    requires !s.dead && UnitSize(buf) == 0 && FindTear(app, s, buf + stream).Tear?
    ensures stream != [] && |buf| < BUFFER && |buf| < UnitSize(buf + stream) <= BUFFER
  {
    UnitExtends(buf, stream);
    assert stream == [] ==> buf + stream == buf;
  }

  // ---- the least and the most a cut can handle ----

  /** One byte at a time up to byte `p`, and then as much as there is room for. */
  function Bytewise(p: nat): nat -> nat { j => if j < p then 1 else BUFFER }

  /** A read of one byte completes at most one unit, which then is all of the buffer. */
  lemma OneByte(app: App, s: State, buf: seq<byte>, stream: seq<byte>)
    requires UnitSize(buf) == 0 && stream != []
    ensures var b := buf + stream[..1];
      && |b| == |buf| + 1 && b + stream[1..] == buf + stream
      && Drain(app, s, b) == (if UnitSize(b) == 0 then (s, b) else (HandleUnit(app, s, b), []))
      && (UnitSize(b) != 0 ==> UnitSize(b) == |b| == UnitSize(buf + stream) && 4 <= |b|)
  {
    var b := buf + stream[..1];
    assert b + stream[1..] == buf + stream;
    UnitExtends(buf, stream[..1]);
    UnitExtends(b, stream[1..]);
    if UnitSize(b) != 0 {
      UnitAtLeast4(b);
      assert b[..|b|] == b && b[|b|..] == [];
      NothingToDo();
    }
  }

  lemma ServeReadsOne(app: App, s: State, buf: seq<byte>, stream: seq<byte>, k: nat, p: nat)
    requires !s.dead && UnitSize(buf) == 0 && |buf| < BUFFER && stream != [] && k < p
    ensures Serve(app, s, buf, stream, k, Bytewise(p)) == Serve(app, s, buf + stream[..1], stream[1..], k + 1, Bytewise(p))
  {
    hide UnitSize;
  }

  /** The unit `b` comes first. */
  lemma TearBehind(app: App, s: State, b: seq<byte>, more: seq<byte>)
    requires !s.dead && 4 <= |b| == UnitSize(b + more) <= BUFFER
    ensures var u := HandleUnit(app, s, b); FindTear(app, s, b + more) == if u.dead then Tear(u, |b|, more) else FindTear(app, u, more)
  {
    hide UnitSize;
    assert (b + more)[..|b|] == b && (b + more)[|b|..] == more;
  }

  /** Reading byte by byte past the tear-down, nothing behind it is handled. */
  lemma {:induction false} LeastCut(app: App, s: State, buf: seq<byte>, stream: seq<byte>, k: nat, p: nat)
    requires !s.dead && UnitSize(buf) == 0 && |buf| <= BUFFER && FindTear(app, s, buf + stream).Tear?
    requires k + |stream| <= p
    ensures Serve(app, s, buf, stream, k, Bytewise(p)).handled == FindTear(app, s, buf + stream).state.handled
    decreases |stream|
  {
    hide UnitSize, Serve, FindTear, Drain;
    TearAhead(app, s, buf, stream);
    OneByte(app, s, buf, stream);
    ServeReadsOne(app, s, buf, stream, k, p);
    var b, more := buf + stream[..1], stream[1..];
    if UnitSize(b) == 0 {
      LeastCut(app, s, b, more, k + 1, p);
    } else {
      TearBehind(app, s, b, more);
      var u := HandleUnit(app, s, b);
      if u.dead {
        ServeOn(app, s, b, more, k + 1, Bytewise(p));
      } else {
        NothingToDo();
        assert [] + more == more;
        ServeAfterDrain(app, s, b, more, k + 1, Bytewise(p));
        LeastCut(app, u, [], more, k + 1, p);
      }
    }
  }

  /** A buffer with a tear-down: what its draining handled is all. */
  lemma ServeOn(app: App, s: State, buf: seq<byte>, stream: seq<byte>, k: nat, sizes: nat -> nat)
    requires !s.dead && |buf| <= BUFFER && Drain(app, s, buf).0.dead
    ensures Serve(app, s, buf, stream, k, sizes).handled == Drain(app, s, buf).0.handled
  {
    hide Drain;
    var (t, rest) := Drain(app, s, buf);
    if |rest| < BUFFER {
      var n := ReadSize(sizes(k), BUFFER - |rest|, |stream|);
      if n > 0 {
        ServeDead(app, t, rest + stream[..n], stream[n..], k + 1, sizes);
      }
    }
  }

  lemma ServeAfterDrain(app: App, s: State, buf: seq<byte>, stream: seq<byte>, k: nat, sizes: nat -> nat)
    requires !s.dead && |buf| <= BUFFER && !Drain(app, s, buf).0.dead
    ensures var (t, rest) := Drain(app, s, buf); Serve(app, s, buf, stream, k, sizes) == Serve(app, t, rest, stream, k, sizes)
  {
    var (t, rest) := Drain(app, s, buf);
    assert Drain(app, t, rest) == (t, rest);
  }

  /** Reading byte by byte up to the tear-down and then all there is room for, the whole window behind
      it is drained. */
  lemma {:induction false} MostCut(app: App, s: State, buf: seq<byte>, stream: seq<byte>, k: nat, p: nat)
    requires !s.dead && UnitSize(buf) == 0 && |buf| <= BUFFER && FindTear(app, s, buf + stream).Tear?
    requires var r := FindTear(app, s, buf + stream); p + r.unit + |r.behind| == k + |stream| && k <= p
    ensures var r := FindTear(app, s, buf + stream);
      Serve(app, s, buf, stream, k, Bytewise(p)).handled == Drain(app, r.state, Window(r)).0.handled
    decreases |stream|
  {
    hide UnitSize, Serve, FindTear, Drain, Window;
    TearAhead(app, s, buf, stream);
    if k == p {
      MostAtOnce(app, s, buf, stream, k);
    } else {
      var b, more := buf + stream[..1], stream[1..];
      OneByte(app, s, buf, stream);
      ServeReadsOne(app, s, buf, stream, k, p);
      if UnitSize(b) == 0 {
        MostCut(app, s, b, more, k + 1, p);
      } else {
        TearBehind(app, s, b, more);
        NothingToDo();
        assert [] + more == more;
        ServeAfterDrain(app, s, b, more, k + 1, Bytewise(p));
        MostCut(app, HandleUnit(app, s, b), [], more, k + 1, p);
      }
    }
  }

  /** The read that brings the tear-down together with as much as fits behind it. */
  lemma MostAtOnce(app: App, s: State, buf: seq<byte>, stream: seq<byte>, k: nat)
    requires !s.dead && UnitSize(buf) == 0 && |buf| < UnitSize(buf + stream) <= BUFFER && stream != []
    requires FindTear(app, s, buf + stream).Tear?
    requires var r := FindTear(app, s, buf + stream); r.unit + |r.behind| == |stream|
    ensures var r := FindTear(app, s, buf + stream);
      Serve(app, s, buf, stream, k, Bytewise(k)).handled == Drain(app, r.state, Window(r)).0.handled
  {
    hide UnitSize, Serve, FindTear, Drain, HandleUnit, Window;
    var n, r := UnitSize(buf + stream), FindTear(app, s, buf + stream);
    TearFirst(app, s, buf, stream);
    assert buf + stream == stream;
    var m := ReadSize(BUFFER, BUFFER, |stream|);
    var b := stream[..m];
    WindowRead(r, stream, m);
    UnitExtends(b, stream[m..]);
    DrainFirst(app, s, b, n);
    DrainAdds(app, r.state, b[n..]);
    ServeReadsMost(app, s, stream, k);
    ServeOn(app, s, b, stream[m..], k + 1, Bytewise(k));
  }

  lemma WindowRead(r: Tear, stream: seq<byte>, m: nat)
    requires r.Tear? && r.unit <= |stream| && r.unit <= BUFFER && r.behind == stream[r.unit..] && m == ReadSize(BUFFER, BUFFER, |stream|)
    ensures r.unit <= m <= |stream| && stream[..m][r.unit..] == Window(r) && stream[..m][..r.unit] == stream[..r.unit]
    ensures stream[..m] + stream[m..] == stream
  {
  }

  lemma DrainFirst(app: App, s: State, b: seq<byte>, n: nat)
    requires 4 <= n <= |b| && UnitSize(b) == n
    ensures Drain(app, s, b) == Drain(app, HandleUnit(app, s, b[..n]), b[n..])
  {
    hide UnitSize, HandleUnit;
  }

  lemma ServeReadsMost(app: App, s: State, stream: seq<byte>, k: nat)
    requires !s.dead && stream != []
    ensures var m := ReadSize(BUFFER, BUFFER, |stream|);
      Serve(app, s, [], stream, k, Bytewise(k)) == Serve(app, s, stream[..m], stream[m..], k + 1, Bytewise(k))
  {
    hide HandleUnit;
    var m := ReadSize(BUFFER, BUFFER, |stream|);
    assert [] + stream[..m] == stream[..m];
  }

  lemma {:induction false} TearFirst(app: App, s: State, buf: seq<byte>, stream: seq<byte>)
    requires !s.dead && |buf| < UnitSize(buf + stream) && FindTear(app, s, buf + stream).Tear?
    requires var r := FindTear(app, s, buf + stream); r.unit + |r.behind| == |stream|
    ensures var n, r := UnitSize(buf + stream), FindTear(app, s, buf + stream);
      buf == [] && r.unit == n && 4 <= n <= |stream| && r.state == HandleUnit(app, s, stream[..n]) && r.behind == stream[n..]
  {
    var n := UnitSize(buf + stream);
    UnitAtLeast4(buf + stream);
    var u := HandleUnit(app, s, (buf + stream)[..n]);
    if buf == [] {
      assert buf + stream == stream;
    }
  }

  /** Exactly when all cuts of a stream handle the same: when no request tears down, or nothing that
      fits the buffer together with the tear-down can be handled behind it. */
  lemma CutMattersExactly(app: App, s: State, stream: seq<byte>)
    requires !s.dead
    ensures var r := FindTear(app, s, stream);
      (forall a: nat -> nat, b: nat -> nat :: Serve(app, s, [], stream, 0, a).handled == Serve(app, s, [], stream, 0, b).handled)
      <==> r.NoTear? || Drain(app, r.state, Window(r)).0.handled == r.state.handled
  {
    hide Serve, Drain, Whole, FindTear, Window;
    var r := FindTear(app, s, stream);
    assert [] + stream == stream;
    TearIsWhole(app, s, stream);
    NothingToDo();
    if r.NoTear? {
      forall a: nat -> nat, b: nat -> nat
        ensures Serve(app, s, [], stream, 0, a).handled == Serve(app, s, [], stream, 0, b).handled
      {
        CutDoesNotMatter(app, s, stream, a, b);
      }
    } else {
      var least, most := Bytewise(|stream|), Bytewise(|stream| - r.unit - |r.behind|);
      LeastCut(app, s, [], stream, 0, |stream|);
      MostCut(app, s, [], stream, 0, |stream| - r.unit - |r.behind|);
      assert Serve(app, s, [], stream, 0, least).handled == r.state.handled;
      if Drain(app, r.state, Window(r)).0.handled == r.state.handled {
        forall a: nat -> nat, b: nat -> nat
          ensures Serve(app, s, [], stream, 0, a).handled == Serve(app, s, [], stream, 0, b).handled
        {
          NothingBehind(app, s, stream, a);
          NothingBehind(app, s, stream, b);
        }
      }
    }
  }

  lemma NothingBehind(app: App, s: State, stream: seq<byte>, a: nat -> nat)
    requires !s.dead && FindTear(app, s, stream).Tear?
    requires var r := FindTear(app, s, stream); Drain(app, r.state, Window(r)).0.handled == r.state.handled
    ensures Serve(app, s, [], stream, 0, a).handled == FindTear(app, s, stream).state.handled
  {
    hide Serve, Drain, FindTear;
    var r := FindTear(app, s, stream);
    assert [] + stream == stream;
    ServeTear(app, s, [], stream, 0, a);
    var m: nat :| m <= |Window(r)| && Serve(app, s, [], stream, 0, a).handled == Drain(app, r.state, Window(r)[..m]).0.handled;
    assert Window(r)[..m] + Window(r)[m..] == Window(r);
    DrainGrows(app, r.state, Window(r)[..m], Window(r)[m..]);
    DrainAdds(app, r.state, Window(r)[..m]);
  }

  lemma NothingToDo()
    ensures UnitSize([]) == 0
  {
  }
}
