/** The connection thread: one fixed buffer, compacted after every unit. */
module RtspConn {
  import opened Bytes
  import opened RtspReader

  class Conn {
    const app: App
    var audio: int
    var dead: bool
    var handled: seq<Handled>
    const buf: array<byte>
    var have: nat

    ghost predicate Valid()
      reads this
    {
      buf.Length == BUFFER && have <= BUFFER
    }

    ghost function Value(): State
      reads this
    {
      State(audio, dead, handled)
    }

    constructor (app: App)
      ensures Valid() && have == 0 && Value() == State(-1, false, []) && this.app == app && fresh(buf)
    {
      this.app, audio, dead, handled, have := app, -1, false, [], 0;
      buf := new byte[BUFFER];
    }

    /** The place of the first blank line among the buffered bytes. */
    method FindEnd() returns (i: nat)
      requires Valid()
      ensures i == FindBlankLine(buf[..have], 0)
    {
      ghost var b := buf[..have];
      i := 0;
      while i + 4 <= have
        invariant i <= have && FindBlankLine(b, i) == FindBlankLine(b, 0)
      {
        if buf[i] == 13 && buf[i + 1] == 10 && buf[i + 2] == 13 && buf[i + 3] == 10 {
          return;
        }
        i := i + 1;
      }
      i := have;
    }

    /** Moves the bytes behind the first `n` to the front. */
    method Compact(n: nat)
      requires Valid() && n <= have
      modifies `have, buf
      ensures Valid() && buf[..have] == old(buf[n..have])
    {
      ghost var was := buf[..];
      var i := 0;
      while i < have - n
        invariant Valid() && have == old(have) && 0 <= i <= have - n
        invariant forall j :: 0 <= j < i ==> buf[j] == was[n + j]
        invariant forall j :: i <= j < buf.Length ==> buf[j] == was[j]
      {
        buf[i] := buf[n + i];
        i := i + 1;
      }
      have := have - n;
    }

    /** The size of the unit at the front, 0 when more bytes are needed. */
    method FrontUnit() returns (n: nat)
      requires Valid()
      ensures n == UnitSize(buf[..have])
    {
      if have == 0 {
        return 0;
      }
      if buf[0] == DOLLAR {
        if have < 4 {
          return 0;
        }
        var plen: nat := buf[2] as int * 256 + buf[3] as int;
        var total := 4 + plen;
        n := if have < total then 0 else total;
      } else {
        var end := FindEnd();
        n := if end == have then 0 else end + 4;
      }
    }

    method HandleFront(n: nat)
      requires Valid() && 4 <= n <= have
      modifies `audio, `dead, `handled
      ensures Value() == HandleUnit(app, old(Value()), buf[..n])
    {
      ghost var u := buf[..n];
      if buf[0] == DOLLAR {
        if buf[1] as int == audio && app.talk && n - 4 > RTP_HEADER {
          assert u[4 + RTP_HEADER..] == buf[4 + RTP_HEADER..n];
          handled := handled + [Talk(buf[4 + RTP_HEADER..n])];
        }
      } else if n < MAX_REQUEST {
        var e := app.effect(buf[..n]);
        if e.setAudio {
          audio := e.audio;
        }
        if e.teardown {
          dead := true;
        }
        handled := handled + [Request(buf[..n])];
      }
    }

    /** Handles the complete units already buffered. */
    method DrainBuffer()
      requires Valid()
      modifies this, buf
      ensures Valid() && (Value(), buf[..have]) == Drain(app, old(Value()), old(buf[..have]))
    {
      hide UnitSize, HandleUnit;
      ghost var s0, b0 := Value(), buf[..have];
      while true
        invariant Valid() && Drain(app, Value(), buf[..have]) == Drain(app, s0, b0)
        decreases have
      {
        var n := FrontUnit();
        if n == 0 {
          break;
        }
        UnitAtLeast4(buf[..have]);
        ghost var b := buf[..have];
        assert b[..n] == buf[..n] && b[n..] == buf[n..have];
        HandleFront(n);
        Compact(n);
      }
    }

    /** Reads and handles until the peer closes, the buffer overflows or a request tears down;
        `stream` is what the peer sends, `sizes` how the reads cut it. */
    method Run(stream: seq<byte>, sizes: nat -> nat)
      requires Valid() && have == 0
      modifies this, buf
      ensures Valid() && Value() == Serve(app, old(Value()), [], stream, 0, sizes)
    {
      hide Drain;
      ghost var s0 := Value();
      var left := stream;
      var k := 0;
      assert buf[..have] == [];
      while !dead
        invariant Valid() && Serve(app, Value(), buf[..have], left, k, sizes) == Serve(app, s0, [], stream, 0, sizes)
        decreases |left|
      {
        DrainBuffer();
        if have == buf.Length {
          dead := true;
          break;
        }
        var n := ReadSize(sizes(k), buf.Length - have, |left|);
        if n == 0 {
          break;
        }
        ghost var before := buf[..have];
        forall i | 0 <= i < n {
          buf[have + i] := left[i];
        }
        assert buf[..have + n] == before + left[..n];
        have, left, k := have + n, left[n..], k + 1;
      }
    }
  }
}
