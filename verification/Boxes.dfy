/** ISO base media boxes: the growing buffer they are built in, and reading them back by
    section 4.2 of ISO/IEC 14496-12. */
module Boxes {
  import opened Bytes

  type Kind = s: seq<byte> | |s| == 4 witness [0, 0, 0, 0]

  datatype Box = Box(kind: Kind, body: seq<byte>)

  const U32_END: nat := 0x1_0000_0000

  /** The size counts the header; it is stored modulo 2^32. */
  function BoxBytes(b: Box): (r: seq<byte>)
    ensures |r| == 8 + |b.body|
  {
    BE((8 + |b.body|) % U32_END, 4) + b.kind + b.body
  }

  function BoxList(bs: seq<Box>): seq<byte> { if bs == [] then [] else BoxBytes(bs[0]) + BoxList(bs[1..]) }

  datatype Read = NoBox | OneBox(box: Box, rest: seq<byte>)

  /** The box at the start; its size must cover its header and lie within the data. */
  function ReadBox(d: seq<byte>): (r: Read)
    ensures r.OneBox? ==> |r.rest| < |d|
  {
    if |d| < 8 then NoBox
    else
      var n := FromBE(d[..4]);
      if n < 8 || n > |d| then NoBox else OneBox(Box(d[4..8], d[8..n]), d[n..])
  }

  function ReadBoxes(d: seq<byte>): seq<Box>
    decreases |d|
  {
    match ReadBox(d)
    case NoBox => []
    case OneBox(b, rest) => [b] + ReadBoxes(rest)
  }

  lemma BoxReadsBack(b: Box, rest: seq<byte>)
    requires 8 + |b.body| < U32_END
    ensures ReadBox(BoxBytes(b) + rest) == OneBox(b, rest)
  {
    hide BE;
    var d, n := BoxBytes(b) + rest, 8 + |b.body|;
    Pow256Values();
    BEFits(n, 4);
    assert d[..4] == BE(n, 4) && d[4..8] == b.kind && d[8..n] == b.body && d[n..] == rest;
  }

  /** Every box size is that of its bytes: a list of boxes is read back as it was written. */
  lemma {:induction false} BoxesReadBack(bs: seq<Box>)
    requires |BoxList(bs)| < U32_END
    ensures ReadBoxes(BoxList(bs)) == bs
    decreases |bs|
  {
    hide BoxBytes, ReadBox;
    if bs == [] {
      NoBoxAtEnd();
    } else {
      BoxReadsBack(bs[0], BoxList(bs[1..]));
      BoxesReadBack(bs[1..]);
    }
  }

  lemma NoBoxAtEnd()
    ensures ReadBox([]) == NoBox
  {
  }

  /** The body of the first box of a kind. */
  function Find(bs: seq<Box>, kind: Kind): (r: seq<seq<byte>>)
    ensures |r| <= 1
  {
    if bs == [] then [] else if bs[0].kind == kind then [bs[0].body] else Find(bs[1..], kind)
  }

  /** Following a path of kinds down. */
  function Lookup(d: seq<byte>, path: seq<Kind>): (r: seq<seq<byte>>)
    ensures |r| <= 1
    decreases |path|
  {
    if path == [] then [d]
    else
      var inner := Find(ReadBoxes(d), path[0]);
      if inner == [] then [] else Lookup(inner[0], path[1..])
  }

  // ---- the buffer ----

  class Buf {
    var p: array<byte>
    var len: nat

    ghost predicate Valid()
      reads this
    {
      len <= p.Length
    }

    ghost function Bytes(): seq<byte>
      requires Valid()
      reads this, p
    {
      p[..len]
    }

    constructor ()
      ensures Valid() && Bytes() == [] && fresh(p)
    {
      p, len := new byte[0], 0;
    }

    /** Room for `n` more bytes; a buffer that is too small more than doubles. */
    method Need(n: nat)
      requires Valid()
      modifies `p
      ensures Valid() && Bytes() == old(Bytes()) && len + n <= p.Length && (p == old(p) || fresh(p))
    {
      if len + n > p.Length {
        var grown := new byte[(len + n) * 2 + 256];
        forall i | 0 <= i < len {
          grown[i] := p[i];
        }
        assert grown[..len] == p[..len];
        p := grown;
      }
    }

    method Mem(d: seq<byte>)
      requires Valid()
      modifies this, p
      ensures Valid() && Bytes() == old(Bytes()) + d && (p == old(p) || fresh(p))
    {
      ghost var was := Bytes();
      Need(|d|);
      forall i | 0 <= i < |d| {
        p[len + i] := d[i];
      }
      assert p[..len + |d|] == was + d;
      len := len + |d|;
    }

    method B32(v: u32)
      requires Valid()
      modifies this, p
      ensures Valid() && Bytes() == old(Bytes()) + BE(v, 4) && (p == old(p) || fresh(p))
    {
      BE4(v);
      Mem([v / 0x100_0000 % 256, v / 0x1_0000 % 256, v / 0x100 % 256, v % 256]);
    }

    /** A number into a place left for it. */
    method Patch(pos: nat, v: u32)
      requires Valid() && pos + 4 <= len
      modifies p
      ensures Valid() && Bytes() == old(Bytes())[..pos] + BE(v, 4) + old(Bytes())[pos + 4..]
    {
      BE4(v);
      ghost var was := Bytes();
      p[pos], p[pos + 1], p[pos + 2], p[pos + 3] := v / 0x100_0000 % 256, v / 0x1_0000 % 256, v / 0x100 % 256, v % 256;
      Patched(was, p[..len], pos, BE(v, 4));
    }

    /** The header of a box whose size is not known yet. */
    method Begin(kind: Kind) returns (pos: nat)
      requires Valid()
      modifies this, p
      ensures Valid() && pos == |old(Bytes())| && Bytes() == old(Bytes()) + BE(0, 4) + kind && (p == old(p) || fresh(p))
    {
      pos := len;
      B32(0);
      Mem(kind);
    }

    /** The size into the header; everything since is the body. */
    method End(pos: nat, ghost before: seq<byte>, ghost kind: Kind, ghost body: seq<byte>)
      requires Valid() && pos == |before| && Bytes() == before + BE(0, 4) + kind + body
      modifies p
      ensures Valid() && Bytes() == before + BoxBytes(Box(kind, body))
    {
      hide BE;
      var sz := (len - pos) % U32_END;
      Patch(pos, sz);
      BoxClosed(before, BE(0, 4), BE(sz, 4), kind, body);
    }
  }

  lemma Patched(was: seq<byte>, now: seq<byte>, pos: nat, v: seq<byte>)
    requires pos + 4 <= |was| == |now| && |v| == 4
    requires forall i :: 0 <= i < |was| ==> now[i] == if pos <= i < pos + 4 then v[i - pos] else was[i]
    ensures now == was[..pos] + v + was[pos + 4..]
  {
  }

  lemma BoxClosed(before: seq<byte>, zero: seq<byte>, size: seq<byte>, kind: Kind, body: seq<byte>)
    requires |zero| == 4
    ensures var whole := before + zero + kind + body;
      whole[..|before|] + size + whole[|before| + 4..] == before + (size + kind + body)
  {
    var whole := before + zero + kind + body;
    assert whole[..|before|] == before && whole[|before| + 4..] == kind + body;
  }
}
