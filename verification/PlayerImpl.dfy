/** Players as objects: over one segment, and over the segments of a group. */
module PlayerImpl {
  import opened Bytes
  import opened RecorderFormat
  import opened StorageDev
  import opened Index
  import opened Recorder
  import opened Device
  import opened Player
  import opened Faithful
  import opened Playback
  import opened GroupImpl
  import opened GroupSeek
  import opened PlaybackEnds
  import opened Walks
  import Crypto
  import IndexImpl

  datatype Delivery = Nothing(error: Error) | Delivered(hdr: FrameHdr, data: seq<byte>)

  class SegPlayer {
    const d: Device
    const seg: Slot
    const baseOff: nat
    const endOff: u32
    var curOff: u32

    ghost function Value(): Pl
      reads this
    {
      Pl(seg, baseOff, curOff, endOff)
    }

    constructor (d: Device, seg: Slot)
      ensures this.d == d && Value() == PlayOpen(d.State(), seg)
    {
      this.d, this.seg := d, seg;
      baseOff := d.sb.dataStartSec * SEC + seg.startChunk * (d.sb.chunkSectors * SEC);
      curOff, endOff := seg.startOff, seg.endOff;
    }

    method Header(off: u32) returns (r: HdrResult)
      ensures r == ReadHdr(d.State(), Value(), off)
    {
      hide DecodeHdr, EncodeHdr;
      var buf := d.PRead(baseOff + off, HDR_SIZE);
      var h := DecodeHdr(buf[..]);
      if h.magic != FRAME_MAGIC {
        return BadHdr(NotFound);
      }
      var t := h.(crc := 0);
      if d.prims.crc(EncodeHdr(t)) != h.crc {
        return BadHdr(Corrupt);
      }
      r := GoodHdr(h);
    }

    /** The next frame, deciphered in the player's buffer. */
    method Next() returns (r: Delivery)
      modifies this
      ensures match NextFrame(old(d.State()), old(Value()))
        case Stop(e) => r == Nothing(e) && Value() == old(Value())
        case Got(h, data, rest) => r == Delivered(h, data) && Value() == rest
    {
      hide ReadHdr, Crypto.Xcrypt, NextOff;
      if curOff > endOff {
        return Nothing(NotFound);
      }
      var hr := Header(curOff);
      match hr {
        case BadHdr(e) =>
          return Nothing(e);
        case GoodHdr(h) =>
          var buf := d.PRead(baseOff + curOff + HDR_SIZE, h.payloadLen);
          if h.enc != 0 {
            match d.dek {
              case NoKey =>
                return Nothing(Error.Crypto);
              case HasKey(key) =>
                assert buf[..buf.Length] == buf[..];
                Crypto.XcryptInPlace(d.prims.aes, key, h.segId, h.frameSeq, 0, buf, buf.Length);
                assert buf[..buf.Length] == buf[..];
            }
          }
          curOff := NextOff(curOff, h.payloadLen);
          r := Delivered(h, buf[..]);
      }
    }

    /** Seeking walks the headers from the start of the segment, and comes to rest on the last one of the
        leading run that is not later than the request. It returns whenever that walk ends. */
    method SeekPts(pts: u64)
      requires Ends(SeekStep(d.State(), Value(), pts), seg.startOff)
      modifies this
      ensures forall n: nat :: After(SeekStep(old(d.State()), old(Value()), pts), seg.startOff, n) == Halt ==>
        Value() == old(Value()).(curOff := SeekRest(SeekStep(old(d.State()), old(Value()), pts), seg.startOff, seg.startOff, n))
    {
      hide ReadHdr, NextOff;
      var off: u32, best: u32 := seg.startOff, seg.startOff;
      ghost var s, p := d.State(), Value();
      ghost var f := SeekStep(s, p, pts);
      ghost var n: nat :| After(f, off, n) == Halt;
      ghost var m: nat := n;
      while off <= endOff
        invariant d.State() == s && Value() == p
        invariant After(f, off, m) == Halt && SeekRest(f, seg.startOff, seg.startOff, n) == SeekRest(f, off, best, m)
        decreases m
      {
        var hr := Header(off);
        if hr.BadHdr? {
          break;
        }
        if hr.hdr.pts <= pts {
          best := off;
        } else {
          break;
        }
        off, m := NextOff(off, hr.hdr.payloadLen), m - 1;
      }
      assert f(off) == Halt && best == SeekRest(f, seg.startOff, seg.startOff, n);
      forall k: nat | After(f, seg.startOff, k) == Halt
        ensures best == SeekRest(f, seg.startOff, seg.startOff, k)
      {
        SeekRestSame(f, seg.startOff, seg.startOff, n, k);
      }
      curOff := best;
    }
  }

  // ---- across disks ----

  lemma RemoveAt(s: seq<Slot>, j: nat)
    requires j < |s|
    ensures multiset(s) == multiset{s[j]} + multiset(s[..j] + s[j + 1..])
  {
    assert s == s[..j] + ([s[j]] + s[j + 1..]);
  }

  lemma {:induction false} TaggedPermutes(s: seq<Slot>, t: seq<Slot>, disk: u16)
    requires multiset(s) == multiset(t)
    ensures multiset(Tagged(s, disk)) == multiset(Tagged(t, disk))
    decreases |s|
  {
    hide Tagged;
    assert |s| == |multiset(s)| == |multiset(t)| == |t|;
    if s == [] {
      assert s == t;
    } else {
      assert s[0] in multiset(s) && s[0] in t;
      var j :| 0 <= j < |t| && t[j] == s[0];
      RemoveAt(s, 0); RemoveAt(t, j);
      RemovedSame(multiset(s[..0] + s[1..]), multiset(t[..j] + t[j + 1..]), multiset(s), s[0]);
      TaggedPermutes(s[..0] + s[1..], t[..j] + t[j + 1..], disk);
      TagRemoved(s, 0, disk); TagRemoved(t, j, disk);
    }
  }

  lemma TagRemoved(s: seq<Slot>, j: nat, disk: u16)
    requires j < |s|
    ensures multiset(Tagged(s, disk)) == multiset{s[j].(startDisk := disk)} + multiset(Tagged(s[..j] + s[j + 1..], disk))
  {
    var ts := Tagged(s, disk);
    RemoveAt(ts, j);
    assert ts[..j] + ts[j + 1..] == Tagged(s[..j] + s[j + 1..], disk);
  }

  lemma RemovedSame(a: multiset<Slot>, b: multiset<Slot>, m: multiset<Slot>, x: Slot)
    requires m == multiset{x} + a == multiset{x} + b
    ensures a == b
  {
    assert a == m - multiset{x} == b;
  }

  /** Renames the answers of one disk to its position in the group. */
  method Rename(out: array<Slot>, base: nat, n: nat, disk: u16)
    requires base + n <= out.Length
    modifies out
    ensures out[base..base + n] == Tagged(old(out[base..base + n]), disk) && out[..base] == old(out[..base])
  {
    var k := 0;
    while k < n
      invariant 0 <= k <= n
      invariant forall x :: 0 <= x < out.Length ==>
        out[x] == if base <= x < base + k then old(out[x]).(startDisk := disk) else old(out[x])
    {
      out[base + k] := out[base + k].(startDisk := disk);
      k := k + 1;
    }
  }

  /** One disk's part of a group query. */
  method QueryDisk(d: Device, disk: u16, q: Filter, out: array<Slot>, base: nat, cap: nat) returns (got: nat)
    requires base + cap <= out.Length
    modifies out
    ensures got == |Collect(d.State(), q, 0, cap)| && got <= cap && out[..base] == old(out[..base])
    ensures multiset(out[base..base + got]) == multiset(Tagged(Collect(d.State(), q, 0, cap), disk))
  {
    hide Collect;
    got := IndexImpl.Query(d, q, out, base, cap);
    TaggedPermutes(out[base..base + got], Collect(d.State(), q, 0, cap), disk);
    Rename(out, base, got, disk);
  }

  lemma GroupCollectStep(s: seq<Dev>, q: Filter, i: nat, cap: nat)
    requires i < |s| && cap > 0
    ensures var here := Tagged(Collect(s[i], q, 0, cap), i % 0x1_0000);
      && |here| <= cap
      && multiset(GroupCollect(s, q, i, cap)) == multiset(here) + multiset(GroupCollect(s, q, i + 1, cap - |here|))
  {
    hide Collect;
  }

  lemma Appended(whole: seq<Slot>, a: seq<Slot>, b: seq<Slot>)
    requires |whole| == |a| + |b| && whole[..|a|] == a && whole[|a|..] == b
    ensures multiset(whole) == multiset(a) + multiset(b)
  {
    assert whole == a + b;
  }

  /** Disk `i`'s answers behind those already there. */
  method AddDisk(ds: seq<Device>, i: nat, q: Filter, out: array<Slot>, total: nat, cap: nat) returns (got: nat)
    requires i < |ds| <= 0x1_0000 && total + cap <= out.Length
    modifies out
    ensures got == |Tagged(Collect(old(States(ds))[i], q, 0, cap), i)| && got <= cap
    ensures multiset(out[..total + got]) == multiset(old(out[..total])) + multiset(Tagged(Collect(old(States(ds))[i], q, 0, cap), i))
    ensures States(ds) == old(States(ds))
  {
    hide Collect;
    ghost var s := States(ds);
    ghost var before := out[..total];
    got := QueryDisk(ds[i], i, q, out, total, cap);
    Appended(out[..total + got], before, out[total..total + got]);
    assert forall j :: 0 <= j < |ds| ==> States(ds)[j] == s[j];
  }

  /** The answers `done` are those of the disks before `i`; the later ones may give `cap` more. */
  ghost predicate Gathered(s: seq<Dev>, q: Filter, whole: seq<Slot>, done: seq<Slot>, i: nat, cap: nat) {
    multiset(done) + multiset(GroupCollect(s, q, i, cap)) == multiset(whole)
  }

  lemma GatherStep(s: seq<Dev>, q: Filter, whole: seq<Slot>, done: seq<Slot>, more: seq<Slot>, i: nat, cap: nat)
    requires i < |s| && cap > 0 && Gathered(s, q, whole, done, i, cap)
    requires multiset(more) == multiset(done) + multiset(Tagged(Collect(s[i], q, 0, cap), i % 0x1_0000))
    requires |Collect(s[i], q, 0, cap)| <= cap
    ensures Gathered(s, q, whole, more, i + 1, cap - |Collect(s[i], q, 0, cap)|)
  {
    hide Collect, GroupCollect;
    GroupCollectStep(s, q, i, cap);
  }

  lemma GatherEnds(s: seq<Dev>, q: Filter, whole: seq<Slot>, done: seq<Slot>, i: nat, cap: nat)
    requires i >= |s| || cap == 0
    ensures Gathered(s, q, whole, done, i, cap) ==> multiset(done) == multiset(whole)
  {
    GroupCollectEnds(s, q, i, cap);
  }

  /** Disk `i`'s turn. */
  method GatherDisk(ds: seq<Device>, i: nat, q: Filter, out: array<Slot>, total: nat, cap: nat, ghost whole: seq<Slot>)
    returns (got: nat)
    requires i < |ds| <= 0x1_0000 && total + cap <= out.Length && cap > 0
    requires Gathered(States(ds), q, whole, out[..total], i, cap)
    modifies out
    ensures got <= cap && States(ds) == old(States(ds))
    ensures Gathered(old(States(ds)), q, whole, out[..total + got], i + 1, cap - got)
  {
    hide Collect, GroupCollect, Gathered, States;
    ghost var s, done := States(ds), out[..total];
    got := AddDisk(ds, i, q, out, total, cap);
    GatherStep(s, q, whole, done, out[..total + got], i, cap);
  }

  /** All disks' answers, disk by disk. */
  method GatherGroup(ds: seq<Device>, q: Filter, out: array<Slot>, cap: nat) returns (total: nat)
    requires |ds| <= 0x1_0000 && cap <= out.Length
    modifies out
    ensures total <= cap && multiset(out[..total]) == multiset(GroupCollect(old(States(ds)), q, 0, cap))
  {
    hide GroupCollect, States, Gathered;
    ghost var s := States(ds);
    ghost var whole := GroupCollect(s, q, 0, cap);
    total := 0;
    var i := 0;
    NothingGathered(s, q, cap, out[..0]);
    while i < |ds| && total < cap
      invariant 0 <= i <= |ds| && total <= cap && States(ds) == s
      invariant Gathered(s, q, whole, out[..total], i, cap - total)
    {
      var got := GatherDisk(ds, i, q, out, total, cap - total, whole);
      i, total := i + 1, total + got;
    }
    GatherEnds(s, q, whole, out[..total], i, cap - total);
  }

  lemma NothingGathered(s: seq<Dev>, q: Filter, cap: nat, done: seq<Slot>)
    requires done == []
    ensures Gathered(s, q, GroupCollect(s, q, 0, cap), done, 0, cap)
  {
    hide GroupCollect;
  }

  /** All disks' answers, by start time. */
  method GroupQuery(ds: seq<Device>, q: Filter, out: array<Slot>, cap: nat) returns (total: nat)
    requires |ds| <= 0x1_0000 && cap <= out.Length
    modifies out
    ensures total <= cap && IndexImpl.Sorted(out[..total])
    ensures multiset(out[..total]) == multiset(GroupCollect(old(States(ds)), q, 0, cap))
  {
    hide GroupCollect;
    total := GatherGroup(ds, q, out, cap);
    assert out[0..0 + total] == out[..total];
    IndexImpl.SortByStart(out, 0, total);
    assert out[0..0 + total] == out[..total];
  }

  lemma GroupCollectEnds(s: seq<Dev>, q: Filter, i: nat, cap: nat)
    requires i >= |s| || cap == 0
    ensures GroupCollect(s, q, i, cap) == []
  {
  }

  datatype GroupDelivery = NothingLeft | FromDisk(hdr: FrameHdr, data: seq<byte>, disk: u16)

  lemma AcrossStep(s: seq<Dev>, segs: seq<Slot>, g: GroupPl)
    requires g.Playing? && g.cur < |segs| && segs[g.cur].startDisk < |s|
    ensures NextAcross(s, segs, g) == match NextFrame(s[segs[g.cur].startDisk], g.pl)
        case Got(h, data, rest) => GroupGot(h, data, segs[g.cur].startDisk, Playing(g.cur, rest))
        case Stop(_) => NextAcross(s, segs, OpenAt(s, segs, g.cur + 1))
  {
    hide NextFrame, OpenAt;
  }

  lemma NoMoreAcross(s: seq<Dev>, segs: seq<Slot>)
    ensures NextAcross(s, segs, Ended) == NoMore
  {
  }

  lemma OpenFields(d: Dev, seg: Slot)
    ensures PlayOpen(d, seg).seg == seg
  {
  }

  class GroupPlayer {
    const devs: seq<Device>
    const segs: seq<Slot>
    var cur: nat
    var pl: SegPlayer?

    ghost predicate Valid()
      reads this
    {
      pl != null ==> cur < |segs| && segs[cur].startDisk < |devs| && pl.d == devs[segs[cur].startDisk]
    }

    ghost function Value(): GroupPl
      reads this, pl
    {
      if pl == null then Ended else Playing(cur, pl.Value())
    }

    constructor (devs: seq<Device>, segs: seq<Slot>)
      ensures this.devs == devs && this.segs == segs && Valid() && Value() == OpenAt(States(devs), segs, 0)
      ensures pl != null ==> fresh(pl)
    {
      this.devs, this.segs := devs, segs;
      cur, pl := 0, null;
      new;
      OpenCurrent();
    }

    method OpenCurrent()
      modifies this
      ensures Valid() && cur == old(cur) && Value() == OpenAt(States(devs), segs, cur) && (pl != null ==> fresh(pl))
    {
      hide PlayOpen;
      pl := null;
      if cur < |segs| {
        var s := segs[cur];
        if s.startDisk < |devs| {
          pl := new SegPlayer(devs[s.startDisk], s);
        }
      }
    }

    /** The next frame of the current segment or, that one over, of a later one. */
    method Next() returns (r: GroupDelivery)
      requires Valid()
      modifies this, pl
      ensures Valid() && (pl == old(pl) || pl == null || fresh(pl)) && States(devs) == old(States(devs))
      ensures match NextAcross(old(States(devs)), segs, old(Value()))
        case NoMore => r == NothingLeft
        case GroupGot(h, data, disk, rest) => r == FromDisk(h, data, disk) && Value() == rest
    {
      hide NextFrame, PlayOpen, NextAcross;
      ghost var s := States(devs);
      while pl != null
        invariant Valid() && States(devs) == s
        invariant pl != null ==> pl == old(pl) || fresh(pl)
        invariant NextAcross(s, segs, Value()) == NextAcross(s, segs, old(Value()))
        decreases if pl == null then 0 else |segs| - cur
      {
        AcrossStep(s, segs, Value());
        var got := pl.Next();
        assert forall j :: 0 <= j < |devs| ==> States(devs)[j] == s[j];
        match got {
          case Delivered(h, data) =>
            return FromDisk(h, data, segs[cur].startDisk);
          case Nothing(_) =>
            cur := cur + 1;
            OpenCurrent();
            assert forall j :: 0 <= j < |devs| ==> States(devs)[j] == s[j];
        }
      }
      NoMoreAcross(s, segs);
      r := NothingLeft;
    }

    /** Seeking goes to the last segment of the leading run of those that begin in time, and seeks there. */
    method SeekPts(pts: u64)
      requires Valid() && SeekEndsAt(States(devs), segs, pts, Landing(States(devs), segs, pts, 0, 0))
      modifies this
      ensures Valid() && States(devs) == old(States(devs)) && cur == Landing(States(devs), segs, pts, 0, 0)
      ensures SeeksTo(States(devs), segs, pts, cur, Value())
    {
      hide NextFrame, PlayOpen, SeekStep, After, SeekRest, Ends, Landing;
      ghost var s := States(devs);
      cur := SegmentFor(pts);
      OpenCurrent();
      assert States(devs) == s;
      if pl != null {
        OpenFields(s[segs[cur].startDisk], segs[cur]);
        pl.SeekPts(pts);
        assert States(devs) == s;
      }
    }

    /** Looks at the first frame of one segment after the other. */
    method SegmentFor(pts: u64) returns (idx: nat)
      ensures States(devs) == old(States(devs)) && idx == Landing(States(devs), segs, pts, 0, 0)
    {
      hide NextFrame, PlayOpen;
      ghost var s := States(devs);
      idx := 0;
      var i := 0;
      while i < |segs|
        invariant 0 <= i <= |segs| && States(devs) == s && Landing(s, segs, pts, 0, 0) == Landing(s, segs, pts, i, idx)
      {
        if segs[i].startDisk < |devs| {
          var tmp := new SegPlayer(devs[segs[i].startDisk], segs[i]);
          assert States(devs) == s;
          var got := tmp.Next();
          assert States(devs) == s;
          if got.Delivered? {
            if got.hdr.pts > pts {
              break;
            }
            idx := i;
          }
        }
        i := i + 1;
      }
    }
  }
}
