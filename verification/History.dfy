/** What the calls of a run leave in the history, said of the calls: which segment each frame given goes to,
    when a writer moves on, under which type its segments are closed; and that what a writer took is what is
    recorded, each frame once and in order. */
module History {
  import opened Bytes
  import opened RecorderFormat
  import opened StorageDev
  import opened Index
  import opened Recorder
  import opened Faithful
  import opened Group
  import opened IndexRing
  import opened Recording

  // ---- the room frames take ----

  /** A header of 64 bytes and the payload, filled up to a multiple of 128. */
  function Size(f: Frame): nat { (64 + |f.data| + 127) / 128 * 128 }

  function Room(fs: seq<Frame>): nat { if fs == [] then 0 else Size(fs[0]) + Room(fs[1..]) }

  function BytesPerChunk(d: Dev): nat { 512 * d.sb.chunkSectors }

  lemma {:induction false} RoomIs(fs: seq<Frame>)
    ensures Span(fs) == Room(fs)
    decreases |fs|
  {
    if fs != [] {
      var n := |fs| - 1;
      SizeIs(fs[n]);
      if n > 0 {
        RoomIs(fs[..n]);
        RoomIs(fs[1..]);
        RoomIs(fs[1..][..n - 1]);
        assert fs[..n][1..] == fs[1..][..n - 1] && fs[..n][0] == fs[0] && fs[1..][n - 1] == fs[n];
      } else {
        assert fs[..0] == [] && fs[1..] == [];
      }
    }
  }

  lemma SizeIs(f: Frame)
    ensures Need(f) == Size(f)
  {
  }

  /** The frame does not fit behind those of the segment. */
  predicate Crowded(d: Dev, seg: Seg, f: Frame) { seg.frames != [] && Room(seg.frames) + Size(f) > BytesPerChunk(d) }

  lemma CrowdedMoves(s: Sys, id: nat, f: Frame)
    requires SysInv(s) && id in s.writers && Known(s, id)
    requires var d := s.pool.devs[s.writers[id].dev]; 0 < |f.data| && 64 + |f.data| <= BytesPerChunk(d)
    ensures var d := s.pool.devs[s.writers[id].dev];
      Refusal(d, f).Ok? && (MustRotate(d, s.writers[id], f) <==> Crowded(d, SegOf(s, id), f))
  {
    hide SysInv, DiskInv, WriterAt, GeoOk, IdsOk, Span, Room, Size, Need, Need32;
    KnownDisks(s);
    assert WriterOk(s, id);
    var w := s.writers[id];
    var d, h, k := s.pool.devs[w.dev], s.hist[w.dev], s.at[id];
    assert DiskInv(d, h);
    WriterFill(d, h, w, k);
    RoomIs(h[k].frames);
    SizeIs(f);
    Rounded(d, w, f);
  }

  lemma WriterFill(d: Dev, h: seq<Seg>, w: Wr, k: nat)
    requires DiskInv(d, h) && WriterAt(d, h, w, k)
    ensures GeoOk(d) && k < |h| && w.curOff == Span(h[k].frames) <= ChunkBytes(d) && w.frameCount == |h[k].frames|
  {
    hide GeoOk, RingOk, SlotsOk, Span, PayloadBytes, Recorded;
    assert SegOk(d, k, h[k]);
  }

  lemma Rounded(d: Dev, w: Wr, f: Frame)
    requires GeoOk(d) && w.curOff <= ChunkBytes(d) && HDR_SIZE + |f.data| <= ChunkBytes(d)
    ensures U32(w.curOff + Need32(|f.data|)) == w.curOff + Need(f)
    ensures BytesPerChunk(d) == ChunkBytes(d)
  {
    hide AlignUp, Need32, Need, GeoOk;
    ChunkFacts(d);
    Need32Exact(d, f);
    NeedBounds(f);
  }

  lemma ChunkFacts(d: Dev)
    requires GeoOk(d)
    ensures ChunkBytes(d) == BytesPerChunk(d) && ChunkBytes(d) % 128 == 0 && ChunkBytes(d) < 0x8000_0000
  {
  }

  // ---- what each call does to the history ----

  /** The other writers stay as they are. */
  predicate OthersStay(s: Sys, t: Sys, id: nat) {
    && (forall o :: o in s.writers && o != id ==> o in t.writers && t.writers[o] == s.writers[o])
    && (forall o :: o in t.writers && o != id ==> o in s.writers)
    && (forall o :: o in s.at && o != id ==> o in t.at && t.at[o] == s.at[o])
    && (forall o :: o in t.at && o != id ==> o in s.at)
  }

  /** The writer is where it was, for the same channel, and under the type `rectype`. */
  predicate Stays(s: Sys, t: Sys, id: nat, rectype: u8)
    requires Known(s, id)
  {
    && Known(t, id) && t.at[id] == s.at[id] && t.writers[id].dev == s.writers[id].dev
    && t.writers[id].chn == s.writers[id].chn && t.writers[id].rectype == rectype && t.writers[id].grouped == s.writers[id].grouped
  }

  /** The writer stands at a new segment of disk `j` with these frames, the last one of that disk. */
  predicate Begins(h: seq<seq<Seg>>, t: Sys, id: nat, j: nat, w: Wr, fs: seq<Frame>) {
    && Known(t, id) && t.writers[id].dev == j && t.writers[id].chn == w.chn && t.writers[id].rectype == w.rectype
    && t.writers[id].grouped == w.grouped && (!w.grouped ==> j == w.dev)
    && j < |h| && t.at[id] == |h[j]| && |t.hist[j]| == |h[j]| + 1
    && t.hist == h[j := h[j] + [Seg(t.hist[j][|h[j]|].segId, w.chn, fs, 0, w.rectype, {})]]
  }

  /** The history when the writer's segment is closed once more, under the writer's type. */
  function Shut(s: Sys, id: nat): seq<seq<Seg>>
    requires Known(s, id)
  {
    var i, k := s.writers[id].dev, s.at[id];
    var seg, n := s.hist[i][k], |s.hist[i][k].frames|;
    var c := s.writers[id].rectype;
    s.hist[i := s.hist[i][k := Seg(seg.segId, seg.chn, seg.frames, n, c, seg.closings + {Closing(n, c)})]]
  }

  /** A new writer starts an empty segment for its channel and type, or there is none. */
  lemma OpenRecords(s: Sys, id: nat, grouped: bool, dev: nat, chn: u16, rectype: u8)
    requires SysInv(s) && Ready(s.pool) && |s.hist| == |s.pool.devs|
    requires var e := OpenWriter(id, grouped, dev, chn, rectype); Sensible(s, e) && Allowed(s, e)
    ensures var o := Step(s, OpenWriter(id, grouped, dev, chn, rectype));
      && OthersStay(s, o.sys, id)
      && (o.status.Ok? ==> exists j: nat, w: Wr :: w.chn == chn && w.rectype == rectype && w.grouped == grouped && (!grouped ==> w.dev == dev)
                              && Begins(s.hist, o.sys, id, j, w, []))
      && (o.status.Fail? ==> o.status == Fail(NoSpace) && o.sys.hist == s.hist && o.sys.writers == s.writers && o.sys.at == s.at)
  {
    hide SysInv, Begin, MayBegin, Load, Target, Begins, NewWriter;
    var w := NewWriter(grouped, dev, chn, rectype);
    NewIs(grouped, dev, chn, rectype);
    BeginRecords(s, id, w);
  }

  lemma NewIs(grouped: bool, dev: nat, chn: u16, rectype: u8)
    ensures var w := NewWriter(grouped, dev, chn, rectype);
      w.grouped == grouped && w.chn == chn && w.rectype == rectype && w.dev == (if grouped then 0 else dev)
  {
  }

  lemma BeginRecords(s: Sys, id: nat, w: Wr)
    requires SysInv(s) && Ready(s.pool) && w.dev < |s.pool.devs| == |s.hist| && MayBegin(s, id, w)
    requires id in s.writers ==> w == s.writers[id].(rectype := w.rectype) && Known(s, id)
    ensures var o := Begin(s, id, w);
      && OthersStay(s, o.sys, id)
      && (o.status.Ok? ==> Begins(s.hist, o.sys, id, Target(s.pool, w), w, []))
      && (o.status.Fail? ==> o.status == Fail(NoSpace) && o.sys.hist == s.hist && o.sys.at == s.at)
      && (o.status.Fail? && id in s.writers ==> Stays(s, o.sys, id, w.rectype))
  {
    hide SysInv, Begin, MayBegin, Load, StartOn, Target, FreshSeg, Ready, DisksOk, WritersOk, Separate, OthersStay, Begins, Stays;
    KnownDisks(s);
    if Begin(s, id, w).status.Fail? {
      FailedRecords(s, id, w);
    } else {
      StartedRecords(s, id, w);
    }
  }

  lemma FailedRecords(s: Sys, id: nat, w: Wr)
    requires SysInv(s) && Ready(s.pool) && w.dev < |s.pool.devs| == |s.hist| && MayBegin(s, id, w)
    requires id in s.writers ==> w == s.writers[id].(rectype := w.rectype) && Known(s, id)
    requires Begin(s, id, w).status.Fail?
    ensures var o := Begin(s, id, w);
      && OthersStay(s, o.sys, id) && o.status == Fail(NoSpace) && o.sys.hist == s.hist && o.sys.at == s.at
      && (id in s.writers ==> Stays(s, o.sys, id, w.rectype))
  {
    hide SysInv, Begin, MayBegin, Load, StartOn, Target, FreshSeg, Ready, DisksOk, WritersOk, Separate;
    KnownDisks(s);
    BeginOn(s, id, w);
    FailedBegin(s, id, w);
    StartFields(s.pool.devs[Target(s.pool, w)], w.(dev := Target(s.pool, w)));
  }

  lemma StartedRecords(s: Sys, id: nat, w: Wr)
    requires DisksOk(s) && Ready(s.pool) && w.dev < |s.pool.devs| == |s.hist| && Begin(s, id, w).status.Ok?
    ensures var o := Begin(s, id, w); OthersStay(s, o.sys, id) && Begins(s.hist, o.sys, id, Target(s.pool, w), w, [])
  {
    hide Begin, Load, StartOn, Target, FreshSeg, Ready, DisksOk;
    BeginOn(s, id, w);
    var i := Target(s.pool, w);
    StartFields(s.pool.devs[i], w.(dev := i));
    FreshIs(s.pool.devs[i], w.(dev := i));
    if !w.grouped {
      TargetOf(s.pool, w);
    }
  }

  lemma FreshIs(d: Dev, w: Wr)
    ensures var x := FreshSeg(d, w); x == Seg(x.segId, w.chn, [], 0, w.rectype, {})
  {
    hide SegIdOf;
  }

  lemma StartFields(d: Dev, w: Wr)
    ensures var r := StartOn(d, w); r.wr.rectype == w.rectype && r.wr.chn == w.chn && r.wr.dev == w.dev && r.wr.grouped == w.grouped
    ensures StartOn(d, w).status.Fail? ==> StartOn(d, w).status == Fail(NoSpace)
  {
    hide Alloc, Invalidate;
  }

  lemma ShutIs(s: Sys, id: nat)
    requires SysInv(s) && Ready(s.pool) && id in s.writers
    ensures var t := Finish(s, id);
      && SysInv(t) && Ready(t.pool) && Known(s, id) && Known(t, id)
      && t.hist == Shut(s, id) && t.writers == s.writers && t.at == s.at && |t.pool.devs| == |s.pool.devs|
  {
    hide SysInv, Finalize, Load, Ready, Finish, DisksOk;
    KnownDisks(s);
    InvKnown(s);
    FinishKeepsInv(s, id);
    FinishReady(s, id);
    FinishOn(s, id);
  }

  /** A writer that changes its type closes its segment under the old type and starts an empty one under
      the new; where there is no room for it, only the type changes. */
  lemma RetypeRecords(s: Sys, id: nat, rectype: u8)
    requires SysInv(s) && Ready(s.pool) && |s.hist| == |s.pool.devs| && id in s.writers && Known(s, id) && Allowed(s, Retype(id, rectype))
    ensures var o := Step(s, Retype(id, rectype));
      && OthersStay(s, o.sys, id)
      && (o.status.Ok? ==> exists j: nat :: Begins(Shut(s, id), o.sys, id, j, s.writers[id].(rectype := rectype), []))
      && (o.status.Fail? ==> o.status == Fail(NoSpace) && o.sys.hist == Shut(s, id) && Stays(s, o.sys, id, rectype))
  {
    hide SysInv, Begin, MayBegin, Load, Target, Begins, Shut, Finish;
    ShutIs(s, id);
    BeginRecords(Finish(s, id), id, s.writers[id].(rectype := rectype));
  }

  /** A writer that goes closes its segment. */
  lemma CloseRecords(s: Sys, id: nat)
    requires SysInv(s) && Ready(s.pool) && |s.hist| == |s.pool.devs| && id in s.writers && Known(s, id)
    ensures var o := Step(s, CloseWriter(id));
      && OthersStay(s, o.sys, id) && o.status == Ok && o.sys.hist == Shut(s, id) && id !in o.sys.writers && id !in o.sys.at
  {
    hide SysInv, Load, Shut, Finish, Group.Close, Finalize;
    ShutIs(s, id);
  }

  /** What becomes of a frame. One without payload is refused, as is one longer than a chunk. Otherwise it
      joins the frames of the writer's segment if it fits behind them; if not, that segment is closed and
      the frame is the first of a new one; and it is refused if there is no room for a new one. */
  lemma GiveRecords(s: Sys, id: nat, f: Frame)
    requires SysInv(s) && Ready(s.pool) && |s.hist| == |s.pool.devs| && id in s.writers && Known(s, id) && Allowed(s, Give(id, f))
    ensures var o := Step(s, Give(id, f));
      var i, k, w := s.writers[id].dev, s.at[id], s.writers[id];
      var d, seg := s.pool.devs[i], s.hist[i][k];
      && OthersStay(s, o.sys, id)
      && (|f.data| == 0 ==> o == Outcome(s, Fail(Param)))
      && (|f.data| > 0 && 64 + |f.data| > BytesPerChunk(d) ==> o == Outcome(s, Fail(NoSpace)))
      && (0 < |f.data| <= BytesPerChunk(d) - 64 && !Crowded(d, seg, f) ==>
            && o.status == Ok && Stays(s, o.sys, id, w.rectype)
            && o.sys.hist == s.hist[i := s.hist[i][k := seg.(frames := seg.frames + [f])]])
      && (0 < |f.data| <= BytesPerChunk(d) - 64 && Crowded(d, seg, f) ==>
            && (o.status.Ok? ==> exists j: nat :: Begins(Shut(s, id), o.sys, id, j, w, [f]))
            && (o.status.Fail? ==> o.status == Fail(NoSpace) && o.sys.hist == Shut(s, id) && Stays(s, o.sys, id, w.rectype)))
  {
    hide SysInv, Begin, Accept, Load, Finish, Crowded, Room, Size, MustRotate, Shut, Begins, Stays, OthersStay, Ready, Refusal, Step, Allowed;
    var d := s.pool.devs[s.writers[id].dev];
    RefusalIs(d, f);
    GiveUnfolds(s, id, f);
    if 0 < |f.data| && 64 + |f.data| <= BytesPerChunk(d) {
      CrowdedMoves(s, id, f);
      if MustRotate(d, s.writers[id], f) {
        CrowdedRecords(s, id, f);
      } else {
        AcceptRecords(s, id, f);
      }
    } else {
      SameOthers(s, id);
    }
  }

  lemma SameOthers(s: Sys, id: nat)
    ensures OthersStay(s, s, id)
  {
  }

  lemma RefusalIs(d: Dev, f: Frame)
    ensures Refusal(d, f) == if |f.data| == 0 then Fail(Param) else if 64 + |f.data| > BytesPerChunk(d) then Fail(NoSpace) else Ok
  {
  }

  lemma GiveUnfolds(s: Sys, id: nat, f: Frame)
    requires Ready(s.pool) && |s.hist| == |s.pool.devs| && Known(s, id)
    ensures Indexed(s, id)
    ensures var d := s.pool.devs[s.writers[id].dev];
      && (Refusal(d, f).Fail? ==> Step(s, Give(id, f)) == Outcome(s, Refusal(d, f)))
      && (Refusal(d, f).Ok? && !MustRotate(d, s.writers[id], f) ==> Step(s, Give(id, f)) == Outcome(Accept(s, id, f), Ok))
  {
    hide Begin, Accept, Load, Finish, MustRotate, Refusal;
  }

  lemma AcceptRecords(s: Sys, id: nat, f: Frame)
    requires Known(s, id) && Indexed(s, id)
    ensures var t, i, k := Accept(s, id, f), s.writers[id].dev, s.at[id];
      && OthersStay(s, t, id) && Stays(s, t, id, s.writers[id].rectype)
      && t.hist == s.hist[i := s.hist[i][k := s.hist[i][k].(frames := s.hist[i][k].frames + [f])]]
  {
    hide Accept, PutFrame;
    AcceptOn(s, id, f);
    PutKeepsPlace(s.pool.devs[s.writers[id].dev], s.writers[id], f);
  }

  lemma BeginsAccepts(h: seq<seq<Seg>>, s: Sys, t: Sys, id: nat, j: nat, w: Wr, f: Frame)
    requires Begins(h, s, id, j, w, []) && Stays(s, t, id, s.writers[id].rectype)
    requires var i, k := s.writers[id].dev, s.at[id]; t.hist == s.hist[i := s.hist[i][k := s.hist[i][k].(frames := s.hist[i][k].frames + [f])]]
    ensures Begins(h, t, id, j, w, [f])
  {
    var x := s.hist[j][|h[j]|];
    assert s.hist[j] == h[j] + [x] && x == Seg(x.segId, w.chn, [], 0, w.rectype, {});
    assert x.frames + [f] == [f];
    assert (h[j] + [x])[|h[j]| := x.(frames := [f])] == h[j] + [x.(frames := [f])];
    assert t.hist[j] == h[j] + [Seg(s.hist[j][|h[j]|].segId, w.chn, [f], 0, w.rectype, {})];
    assert t.hist == h[j := t.hist[j]];
  }

  lemma CrowdedRecords(s: Sys, id: nat, f: Frame)
    requires SysInv(s) && Ready(s.pool) && |s.hist| == |s.pool.devs| && id in s.writers && Known(s, id) && Allowed(s, Give(id, f)) && Rotates(s, id, f)
    ensures var o, w := Step(s, Give(id, f)), s.writers[id];
      && OthersStay(s, o.sys, id)
      && (o.status.Ok? ==> exists j: nat :: Begins(Shut(s, id), o.sys, id, j, w, [f]))
      && (o.status.Fail? ==> o.status == Fail(NoSpace) && o.sys.hist == Shut(s, id) && Stays(s, o.sys, id, w.rectype))
  {
    hide SysInv, Begin, Accept, Load, Finish, Refusal, MustRotate, Shut, Ready, MayBegin, Target, Begins;
    ShutIs(s, id);
    var t := Finish(s, id);
    BeginRecords(t, id, s.writers[id]);
    var b := Begin(t, id, s.writers[id]);
    if b.status.Ok? {
      AcceptRecords(b.sys, id, f);
      BeginsAccepts(Shut(s, id), b.sys, Accept(b.sys, id, f), id, Target(t.pool, s.writers[id]), s.writers[id], f);
    }
  }

  // ---- what a writer took is what is recorded ----

  /** A segment by its disk and number. */
  datatype Place = Place(disk: nat, number: nat)

  predicate Exists(h: seq<seq<Seg>>, p: Place) { p.disk < |h| && p.number < |h[p.disk]| }

  function FramesAt(h: seq<seq<Seg>>, p: Place): seq<Frame> { if Exists(h, p) then h[p.disk][p.number].frames else [] }

  function Joined(h: seq<seq<Seg>>, ps: seq<Place>): seq<Frame> {
    if ps == [] then [] else Joined(h, ps[..|ps| - 1]) + FramesAt(h, ps[|ps| - 1])
  }

  function PlaceOf(s: Sys, id: nat): Place
    requires Known(s, id)
  {
    Place(s.writers[id].dev, s.at[id])
  }

  /** What the calls for a writer since it was opened last amount to: the channel and type asked for, the
      frames taken, and the segments it has had. */
  datatype Session = Session(chn: u16, rectype: u8, taken: seq<Frame>, places: seq<Place>)

  ghost function Noted(s: Sys, e: Event, id: nat, b: Session): Session
    requires Ready(s.pool) && |s.hist| == |s.pool.devs|
  {
    var o := Step(s, e);
    if e.id != id || !Sensible(s, e) then b
    else match e
      case OpenWriter(_, _, _, chn, rectype) =>
        if o.status.Ok? && Known(o.sys, id) then Session(chn, rectype, [], [PlaceOf(o.sys, id)]) else b
      case Give(_, f) => Moved(o.sys, id, if o.status.Ok? then b.(taken := b.taken + [f]) else b)
      case Retype(_, rectype) => Moved(o.sys, id, b.(rectype := rectype))
      case CloseWriter(_) => b
  }

  /** The writer may stand at another segment now. */
  function Moved(s: Sys, id: nat, b: Session): Session {
    if Known(s, id) && (b.places == [] || b.places[|b.places| - 1] != PlaceOf(s, id)) then b.(places := b.places + [PlaceOf(s, id)]) else b
  }

  ghost function Told(s: Sys, es: seq<Event>, id: nat, b: Session): Session
    requires AllowedRun(s, es)
    decreases |es|
  {
    if es == [] then b else Told(Step(s, es[0]).sys, es[1..], id, Noted(s, es[0], id, b))
  }

  /** The segments are different ones, of the channel asked for, and their frames are those taken; while the
      writer is open it stands at the last of them, and no other writer stands at any. */
  ghost predicate Holds(s: Sys, id: nat, b: Session) {
    && (forall i :: 0 <= i < |b.places| ==> Exists(s.hist, b.places[i]) && s.hist[b.places[i].disk][b.places[i].number].chn == b.chn)
    && (forall i, j :: 0 <= i < j < |b.places| ==> b.places[i] != b.places[j])
    && Joined(s.hist, b.places) == b.taken
    && (id in s.writers ==> Known(s, id) && s.writers[id].chn == b.chn && s.writers[id].rectype == b.rectype
                            && b.places != [] && b.places[|b.places| - 1] == PlaceOf(s, id))
    && (forall o :: o in s.writers && o != id && Known(s, o) ==> PlaceOf(s, o) !in b.places)
  }

  predicate Kept(h: seq<seq<Seg>>, g: seq<seq<Seg>>, p: Place) {
    Exists(h, p) && Exists(g, p) && g[p.disk][p.number].frames == h[p.disk][p.number].frames && g[p.disk][p.number].chn == h[p.disk][p.number].chn
  }

  predicate Stands(s: Sys, id: nat, p: Place) { id in s.writers && Known(s, id) && PlaceOf(s, id) == p }

  /** One step, as far as frames go: writer `a` has added `fs` to its segment, or moved on to a new one with
      these, and nothing else has changed. */
  ghost predicate Adds(s: Sys, t: Sys, a: nat, fs: seq<Frame>) {
    && OthersStay(s, t, a)
    && (forall p :: Exists(s.hist, p) && !(Stands(s, a, p) && Stands(t, a, p)) ==> Kept(s.hist, t.hist, p))
    && (a !in t.writers ==> fs == [])
    && (a in t.writers ==> Known(t, a) && AddsAt(s, t, a, fs, PlaceOf(t, a)))
  }

  ghost predicate AddsAt(s: Sys, t: Sys, a: nat, fs: seq<Frame>, p: Place)
    requires a in t.writers
  {
    && Exists(t.hist, p) && FramesAt(t.hist, p) == FramesAt(s.hist, p) + fs
    && (Exists(s.hist, p) ==> Stands(s, a, p) && s.hist[p.disk][p.number].chn == t.hist[p.disk][p.number].chn)
    && (!Exists(s.hist, p) ==> t.hist[p.disk][p.number].chn == t.writers[a].chn)
  }

  ghost predicate AllKept(h: seq<seq<Seg>>, g: seq<seq<Seg>>) {
    |g| == |h| && (forall i :: 0 <= i < |h| ==> |g[i]| == |h[i]|) && forall p :: Exists(h, p) ==> Kept(h, g, p)
  }

  lemma ShutKept(s: Sys, id: nat)
    requires Known(s, id)
    ensures AllKept(s.hist, Shut(s, id))
  {
  }

  lemma StaysAdds(s: Sys, t: Sys, id: nat, rectype: u8)
    requires Known(s, id) && id in s.writers && OthersStay(s, t, id) && Stays(s, t, id, rectype) && AllKept(s.hist, t.hist)
    ensures Adds(s, t, id, [])
  {
  }

  lemma GrowAdds(s: Sys, t: Sys, id: nat, f: Frame)
    requires Known(s, id) && id in s.writers && OthersStay(s, t, id) && Stays(s, t, id, s.writers[id].rectype)
    requires var i, k := s.writers[id].dev, s.at[id]; t.hist == s.hist[i := s.hist[i][k := s.hist[i][k].(frames := s.hist[i][k].frames + [f])]]
    ensures Adds(s, t, id, [f])
  {
  }

  lemma BeginsAdds(s: Sys, h: seq<seq<Seg>>, t: Sys, id: nat, j: nat, w: Wr, fs: seq<Frame>)
    requires OthersStay(s, t, id) && AllKept(s.hist, h) && Begins(h, t, id, j, w, fs)
    ensures Adds(s, t, id, fs)
  {
    var p := PlaceOf(t, id);
    assert !Exists(s.hist, p);
    forall p | Exists(s.hist, p)
      ensures Kept(s.hist, t.hist, p)
    {
      assert Kept(s.hist, h, p);
    }
  }

  lemma {:induction false} JoinedKept(h: seq<seq<Seg>>, g: seq<seq<Seg>>, ps: seq<Place>)
    requires forall i :: 0 <= i < |ps| ==> Kept(h, g, ps[i])
    ensures Joined(g, ps) == Joined(h, ps)
    decreases |ps|
  {
    if ps != [] {
      JoinedKept(h, g, ps[..|ps| - 1]);
      assert Kept(h, g, ps[|ps| - 1]);
    }
  }

  ghost predicate AllKnown(s: Sys) { forall o :: o in s.writers ==> Known(s, o) }

  lemma HoldsOther(s: Sys, t: Sys, a: nat, fs: seq<Frame>, id: nat, b: Session)
    requires Holds(s, id, b) && AllKnown(s) && AllKnown(t) && Adds(s, t, a, fs) && a != id
    ensures Holds(t, id, b)
  {
    hide Joined;
    forall i | 0 <= i < |b.places|
      ensures Kept(s.hist, t.hist, b.places[i])
    {
      assert !Stands(s, a, b.places[i]);
    }
    JoinedKept(s.hist, t.hist, b.places);
    forall o | o in t.writers && o != id && Known(t, o)
      ensures PlaceOf(t, o) !in b.places
    {
      if o == a {
        assert AddsAt(s, t, a, fs, PlaceOf(t, a));
      } else {
        assert Known(s, o);
      }
    }
  }

  lemma JoinedGrown(h: seq<seq<Seg>>, g: seq<seq<Seg>>, ps: seq<Place>, fs: seq<Frame>)
    requires ps != [] && forall i :: 0 <= i < |ps| - 1 ==> Kept(h, g, ps[i])
    requires FramesAt(g, ps[|ps| - 1]) == FramesAt(h, ps[|ps| - 1]) + fs
    ensures Joined(g, ps) == Joined(h, ps) + fs
  {
    hide FramesAt;
    JoinedKept(h, g, ps[..|ps| - 1]);
  }

  lemma JoinedMore(h: seq<seq<Seg>>, g: seq<seq<Seg>>, ps: seq<Place>, q: Place)
    requires forall i :: 0 <= i < |ps| ==> Kept(h, g, ps[i])
    ensures Joined(g, ps + [q]) == Joined(h, ps) + FramesAt(g, q)
  {
    hide FramesAt;
    JoinedKept(h, g, ps);
    assert (ps + [q])[..|ps|] == ps;
  }

  /** What becomes of the frames of a writer's segments. */
  lemma JoinedOwn(s: Sys, t: Sys, id: nat, fs: seq<Frame>, b: Session)
    requires Holds(s, id, b) && id in s.writers && Known(s, id) && Adds(s, t, id, fs) && id in t.writers
    ensures var c := Moved(t, id, b); Joined(t.hist, c.places) == b.taken + fs
  {
    hide OthersStay, AddsAt, Joined, Kept, FramesAt, Known, Exists;
    var n, q := |b.places| - 1, PlaceOf(t, id);
    if q == b.places[n] {
      LastGrows(s, t, id, fs, q);
      JoinedGrown(s.hist, t.hist, b.places, fs);
    } else {
      LastNew(s, t, id, fs, q);
      JoinedMore(s.hist, t.hist, b.places, q);
    }
  }

  lemma LastGrows(s: Sys, t: Sys, id: nat, fs: seq<Frame>, q: Place)
    requires id in t.writers && AddsAt(s, t, id, fs, q)
    ensures FramesAt(t.hist, q) == FramesAt(s.hist, q) + fs
  {
  }

  lemma LastNew(s: Sys, t: Sys, id: nat, fs: seq<Frame>, q: Place)
    requires id in t.writers && AddsAt(s, t, id, fs, q) && !Stands(s, id, q)
    ensures FramesAt(t.hist, q) == fs && !Exists(s.hist, q)
  {
  }

  lemma HoldsOwn(s: Sys, t: Sys, id: nat, fs: seq<Frame>, b: Session, rectype: u8)
    requires Holds(s, id, b) && AllKnown(s) && AllKnown(t) && id in s.writers && Adds(s, t, id, fs) && id in t.writers
    requires t.writers[id].chn == b.chn && t.writers[id].rectype == rectype
    ensures Holds(t, id, Moved(t, id, b.(rectype := rectype, taken := b.taken + fs)))
  {
    hide Joined;
    var b1 := b.(rectype := rectype, taken := b.taken + fs);
    JoinedOwn(s, t, id, fs, b);
    var q, c := PlaceOf(t, id), Moved(t, id, b1);
    assert c.places == Moved(t, id, b).places;
    assert AddsAt(s, t, id, fs, q);
    forall i | 0 <= i < |c.places|
      ensures Exists(t.hist, c.places[i]) && t.hist[c.places[i].disk][c.places[i].number].chn == b.chn
    {
      if c.places[i] != q {
        assert Kept(s.hist, t.hist, c.places[i]);
      }
    }
    forall o | o in t.writers && o != id && Known(t, o)
      ensures PlaceOf(t, o) !in c.places
    {
      assert Known(s, o) && PlaceOf(s, o) == PlaceOf(t, o);
    }
  }

  lemma HoldsGone(s: Sys, t: Sys, id: nat, b: Session)
    requires Holds(s, id, b) && AllKnown(s) && AllKnown(t) && Adds(s, t, id, []) && id !in t.writers
    ensures Holds(t, id, b)
  {
    hide Joined;
    forall i | 0 <= i < |b.places|
      ensures Kept(s.hist, t.hist, b.places[i])
    {
    }
    JoinedKept(s.hist, t.hist, b.places);
    forall o | o in t.writers && o != id && Known(t, o)
      ensures PlaceOf(t, o) !in b.places
    {
      assert Known(s, o);
    }
  }

  lemma HoldsOpened(s: Sys, t: Sys, id: nat, j: nat, w: Wr)
    requires AllKnown(s) && AllKnown(t) && OthersStay(s, t, id) && Begins(s.hist, t, id, j, w, []) && id in t.writers
    ensures Holds(t, id, Session(w.chn, w.rectype, [], [PlaceOf(t, id)]))
  {
    var q := PlaceOf(t, id);
    assert [q][..0] == [];
    forall o | o in t.writers && o != id && Known(t, o)
      ensures PlaceOf(t, o) != q
    {
      assert Known(s, o);
    }
  }

  /** What a step adds and to which writer. */
  function Added(e: Event, taken: bool): seq<Frame> { if e.Give? && taken then [e.frame] else [] }

  lemma StepAdds(s: Sys, e: Event)
    requires SysInv(s) && Ready(s.pool) && |s.hist| == |s.pool.devs| && Allowed(s, e) && Sensible(s, e)
    requires e.OpenWriter? || e.id in s.writers
    ensures Adds(s, Step(s, e).sys, e.id, Added(e, Step(s, e).status.Ok?))
  {
    hide SysInv, Step, Allowed, OthersStay, Stays, Begins, Shut, AllKept, Adds, Crowded;
    match e
    case OpenWriter(id, grouped, dev, chn, rectype) => OpenAdds(s, id, grouped, dev, chn, rectype);
    case Give(id, f) => GiveAdds(s, id, f);
    case Retype(id, rectype) => RetypeAdds(s, id, rectype);
    case CloseWriter(id) => CloseAdds(s, id);
  }

  lemma SameKept(h: seq<seq<Seg>>)
    ensures AllKept(h, h)
  {
  }

  lemma OpenAdds(s: Sys, id: nat, grouped: bool, dev: nat, chn: u16, rectype: u8)
    requires SysInv(s) && Ready(s.pool) && |s.hist| == |s.pool.devs|
    requires var e := OpenWriter(id, grouped, dev, chn, rectype); Sensible(s, e) && Allowed(s, e)
    ensures Adds(s, Step(s, OpenWriter(id, grouped, dev, chn, rectype)).sys, id, [])
  {
    hide SysInv, Step, Allowed, OthersStay, Begins;
    OpenRecords(s, id, grouped, dev, chn, rectype);
    var o := Step(s, OpenWriter(id, grouped, dev, chn, rectype));
    if o.status.Ok? {
      var j: nat, w: Wr :| w.chn == chn && w.rectype == rectype && Begins(s.hist, o.sys, id, j, w, []);
      SameKept(s.hist);
      BeginsAdds(s, s.hist, o.sys, id, j, w, []);
    }
  }

  lemma GiveAdds(s: Sys, id: nat, f: Frame)
    requires SysInv(s) && Ready(s.pool) && |s.hist| == |s.pool.devs| && id in s.writers && Known(s, id) && Allowed(s, Give(id, f))
    ensures Adds(s, Step(s, Give(id, f)).sys, id, Added(Give(id, f), Step(s, Give(id, f)).status.Ok?))
  {
    hide SysInv, Step, Allowed, OthersStay, Stays, Begins, Shut, AllKept, Adds, Crowded;
    GiveRecords(s, id, f);
    var o, w := Step(s, Give(id, f)), s.writers[id];
    var d, seg := s.pool.devs[w.dev], SegOf(s, id);
    if |f.data| == 0 || 64 + |f.data| > BytesPerChunk(d) {
      SameAdds(s, id);
    } else if !Crowded(d, seg, f) {
      GrowAdds(s, o.sys, id, f);
    } else {
      ShutKept(s, id);
      if o.status.Ok? {
        var j: nat :| Begins(Shut(s, id), o.sys, id, j, w, [f]);
        BeginsAdds(s, Shut(s, id), o.sys, id, j, w, [f]);
      } else {
        StaysAdds(s, o.sys, id, w.rectype);
      }
    }
  }

  lemma SameAdds(s: Sys, id: nat)
    requires id in s.writers && Known(s, id)
    ensures Adds(s, s, id, [])
  {
  }

  lemma RetypeAdds(s: Sys, id: nat, rectype: u8)
    requires SysInv(s) && Ready(s.pool) && |s.hist| == |s.pool.devs| && id in s.writers && Known(s, id) && Allowed(s, Retype(id, rectype))
    ensures Adds(s, Step(s, Retype(id, rectype)).sys, id, [])
  {
    hide SysInv, Step, Allowed, OthersStay, Stays, Begins, Shut, AllKept, Adds;
    RetypeRecords(s, id, rectype);
    ShutKept(s, id);
    var o := Step(s, Retype(id, rectype));
    if o.status.Ok? {
      var w := s.writers[id].(rectype := rectype);
      var j: nat :| Begins(Shut(s, id), o.sys, id, j, w, []);
      BeginsAdds(s, Shut(s, id), o.sys, id, j, w, []);
    } else {
      StaysAdds(s, o.sys, id, rectype);
    }
  }

  lemma CloseAdds(s: Sys, id: nat)
    requires SysInv(s) && Ready(s.pool) && |s.hist| == |s.pool.devs| && id in s.writers && Known(s, id)
    ensures Adds(s, Step(s, CloseWriter(id)).sys, id, [])
  {
    hide SysInv, Step, OthersStay, Shut, AllKept;
    CloseRecords(s, id);
    ShutKept(s, id);
    GoneAdds(s, Step(s, CloseWriter(id)).sys, id);
  }

  lemma GoneAdds(s: Sys, t: Sys, id: nat)
    requires OthersStay(s, t, id) && id !in t.writers && AllKept(s.hist, t.hist)
    ensures Adds(s, t, id, [])
  {
  }

  /** Channel and type of the writer are those asked for last. */
  lemma StepAsks(s: Sys, e: Event)
    requires SysInv(s) && Ready(s.pool) && |s.hist| == |s.pool.devs| && Allowed(s, e) && Sensible(s, e)
    requires e.id in s.writers && Known(s, e.id)
    ensures var t := Step(s, e).sys;
      e.id in t.writers ==> t.writers[e.id].chn == s.writers[e.id].chn
                            && t.writers[e.id].rectype == if e.Retype? then e.rectype else s.writers[e.id].rectype
  {
    hide SysInv, Step, Allowed, OthersStay, Shut, Crowded;
    match e
    case OpenWriter(id, grouped, dev, chn, rectype) =>
    case Give(id, f) => GiveRecords(s, id, f);
    case Retype(id, rectype) => RetypeRecords(s, id, rectype);
    case CloseWriter(id) => CloseRecords(s, id);
  }

  lemma StepHolds(s: Sys, e: Event, id: nat, b: Session)
    requires SysInv(s) && Ready(s.pool) && |s.hist| == |s.pool.devs| && Allowed(s, e) && Holds(s, id, b)
    ensures Holds(Step(s, e).sys, id, Noted(s, e, id, b))
  {
    hide SysInv, Step, Allowed, OthersStay, Adds, Holds, Moved, Known;
    var t := Step(s, e).sys;
    StepKeepsInv(s, e);
    InvKnown(s);
    InvKnown(t);
    if Sensible(s, e) {
      SensibleWriter(s, e);
      if e.OpenWriter? && e.id == id {
        OpenedHolds(s, id, e.grouped, e.dev, e.chn, e.rectype, b);
      } else {
        StepAdds(s, e);
        if e.id != id {
          HoldsOther(s, t, e.id, Added(e, Step(s, e).status.Ok?), id, b);
        } else {
          OwnHolds(s, e, b);
        }
      }
    } else {
      assert t == s by { Insensible(s, e); }
    }
  }

  lemma Insensible(s: Sys, e: Event)
    requires Ready(s.pool) && |s.hist| == |s.pool.devs| && !Sensible(s, e)
    ensures Step(s, e).sys == s
  {
    hide Begin, GiveFrame, CloseW, Finish;
  }

  lemma InvKnown(s: Sys)
    requires SysInv(s)
    ensures AllKnown(s) && |s.hist| == |s.pool.devs|
  {
    hide WriterAt, DiskInv, IdsOk;
    forall o | o in s.writers
      ensures Known(s, o)
    {
      assert WriterOk(s, o);
    }
  }

  lemma SensibleWriter(s: Sys, e: Event)
    requires Sensible(s, e)
    ensures !e.OpenWriter? ==> e.id in s.writers && Known(s, e.id)
  {
  }

  lemma OpenedHolds(s: Sys, id: nat, grouped: bool, dev: nat, chn: u16, rectype: u8, b: Session)
    requires SysInv(s) && Ready(s.pool) && |s.hist| == |s.pool.devs| && Holds(s, id, b)
    requires var e := OpenWriter(id, grouped, dev, chn, rectype); Sensible(s, e) && Allowed(s, e)
    requires AllKnown(s) && AllKnown(Step(s, OpenWriter(id, grouped, dev, chn, rectype)).sys)
    ensures var e := OpenWriter(id, grouped, dev, chn, rectype); Holds(Step(s, e).sys, id, Noted(s, e, id, b))
  {
    hide SysInv, Step, Allowed, OthersStay, Joined;
    OpenRecords(s, id, grouped, dev, chn, rectype);
    var o := Step(s, OpenWriter(id, grouped, dev, chn, rectype));
    if o.status.Ok? {
      var j: nat, w: Wr :| w.chn == chn && w.rectype == rectype && Begins(s.hist, o.sys, id, j, w, []);
      HoldsOpened(s, o.sys, id, j, w);
    }
  }

  lemma OwnHolds(s: Sys, e: Event, b: Session)
    requires SysInv(s) && Ready(s.pool) && |s.hist| == |s.pool.devs| && Allowed(s, e) && Sensible(s, e)
    requires e.id in s.writers && Known(s, e.id) && Holds(s, e.id, b) && !e.OpenWriter?
    requires AllKnown(s) && AllKnown(Step(s, e).sys) && Adds(s, Step(s, e).sys, e.id, Added(e, Step(s, e).status.Ok?))
    ensures Holds(Step(s, e).sys, e.id, Noted(s, e, e.id, b))
  {
    hide SysInv, Step, Allowed, Adds, AllKnown, Moved, Known;
    var o := Step(s, e);
    var fs := Added(e, o.status.Ok?);
    StepAsks(s, e);
    Asked(s, e.id, b);
    var r := if e.Retype? then e.rectype else b.rectype;
    if e.CloseWriter? {
      CloseRecords(s, e.id);
      HoldsGone(s, o.sys, e.id, b);
    } else {
      StaysOpen(s, e);
      HoldsOwn(s, o.sys, e.id, fs, b, r);
      assert b.taken + [] == b.taken;
    }
  }

  lemma Asked(s: Sys, id: nat, b: Session)
    requires Holds(s, id, b) && id in s.writers
    ensures s.writers[id].chn == b.chn && s.writers[id].rectype == b.rectype
  {
  }

  lemma StaysOpen(s: Sys, e: Event)
    requires SysInv(s) && Ready(s.pool) && |s.hist| == |s.pool.devs| && Allowed(s, e) && Sensible(s, e)
    requires e.id in s.writers && Known(s, e.id) && (e.Give? || e.Retype?)
    ensures e.id in Step(s, e).sys.writers
  {
    hide SysInv, Allowed, StartSeg, FinalizeSeg, WriteFrame;
    StepIsOperation(s, e);
  }

  /** Over a whole run: the frames a writer took since it was opened last are exactly those recorded in the
      segments it has had, each once and in the order given, all of the channel asked for; and while it is
      open it closes its segments under the type asked for last. */
  lemma {:induction false} RunHolds(s: Sys, es: seq<Event>, id: nat, b: Session)
    requires SysInv(s) && AllowedRun(s, es) && Holds(s, id, b)
    ensures Holds(Run(s, es), id, Told(s, es, id, b))
    decreases |es|
  {
    hide SysInv, Step, Allowed, Holds, Noted;
    if es != [] {
      StepHolds(s, es[0], id, b);
      StepKeepsInv(s, es[0]);
      RunHolds(Step(s, es[0]).sys, es[1..], id, Noted(s, es[0], id, b));
    }
  }

  const NOTHING := Session(0, 0, [], [])

  lemma TakenIsRecorded(s0: Sys, es: seq<Event>, id: nat)
    requires Blank(s0) && AllowedRun(s0, es)
    ensures Holds(Run(s0, es), id, Told(s0, es, id, NOTHING))
  {
    hide SysInv, Run, AllowedRun, Told;
    BlankInv(s0);
    assert Holds(s0, id, NOTHING);
    RunHolds(s0, es, id, NOTHING);
  }
}
