/** Runs over any number of sessions: all writers closed, the disks closed and opened again, and the
    recording going on from what the disks say. */
module Sessions {
  import opened Bytes
  import opened RecorderFormat
  import opened StorageDev
  import opened Index
  import opened Recorder
  import opened Player
  import opened Faithful
  import opened Group
  import opened Recording
  import opened Retention

  /** A disk that opens, with the key it has in use. */
  ghost predicate Keyed(d: Dev) { TablesMarked(d) && d.dek == KeyOf(d.prims, d.sb) }

  /** What the disk says is what is in use. */
  ghost predicate Clean(d: Dev) { Open(d.prims, d.disk) == Opened(d) }

  /** Two devices that differ in nothing opening depends on but ring position and contents. */
  ghost predicate SameKeying(d: Dev, e: Dev) {
    && e.prims == d.prims && e.dek == d.dek && |e.disk| == |d.disk| && e.st.magic == d.st.magic
    && e.sb.(crc := 0, writePtrChunk := 0, seqEpoch := 0) == d.sb.(crc := 0, writePtrChunk := 0, seqEpoch := 0)
  }

  lemma KeyingTrans(d: Dev, e: Dev, g: Dev)
    requires SameKeying(d, e) && SameKeying(e, g)
    ensures SameKeying(d, g)
  {
  }

  lemma KeyingCarries(d: Dev, e: Dev)
    requires SameKeying(d, e) && Keyed(d)
    ensures Keyed(e)
  {
    var a, b := d.sb.(crc := 0, writePtrChunk := 0, seqEpoch := 0), e.sb.(crc := 0, writePtrChunk := 0, seqEpoch := 0);
    assert KeyOf(d.prims, a) == KeyOf(d.prims, d.sb) && KeyOf(e.prims, b) == KeyOf(e.prims, e.sb);
    assert a.magic == d.sb.magic && b.magic == e.sb.magic;
  }

  lemma FlushIsClean(d: Dev)
    requires Keyed(d)
    ensures Clean(Flush(d)) && SameKeying(d, Flush(d))
  {
    hide KeyOf;
    FlushThenOpen(d);
    FlushKeying(d);
  }

  // ---- no operation touches the keying ----

  lemma FlushKeying(d: Dev)
    ensures SameKeying(d, Flush(d))
  {
    hide EncodeSb, EncodeSt, WriteTables;
  }

  lemma {:induction false} InvalidateKeying(d: Dev, chunk: nat, i: nat)
    ensures SameKeying(d, Invalidate(d, chunk, i))
    decreases SlotCount(d) - i
  {
    hide SlotAt, Cleared;
    if i < SlotCount(d) {
      InvalidateKeying(if Claims(SlotAt(d, i), chunk) then PutSlot(d, i, Cleared(d.prims, SlotAt(d, i))) else d, chunk, i + 1);
    }
  }

  lemma StartKeying(d: Dev, w: Wr)
    ensures SameKeying(d, StartOn(d, w).dev)
  {
    hide Invalidate;
    var (d1, r) := Alloc(d);
    if r.Chunk? {
      InvalidateKeying(d1, r.chunk, 0);
    }
  }

  lemma IndexKeying(d: Dev, s: Slot)
    requires SlotCount(d) > 0
    ensures SameKeying(d, WriteIndex(d, s))
  {
    hide FindSlot, SealSlot, EncodeSb, EncodeSt, EncodeSlot, WriteTables;
  }

  lemma FinalizeKeying(d: Dev, w: Wr)
    requires SlotCount(d) > 0
    ensures SameKeying(d, Finalize(d, w))
  {
    hide WriteIndex, FillSlot;
    if w.frameCount > 0 {
      IndexKeying(d, FillSlot(d, w, true));
    }
  }

  lemma RecordKeying(d: Dev, w: Wr, f: Frame)
    ensures SameKeying(d, WriteRecord(d, w, f))
  {
    hide HdrFor, Protect, EncodeHdr;
  }

  lemma PutKeying(d: Dev, w: Wr, f: Frame)
    requires SlotCount(d) > 0
    ensures SameKeying(d, PutFrame(d, w, f).0) && PutFrame(d, w, f).1.dev == w.dev && PutFrame(d, w, f).1.grouped == w.grouped
  {
    hide WriteIndex, WriteRecord, FillSlot, SameKeying;
    var w1 := w.(startTime := U32(f.wallTime));
    RecordKeying(d, w, f);
    IndexKeying(d, FillSlot(d, w1, false));
    RecordKeying(WriteIndex(d, FillSlot(d, w1, false)), w1, f);
    KeyingTrans(d, WriteIndex(d, FillSlot(d, w1, false)), WriteRecord(WriteIndex(d, FillSlot(d, w1, false)), w1, f));
  }

  // ---- what a writer's operation touches ----

  /** The disks writer `w` may write to. */
  predicate Reaches(w: Wr, i: nat) { w.grouped || i == w.dev }

  /** From pool `p` to `q` only disks within the reach of `w` change, and none in its keying; the
      writer's reach stays. */
  ghost predicate Moves(p: Pool, w: Wr, q: Pool, v: Wr) {
    && |q.devs| == |p.devs| && v.grouped == w.grouped && (!w.grouped ==> v.dev == w.dev)
    && forall i :: 0 <= i < |p.devs| ==> SameKeying(p.devs[i], q.devs[i]) && (q.devs[i] == p.devs[i] || Reaches(w, i))
  }

  lemma MovesTrans(p: Pool, w: Wr, q: Pool, v: Wr, r: Pool, u: Wr)
    requires Moves(p, w, q, v) && Moves(q, v, r, u)
    ensures Moves(p, w, r, u)
  {
    hide SameKeying;
    forall i | 0 <= i < |p.devs|
      ensures SameKeying(p.devs[i], r.devs[i])
    {
      KeyingTrans(p.devs[i], q.devs[i], r.devs[i]);
    }
  }

  lemma KeyingRefl(d: Dev)
    ensures SameKeying(d, d)
  {
  }

  /** One disk replaced. */
  lemma MovesOne(p: Pool, w: Wr, q: Pool, v: Wr, i: nat)
    requires i < |p.devs| && |q.devs| == |p.devs| && q.devs == p.devs[i := q.devs[i]] && SameKeying(p.devs[i], q.devs[i]) && Reaches(w, i)
    requires v.grouped == w.grouped && (!w.grouped ==> v.dev == w.dev)
    ensures Moves(p, w, q, v)
  {
    hide SameKeying;
    forall j | 0 <= j < |p.devs|
      ensures SameKeying(p.devs[j], q.devs[j])
    {
      KeyingRefl(p.devs[j]);
    }
  }

  lemma StartMoves(p: Pool, w: Wr)
    requires Ready(p) && w.dev < |p.devs|
    ensures var r := StartSeg(p, w); Moves(p, w, r.pool, r.wr) && (r.status.Fail? ==> r.pool.devs == p.devs)
  {
    hide StartOn, Pick, Load, SameKeying, Moves;
    var r := StartSeg(p, w);
    var i := if w.grouped then Pick(p) else w.dev;
    StartKeying(p.devs[i], w.(dev := i));
    assert w.(dev := w.dev) == w;
    MovesOne(p, w, r.pool, r.wr, i);
    assert p.devs[i := p.devs[i]] == p.devs;
  }

  lemma FinalizeMoves(p: Pool, w: Wr)
    requires Ready(p) && w.dev < |p.devs|
    ensures Moves(p, w, FinalizeSeg(p, w), w)
  {
    hide Finalize, Load, SameKeying, Moves;
    FinalizeKeying(p.devs[w.dev], w);
    MovesOne(p, w, FinalizeSeg(p, w), w, w.dev);
  }

  lemma PutMoves(p: Pool, w: Wr, f: Frame)
    requires w.dev < |p.devs| && SlotCount(p.devs[w.dev]) > 0
    ensures var r := PutOn(p, w, f); Moves(p, w, r.pool, r.wr)
  {
    hide PutFrame, SameKeying, Moves;
    PutKeying(p.devs[w.dev], w, f);
    MovesOne(p, w, PutOn(p, w, f).pool, PutOn(p, w, f).wr, w.dev);
  }

  lemma RestartMoves(p: Pool, v: Wr, w: Wr)
    requires Ready(p) && v.dev < |p.devs| && w == v.(rectype := w.rectype)
    ensures var r := StartSeg(FinalizeSeg(p, v), w); Moves(p, v, r.pool, r.wr)
  {
    hide StartSeg, FinalizeSeg, Load, Moves;
    FinalizeMoves(p, v);
    var q := FinalizeSeg(p, v);
    StartMoves(q, w);
    SameReach(p, v, w, q);
    MovesTrans(p, v, q, w, StartSeg(q, w).pool, StartSeg(q, w).wr);
  }

  lemma SameReach(p: Pool, v: Wr, w: Wr, q: Pool)
    requires Moves(p, v, q, v) && w == v.(rectype := w.rectype)
    ensures Moves(p, v, q, w)
  {
    hide SameKeying;
  }

  lemma WriteMoves(p: Pool, w: Wr, f: Frame)
    requires Ready(p) && w.dev < |p.devs|
    ensures var r := WriteFrame(p, w, f); Moves(p, w, r.pool, r.wr)
  {
    hide StartSeg, FinalizeSeg, PutOn, Load, Moves, Refusal, MustRotate;
    NothingMoves(p, w);
    if Refusal(p.devs[w.dev], f).Ok? {
      var r := MakeRoom(p, w, f);
      if MustRotate(p.devs[w.dev], w, f) {
        assert w == w.(rectype := w.rectype);
        RestartMoves(p, w, w);
      }
      if r.status.Ok? {
        PutMoves(r.pool, r.wr, f);
        MovesTrans(p, w, r.pool, r.wr, PutOn(r.pool, r.wr, f).pool, PutOn(r.pool, r.wr, f).wr);
      }
    }
  }

  lemma NothingMoves(p: Pool, w: Wr)
    ensures Moves(p, w, p, w)
  {
  }

  // ---- the invariant of sessions ----

  ghost predicate AllKeyed(p: Pool) { forall i :: 0 <= i < |p.devs| ==> Keyed(p.devs[i]) }

  ghost predicate InUse(s: Sys, i: nat) { exists id :: id in s.writers && Reaches(s.writers[id], i) }

  /** Every disk that no open writer can reach is clean. */
  ghost predicate SessionInv(s: Sys) {
    && AllKeyed(s.pool) && forall i :: 0 <= i < |s.pool.devs| ==> Clean(s.pool.devs[i]) || InUse(s, i)
  }

  lemma MovesSession(s: Sys, t: Sys, id: nat, w: Wr)
    requires SessionInv(s) && id in t.writers && t.writers == s.writers[id := t.writers[id]]
    requires id in s.writers ==> s.writers[id] == w
    requires Moves(s.pool, w, t.pool, t.writers[id])
    ensures SessionInv(t)
  {
    hide Keyed, Clean, SameKeying;
    forall i | 0 <= i < |t.pool.devs|
      ensures Keyed(t.pool.devs[i]) && (Clean(t.pool.devs[i]) || InUse(t, i))
    {
      KeyingCarries(s.pool.devs[i], t.pool.devs[i]);
      if Reaches(w, i) {
        assert Reaches(t.writers[id], i);
      } else if InUse(s, i) {
        var x :| x in s.writers && Reaches(s.writers[x], i);
        assert x in t.writers && Reaches(t.writers[x], i);
      }
    }
  }

  lemma CloseSession(s: Sys, id: nat)
    requires SessionInv(s) && Ready(s.pool) && Known(s, id)
    ensures SessionInv(CloseW(s, id))
  {
    hide Keyed, Clean, SameKeying, FinalizeSeg, Flush, Load, Moves;
    var w, t := s.writers[id], CloseW(s, id);
    var q := FinalizeSeg(s.pool, w);
    FinalizeMoves(s.pool, w);
    MovesFacts(s.pool, w, q, w);
    assert t.pool == Group.Close(s.pool, w);
    forall i | 0 <= i < |t.pool.devs|
      ensures Keyed(t.pool.devs[i]) && (Clean(t.pool.devs[i]) || InUse(t, i))
    {
      KeyingCarries(s.pool.devs[i], q.devs[i]);
      FlushIsClean(q.devs[i]);
      KeyingCarries(q.devs[i], Flush(q.devs[i]));
      if !Reaches(w, i) && InUse(s, i) {
        var x :| x in s.writers && Reaches(s.writers[x], i);
        assert x in t.writers && Reaches(t.writers[x], i);
      }
    }
  }

  lemma MovesFacts(p: Pool, w: Wr, q: Pool, v: Wr)
    requires Moves(p, w, q, v)
    ensures |q.devs| == |p.devs|
    ensures forall i :: 0 <= i < |p.devs| ==> SameKeying(p.devs[i], q.devs[i]) && (q.devs[i] == p.devs[i] || Reaches(w, i))
  {
  }

  lemma SameDisksSession(s: Sys, t: Sys)
    requires SessionInv(s) && t.pool.devs == s.pool.devs && t.writers == s.writers
    ensures SessionInv(t)
  {
  }

  lemma StepSession(s: Sys, e: Event)
    requires SessionInv(s) && Ready(s.pool) && |s.hist| == |s.pool.devs|
    ensures SessionInv(Step(s, e).sys)
  {
    hide SessionInv, StartSeg, WriteFrame, ChangeType, Load, Moves, Begin, GiveFrame, CloseW, Finish;
    var t := Step(s, e).sys;
    if Sensible(s, e) {
      StepIsOperation(s, e);
      match e
      case OpenWriter(id, grouped, dev, chn, rectype) =>
        var w := NewWriter(grouped, dev, chn, rectype);
        StartMoves(s.pool, w);
        if Step(s, e).status.Ok? {
          MovesSession(s, t, id, w);
        } else {
          SameDisksSession(s, t);
        }
      case Give(id, f) =>
        WriteMoves(s.pool, s.writers[id], f);
        MovesSession(s, t, id, s.writers[id]);
      case Retype(id, rectype) =>
        ChangeMoves(s.pool, s.writers[id], rectype);
        MovesSession(s, t, id, s.writers[id]);
      case CloseWriter(id) =>
        CloseSession(s, id);
    }
  }

  lemma ChangeMoves(p: Pool, w: Wr, rectype: u8)
    requires Ready(p) && w.dev < |p.devs|
    ensures var r := ChangeType(p, w, rectype); Moves(p, w, r.pool, r.wr)
  {
    hide StartSeg, FinalizeSeg, Load, Moves;
    RestartMoves(p, w, w.(rectype := rectype));
  }

  lemma {:induction false} RunSession(s: Sys, es: seq<Event>)
    requires SessionInv(s) && AllowedRun(s, es)
    ensures SessionInv(Run(s, es))
    decreases |es|
  {
    hide SessionInv, Step, Allowed, Load;
    if es != [] {
      StepSession(s, es[0]);
      RunSession(Step(s, es[0]).sys, es[1..]);
    }
  }

  // ---- closing everything and opening it again ----

  function ReopenedDisk(d: Dev): Dev {
    match Open(d.prims, d.disk)
    case Opened(e) => e
    case NotOpened(_) => d
  }

  /** The disks opened again as a new group. */
  function Reopened(s: Sys): Sys {
    s.(pool := Pool(seq(|s.pool.devs|, i requires 0 <= i < |s.pool.devs| => ReopenedDisk(s.pool.devs[i])), 0))
  }

  /** Once all writers are closed, opening the disks again finds exactly what was in use: only the
      group's turn starts over. */
  lemma ReopenIsExact(s: Sys)
    requires SessionInv(s) && s.writers == map[]
    ensures (forall i :: 0 <= i < |s.pool.devs| ==> Open(s.pool.devs[i].prims, s.pool.devs[i].disk) == Opened(s.pool.devs[i]))
    ensures Reopened(s) == s.(pool := s.pool.(rr := 0))
  {
    hide Open, KeyOf;
    forall i | 0 <= i < |s.pool.devs|
      ensures Clean(s.pool.devs[i])
    {
      assert !InUse(s, i);
    }
    assert Reopened(s).pool.devs == s.pool.devs;
  }

  // ---- sessions ----

  /** Each run but the last ends with all writers closed and the disks opened again. */
  ghost predicate AllowedSessions(s: Sys, sessions: seq<seq<Event>>)
    decreases |sessions|
  {
    sessions == [] ||
      (AllowedRun(s, sessions[0]) && Run(s, sessions[0]).writers == map[] && AllowedSessions(Reopened(Run(s, sessions[0])), sessions[1..]))
  }

  ghost function AfterSessions(s: Sys, sessions: seq<seq<Event>>): Sys
    requires AllowedSessions(s, sessions)
    decreases |sessions|
  {
    if sessions == [] then s else AfterSessions(Reopened(Run(s, sessions[0])), sessions[1..])
  }

  /** A system of formatted disks, just opened. */
  ghost predicate Started(s: Sys) {
    Blank(s) && forall i :: 0 <= i < |s.pool.devs| ==> Keyed(s.pool.devs[i]) && Clean(s.pool.devs[i])
  }

  lemma TurnSame(s: Sys, rr: u32)
    requires SysInv(s) && SessionInv(s)
    ensures var t := s.(pool := s.pool.(rr := rr)); SysInv(t) && SessionInv(t)
  {
    hide SysInv, Keyed, Clean;
    var t := s.(pool := s.pool.(rr := rr));
    TurnKept(s, t.pool);
    forall i | 0 <= i < |t.pool.devs|
      ensures Clean(t.pool.devs[i]) || InUse(t, i)
    {
      assert InUse(s, i) ==> InUse(t, i);
    }
  }

  lemma {:induction false} SessionsKeepInv(s: Sys, sessions: seq<seq<Event>>)
    requires SysInv(s) && SessionInv(s) && AllowedSessions(s, sessions)
    ensures SysInv(AfterSessions(s, sessions)) && SessionInv(AfterSessions(s, sessions))
    decreases |sessions|
  {
    hide SysInv, SessionInv, Run, Reopened, AllowedRun;
    if sessions != [] {
      var u := Run(s, sessions[0]);
      RunKeepsInv(s, sessions[0]);
      RunSession(s, sessions[0]);
      ReopenIsExact(u);
      TurnSame(u, 0);
      SessionsKeepInv(Reopened(u), sessions[1..]);
    }
  }

  lemma StartedInv(s: Sys)
    requires Started(s)
    ensures SysInv(s) && SessionInv(s)
  {
    hide Keyed, Clean, Blank;
    BlankInv(s);
  }

  /** Whatever a query returns after any number of sessions and during the next one replays as it was
      recorded, in this session or an earlier one. */
  lemma SessionsReplay(s0: Sys, sessions: seq<seq<Event>>, es: seq<Event>, i: nat, q: Filter, cap: nat, slot: Slot)
    requires Started(s0) && AllowedSessions(s0, sessions) && AllowedRun(AfterSessions(s0, sessions), es)
    requires var s := Run(AfterSessions(s0, sessions), es);
      i < |s.hist| && i < |s.pool.devs| && slot in Collect(s.pool.devs[i], q, 0, cap)
    ensures var s := Run(AfterSessions(s0, sessions), es); var d, h := s.pool.devs[i], s.hist[i];
      exists k :: 0 <= k < |h| && Live(d, |h|, k) && Describes(d, slot, k, h[k])
        && slot.frameCount <= |h[k].frames| <= U32_MAX
        && Plays(d, PlayOpen(d, slot), Played(d, h[k], 0, slot.frameCount))
  {
    hide SysInv, SessionInv, Started, Run, AfterSessions, AllowedSessions, AllowedRun, Collect, Describes, Plays, Played, PlayOpen;
    StartedInv(s0);
    SessionsKeepInv(s0, sessions);
    RunKeepsInv(AfterSessions(s0, sessions), es);
    AnswerReplays(Run(AfterSessions(s0, sessions), es), i, q, cap, slot);
  }

  // ---- nothing is lost across sessions ----

  /** Every session has at most so many writers on a disk and closes segments in time. */
  ghost predicate SharedSessions(s: Sys, sessions: seq<seq<Event>>, writers: nat)
    requires AllowedSessions(s, sessions)
    decreases |sessions|
  {
    sessions == [] ||
      (SharedRun(s, sessions[0], writers) && SharedSessions(Reopened(Run(s, sessions[0])), sessions[1..], writers))
  }

  lemma {:induction false} SessionsTidy(s: Sys, sessions: seq<seq<Event>>, writers: nat)
    requires TidyInv(s, writers) && SessionInv(s) && AllowedSessions(s, sessions) && SharedSessions(s, sessions, writers)
    ensures TidyInv(AfterSessions(s, sessions), writers) && SessionInv(AfterSessions(s, sessions))
    decreases |sessions|
  {
    hide TidyInv, SessionInv, Run, Reopened, AllowedRun, SharedRun;
    if sessions != [] {
      var u := Run(s, sessions[0]);
      RunTidy(s, sessions[0], writers);
      RunSession(s, sessions[0]);
      ReopenIsExact(u);
      TurnTidy(u, u.pool.(rr := 0), writers);
      TidySys(u, writers);
      TurnSame(u, 0);
      SessionsTidy(Reopened(u), sessions[1..], writers);
    }
  }

  lemma TidySys(s: Sys, writers: nat)
    requires TidyInv(s, writers)
    ensures SysInv(s)
  {
  }

  /** No closed segment is lost before its chunk comes round again, whichever session recorded it. */
  lemma SessionsLoseNothing(s0: Sys, sessions: seq<seq<Event>>, es: seq<Event>, writers: nat, i: nat, k: nat, cap: nat)
    requires Started(s0) && Roomy(s0, writers) && AllowedSessions(s0, sessions) && SharedSessions(s0, sessions, writers)
    requires AllowedRun(AfterSessions(s0, sessions), es) && SharedRun(AfterSessions(s0, sessions), es, writers)
    requires Asked(Run(AfterSessions(s0, sessions), es), i, k, cap)
    ensures var s := Run(AfterSessions(s0, sessions), es); Retained(s.pool.devs[i], s.hist[i][k], k, cap)
  {
    hide TidyInv, SessionInv, Started, Roomy, Run, AfterSessions, AllowedSessions, AllowedRun, SharedRun, SharedSessions, Collect, Retained, Live, OpenBy;
    StartedInv(s0);
    StartedBlank(s0);
    BlankTidy(s0, writers);
    SessionsTidy(s0, sessions, writers);
    RunTidy(AfterSessions(s0, sessions), es, writers);
    TidyFinds(Run(AfterSessions(s0, sessions), es), writers, i, k, cap);
  }

  lemma StartedBlank(s: Sys)
    requires Started(s)
    ensures Blank(s)
  {
  }
}
