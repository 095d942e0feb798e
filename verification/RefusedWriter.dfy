/** What a group writer does to other segments when it goes on after a refusal: its next frame lands on
    the disk that refused it, in a chunk that belongs to another segment. */
module RefusedWriter {
  import opened Bytes
  import opened RecorderFormat
  import opened StorageDev
  import opened Index
  import opened Recorder
  import opened Player
  import opened Faithful
  import opened Group
  import opened Recording
  import opened IndexRing
  import OneDisk

  // ---- the damage ----

  /** A disk that stops when full, and is full: every chunk belongs to a live segment, that of its
      own number. */
  lemma FullDiskLive(d: Dev, h: seq<Seg>, w: Wr, c: nat)
    requires DiskInv(d, h) && EpochRoom(d) && StartOn(d, w).status.Fail? && c < DataChunks(d)
    ensures c < |h| == DataChunks(d) && Live(d, |h|, c) && ChunkNo(d, c) == c
  {
    hide GeoOk, SegsOk, SlotsOk, StartOn, EpochRoom, DataChunks;
    StartKeepsInv(d, h, w);
    ModUnique(c, DataChunks(d), 0, c);
  }

  /** A frame written at the place of a segment on another disk of the same layout: the bytes changed lie in
      the chunk of the same number, which on a full disk belongs to a live segment; and within it in
      the stretch where the record goes, header first. */
  lemma DamageIs(d: Dev, h: seq<Seg>, v: Wr, w: Wr, f: Frame)
    requires DiskInv(d, h) && EpochRoom(d) && StartOn(d, v).status.Fail?
    requires w.chunk < DataChunks(d) && w.baseOff == ChunkOff(d, w.chunk) && w.curOff + Need(f) <= ChunkBytes(d)
    ensures w.chunk < |h| && Live(d, |h|, w.chunk) && Base(d, w.chunk) == w.baseOff
    ensures var e := WriteRecord(d, w, f);
      && RecordAt(e, Base(d, w.chunk) + w.curOff, w.segId, w.frameSeq, f)
      && forall off: nat, n: nat :: off + n <= Base(d, w.chunk) + w.curOff || Base(d, w.chunk) + w.curOff + Need(f) <= off ==>
           Read(e.disk, off, n) == Read(d.disk, off, n)
  {
    hide GeoOk, RingOk, SegsOk, SlotsOk, StartOn, EpochRoom, DataChunks, Need, RecordAt, WriteRecord, Read, ChunkOff, ChunkBytes;
    FullDiskLive(d, h, v, w.chunk);
    DiskGeo(d, h);
    ChunkExtents(d, w.chunk, w.chunk);
    WriteRecordReads(d, w, f);
    forall off: nat, n: nat | off + n <= Base(d, w.chunk) + w.curOff || Base(d, w.chunk) + w.curOff + Need(f) <= off
      ensures Read(WriteRecord(d, w, f).disk, off, n) == Read(d.disk, off, n)
    {
      WriteRecordElsewhere(d, w, f, off, n);
    }
  }

  lemma DiskGeo(d: Dev, h: seq<Seg>)
    requires DiskInv(d, h)
    ensures GeoOk(d)
  {
  }

  /** Without encryption, a frame of zeros that the header falls into no longer reads. */
  lemma ZerosBroken(d: Dev, base: nat, segId: u32, f: Frame, at: nat, id: u32, no: u32, g: Frame)
    requires d.dek.NoKey? && (forall i :: 0 <= i < |f.data| ==> f.data[i] == 0)
    requires RecordAt(d, base + at, id, no, g) && HDR_SIZE <= at && at + HDR_SIZE <= HDR_SIZE + |f.data|
    requires base + HDR_SIZE + |f.data| <= |d.disk|
    ensures !RecordAt(d, base, segId, 0, f)
  {
    hide EncodeHdr;
    MagicFirst(d, id, no, g);
    assert Read(d.disk, base + at, HDR_SIZE)[0] == 0x72;
    assert Read(d.disk, base + HDR_SIZE, |f.data|)[at - HDR_SIZE] == 0x72;
    assert Read(d.disk, base + HDR_SIZE, |f.data|) != f.data;
  }

  lemma MagicFirst(d: Dev, id: u32, no: u32, g: Frame)
    ensures EncodeHdr(HdrFor(d, id, no, g))[0] == 0x72
  {
    hide HdrTail;
  }

  // ---- the run ----

  /** Two equal disks of one chunk that stop when full. */
  ghost predicate TwoStops(s: Sys) {
    && |s.pool.devs| == |s.hist| == 2
    && forall i :: 0 <= i < 2 ==>
      && s.pool.devs[i].sb.hddFull == HDD_STOP && DataChunks(s.pool.devs[i]) == 1 && SlotCount(s.pool.devs[i]) > 0
      && ChunkBytes(s.pool.devs[i]) == ChunkBytes(s.pool.devs[0]) >= 256 && DataStart(s.pool.devs[i]) == DataStart(s.pool.devs[0])
  }

  ghost predicate Stage(s: Sys, n0: nat, n1: nat, rr: nat) {
    SysInv(s) && TwoStops(s) && |s.hist[0]| == n0 && |s.hist[1]| == n1 && s.pool.rr == rr
  }

  lemma StageDisks(s: Sys, n0: nat, n1: nat, rr: nat)
    requires Stage(s, n0, n1, rr)
    ensures forall i :: 0 <= i < 2 ==> DiskInv(s.pool.devs[i], s.hist[i]) && EpochRoom(s.pool.devs[i]) && |s.hist[i]| <= 1
    ensures Load(s.pool.devs[0]) == n0 as real && Load(s.pool.devs[1]) == n1 as real && Ready(s.pool)
  {
    hide GeoOk, SegsOk, SlotsOk, IdsOk, WritersOk, Separate;
    assert DiskInv(s.pool.devs[0], s.hist[0]) && DiskInv(s.pool.devs[1], s.hist[1]);
  }

  /** With equal loads the turn decides; otherwise the emptier disk. */
  lemma PickOfTwo(p: Pool)
    requires |p.devs| == 2 && Ready(p) && Load(p.devs[1]) <= Load(p.devs[0]) <= 1.0
    ensures Load(p.devs[1]) == Load(p.devs[0]) ==> Pick(p) == p.rr % 2
    ensures Load(p.devs[1]) + 1.0 <= Load(p.devs[0]) ==> Pick(p) == 1
  {
    hide Load;
    var a, b := p.devs[0], p.devs[1];
    assert p.devs[..1] == [a] && [a][..0] == [];
    assert BestLoad([a]) == Load(a);
    assert BestLoad(p.devs) == Load(b);
    var limit := BestLoad(p.devs) + EPS;
    assert Candidates(p.devs, limit, 2, 62) == [] && Candidates(p.devs, limit, 2, 63) == [];
    assert Candidates(p.devs, limit, 1, 63) == [1];
    assert Candidates(p.devs, limit, 1, 64) == [1];
    assert Load(b) == Load(a) ==> Candidates(p.devs, limit, 0, 64) == [0, 1];
    assert Load(b) + 1.0 <= Load(a) ==> Candidates(p.devs, limit, 0, 64) == [1];
  }

  const PICTURE := Recorder.Frame(0, 0, 0, 0, 0, 0, [0])

  /** A frame of zeros that fills a chunk. */
  function Whole(d: Dev): Frame
    requires HDR_SIZE <= ChunkBytes(d) < 0x8000_0000
  {
    Recorder.Frame(0, 0, 0, 0, 0, 0, Zeros(ChunkBytes(d) - HDR_SIZE))
  }

  lemma WholeNeeds(d: Dev, w: Wr)
    requires GeoOk(d) && ChunkBytes(d) >= 256
    ensures ChunkBytes(d) < 0x8000_0000 && Refusal(d, Whole(d)).Ok? && Refusal(d, PICTURE).Ok? && Need(PICTURE) == 128
    ensures w.frameCount > 0 && w.curOff == 128 ==> MustRotate(d, w, Whole(d)) && !MustRotate(d, w, PICTURE)
  {
    hide AlignUp, GeoOk;
    GeoHasSlots(d);
    WholeSizes(d);
    Need32s(ChunkBytes(d));
  }

  lemma Need32s(n: nat)
    requires n % FRAME_ALIGN == 0 && 256 <= n < 0x8000_0000
    ensures Need32(n - HDR_SIZE) == n && Need32(1) == 128 && U32(128 + n) == 128 + n && U32(128 + 128) == 256
  {
    AlignedUp(n);
  }

  lemma WholeSizes(d: Dev)
    requires GeoOk(d) && ChunkBytes(d) >= 256
    ensures ChunkBytes(d) < 0x8000_0000 && Need(Whole(d)) == ChunkBytes(d) && Refusal(d, Whole(d)).Ok?
    ensures Refusal(d, PICTURE).Ok? && Need(PICTURE) <= ChunkBytes(d)
  {
    AlignedUp(ChunkBytes(d));
  }

  lemma AlignedUp(n: nat)
    requires n % FRAME_ALIGN == 0
    ensures AlignUp(n, FRAME_ALIGN) == n
  {
    AlignShift(n, 0, FRAME_ALIGN);
    assert AlignUp(0, FRAME_ALIGN) == 0;
  }

  function OpenGroup(id: nat): Event { OpenWriter(id, true, 0, id % 0x1_0000, REC_CONTINUOUS) }

  /** Writer `id`, of the group, has the first segment of disk `i`. */
  ghost predicate On(s: Sys, id: nat, i: nat) {
    Known(s, id) && s.writers[id].grouped && s.writers[id].dev == i && s.at[id] == 0
  }

  ghost predicate Goes(s: Sys, e: Event, t: Sys) {
    Ready(s.pool) && |s.hist| == |s.pool.devs| && Allowed(s, e) && Step(s, e).sys == t
  }

  lemma BeginTurns(s: Sys, id: nat, w: Wr)
    requires Ready(s.pool) && w.dev < |s.pool.devs| == |s.hist| && w.grouped
    ensures Begin(s, id, w).sys.pool.rr == U32(s.pool.rr + 1)
  {
    hide StartOn, Pick, Load, FreshSeg;
  }

  /** One of the disks replaced by one that differs in contents and ring position only. */
  lemma StopsKept(s: Sys, t: Sys, i: nat)
    requires TwoStops(s) && |t.hist| == 2 && i < 2 && |t.pool.devs| == 2
    requires t.pool.devs == s.pool.devs[i := t.pool.devs[i]] && SameStatic(s.pool.devs[i], t.pool.devs[i])
    ensures TwoStops(t) && t.pool.devs[0].dek == s.pool.devs[0].dek && ChunkBytes(t.pool.devs[0]) == ChunkBytes(s.pool.devs[0])
  {
    hide SameStatic;
    StaticFacts(s.pool.devs[i], t.pool.devs[i]);
    StaticParts(s.pool.devs[i], t.pool.devs[i]);
  }

  /** What does not change: the key and the size of chunks. */
  ghost predicate Alike(s: Sys, t: Sys) {
    && |s.pool.devs| == |t.pool.devs| == 2
    && t.pool.devs[0].dek == s.pool.devs[0].dek && ChunkBytes(t.pool.devs[0]) == ChunkBytes(s.pool.devs[0])
  }

  /** The disk the group picks has room. */
  lemma OpenPicks(s: Sys, n0: nat)
    requires n0 <= 1 && Stage(s, n0, 0, n0) && s.writers.Keys == (if n0 == 0 then {} else {0}) && (n0 == 1 ==> On(s, 0, 0))
    ensures var w := NewWriter(true, 0, n0 % 0x1_0000, REC_CONTINUOUS);
      && Ready(s.pool) && Target(s.pool, w) == n0 && MayBegin(s, n0, w) && EpochRoom(s.pool.devs[n0])
      && DiskInv(s.pool.devs[n0], s.hist[n0]) && !Exhausted(s.pool.devs[n0], |s.hist[n0]|)
  {
    hide SysInv, DiskInv, Pick, Load, Alloc, EpochRoom, TwoStops;
    StageDisks(s, n0, 0, n0);
    StopFacts(s);
    PickOfTwo(s.pool);
  }

  /** The group gives a new writer the first disk while both are empty, and then the second one. */
  lemma GoOpen(s: Sys, n0: nat) returns (t: Sys)
    requires n0 <= 1 && Stage(s, n0, 0, n0) && s.writers.Keys == (if n0 == 0 then {} else {0}) && (n0 == 1 ==> On(s, 0, 0))
    ensures Goes(s, OpenGroup(n0), t) && Stage(t, 1, n0, n0 + 1) && On(t, n0, n0) && t.writers.Keys == s.writers.Keys + {n0}
    ensures n0 == 1 ==> On(t, 0, 0) && t.hist[0] == s.hist[0]
    ensures t.hist[n0][0].frames == [] && Alike(s, t)
  {
    hide SysInv, DiskInv, StartOn, Pick, Load, Begin, FreshSeg, Alloc, SameStatic, EpochRoom, TwoStops, Target, MayBegin, Exhausted, BlankDisk;
    var w := NewWriter(true, 0, n0 % 0x1_0000, REC_CONTINUOUS);
    StopFacts(s);
    OpenPicks(s, n0);
    t := OpenBegins(s, n0, w);
    assert Step(s, OpenGroup(n0)).sys == t;
  }

  lemma OpenBegins(s: Sys, n0: nat, w: Wr) returns (t: Sys)
    requires n0 <= 1 && Stage(s, n0, 0, n0) && s.writers.Keys == (if n0 == 0 then {} else {0}) && (n0 == 1 ==> On(s, 0, 0))
    requires w.grouped && w.dev == 0 && Ready(s.pool) && Target(s.pool, w) == n0 && MayBegin(s, n0, w) && EpochRoom(s.pool.devs[n0])
    requires DiskInv(s.pool.devs[n0], s.hist[n0]) && !Exhausted(s.pool.devs[n0], |s.hist[n0]|)
    ensures Begin(s, n0, w) == Outcome(t, Ok) && Stage(t, 1, n0, n0 + 1) && On(t, n0, n0) && t.writers.Keys == s.writers.Keys + {n0}
    ensures n0 == 1 ==> On(t, 0, 0) && t.hist[0] == s.hist[0]
    ensures t.hist[n0][0].frames == [] && Alike(s, t)
  {
    hide SysInv, DiskInv, StartOn, Pick, Load, Begin, FreshSeg, SameStatic, EpochRoom, TwoStops, Target, MayBegin, Exhausted, WriterAt;
    StopFacts(s);
    OpenDisk(s, n0, w);
    t := Begin(s, n0, w).sys;
    StopsKept(s, t, n0);
    FreshHasNone(s.pool.devs[n0], w.(dev := n0));
  }

  lemma OpenDisk(s: Sys, i: nat, w: Wr)
    requires SysInv(s) && Ready(s.pool) && |s.pool.devs| == |s.hist| == 2 && i < 2 && w.dev < 2 && w.grouped && Target(s.pool, w) == i
    requires MayBegin(s, i, w) && EpochRoom(s.pool.devs[i])
    requires DiskInv(s.pool.devs[i], s.hist[i]) && !Exhausted(s.pool.devs[i], |s.hist[i]|)
    ensures var b, v := Begin(s, i, w), w.(dev := i);
      && b.status.Ok? && SysInv(b.sys) && |b.sys.pool.devs| == 2 && b.sys.pool.devs == s.pool.devs[i := b.sys.pool.devs[i]]
      && SameStatic(s.pool.devs[i], b.sys.pool.devs[i]) && b.sys.pool.rr == U32(s.pool.rr + 1)
      && b.sys.hist == s.hist[i := s.hist[i] + [FreshSeg(s.pool.devs[i], v)]] && b.sys.at == s.at[i := |s.hist[i]|]
      && b.sys.writers == s.writers[i := StartOn(s.pool.devs[i], v).wr]
      && b.sys.writers[i].dev == i && b.sys.writers[i].grouped
  {
    hide SysInv, DiskInv, StartOn, Pick, Load, Begin, FreshSeg, SameStatic, EpochRoom, Target, MayBegin, Exhausted, WriterAt;
    KnownDisks(s);
    BeginOn(s, i, w);
    BeginTurns(s, i, w);
    StartKeepsInv(s.pool.devs[i], s.hist[i], w.(dev := i));
    BeginKeepsInv(s, i, w);
    OneDisk.StartGrouped(s.pool.devs[i], w.(dev := i));
  }

  lemma StopFacts(s: Sys)
    requires TwoStops(s)
    ensures |s.pool.devs| == |s.hist| == 2 && forall i :: 0 <= i < 2 ==> DataChunks(s.pool.devs[i]) == 1 && SlotCount(s.pool.devs[i]) > 0
    ensures forall i :: 0 <= i < 2 ==> s.pool.devs[i].sb.hddFull == HDD_STOP
    ensures forall i :: 0 <= i < 2 ==> ChunkBytes(s.pool.devs[i]) == ChunkBytes(s.pool.devs[0]) >= 256
    ensures ChunkOff(s.pool.devs[0], 0) == ChunkOff(s.pool.devs[1], 0)
  {
  }

  lemma FreshHasNone(d: Dev, w: Wr)
    ensures FreshSeg(d, w).frames == []
  {
  }

  /** A writer's first frame. */
  lemma GoFirst(s: Sys, n1: nat, id: nat, f: Frame) returns (t: Sys)
    requires id <= n1 <= 1 && Stage(s, 1, n1, n1 + 1) && On(s, id, id) && s.hist[id][0].frames == []
    requires Refusal(s.pool.devs[id], f).Ok? && Need(f) <= ChunkBytes(s.pool.devs[id])
    ensures Goes(s, Give(id, f), t) && Stage(t, 1, n1, n1 + 1) && t.writers.Keys == s.writers.Keys && Alike(s, t)
    ensures forall x, i :: On(s, x, i) ==> On(t, x, i)
    ensures t.hist == s.hist[id := s.hist[id][0 := s.hist[id][0].(frames := [f])]]
  {
    hide SysInv, DiskInv, Pick, Load, PutFrame, Accept, SameStatic, EpochRoom, TwoStops, Refusal, WriterAt, Begin, Finish, Need;
    StageDisks(s, 1, n1, n1 + 1);
    StopFacts(s);
    WriterPlaced(s, id);
    t := Accept(s, id, f);
    assert !Rotates(s, id, f) && Step(s, Give(id, f)).sys == t;
    FirstDisk(s, id, f);
    AcceptTurns(s, id, f);
    StopsKept(s, t, id);
  }

  /** The writer stands at the beginning of its segment. */
  lemma WriterPlaced(s: Sys, id: nat)
    requires SysInv(s) && TwoStops(s) && id < 2 && On(s, id, id) && s.hist[id][0].frames == []
    ensures DiskInv(s.pool.devs[id], s.hist[id]) && WriterAt(s.pool.devs[id], s.hist[id], s.writers[id], 0)
    ensures s.writers[id].frameCount == 0 && s.writers[id].curOff == 0
  {
    hide DiskInv, WriterAt, TwoStops;
    KnownDisks(s);
    assert WriterOk(s, id);
    EmptyPlace(s.pool.devs[id], s.hist[id], s.writers[id]);
  }

  lemma FirstDisk(s: Sys, id: nat, f: Frame)
    requires SysInv(s) && TwoStops(s) && id < 2 && On(s, id, id) && s.hist[id][0].frames == [] && Need(f) <= ChunkBytes(s.pool.devs[id])
    ensures Indexed(s, id)
    ensures var t := Accept(s, id, f);
      && SysInv(t) && |t.pool.devs| == 2 && t.pool.devs == s.pool.devs[id := t.pool.devs[id]]
      && SameStatic(s.pool.devs[id], t.pool.devs[id]) && t.hist == s.hist[id := s.hist[id][0 := s.hist[id][0].(frames := [f])]]
      && t.at == s.at && t.writers == s.writers[id := t.writers[id]] && t.writers[id].dev == id && t.writers[id].grouped
  {
    hide SysInv, DiskInv, PutFrame, Accept, SameStatic, TwoStops, WriterAt, Need;
    StopFacts(s);
    WriterPlaced(s, id);
    var d, w := s.pool.devs[id], s.writers[id];
    PutFrameKeepsInv(d, s.hist[id], w, 0, f);
    PutKeepsPlace(d, w, f);
    AcceptOn(s, id, f);
    AcceptKeepsInv(s, id, f);
    assert [] + [f] == [f];
  }

  lemma EmptyPlace(d: Dev, h: seq<Seg>, w: Wr)
    requires WriterAt(d, h, w, 0) && h[0].frames == []
    ensures w.frameCount == 0 && w.curOff == 0
  {
  }

  lemma AcceptTurns(s: Sys, id: nat, f: Frame)
    requires Known(s, id) && Indexed(s, id)
    ensures Accept(s, id, f).pool.rr == s.pool.rr
  {
    hide PutFrame;
  }

  /** After one frame of one byte: where the writer stands. */
  lemma AfterPicture(d: Dev, h: seq<Seg>, w: Wr)
    requires WriterAt(d, h, w, 0) && h[0].frames == [PICTURE] && DataChunks(d) == 1
    ensures w.frameCount == 1 && w.frameSeq == 1 && w.curOff == 128 && w.chunk == 0 && w.baseOff == ChunkOff(d, 0) && w.segId == h[0].segId
  {
    assert h[0].frames[..0] == [] && Span([]) == 0;
    assert Need(PICTURE) == 128;
  }

  /** The frame that does not fit makes the writer of the second disk ask for a new segment; the group
      picks the first disk, which refuses. */
  lemma Refused(s: Sys) returns (t: Sys)
    requires Ready(s.pool) && On(s, 1, 1) && |s.hist| == |s.pool.devs| == 2 && ChunkBytes(s.pool.devs[1]) >= 256
    requires s.hist[1][0].frames == [PICTURE] && GeoOk(s.pool.devs[1]) && Stage(s, 1, 1, 2)
    ensures var f := Whole(s.pool.devs[1]); var o := Step(s, Give(1, f));
      && o.status == Fail(NoSpace) && t == o.sys && !Allowed(s, Give(1, f))
      && Pick(Finish(s, 1).pool) == 0 != s.writers[1].dev
      && Ready(t.pool) && |t.hist| == |t.pool.devs| == 2 && t.hist[0] == s.hist[0]
      && t.pool.devs[0] == s.pool.devs[0] && 1 in t.writers && t.writers[1] == s.writers[1].(dev := 0) && 1 in t.at && t.at[1] == 0
  {
    hide SysInv, DiskInv, Pick, Load, Finalize, Finish, Begin, SameStatic, EpochRoom, TwoStops, Refusal, MustRotate, WriterAt, Need, FreshSeg, StartOn, Whole, Alloc;
    StopFacts(s);
    var w := s.writers[1];
    SecondStands(s);
    WholeNeeds(s.pool.devs[1], w);
    assert Rotates(s, 1, Whole(s.pool.devs[1]));
    FinishReady(s, 1);
    FinishOn(s, 1);
    var m := Finish(s, 1);
    FinishSecond(s);
    t := BeginRefused(m, w);
  }

  lemma SecondStands(s: Sys)
    requires Stage(s, 1, 1, 2) && On(s, 1, 1) && s.hist[1][0].frames == [PICTURE]
    ensures WriterAt(s.pool.devs[1], s.hist[1], s.writers[1], 0) && s.writers[1].frameCount == 1 && s.writers[1].frameSeq == 1
    ensures s.writers[1].curOff == 128 && s.writers[1].chunk == 0 && s.writers[1].baseOff == ChunkOff(s.pool.devs[1], 0)
  {
    hide SysInv, WriterAt, TwoStops;
    StopFacts(s);
    KnownDisks(s);
    assert WriterOk(s, 1);
    AfterPicture(s.pool.devs[1], s.hist[1], s.writers[1]);
  }

  lemma FinishSecond(s: Sys)
    requires Stage(s, 1, 1, 2) && On(s, 1, 1) && Ready(s.pool)
    ensures Stage(Finish(s, 1), 1, 1, 2)
  {
    hide SysInv, TwoStops, Finish, SameStatic, Finalize, Load;
    StopFacts(s);
    KnownDisks(s);
    FinishOn(s, 1);
    FinishKeepsInv(s, 1);
    FinishTurns(s, 1);
    FinishStatic(s, 1);
    StopsKept(s, Finish(s, 1), 1);
  }

  /** The group picks the first disk, which is full. */
  lemma BeginRefused(m: Sys, w: Wr) returns (t: Sys)
    requires Stage(m, 1, 1, 2) && Ready(m.pool) && |m.pool.devs| == |m.hist| == 2 && w.grouped && w.dev == 1
    ensures Begin(m, 1, w) == Outcome(t, Fail(NoSpace)) && Pick(m.pool) == 0 && !Alloc(m.pool.devs[0]).1.Chunk?
    ensures t.pool.devs == m.pool.devs && Ready(t.pool) && t.hist == m.hist && t.at == m.at && t.writers == m.writers[1 := w.(dev := 0)]
  {
    hide SysInv, DiskInv, Pick, Load, Begin, EpochRoom, TwoStops, StartOn, Alloc, FreshSeg;
    StageDisks(m, 1, 1, 2);
    StopFacts(m);
    KnownDisks(m);
    PickOfTwo(m.pool);
    BeginOn(m, 1, w);
    StageRing(m);
    StartKeepsInv(m.pool.devs[0], m.hist[0], w.(dev := 0));
    AllocNth(m.pool.devs[0], |m.hist[0]|);
    t := Begin(m, 1, w).sys;
    SameDevsReady(m.pool, t.pool);
  }

  lemma StageRing(s: Sys)
    requires Stage(s, 1, 1, 2)
    ensures RingOk(s.pool.devs[0], 1) && Exhausted(s.pool.devs[0], 1)
  {
    hide GeoOk, SegsOk, SlotsOk, IdsOk, WritersOk, Separate, RingOk;
    assert DiskInv(s.pool.devs[0], s.hist[0]);
  }

  lemma SameDevsReady(p: Pool, q: Pool)
    requires Ready(p) && q.devs == p.devs
    ensures Ready(q)
  {
    hide Load;
  }

  lemma FinishTurns(s: Sys, id: nat)
    requires Ready(s.pool) && Known(s, id)
    ensures Finish(s, id).pool.rr == s.pool.rr
  {
    hide Finalize, Load;
  }

  lemma FinishStatic(s: Sys, id: nat)
    requires SysInv(s) && Ready(s.pool) && Known(s, id) && id in s.writers
    ensures var i := s.writers[id].dev; i < |Finish(s, id).pool.devs| && SameStatic(s.pool.devs[i], Finish(s, id).pool.devs[i])
  {
    hide DiskInv, Finish, Finalize, SameStatic, WriterAt, Load;
    KnownDisks(s);
    assert WriterOk(s, id);
    FinishOn(s, id);
    var i := s.writers[id].dev;
    assert DiskInv(s.pool.devs[i], s.hist[i]);
    FinalizeKeepsInv(s.pool.devs[i], s.hist[i], s.writers[id], s.at[id]);
  }

  lemma GoesOn(s0: Sys, es: seq<Event>, s: Sys, e: Event, t: Sys)
    requires AllowedRun(s0, es) && Run(s0, es) == s && Goes(s, e, t)
    ensures AllowedRun(s0, es + [e]) && Run(s0, es + [e]) == t
    decreases |es|
  {
    hide Step, Allowed, Load;
    if es == [] {
      assert ([] + [e])[1..] == [];
    } else {
      assert (es + [e])[1..] == es[1..] + [e];
      GoesOn(Step(s0, es[0]).sys, es[1..], s, e, t);
    }
  }

  /** On the disk `d` of one live segment, which has the frame `lost`, the record written at 128 changed bytes
      behind that offset only, so that its header stands in the payload of that frame; without
      encryption the frame no longer reads. */
  ghost predicate Damaged(d: Dev, e: Dev, h: seq<Seg>, w: Wr, lost: Frame) {
    && |h| == 1 && Live(d, 1, 0) && h[0].frames == [lost] && RecordAt(d, Base(d, 0), h[0].segId, 0, lost)
    && RecordAt(e, Base(d, 0) + 128, w.segId, 1, PICTURE) && 128 + HDR_SIZE <= HDR_SIZE + |lost.data|
    && (forall off: nat, n: nat :: off + n <= Base(d, 0) + 128 || Base(d, 0) + 256 <= off ==> Read(e.disk, off, n) == Read(d.disk, off, n))
    && (d.dek.NoKey? ==> !RecordAt(e, Base(e, 0), h[0].segId, 0, lost))
  }

  /** The frame that follows a refusal: the writer's own disk stays, the first disk is damaged. */
  ghost predicate Overwritten(t: Sys, u: Sys, lost: Frame) {
    && |t.pool.devs| == |t.hist| == |u.pool.devs| == 2 && 1 in t.writers
    && u.pool.devs[1] == t.pool.devs[1] && Damaged(t.pool.devs[0], u.pool.devs[0], t.hist[0], t.writers[1], lost)
  }

  lemma DamageOn(d: Dev, h: seq<Seg>, w: Wr)
    requires DiskInv(d, h) && |h| == 1 && DataChunks(d) == 1 && EpochRoom(d) && StartOn(d, w).status.Fail?
    requires 256 <= ChunkBytes(d) < 0x8000_0000 && h[0].frames == [Whole(d)]
    requires w.chunk == 0 && w.baseOff == ChunkOff(d, 0) && w.curOff == 128 && w.frameSeq == 1
    ensures Damaged(d, WriteRecord(d, w, PICTURE), h, w, Whole(d))
  {
    hide DiskInv, EpochRoom, WriterAt, StartOn, WriteRecord, RecordAt, Read, GeoOk, Need;
    DiskGeo(d, h);
    WholeSizes(d);
    PictureNeeds();
    DamageIs(d, h, w, w, PICTURE);
    FirstRecord(d, h, Whole(d));
    WholeFits(d, h);
    if d.dek.NoKey? {
      var e := WriteRecord(d, w, PICTURE);
      WriteRecordElsewhere(d, w, PICTURE, 0, 0);
      StaticFacts(d, e);
      StaticParts(d, e);
      ZerosBroken(e, Base(d, 0), h[0].segId, Whole(d), 128, w.segId, 1, PICTURE);
    }
  }

  lemma PictureNeeds()
    ensures Need(PICTURE) == 128
  {
  }

  lemma LandsOnOther(s: Sys, t: Sys)
    requires |s.hist| == |s.pool.devs| == 2 && |s.hist[0]| > 0 && On(s, 1, 1) && s.hist[1][0].frames == [PICTURE]
    requires 256 <= ChunkBytes(s.pool.devs[0]) < 0x8000_0000 && s.hist[0][0].frames == [Whole(s.pool.devs[0])] && Stage(s, 1, 1, 2)
    requires Ready(t.pool) && |t.hist| == |t.pool.devs| == 2 && t.hist[0] == s.hist[0]
    requires t.pool.devs[0] == s.pool.devs[0] && 1 in t.writers && t.writers[1] == s.writers[1].(dev := 0) && 1 in t.at && t.at[1] == 0
    ensures Step(t, Give(1, PICTURE)).status.Ok? && Overwritten(t, Step(t, Give(1, PICTURE)).sys, Whole(s.pool.devs[0]))
  {
    hide SysInv, DiskInv, Pick, Load, Finish, Begin, EpochRoom, TwoStops, Refusal, MustRotate, WriterAt, Accept, WriteRecord, Damaged, Alloc, StartOn, GeoOk;
    StageDisks(s, 1, 1, 2);
    StopFacts(s);
    SecondStands(s);
    var d, h, w := s.pool.devs[0], s.hist[0], t.writers[1];
    DiskGeo(d, h);
    WholeNeeds(d, w);
    AcceptOn(t, 1, PICTURE);
    assert Step(t, Give(1, PICTURE)).sys == Accept(t, 1, PICTURE);
    StageRing(s);
    StartKeepsInv(d, h, w);
    DamageOn(d, h, w);
  }

  lemma FirstRecord(d: Dev, h: seq<Seg>, f: Frame)
    requires DiskInv(d, h) && |h| == 1 && DataChunks(d) == 1 && h[0].frames == [f]
    ensures RecordAt(d, Base(d, 0), h[0].segId, 0, f)
  {
    hide GeoOk, RingOk, SlotsOk, RecordAt;
    assert SegOk(d, 0, h[0]);
    assert h[0].frames[..0] == [] && Span([]) == 0;
    assert RecordAt(d, Base(d, 0) + Span(h[0].frames[..0]), h[0].segId, 0, h[0].frames[0]);
  }

  lemma WholeFits(d: Dev, h: seq<Seg>)
    requires GeoOk(d) && DataChunks(d) == 1 && ChunkBytes(d) >= 256
    ensures Base(d, 0) + ChunkBytes(d) <= |d.disk| && |Whole(d).data| == ChunkBytes(d) - HDR_SIZE
    ensures forall i :: 0 <= i < |Whole(d).data| ==> Whole(d).data[i] == 0
  {
    hide GeoOk;
    ChunkExtents(d, 0, 0);
  }

  lemma GeoOfStage(s: Sys, n0: nat, n1: nat, rr: nat)
    requires rr <= U32_MAX && Stage(s, n0, n1, rr)
    ensures GeoOk(s.pool.devs[0]) && GeoOk(s.pool.devs[1]) && Ready(s.pool)
    ensures 256 <= ChunkBytes(s.pool.devs[0]) == ChunkBytes(s.pool.devs[1]) < 0x8000_0000
  {
    hide GeoOk, RingOk, SegsOk, SlotsOk, IdsOk, WritersOk, Separate, Load;
    StageDisks(s, n0, n1, rr);
    GeoHasSlots(s.pool.devs[0]);
    GeoHasSlots(s.pool.devs[1]);
  }

  lemma BlankPair(s: Sys)
    requires Blank(s) && TwoStops(s) && s.pool.rr == 0
    ensures Stage(s, 0, 0, 0) && s.writers == map[]
  {
    hide SysInv;
    BlankInv(s);
    assert s.hist[0] == [] && s.hist[1] == [];
  }

  lemma NoEvents(s: Sys)
    ensures AllowedRun(s, []) && Run(s, []) == s
  {
  }

  lemma GoWhole(s: Sys) returns (t: Sys, f: Frame)
    requires Stage(s, 1, 0, 1) && On(s, 0, 0) && s.hist[0][0].frames == []
    ensures Goes(s, Give(0, f), t) && Stage(t, 1, 0, 1) && On(t, 0, 0) && t.writers.Keys == s.writers.Keys && Alike(s, t)
    ensures HDR_SIZE <= ChunkBytes(t.pool.devs[0]) < 0x8000_0000 && f == Whole(t.pool.devs[0]) && t.hist[0][0].frames == [f]
  {
    hide SysInv, TwoStops, Load, Step, Allowed, GeoOk, Need, Refusal;
    GeoOfStage(s, 1, 0, 1);
    WholeSizes(s.pool.devs[0]);
    f := Whole(s.pool.devs[0]);
    t := GoFirst(s, 0, 0, f);
  }

  /** Two equal disks of one chunk each that stop when full, in a group just opened: two writers fill them;
      the second one then brings a frame that does not fit, and is refused by the first disk; its
      next smaller frame is written into the other writer's frame. */
  lemma RefusedOverwrites(s0: Sys) returns (es: seq<Event>, s: Sys)
    requires Blank(s0) && TwoStops(s0) && s0.pool.rr == 0
    ensures AllowedRun(s0, es) && Run(s0, es) == s && |s.pool.devs| == 2 && |s.hist| == 2 && Ready(s.pool) && Known(s, 1)
    ensures HDR_SIZE <= ChunkBytes(s.pool.devs[0]) < 0x8000_0000 && HDR_SIZE <= ChunkBytes(s.pool.devs[1]) < 0x8000_0000
    ensures var o := Step(s, Give(1, Whole(s.pool.devs[1])));
      && o.status == Fail(NoSpace) && Pick(Finish(s, 1).pool) != s.writers[1].dev
      && Ready(o.sys.pool) && |o.sys.hist| == |o.sys.pool.devs|
      && Step(o.sys, Give(1, PICTURE)).status.Ok? && Overwritten(o.sys, Step(o.sys, Give(1, PICTURE)).sys, Whole(s.pool.devs[0]))
  {
    hide SysInv, TwoStops, Load, Step, Allowed, Blank, GeoOk, Need, Refusal, AllowedRun, Run, Overwritten, Pick, Finish;
    StopFacts(s0);
    BlankPair(s0);
    var s1 := GoOpen(s0, 0);
    var s2, f := GoWhole(s1);
    var s3 := GoOpen(s2, 1);
    GeoOfStage(s3, 1, 1, 2);
    WholeSizes(s3.pool.devs[1]);
    s := GoFirst(s3, 1, 1, PICTURE);
    NoEvents(s0);
    GoesOn(s0, [], s0, OpenGroup(0), s1);
    GoesOn(s0, [] + [OpenGroup(0)], s1, Give(0, f), s2);
    GoesOn(s0, [] + [OpenGroup(0)] + [Give(0, f)], s2, OpenGroup(1), s3);
    GoesOn(s0, [] + [OpenGroup(0)] + [Give(0, f)] + [OpenGroup(1)], s3, Give(1, PICTURE), s);
    es := [] + [OpenGroup(0)] + [Give(0, f)] + [OpenGroup(1)] + [Give(1, PICTURE)];
    GeoOfStage(s, 1, 1, 2);
    StopFacts(s);
    var t := Refused(s);
    LandsOnOther(s, t);
  }
}
