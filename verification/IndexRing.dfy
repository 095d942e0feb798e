/** However many writers share a disk, the ring of index slots and the ring of chunks do not get in
    each other's way as long as there is one slot per chunk and one more for every further writer:
    every live segment has exactly one slot. */
module IndexRing {
  import opened Bytes
  import opened RecorderFormat
  import opened StorageDev
  import opened Index
  import opened Recorder
  import opened Faithful
  import opened SlotOrder

  // ---- segment ids ----

  /** Segments among the first `n` whose channel uses counter `x`. */
  function Count(h: seq<Seg>, n: nat, x: nat): nat
    requires n <= |h|
  {
    if n == 0 then 0 else Count(h, n - 1, x) + if h[n - 1].chn % 32 == x then 1 else 0
  }

  ghost predicate IdsOk(d: Dev, h: seq<Seg>) {
    && (forall k :: 0 <= k < |h| ==> h[k].segId == SegIdOf(h[k].chn, U32(Count(h, k + 1, h[k].chn % 32))))
    && (forall x :: 0 <= x < 32 ==> d.st.chn[x].segSeq == U32(Count(h, |h|, x)))
  }

  lemma {:induction false} CountGrows(h: seq<Seg>, m: nat, n: nat, x: nat)
    requires m <= n <= |h|
    ensures Count(h, m, x) <= Count(h, n, x) <= Count(h, m, x) + (n - m)
    decreases n - m
  {
    if m < n {
      CountGrows(h, m, n - 1, x);
    }
  }

  /** Two segments carry the same id exactly when their channels agree modulo 256 and their
      places on the channel's counter agree modulo 2^24. */
  lemma SameId(d: Dev, h: seq<Seg>, j: nat, k: nat)
    requires IdsOk(d, h) && j < |h| && k < |h|
    ensures h[j].segId == h[k].segId <==>
      && h[j].chn % 256 == h[k].chn % 256
      && Count(h, j + 1, h[j].chn % 32) % 0x100_0000 == Count(h, k + 1, h[k].chn % 32) % 0x100_0000
  {
    hide Count;
    var a, b := Count(h, j + 1, h[j].chn % 32), Count(h, k + 1, h[k].chn % 32);
    LowBits(a); LowBits(b);
    ModUnique(h[j].segId, SEQ_END, h[j].chn % 256, a % SEQ_END);
    ModUnique(h[k].segId, SEQ_END, h[k].chn % 256, b % SEQ_END);
  }

  /** An id has the channel modulo 256 in its top byte, and below it how many segments had been started for the
      channel modulo 32 on the disk, this one included, modulo 2^24. */
  lemma IdTells(d: Dev, h: seq<Seg>, k: nat)
    requires IdsOk(d, h) && k < |h|
    ensures h[k].segId == h[k].chn % 256 * 0x100_0000 + Count(h, k + 1, h[k].chn % 32) % 0x100_0000
  {
    hide Count;
    LowBits(Count(h, k + 1, h[k].chn % 32));
  }

  lemma LowBits(n: nat)
    ensures U32(n) % SEQ_END == n % SEQ_END
  {
    var q, r := n / 0x1_0000_0000, n % 0x1_0000_0000;
    assert n == SEQ_END * (256 * q + r / SEQ_END) + r % SEQ_END;
    ModUnique(n, SEQ_END, 256 * q + r / SEQ_END, r % SEQ_END);
  }

  /** On a ring of at most 2^24 chunks no two live segments share an id, however long the run. */
  lemma LiveIdsDiffer(d: Dev, h: seq<Seg>, j: nat, k: nat)
    requires IdsOk(d, h) && DataChunks(d) <= SEQ_END
    requires Live(d, |h|, j) && Live(d, |h|, k) && j != k
    ensures h[j].segId != h[k].segId
  {
    hide IdsOk, DataChunks;
    NearIdDiffers(d, h, j, k);
  }

  lemma EarlierIdDiffers(d: Dev, h: seq<Seg>, j: nat, k: nat)
    requires IdsOk(d, h) && j < k < |h| && k - j < SEQ_END
    ensures h[j].segId != h[k].segId
  {
    hide IdsOk, DataChunks;
    SameId(d, h, j, k);
    if h[j].chn % 256 == h[k].chn % 256 {
      var x := h[k].chn % 32;
      assert h[j].chn % 32 == x by { Mod32(h[j].chn, h[k].chn); }
      CountGrows(h, j + 1, k, x);
      assert Count(h, k + 1, x) == Count(h, k, x) + 1;
      ModDiffers(Count(h, j + 1, x), Count(h, k + 1, x), SEQ_END);
    }
  }

  /** Segments fewer than 2^24 apart have different ids. */
  lemma NearIdDiffers(d: Dev, h: seq<Seg>, j: nat, k: nat)
    requires IdsOk(d, h) && j < |h| <= j + SEQ_END && k < |h| <= k + SEQ_END && j != k
    ensures h[j].segId != h[k].segId
  {
    hide IdsOk;
    if j < k {
      EarlierIdDiffers(d, h, j, k);
    } else {
      EarlierIdDiffers(d, h, k, j);
    }
  }

  lemma Mod32(a: nat, b: nat)
    requires a % 256 == b % 256
    ensures a % 32 == b % 32
  {
    Residue32(a); Residue32(b);
  }

  lemma Residue32(a: nat)
    ensures a % 32 == a % 256 % 32
  {
    var r := a % 256;
    assert a == 32 * (8 * (a / 256) + r / 32) + r % 32;
    ModUnique(a, 32, 8 * (a / 256) + r / 32, r % 32);
  }

  lemma {:induction false} CountSame(h: seq<Seg>, g: seq<Seg>, n: nat, x: nat)
    requires n <= |h| && n <= |g| && forall i :: 0 <= i < n ==> g[i].chn == h[i].chn
    ensures Count(g, n, x) == Count(h, n, x)
  {
    if n > 0 {
      CountSame(h, g, n - 1, x);
    }
  }

  lemma IdsAfterStart(d: Dev, e: Dev, h: seq<Seg>, w: Wr)
    requires IdsOk(d, h) && e.st.chn == BumpSeq(d, w.chn).st.chn
    ensures IdsOk(e, h + [FreshSeg(d, w)])
  {
    var h' := h + [FreshSeg(d, w)];
    forall k | 0 <= k < |h'|
      ensures h'[k].segId == SegIdOf(h'[k].chn, U32(Count(h', k + 1, h'[k].chn % 32)))
    {
      CountSame(h, h', if k < |h| then k + 1 else k, h'[k].chn % 32);
      if k == |h| {
        NextCount(Count(h, |h|, w.chn % 32));
      }
    }
    forall x | 0 <= x < 32
      ensures e.st.chn[x].segSeq == U32(Count(h', |h'|, x))
    {
      CountSame(h, h', |h|, x);
      NextCount(Count(h, |h|, x));
    }
  }

  lemma NextCount(n: nat)
    ensures U32(U32(n) + 1) == U32(n + 1)
  {
  }

  lemma IdsAfterUpdate(d: Dev, e: Dev, h: seq<Seg>, k: nat, seg: Seg)
    requires IdsOk(d, h) && k < |h| && seg.segId == h[k].segId && seg.chn == h[k].chn && e.st.chn == d.st.chn
    ensures IdsOk(e, h[k := seg])
  {
    var h' := h[k := seg];
    forall j | 0 <= j < |h'|
      ensures h'[j].segId == SegIdOf(h'[j].chn, U32(Count(h', j + 1, h'[j].chn % 32)))
    {
      CountSame(h, h', j + 1, h[j].chn % 32);
    }
    forall x | 0 <= x < 32
      ensures e.st.chn[x].segSeq == U32(Count(h', |h'|, x))
    {
      CountSame(h, h', |h|, x);
    }
  }

  lemma StartChannels(d: Dev, h: seq<Seg>, w: Wr)
    requires DiskInv(d, h) && EpochRoom(d) && StartOn(d, w).status.Ok?
    ensures StartOn(d, w).dev.st.chn == BumpSeq(d, w.chn).st.chn
  {
    hide Alloc, Recycled, SegsOk, SlotsOk, RingOk, GeoOk, EpochRoom;
    AllocNth(d, |h|);
    StartOnIs(d, w);
    RecycledFacts(d, |h|);
  }

  lemma WriteIndexChannels(d: Dev, s: Slot)
    requires GeoOk(d)
    ensures SlotCount(d) > 0 && WriteIndex(d, s).st.chn == d.st.chn
  {
    hide GeoOk, SlotAt, SealSlot, FindSlot, WriteIndex;
    GeoHasSlots(d);
    WriteIndexAt(d, s, 0);
    assert WriteIndex(d, s).st.(crc := 0, indexNext := 0).chn == d.st.(crc := 0, indexNext := 0).chn;
  }

  lemma IdsKept(d: Dev, e: Dev, h: seq<Seg>)
    requires IdsOk(d, h) && e.st.chn == d.st.chn
    ensures IdsOk(e, h)
  {
  }

  lemma IdsAfterStartOn(d: Dev, h: seq<Seg>, w: Wr)
    requires DiskInv(d, h) && EpochRoom(d) && StartOn(d, w).status.Ok? && IdsOk(d, h)
    ensures IdsOk(StartOn(d, w).dev, h + [FreshSeg(d, w)])
  {
    hide DiskInv, EpochRoom, StartOn, IdsOk, BumpSeq;
    StartChannels(d, h, w);
    IdsAfterStart(d, StartOn(d, w).dev, h, w);
  }

  lemma IdsAfterFinalize(d: Dev, h: seq<Seg>, w: Wr, k: nat)
    requires GeoOk(d) && SlotCount(d) > 0 && IdsOk(d, h) && k < |h|
    ensures IdsOk(Finalize(d, w), h[k := Close(h[k], w.rectype)])
  {
    hide GeoOk, IdsOk, WriteIndex, FillSlot;
    WriteIndexChannels(d, FillSlot(d, w, true));
    IdsAfterUpdate(d, Finalize(d, w), h, k, Close(h[k], w.rectype));
  }

  lemma IdsAfterPut(d: Dev, h: seq<Seg>, w: Wr, k: nat, f: Frame)
    requires GeoOk(d) && SlotCount(d) > 0 && IdsOk(d, h) && k < |h|
    ensures IdsOk(PutFrame(d, w, f).0, h[k := Extend(h[k], f)])
  {
    hide GeoOk, IdsOk, WriteIndex, FillSlot, Protect, HdrFor, EncodeHdr, Write;
    WriteIndexChannels(d, FillSlot(d, w.(startTime := U32(f.wallTime)), false));
    IdsAfterUpdate(d, PutFrame(d, w, f).0, h, k, Extend(h[k], f));
  }

  // ---- which slot belongs to which segment ----

  /** The place of the `r`-th slot ever appended. */
  function PosOf(d: Dev, r: nat): (i: nat)
    requires SlotCount(d) > 0
    ensures i < SlotCount(d)
  {
    r % SlotCount(d)
  }

  /** The slot of a segment that has recorded something: open until the segment is closed,
      then valid and covering what was closed. */
  ghost predicate SlotFor(s: Slot, d: Dev, k: nat, seg: Seg) {
    && Flagged(s) && s.segId == seg.segId && s.startChunk == ChunkNo(d, k)
    && (seg.closed > 0 ==> IsValid(s) && s.frameCount == seg.closed && s.rectype == seg.rectype)
  }

  ghost predicate HasSlot(d: Dev, h: seq<Seg>, o: Order, r: nat) {
    r < |o.slots| && Live(d, |h|, o.slots[r])
  }

  /** The segments with a slot are those with a frame. */
  ghost predicate Listed(h: seq<Seg>, o: Order) {
    && (forall r :: 0 <= r < |o.slots| ==> o.slots[r] < |h|)
    && forall k :: 0 <= k < |h| ==> (h[k].frames != [] <==> k in o.slots)
  }

  /** The slots of the live segments are where they were appended, no other slot is in use, and what
      was there before is still to be recognised. */
  ghost predicate IndexOk(d: Dev, h: seq<Seg>, o: Order)
    requires SlotCount(d) > 0
  {
    && Listed(h, o) && d.st.indexNext == PosOf(d, |o.slots|)
    && (forall r: nat :: HasSlot(d, h, o, r) ==> SlotFor(SlotAt(d, PosOf(d, r)), d, o.slots[r], h[o.slots[r]]))
    && (forall i :: 0 <= i < SlotCount(d) && Flagged(SlotAt(d, i)) ==> exists r: nat :: HasSlot(d, h, o, r) && PosOf(d, r) == i)
    && (forall r: nat :: r < |o.slots| <= r + SlotCount(d) ==> Recognised(SlotAt(d, PosOf(d, r)), d, h, o.slots[r]))
  }

  ghost predicate Recognised(s: Slot, d: Dev, h: seq<Seg>, k: nat)
    requires k < |h|
  {
    s.segId == h[k].segId && (!Live(d, |h|, k) ==> s.flags == 0)
  }

  /** One index slot per chunk and one for every further writer are enough, and ids are unique among
      live segments. */
  ghost predicate RoomyIndex(d: Dev, writers: nat) {
    GeoOk(d) && 0 < writers && DataChunks(d) + writers <= SlotCount(d) + 1 && DataChunks(d) <= SEQ_END
  }

  lemma IndexFacts(d: Dev, h: seq<Seg>, o: Order)
    requires SlotCount(d) > 0 && IndexOk(d, h, o)
    ensures Listed(h, o) && d.st.indexNext == PosOf(d, |o.slots|)
  {
  }

  lemma SlotOf(d: Dev, h: seq<Seg>, o: Order, r: nat)
    requires SlotCount(d) > 0 && IndexOk(d, h, o) && HasSlot(d, h, o, r)
    ensures o.slots[r] < |h| && SlotFor(SlotAt(d, PosOf(d, r)), d, o.slots[r], h[o.slots[r]])
  {
    hide SlotAt, PosOf, SlotFor, DataChunks;
  }

  lemma OwnerOf(d: Dev, h: seq<Seg>, o: Order, i: nat) returns (r: nat)
    requires SlotCount(d) > 0 && IndexOk(d, h, o) && i < SlotCount(d) && Flagged(SlotAt(d, i))
    ensures HasSlot(d, h, o, r) && PosOf(d, r) == i
  {
    hide SlotAt, PosOf, SlotFor, Flagged, Live;
    r :| HasSlot(d, h, o, r) && PosOf(d, r) == i;
  }

  lemma RecognisedAt(d: Dev, h: seq<Seg>, o: Order, r: nat)
    requires SlotCount(d) > 0 && IndexOk(d, h, o) && r < |o.slots| <= r + SlotCount(d)
    ensures o.slots[r] < |h| && Recognised(SlotAt(d, PosOf(d, r)), d, h, o.slots[r])
  {
    hide SlotAt, PosOf, SlotFor, Flagged, Live, Recognised;
  }

  ghost predicate TidyWith(d: Dev, h: seq<Seg>, open: set<nat>, writers: nat, o: Order) {
    RoomyIndex(d, writers) && SlotCount(d) > 0 && Ordered(|h|, open, writers, o) && IndexOk(d, h, o)
  }

  /** No slot of a live segment has been overtaken by the ring ... */
  ghost predicate Unovertaken(d: Dev, h: seq<Seg>, o: Order) {
    forall r: nat :: HasSlot(d, h, o, r) ==> |o.slots| <= r + SlotCount(d)
  }

  /** ... nor will the next slot overtake one. */
  ghost predicate RoomForNext(d: Dev, h: seq<Seg>, o: Order) {
    forall r: nat :: HasSlot(d, h, o, r) ==> |o.slots| < r + SlotCount(d)
  }

  /** All that the index operations rely on. */
  ghost predicate Placed(d: Dev, h: seq<Seg>, o: Order) {
    GeoOk(d) && DataChunks(d) <= SEQ_END && SlotCount(d) > 0 && Distinct(o) && IndexOk(d, h, o) && Unovertaken(d, h, o)
  }

  lemma PlacedGeo(d: Dev, h: seq<Seg>, o: Order)
    requires Placed(d, h, o)
    ensures GeoOk(d) && DataChunks(d) <= SEQ_END
  {
  }

  lemma PosDiffers(d: Dev, q: nat, r: nat)
    requires SlotCount(d) > 0 && q < r < q + SlotCount(d)
    ensures PosOf(d, q) != PosOf(d, r)
  {
    ModDiffers(q, r, SlotCount(d));
  }

  /** With room for the writers the slots of live segments are not overtaken. */
  lemma TidyPlaced(d: Dev, h: seq<Seg>, open: set<nat>, writers: nat, o: Order)
    requires TidyWith(d, h, open, writers, o)
    ensures Placed(d, h, o)
  {
    hide GeoOk, DataChunks, Live, IndexOk;
    forall r: nat | HasSlot(d, h, o, r)
      ensures |o.slots| <= r + SlotCount(d)
    {
      NotOvertaken(d, h, open, writers, o, r);
    }
  }

  lemma NotOvertaken(d: Dev, h: seq<Seg>, open: set<nat>, writers: nat, o: Order, r: nat)
    requires RoomyIndex(d, writers) && Ordered(|h|, open, writers, o) && HasSlot(d, h, o, r)
    ensures |o.slots| <= r + SlotCount(d)
  {
    hide GeoOk, DataChunks, Ordered;
    SlotsBehind(|h|, open, writers, o, r);
  }

  /** While an open segment waits for its slot, the next place belongs to no live segment. */
  lemma NotNext(d: Dev, h: seq<Seg>, open: set<nat>, writers: nat, o: Order, r: nat, k: nat)
    requires RoomyIndex(d, writers) && Ordered(|h|, open, writers, o) && HasSlot(d, h, o, r)
    requires k < |h| && k in open && k !in o.slots
    ensures SlotCount(d) > 0 && |o.slots| < r + SlotCount(d) && PosOf(d, r) != PosOf(d, |o.slots|)
  {
    hide GeoOk, DataChunks, Ordered;
    SlotsBehindWaiting(|h|, open, writers, o, r, k);
    PosDiffers(d, r, |o.slots|);
  }

  lemma TidyRoom(d: Dev, h: seq<Seg>, open: set<nat>, writers: nat, o: Order, k: nat)
    requires TidyWith(d, h, open, writers, o) && k < |h| && k in open && k !in o.slots
    ensures RoomForNext(d, h, o)
  {
    hide GeoOk, DataChunks, Live, IndexOk, PosOf;
    forall r: nat | HasSlot(d, h, o, r)
      ensures |o.slots| < r + SlotCount(d)
    {
      NotNext(d, h, open, writers, o, r, k);
    }
  }

  /** Different live segments have different slots. */
  lemma PositionsDiffer(d: Dev, h: seq<Seg>, o: Order, q: nat, r: nat)
    requires Placed(d, h, o)
    requires HasSlot(d, h, o, q) && r < |o.slots| && r != q && (HasSlot(d, h, o, r) || q < r)
    ensures PosOf(d, q) != PosOf(d, r)
  {
    hide GeoOk, DataChunks, IndexOk, PosOf;
    if q < r {
      PosDiffers(d, q, r);
    } else {
      PosDiffers(d, r, q);
    }
  }

  // ---- a start ----

  lemma RecycledSlot(d: Dev, h: seq<Seg>, i: nat)
    requires GeoOk(d) && RingOk(d, |h|) && EpochRoom(d) && !Exhausted(d, |h|) && i < SlotCount(d)
    ensures var chunk := |h| % DataChunks(d);
      SlotAt(Recycled(d), i) ==
        if d.sb.hddFull != HDD_STOP && |h| + 1 >= DataChunks(d) && Claims(SlotAt(d, i), chunk)
        then Cleared(d.prims, SlotAt(d, i)) else SlotAt(d, i)
  {
    hide Alloc, Invalidate, DecodeSlot, EncodeSlot, Read, GeoOk, RingOk, Cleared, Claims;
    AllocNth(d, |h|);
    AllocStatic(d);
    var d1 := Alloc(d).0;
    StaticFacts(d, d1);
    GeoAfterAlloc(d);
    assert SlotAt(d1, i) == SlotAt(d, i);
    InvalidateAt(d1, Alloc(d).1.chunk, 0, i);
  }

  lemma ClearedNotFlagged(p: Prims, s: Slot)
    ensures !Flagged(Cleared(p, s)) && Cleared(p, s).flags == 0 && Cleared(p, s).segId == s.segId
  {
  }

  /** The recycled chunk is that of the one segment that stops being live. */
  lemma RecycledChunk(d: Dev, n: nat, k: nat)
    requires DataChunks(d) > 0 && Live(d, n, k)
    ensures n % DataChunks(d) == ChunkNo(d, k) <==> n == k + DataChunks(d)
  {
    ModSame(k, DataChunks(d));
    if n != k + DataChunks(d) {
      ModDiffers(n, k, DataChunks(d));
    }
  }

  /** What a start does to a slot in use: it is cleared when its segment stops being live. */
  lemma StartedSlot(d: Dev, h: seq<Seg>, w: Wr, i: nat, k: nat)
    requires DiskInv(d, h) && EpochRoom(d) && SlotCount(d) > 0 && StartOn(d, w).status.Ok? && i < SlotCount(d)
    requires Live(d, |h|, k) && Flagged(SlotAt(d, i)) && SlotAt(d, i).startChunk == ChunkNo(d, k)
    ensures SlotAt(StartOn(d, w).dev, i) == if Live(d, |h| + 1, k) then SlotAt(d, i) else Cleared(d.prims, SlotAt(d, i))
  {
    hide Alloc, Recycled, GeoOk, SegsOk, SlotsOk, SlotAt, BumpSeq, EpochRoom, Cleared, RingOk, DataChunks, StartOn, Flagged;
    StartIsThere(d, h, w);
    BumpSlot(Recycled(d), w.chn, i);
    RecycledSlot(d, h, i);
    RecycledChunk(d, |h|, k);
    StopHasRoom(d, |h|);
  }

  lemma StartIsThere(d: Dev, h: seq<Seg>, w: Wr)
    requires DiskInv(d, h) && EpochRoom(d) && StartOn(d, w).status.Ok?
    ensures GeoOk(d) && RingOk(d, |h|) && !Exhausted(d, |h|) && DataChunks(d) > 0
    ensures StartOn(d, w).dev == BumpSeq(Recycled(d), w.chn)
  {
    hide Alloc, Recycled, GeoOk, SegsOk, SlotsOk, BumpSeq, EpochRoom, RingOk;
    StartKeepsInv(d, h, w);
    AllocNth(d, |h|);
    StartOnIs(d, w);
  }

  lemma StopHasRoom(d: Dev, n: nat)
    requires RingOk(d, n) && !Exhausted(d, n)
    ensures d.sb.hddFull == HDD_STOP ==> n < DataChunks(d)
  {
  }

  /** A slot not in use stays as it is. */
  lemma StartLeavesSlot(d: Dev, h: seq<Seg>, w: Wr, i: nat)
    requires DiskInv(d, h) && EpochRoom(d) && SlotCount(d) > 0 && StartOn(d, w).status.Ok? && i < SlotCount(d)
    requires !Flagged(SlotAt(d, i))
    ensures SlotAt(StartOn(d, w).dev, i) == SlotAt(d, i)
  {
    hide Alloc, Recycled, GeoOk, SegsOk, SlotsOk, SlotAt, BumpSeq, EpochRoom, Cleared, RingOk, DataChunks, StartOn, Flagged;
    StartIsThere(d, h, w);
    BumpSlot(Recycled(d), w.chn, i);
    RecycledSlot(d, h, i);
  }

  lemma StartNext(d: Dev, h: seq<Seg>, w: Wr)
    requires DiskInv(d, h) && EpochRoom(d) && SlotCount(d) > 0 && StartOn(d, w).status.Ok?
    ensures var e := StartOn(d, w).dev; SameStatic(d, e) && SlotCount(e) == SlotCount(d) && e.st.indexNext == d.st.indexNext
  {
    hide Alloc, Recycled, GeoOk, SegsOk, SlotsOk, SlotAt, SameStatic, BumpSeq, EpochRoom, RingOk, StartOn;
    StartKeepsInv(d, h, w);
    StartIsThere(d, h, w);
    RecycledFacts(d, |h|);
    StaticFacts(d, StartOn(d, w).dev);
    BumpNext(Recycled(d), w.chn);
  }

  lemma BumpNext(d: Dev, chn: u16)
    ensures BumpSeq(d, chn).st.indexNext == d.st.indexNext
  {
  }

  lemma IndexAfterStart(d: Dev, h: seq<Seg>, w: Wr, o: Order, open: set<nat>)
    requires DiskInv(d, h) && EpochRoom(d) && SlotCount(d) > 0 && IndexOk(d, h, o) && StartOn(d, w).status.Ok?
    ensures var e := StartOn(d, w).dev; SlotCount(e) > 0 && IndexOk(e, h + [FreshSeg(d, w)], Started(o, open, |h|))
  {
    hide PosOf, GeoOk, SegsOk, SlotsOk, SlotAt, SameStatic, EpochRoom, Cleared, RingOk, DataChunks, StartOn, Flagged, Live, NextSeq, DiskInv;
    StartNext(d, h, w);
    var e, h', o' := StartOn(d, w).dev, h + [FreshSeg(d, w)], Started(o, open, |h|);
    StaticFacts(d, e);
    SamePlaces(d, e);
    assert Listed(h', o');
    forall r: nat | HasSlot(e, h', o', r)
      ensures SlotFor(SlotAt(e, PosOf(e, r)), e, o.slots[r], h'[o.slots[r]])
    {
      LiveBefore(d, |h|, o.slots[r]);
      assert HasSlot(d, h, o, r);
      StartedSlot(d, h, w, PosOf(d, r), o.slots[r]);
    }
    forall i | 0 <= i < SlotCount(e) && Flagged(SlotAt(e, i))
      ensures exists r: nat :: HasSlot(e, h', o', r) && PosOf(e, r) == i
    {
      if !Flagged(SlotAt(d, i)) {
        StartLeavesSlot(d, h, w, i);
      }
      var r: nat :| HasSlot(d, h, o, r) && PosOf(d, r) == i;
      StartedSlot(d, h, w, i, o.slots[r]);
      ClearedNotFlagged(d.prims, SlotAt(d, i));
      assert HasSlot(e, h', o', r);
    }
    forall r: nat | r < |o.slots| <= r + SlotCount(e)
      ensures Recognised(SlotAt(e, PosOf(e, r)), e, h', o.slots[r])
    {
      StartRecognised(d, h, w, o, r);
    }
  }

  lemma StartRecognised(d: Dev, h: seq<Seg>, w: Wr, o: Order, r: nat)
    requires DiskInv(d, h) && EpochRoom(d) && SlotCount(d) > 0 && IndexOk(d, h, o) && StartOn(d, w).status.Ok?
    requires r < |o.slots| <= r + SlotCount(d)
    ensures Recognised(SlotAt(StartOn(d, w).dev, PosOf(d, r)), StartOn(d, w).dev, h + [FreshSeg(d, w)], o.slots[r])
  {
    hide PosOf, GeoOk, SegsOk, SlotsOk, SlotAt, SameStatic, EpochRoom, Cleared, RingOk, DataChunks, StartOn, Live, NextSeq, DiskInv;
    StartNext(d, h, w);
    var i, k := PosOf(d, r), o.slots[r];
    StaticFacts(d, StartOn(d, w).dev);
    assert Recognised(SlotAt(d, i), d, h, k);
    LiveBefore(d, |h|, k);
    if Live(d, |h|, k) {
      assert HasSlot(d, h, o, r);
      StartedSlot(d, h, w, i, k);
      ClearedNotFlagged(d.prims, SlotAt(d, i));
    } else {
      StartLeavesSlot(d, h, w, i);
    }
  }

  lemma LiveBefore(d: Dev, n: nat, k: nat)
    requires k < n
    ensures Live(d, n + 1, k) ==> Live(d, n, k)
  {
  }

  lemma SamePlaces(d: Dev, e: Dev)
    requires SlotCount(d) > 0 && SlotCount(e) == SlotCount(d)
    ensures forall r: nat :: PosOf(e, r) == PosOf(d, r)
  {
  }

  // ---- frames ----

  /** No live slot carries the id of a segment that has recorded nothing yet. */
  lemma {:induction false} NoSlotYet(d: Dev, h: seq<Seg>, o: Order, j: nat, from: nat)
    requires DataChunks(d) <= SEQ_END && SlotCount(d) > 0 && IndexOk(d, h, o) && IdsOk(d, h)
    requires j < |h| && Live(d, |h|, j) && h[j].frames == []
    ensures FindSlot(d, h[j].segId, from).Absent?
    decreases ScanLength(d) + 1 - from
  {
    hide SlotAt, IdsOk, DataChunks, Live, PosOf;
    if from <= ScanLength(d) {
      var i := Back(d, from);
      if Flagged(SlotAt(d, i)) && SlotAt(d, i).segId == h[j].segId {
        var r: nat :| HasSlot(d, h, o, r) && PosOf(d, r) == i;
        LiveIdsDiffer(d, h, j, o.slots[r]);
      }
      NoSlotYet(d, h, o, j, from + 1);
    }
  }

  lemma OpenSlotSealed(d: Dev, w: Wr)
    ensures var s := SealSlot(d.prims, FillSlot(d, w, false));
      Flagged(s) && s.segId == w.segId && s.startChunk == w.chunk
  {
  }

  /** Opening the slot of a segment writes the next place of the ring and moves on. */
  lemma FirstAppends(d: Dev, h: seq<Seg>, o: Order, w: Wr, k: nat)
    requires GeoOk(d) && DataChunks(d) <= SEQ_END && SlotCount(d) > 0 && IndexOk(d, h, o) && IdsOk(d, h)
    requires WriterAt(d, h, w, k) && w.frameCount == 0
    ensures var e, s := WriteIndex(d, FillSlot(d, w, false)), SealSlot(d.prims, FillSlot(d, w, false));
      && SameStatic(d, e) && e.st.indexNext == PosOf(d, |o.slots| + 1)
      && Flagged(s) && s.segId == h[k].segId && s.startChunk == ChunkNo(d, k)
      && forall i :: 0 <= i < SlotCount(d) ==> SlotAt(e, i) == if i == PosOf(d, |o.slots|) then s else SlotAt(d, i)
  {
    hide GeoOk, SlotAt, IdsOk, DataChunks, FillSlot, SealSlot, FindSlot, SameStatic, Append, Span, PayloadBytes;
    var s := FillSlot(d, w, false);
    FilledId(d, w, false);
    NoSlotYet(d, h, o, k, 1);
    WriteIndexStatic(d, s);
    OpenSlotSealed(d, w);
    forall i | 0 <= i < SlotCount(d)
      ensures SlotAt(WriteIndex(d, s), i) == if i == PosOf(d, |o.slots|) then SealSlot(d.prims, s) else SlotAt(d, i)
    {
      AppendAt(d, SealSlot(d.prims, s), i);
    }
    AppendAt(d, SealSlot(d.prims, s), 0);
    RingStep(|o.slots|, SlotCount(d));
  }

  lemma FilledId(d: Dev, w: Wr, closed: bool)
    ensures FillSlot(d, w, closed).segId == w.segId && FillSlot(d, w, closed).startChunk == w.chunk
    ensures FillSlot(d, w, closed).frameCount == w.frameCount
  {
  }

  lemma RingStep(r: nat, n: nat)
    requires n > 0
    ensures (r % n + 1) % n == (r + 1) % n
  {
    NextOnRing(r, n);
    if r % n + 1 == n {
      ModUnique(n, n, 1, 0);
    } else {
      ModUnique(r % n + 1, n, 0, r % n + 1);
    }
  }

  /** The first frame of a segment appends its slot, on a free place of the ring. */
  lemma IndexAfterFirst(d: Dev, h: seq<Seg>, o: Order, w: Wr, k: nat, f: Frame)
    requires Placed(d, h, o) && RoomForNext(d, h, o) && IdsOk(d, h)
    requires WriterAt(d, h, w, k) && w.frameCount == 0 && h[k].closed == 0
    ensures var e, h' := WriteIndex(d, FillSlot(d, w, false)), h[k := Extend(h[k], f)];
      SlotCount(e) > 0 && IndexOk(e, h', Appended(o, k))
  {
    hide GeoOk, SlotAt, IdsOk, DataChunks, FillSlot, SealSlot, WriteIndex, SameStatic, Span, PayloadBytes, PosOf, Flagged, SlotFor, Recognised, Live;
    var e := WriteIndex(d, FillSlot(d, w, false));
    PlacedGeo(d, h, o);
    FirstAppends(d, h, o, w, k);
    StaticFacts(d, e);
    SamePlaces(d, e);
    WriterEmpty(d, h, w, k);
    IndexGrows(d, e, h, o, k, f, SealSlot(d.prims, FillSlot(d, w, false)));
  }

  lemma WriterEmpty(d: Dev, h: seq<Seg>, w: Wr, k: nat)
    requires WriterAt(d, h, w, k)
    ensures w.frameCount == 0 <==> h[k].frames == []
    ensures Live(d, |h|, k)
  {
    hide Span, PayloadBytes;
  }

  /** `s` was written for open segment `k`, still without frames, behind all slots of `d`. */
  ghost predicate Behindmost(d: Dev, e: Dev, h: seq<Seg>, o: Order, k: nat, s: Slot)
    requires SlotCount(d) > 0
  {
    && k < |h| && h[k].frames == [] && h[k].closed == 0 && Live(d, |h|, k)
    && SlotCount(e) == SlotCount(d) && DataChunks(e) == DataChunks(d) && e.st.indexNext == PosOf(d, |o.slots| + 1)
    && Flagged(s) && s.segId == h[k].segId && s.startChunk == ChunkNo(d, k)
    && forall i :: 0 <= i < SlotCount(d) ==> SlotAt(e, i) == if i == PosOf(d, |o.slots|) then s else SlotAt(d, i)
  }

  /** Each slot so far is where it was, unless its place is the next one. */
  lemma PlaceKept(d: Dev, e: Dev, h: seq<Seg>, o: Order, k: nat, s: Slot, r: nat)
    requires Placed(d, h, o) && RoomForNext(d, h, o) && Behindmost(d, e, h, o, k, s) && r < |o.slots|
    requires HasSlot(d, h, o, r) || |o.slots| < r + SlotCount(d)
    ensures SlotAt(e, PosOf(d, r)) == SlotAt(d, PosOf(d, r))
  {
    hide GeoOk, SlotAt, DataChunks, PosOf, Ordered, RoomyIndex, Flagged, Live;
    PosDiffers(d, r, |o.slots|);
  }

  lemma IndexGrows(d: Dev, e: Dev, h: seq<Seg>, o: Order, k: nat, f: Frame, s: Slot)
    requires Placed(d, h, o) && RoomForNext(d, h, o) && Behindmost(d, e, h, o, k, s)
    ensures SlotCount(e) > 0 && IndexOk(e, h[k := Extend(h[k], f)], Appended(o, k))
  {
    hide GeoOk, SlotAt, DataChunks, PosOf, Ordered, RoomyIndex, Flagged, Live, Recognised, SlotFor, Extend, Listed;
    var h', o' := h[k := Extend(h[k], f)], Appended(o, k);
    SamePlaces(d, e);
    GrownListed(d, h, o, k, f);
    ListedBound(h', o');
    forall r: nat | HasSlot(e, h', o', r)
      ensures SlotFor(SlotAt(e, PosOf(e, r)), e, o'.slots[r], h'[o'.slots[r]])
    {
      GrownSlot(d, e, h, o, k, f, s, r);
    }
    forall i | 0 <= i < SlotCount(e) && Flagged(SlotAt(e, i))
      ensures exists r: nat :: HasSlot(e, h', o', r) && PosOf(e, r) == i
    {
      var r := GrownOwner(d, e, h, o, k, f, s, i);
    }
    forall r: nat | r < |o'.slots| <= r + SlotCount(e)
      ensures Recognised(SlotAt(e, PosOf(e, r)), e, h', o'.slots[r])
    {
      GrownRecognised(d, e, h, o, k, f, s, r);
    }
  }

  lemma ListedBound(h: seq<Seg>, o: Order)
    requires Listed(h, o)
    ensures forall r :: 0 <= r < |o.slots| ==> o.slots[r] < |h|
  {
  }

  lemma GrownListed(d: Dev, h: seq<Seg>, o: Order, k: nat, f: Frame)
    requires SlotCount(d) > 0 && IndexOk(d, h, o) && k < |h|
    ensures Listed(h[k := Extend(h[k], f)], Appended(o, k))
  {
    hide IndexOk;
    IndexFacts(d, h, o);
  }

  lemma GrownSlot(d: Dev, e: Dev, h: seq<Seg>, o: Order, k: nat, f: Frame, s: Slot, r: nat)
    requires Placed(d, h, o) && RoomForNext(d, h, o) && Behindmost(d, e, h, o, k, s)
    requires SlotCount(e) > 0 && HasSlot(e, h[k := Extend(h[k], f)], Appended(o, k), r)
    ensures var h', o' := h[k := Extend(h[k], f)], Appended(o, k);
      o'.slots[r] < |h'| && SlotFor(SlotAt(e, PosOf(e, r)), e, o'.slots[r], h'[o'.slots[r]])
  {
    hide GeoOk, SlotAt, DataChunks, PosOf, Ordered, RoomyIndex, Flagged, IndexOk, Listed;
    SamePlaces(d, e);
    if r < |o.slots| {
      SlotOf(d, h, o, r);
      PlaceKept(d, e, h, o, k, s, r);
    }
  }

  lemma GrownOwner(d: Dev, e: Dev, h: seq<Seg>, o: Order, k: nat, f: Frame, s: Slot, i: nat) returns (r: nat)
    requires Placed(d, h, o) && Behindmost(d, e, h, o, k, s)
    requires SlotCount(e) > 0 && i < SlotCount(e) && Flagged(SlotAt(e, i))
    ensures HasSlot(e, h[k := Extend(h[k], f)], Appended(o, k), r) && PosOf(e, r) == i
  {
    hide GeoOk, SlotAt, DataChunks, PosOf, Ordered, RoomyIndex, Flagged, IndexOk, Listed;
    SamePlaces(d, e);
    if i == PosOf(d, |o.slots|) {
      r := |o.slots|;
    } else {
      r := OwnerOf(d, h, o, i);
    }
  }

  lemma GrownRecognised(d: Dev, e: Dev, h: seq<Seg>, o: Order, k: nat, f: Frame, s: Slot, r: nat)
    requires Placed(d, h, o) && RoomForNext(d, h, o) && Behindmost(d, e, h, o, k, s)
    requires SlotCount(e) > 0 && r < |o.slots| + 1 <= r + SlotCount(e)
    ensures var h', o' := h[k := Extend(h[k], f)], Appended(o, k);
      o'.slots[r] < |h'| && Recognised(SlotAt(e, PosOf(e, r)), e, h', o'.slots[r])
  {
    hide GeoOk, SlotAt, DataChunks, PosOf, Ordered, RoomyIndex, Flagged, IndexOk, Listed;
    SamePlaces(d, e);
    if r < |o.slots| {
      RecognisedAt(d, h, o, r);
      PlaceKept(d, e, h, o, k, s, r);
    }
  }

  /** Slots that do not change, and a history that changes only by frames added to a segment
      that already had some. */
  lemma IndexSame(d: Dev, e: Dev, h: seq<Seg>, o: Order, j: nat, seg: Seg)
    requires SlotCount(d) > 0 && IndexOk(d, h, o) && SameStatic(d, e) && e.st.indexNext == d.st.indexNext
    requires forall i :: 0 <= i < SlotCount(d) ==> SlotAt(e, i) == SlotAt(d, i)
    requires j < |h| && seg.segId == h[j].segId && seg.closed == h[j].closed && (seg.closed > 0 ==> seg.rectype == h[j].rectype)
    requires seg.frames == [] <==> h[j].frames == []
    ensures SlotCount(e) > 0 && IndexOk(e, h[j := seg], o)
  {
    hide PosOf, SlotAt, SameStatic, Flagged, DataChunks, SlotFor, Recognised, Live, IndexOk, Listed;
    StaticFacts(d, e);
    SamePlaces(d, e);
    var h' := h[j := seg];
    ListedSame(d, h, o, j, seg);
    forall r: nat | HasSlot(e, h', o, r)
      ensures SlotFor(SlotAt(e, PosOf(e, r)), e, o.slots[r], h'[o.slots[r]])
    {
      SlotOf(d, h, o, r);
      SlotForSame(SlotAt(d, PosOf(d, r)), d, e, o.slots[r], h[o.slots[r]], h'[o.slots[r]]);
    }
    forall i | 0 <= i < SlotCount(e) && Flagged(SlotAt(e, i))
      ensures exists r: nat :: HasSlot(e, h', o, r) && PosOf(e, r) == i
    {
      var r := OwnerOf(d, h, o, i);
      assert HasSlot(e, h', o, r);
    }
    forall r: nat | r < |o.slots| <= r + SlotCount(e)
      ensures Recognised(SlotAt(e, PosOf(e, r)), e, h', o.slots[r])
    {
      RecognisedAt(d, h, o, r);
      RecognisedSame(SlotAt(d, PosOf(d, r)), d, e, h, h', o.slots[r]);
    }
    assert IndexOk(e, h', o) by { IndexBack(e, h', o); }
  }

  lemma ListedSame(d: Dev, h: seq<Seg>, o: Order, j: nat, seg: Seg)
    requires SlotCount(d) > 0 && IndexOk(d, h, o) && j < |h| && (seg.frames == [] <==> h[j].frames == [])
    ensures Listed(h, o) && Listed(h[j := seg], o) && d.st.indexNext == PosOf(d, |o.slots|)
    ensures forall r :: 0 <= r < |o.slots| ==> o.slots[r] < |h|
  {
    hide PosOf, SlotAt, Flagged, DataChunks, SlotFor, Recognised, Live;
  }

  lemma SlotForSame(s: Slot, d: Dev, e: Dev, k: nat, seg: Seg, now: Seg)
    requires SlotFor(s, d, k, seg) && ChunkNo(e, k) == ChunkNo(d, k)
    requires now.segId == seg.segId && now.closed == seg.closed && (now.closed > 0 ==> now.rectype == seg.rectype)
    ensures SlotFor(s, e, k, now)
  {
    hide Flagged;
  }

  lemma RecognisedSame(s: Slot, d: Dev, e: Dev, h: seq<Seg>, g: seq<Seg>, k: nat)
    requires k < |h| == |g| && g[k].segId == h[k].segId && Recognised(s, d, h, k) && Live(e, |h|, k) == Live(d, |h|, k)
    ensures Recognised(s, e, g, k)
  {
    hide Live;
  }

  lemma IndexBack(d: Dev, h: seq<Seg>, o: Order)
    requires SlotCount(d) > 0 && Listed(h, o) && d.st.indexNext == PosOf(d, |o.slots|)
    requires forall r :: 0 <= r < |o.slots| ==> o.slots[r] < |h|
    requires forall r: nat :: HasSlot(d, h, o, r) ==> SlotFor(SlotAt(d, PosOf(d, r)), d, o.slots[r], h[o.slots[r]])
    requires forall i :: 0 <= i < SlotCount(d) && Flagged(SlotAt(d, i)) ==> exists r: nat :: HasSlot(d, h, o, r) && PosOf(d, r) == i
    requires forall r: nat :: r < |o.slots| <= r + SlotCount(d) ==> Recognised(SlotAt(d, PosOf(d, r)), d, h, o.slots[r])
    ensures IndexOk(d, h, o)
  {
    hide PosOf, SlotAt, Flagged, SlotFor, Recognised, Live;
  }

  // ---- the search for a segment's slot ----

  /** `k` places back is the slot appended `k` ago. */
  lemma BackIs(d: Dev, n: nat, k: nat)
    requires SlotCount(d) > 0 && d.st.indexNext == PosOf(d, n) && k <= SlotCount(d) && k <= n
    ensures Back(d, k) == PosOf(d, n - k)
  {
    var m := SlotCount(d);
    var q, r := n / m, n % m;
    assert n == m * q + r;
    if k <= r {
      ModUnique(n - k, m, q, r - k);
      ModUnique(r + m - k, m, 1, r - k);
    } else {
      assert m * (q - 1) == m * q - m;
      ModUnique(n - k, m, q - 1, r + m - k);
      ModUnique(r + m - k, m, 0, r + m - k);
    }
  }

  /** The backward search gets from the next place to slot `r`: it is close enough, and no slot on
      the way looks as if never written. */
  ghost predicate InReach(d: Dev, h: seq<Seg>, o: Order, r: nat, from: nat)
    requires Listed(h, o)
  {
    |o.slots| - r <= 8192 &&
    forall q :: r < q <= |o.slots| - from && q < |o.slots| ==> Live(d, |h|, o.slots[q]) || h[o.slots[q]].segId != 0
  }

  lemma FlaggedNotBlank(s: Slot)
    ensures Flagged(s) ==> s.flags != 0
  {
  }

  /** A slot with the id of a live segment is that segment's slot. */
  lemma OwnSlot(d: Dev, h: seq<Seg>, o: Order, r: nat, i: nat)
    requires Placed(d, h, o) && IdsOk(d, h) && HasSlot(d, h, o, r)
    requires i < SlotCount(d) && Flagged(SlotAt(d, i)) && o.slots[r] < |h| && SlotAt(d, i).segId == h[o.slots[r]].segId
    ensures i == PosOf(d, r)
  {
    hide SlotAt, DataChunks, IdsOk, PosOf, Flagged, Live, IndexOk, GeoOk;
    var q := OwnerOf(d, h, o, i);
    SlotOf(d, h, o, q);
    PlacedGeo(d, h, o);
    if o.slots[q] != o.slots[r] {
      LiveIdsDiffer(d, h, o.slots[q], o.slots[r]);
    }
  }

  /** The search finds the slot of a live segment exactly when that is in reach. */
  lemma {:induction false} SearchExact(d: Dev, h: seq<Seg>, o: Order, r: nat, k: nat)
    requires Placed(d, h, o) && IdsOk(d, h) && HasSlot(d, h, o, r) && 1 <= k <= |o.slots| - r
    ensures Listed(h, o) && FindSlot(d, h[o.slots[r]].segId, k) == (if InReach(d, h, o, r, k) then Found(PosOf(d, r)) else Absent)
    decreases |o.slots| - r - k
  {
    hide GeoOk, SlotAt, DataChunks, IdsOk, PosOf, Flagged, Live, RoomyIndex, Back, IndexOk, Ordered, Listed;
    IndexFacts(d, h, o);
    SlotOf(d, h, o, r);
    if k <= ScanLength(d) {
      var q := |o.slots| - k;
      BackIs(d, |o.slots|, k);
      if q != r {
        PassedSlot(d, h, o, r, q);
        SearchExact(d, h, o, r, k + 1);
      }
    }
  }

  /** A slot on the way is not taken for the one looked for, and stops the search only when it looks
      as if never written. */
  lemma PassedSlot(d: Dev, h: seq<Seg>, o: Order, r: nat, q: nat)
    requires Placed(d, h, o) && IdsOk(d, h) && HasSlot(d, h, o, r) && r < q < |o.slots|
    ensures o.slots[r] < |h| && o.slots[q] < |h|
    ensures var s := SlotAt(d, PosOf(d, q));
      && !(Flagged(s) && s.segId == h[o.slots[r]].segId)
      && (s.flags == 0 && s.segId == 0 <==> !Live(d, |h|, o.slots[q]) && h[o.slots[q]].segId == 0)
  {
    hide GeoOk, SlotAt, DataChunks, IdsOk, PosOf, Flagged, Live, RoomyIndex, Back, IndexOk, Ordered, Listed;
    var s := SlotAt(d, PosOf(d, q));
    SlotOf(d, h, o, r);
    PositionsDiffer(d, h, o, r, q);
    RecognisedAt(d, h, o, q);
    FlaggedNotBlank(s);
    if Flagged(s) && s.segId == h[o.slots[r]].segId {
      OwnSlot(d, h, o, r, PosOf(d, q));
    }
    if Live(d, |h|, o.slots[q]) {
      SlotOf(d, h, o, q);
    }
  }

  lemma {:induction false} CountPositive(h: seq<Seg>, k: nat)
    requires k < |h|
    ensures 1 <= Count(h, k + 1, h[k].chn % 32) <= |h|
  {
    CountGrows(h, 0, k, h[k].chn % 32);
  }

  /** Until a counter has gone round, no id is 0. */
  lemma EarlyIds(d: Dev, h: seq<Seg>, k: nat)
    requires IdsOk(d, h) && |h| < SEQ_END && k < |h|
    ensures h[k].segId != 0
  {
    hide Count;
    CountPositive(h, k);
    var n := Count(h, k + 1, h[k].chn % 32);
    assert h[k].segId == SegIdOf(h[k].chn, U32(n));
    LowBits(n);
    ModUnique(h[k].segId, SEQ_END, h[k].chn % 256, n % SEQ_END);
    ModUnique(n, SEQ_END, 0, n);
  }

  /** On a ring the search can get around, every slot is in reach. */
  lemma SmallInReach(d: Dev, h: seq<Seg>, open: set<nat>, writers: nat, o: Order, r: nat)
    requires TidyWith(d, h, open, writers, o) && IdsOk(d, h) && HasSlot(d, h, o, r)
    requires DataChunks(d) + writers <= 8193 && |h| < SEQ_END
    ensures FindSlot(d, h[o.slots[r]].segId, 1).Found?
  {
    hide GeoOk, SlotAt, DataChunks, IdsOk, PosOf, IndexOk, Ordered, FindSlot, Placed;
    TidyPlaced(d, h, open, writers, o);
    SearchExact(d, h, o, r, 1);
    SlotsBehind(|h|, open, writers, o, r);
    forall q | 0 <= q < |o.slots|
      ensures h[o.slots[q]].segId != 0
    {
      EarlyIds(d, h, o.slots[q]);
    }
  }

  /** With one writer the slot of the open segment is found at once. */
  lemma FoundAtOnce(d: Dev, h: seq<Seg>, open: set<nat>, o: Order, r: nat)
    requires TidyWith(d, h, open, 1, o) && IdsOk(d, h) && HasSlot(d, h, o, r) && o.slots[r] in open
    ensures o.slots[r] < |h| && FindSlot(d, h[o.slots[r]].segId, 1) == Found(PosOf(d, r)) && Back(d, 1) == PosOf(d, r)
  {
    hide GeoOk, SlotAt, DataChunks, IdsOk, IndexOk, Ordered, FindSlot, PosOf, Back, Placed;
    TidyPlaced(d, h, open, 1, o);
    AloneIsLast(|h|, open, o, r);
    SearchExact(d, h, o, r, 1);
    IndexFacts(d, h, o);
    BackIs(d, |o.slots|, 1);
  }

  // ---- closing ----

  lemma ClosedSlotSealed(d: Dev, w: Wr)
    ensures var s := SealSlot(d.prims, FillSlot(d, w, true));
      IsValid(s) && s.segId == w.segId && s.startChunk == w.chunk && s.frameCount == w.frameCount && s.rectype == w.rectype
  {
  }

  /** What closing a segment does to the slots when the search gets to its slot. */
  lemma FinalizeSlots(d: Dev, h: seq<Seg>, o: Order, w: Wr, r: nat)
    requires Placed(d, h, o) && IdsOk(d, h) && HasSlot(d, h, o, r)
    requires WriterAt(d, h, w, o.slots[r]) && w.frameCount > 0 && FindSlot(d, w.segId, 1).Found?
    ensures var e := Finalize(d, w);
      && SameStatic(d, e) && e.st.indexNext == d.st.indexNext
      && forall i :: 0 <= i < SlotCount(d) ==>
           SlotAt(e, i) == if i == PosOf(d, r) then SealSlot(d.prims, FillSlot(d, w, true)) else SlotAt(d, i)
  {
    hide GeoOk, SlotAt, DataChunks, FillSlot, SealSlot, FindSlot, SameStatic, PutSlot, IndexOk, Span, PayloadBytes, RoomyIndex, Ordered;
    var s := FillSlot(d, w, true);
    FilledId(d, w, true);
    SearchExact(d, h, o, r, 1);
    PlacedGeo(d, h, o);
    WriteIndexStatic(d, s);
    var at := PosOf(d, r);
    PutSlotTables(d, at, SealSlot(d.prims, s));
    forall i | 0 <= i < SlotCount(d)
      ensures SlotAt(Finalize(d, w), i) == if i == at then SealSlot(d.prims, s) else SlotAt(d, i)
    {
      PutSlotAt(d, at, SealSlot(d.prims, s), i);
    }
  }

  lemma PutSlotTables(d: Dev, i: nat, s: Slot)
    ensures PutSlot(d, i, s).st == d.st && PutSlot(d, i, s).sb == d.sb
  {
  }

  lemma WriterRank(d: Dev, h: seq<Seg>, o: Order, w: Wr, k: nat) returns (r: nat)
    requires Listed(h, o) && WriterAt(d, h, w, k) && w.frameCount > 0
    ensures HasSlot(d, h, o, r) && o.slots[r] == k
  {
    hide Span, PayloadBytes;
    WriterEmpty(d, h, w, k);
    r :| 0 <= r < |o.slots| && o.slots[r] == k;
  }

  lemma IndexAfterClose(d: Dev, h: seq<Seg>, o: Order, w: Wr, k: nat)
    requires Placed(d, h, o) && IdsOk(d, h)
    requires WriterAt(d, h, w, k) && w.frameCount > 0 && FindSlot(d, w.segId, 1).Found?
    ensures var e := Finalize(d, w); SlotCount(e) > 0 && IndexOk(e, h[k := Close(h[k], w.rectype)], o)
  {
    hide PosOf, RoomyIndex, GeoOk, SlotAt, DataChunks, Finalize, FillSlot, SealSlot, SameStatic, Span, PayloadBytes, FindSlot, Flagged, IdsOk, Ordered, Live, IndexOk, Listed;
    IndexFacts(d, h, o);
    var at := WriterRank(d, h, o, w, k);
    FinalizeSlots(d, h, o, w, at);
    StaticFacts(d, Finalize(d, w));
    ClosedSlotSealed(d, w);
    ValidIsFlagged(SealSlot(d.prims, FillSlot(d, w, true)));
    IndexPublished(d, Finalize(d, w), h, o, at, SealSlot(d.prims, FillSlot(d, w, true)));
  }

  /** `s` was written over the slot at rank `at`, covering all frames of its segment. */
  ghost predicate Published(d: Dev, e: Dev, h: seq<Seg>, o: Order, at: nat, s: Slot)
    requires SlotCount(d) > 0
  {
    && HasSlot(d, h, o, at)
    && SlotCount(e) == SlotCount(d) && DataChunks(e) == DataChunks(d) && e.st.indexNext == d.st.indexNext
    && Flagged(s) && IsValid(s) && s.segId == h[o.slots[at]].segId && s.startChunk == ChunkNo(d, o.slots[at])
    && s.frameCount == |h[o.slots[at]].frames|
    && forall i :: 0 <= i < SlotCount(d) ==> SlotAt(e, i) == if i == PosOf(d, at) then s else SlotAt(d, i)
  }

  lemma IndexPublished(d: Dev, e: Dev, h: seq<Seg>, o: Order, at: nat, s: Slot)
    requires Placed(d, h, o) && Published(d, e, h, o, at, s)
    ensures SlotCount(e) > 0 && o.slots[at] < |h| && IndexOk(e, h[o.slots[at] := Close(h[o.slots[at]], s.rectype)], o)
  {
    hide GeoOk, SlotAt, DataChunks, PosOf, Ordered, RoomyIndex, Flagged, Live, Recognised, SlotFor, Listed;
    IndexFacts(d, h, o);
    ListedBound(h, o);
    var k := o.slots[at];
    CloseListed(d, h, o, k, s.rectype);
    var h' := h[k := Close(h[k], s.rectype)];
    ListedBound(h', o);
    SamePlaces(d, e);
    forall r: nat | HasSlot(e, h', o, r)
      ensures SlotFor(SlotAt(e, PosOf(e, r)), e, o.slots[r], h'[o.slots[r]])
    {
      PublishedSlot(d, e, h, o, at, s, r);
    }
    forall i | 0 <= i < SlotCount(e) && Flagged(SlotAt(e, i))
      ensures exists r: nat :: HasSlot(e, h', o, r) && PosOf(e, r) == i
    {
      var r := PublishedOwner(d, e, h, o, at, s, i);
    }
    forall r: nat | r < |o.slots| <= r + SlotCount(e)
      ensures Recognised(SlotAt(e, PosOf(e, r)), e, h', o.slots[r])
    {
      PublishedRecognised(d, e, h, o, at, s, r);
    }
  }

  lemma PublishedSlot(d: Dev, e: Dev, h: seq<Seg>, o: Order, at: nat, s: Slot, r: nat)
    requires Placed(d, h, o) && Published(d, e, h, o, at, s) && o.slots[at] < |h|
    requires SlotCount(e) > 0 && HasSlot(e, h, o, r)
    ensures var h' := h[o.slots[at] := Close(h[o.slots[at]], s.rectype)];
      o.slots[r] < |h'| && SlotFor(SlotAt(e, PosOf(e, r)), e, o.slots[r], h'[o.slots[r]])
  {
    hide GeoOk, SlotAt, DataChunks, PosOf, Ordered, RoomyIndex, Flagged, IndexOk, Listed;
    SamePlaces(d, e);
    SlotOf(d, h, o, r);
    RankOfSlot(d, h, o, r, at);
  }

  lemma PublishedOwner(d: Dev, e: Dev, h: seq<Seg>, o: Order, at: nat, s: Slot, i: nat) returns (r: nat)
    requires Placed(d, h, o) && Published(d, e, h, o, at, s) && o.slots[at] < |h|
    requires SlotCount(e) > 0 && i < SlotCount(e) && Flagged(SlotAt(e, i))
    ensures HasSlot(e, h[o.slots[at] := Close(h[o.slots[at]], s.rectype)], o, r) && PosOf(e, r) == i
  {
    hide GeoOk, SlotAt, DataChunks, PosOf, Ordered, RoomyIndex, Flagged, IndexOk, Listed;
    SamePlaces(d, e);
    if i == PosOf(d, at) {
      r := at;
    } else {
      r := OwnerOf(d, h, o, i);
    }
  }

  lemma PublishedRecognised(d: Dev, e: Dev, h: seq<Seg>, o: Order, at: nat, s: Slot, r: nat)
    requires Placed(d, h, o) && Published(d, e, h, o, at, s) && o.slots[at] < |h|
    requires SlotCount(e) > 0 && r < |o.slots| <= r + SlotCount(e)
    ensures var h' := h[o.slots[at] := Close(h[o.slots[at]], s.rectype)];
      o.slots[r] < |h'| && Recognised(SlotAt(e, PosOf(e, r)), e, h', o.slots[r])
  {
    hide GeoOk, SlotAt, DataChunks, PosOf, Ordered, RoomyIndex, Flagged, IndexOk, Listed;
    SamePlaces(d, e);
    RecognisedAt(d, h, o, r);
    if PosOf(d, r) == PosOf(d, at) {
      SamePlace(d, h, o, r, at);
    }
  }

  lemma CloseListed(d: Dev, h: seq<Seg>, o: Order, k: nat, rectype: u8)
    requires SlotCount(d) > 0 && IndexOk(d, h, o) && k < |h|
    ensures Listed(h[k := Close(h[k], rectype)], o) && |h[k := Close(h[k], rectype)]| == |h| && d.st.indexNext == PosOf(d, |o.slots|)
  {
    hide IndexOk;
    IndexFacts(d, h, o);
  }

  lemma ValidIsFlagged(s: Slot)
    requires IsValid(s)
    ensures Flagged(s)
  {
  }

  lemma RankOfSlot(d: Dev, h: seq<Seg>, o: Order, r: nat, at: nat)
    requires Placed(d, h, o) && HasSlot(d, h, o, r) && HasSlot(d, h, o, at)
    ensures r != at ==> PosOf(d, r) != PosOf(d, at) && o.slots[r] != o.slots[at]
  {
    hide PosOf, RoomyIndex, GeoOk, SlotAt, DataChunks, IndexOk;
    if r != at {
      PositionsDiffer(d, h, o, r, at);
    }
  }

  lemma SamePlace(d: Dev, h: seq<Seg>, o: Order, r: nat, at: nat)
    requires Placed(d, h, o) && HasSlot(d, h, o, at)
    requires r < |o.slots| <= r + SlotCount(d) && PosOf(d, r) == PosOf(d, at)
    ensures r == at
  {
    hide PosOf, RoomyIndex, GeoOk, SlotAt, DataChunks, IndexOk;
    if r < at {
      PosDiffers(d, r, at);
    } else if at < r {
      PosDiffers(d, at, r);
    }
  }
}
