/** The segment writer as an object over one disk or over a group. */
module Writer {
  import opened Bytes
  import opened RecorderFormat
  import opened StorageDev
  import opened Index
  import opened Recorder
  import opened Device
  import opened Group
  import opened GroupImpl
  import Crypto
  import IndexImpl

  class Writer {
    const group: DiskGroup?
    var d: Device
    ghost var place: nat   // the position of d in the group, 0 without one
    var chn: u16
    var rectype: u8
    var segId: u32
    var chunk: u64
    var baseOff: nat
    var curOff: u32
    var frameSeq: u32
    var frameCount: u32
    var totalBytes: u64
    var startTime: u32
    var lastTime: u32
    var endOff: u32

    ghost function Devs(): seq<Device>
      reads this
    {
      if group == null then [d] else group.devs
    }

    ghost function Footprint(): set<object>
      reads this
    {
      {this} + (if group == null then {} else {group}) + (set x | x in Devs()) + Images(Devs())
    }

    ghost predicate Valid()
      reads this
    {
      place < |Devs()| && Devs()[place] == d && Distinct(Devs())
    }

    ghost function Value(): Wr
      reads this
    {
      Wr(group != null, place, chn, rectype, segId, chunk, baseOff, curOff, frameSeq, frameCount, totalBytes,
         startTime, lastTime, endOff)
    }

    ghost function Disks(): Pool
      reads Footprint()
    {
      Pool(States(Devs()), if group == null then 0 else group.rr)
    }

    constructor (d: Device, group: DiskGroup?, ghost place: nat, chn: u16, rectype: u8)
      requires if group == null then place == 0 else place < |group.devs| && group.devs[place] == d && Distinct(group.devs)
      ensures Valid() && this.group == group && this.d == d
      ensures Value() == Wr(group != null, place, chn, rectype, 0, 0, 0, 0, 0, 0, 0, 0, 0, 0)
    {
      this.d, this.group, this.place, this.chn, this.rectype := d, group, place, chn, rectype;
      segId, chunk, baseOff, curOff, frameSeq, frameCount := 0, 0, 0, 0, 0, 0;
      totalBytes, startTime, lastTime, endOff := 0, 0, 0, 0;
    }

    /** Takes the next chunk of disk `d`. */
    method StartOnDisk() returns (status: Status)
      requires Valid()
      modifies this, d`sb, d`st, d.disk
      ensures Valid() && d == old(d) && place == old(place)
      ensures WrResult(d.State(), Value(), status) == StartOn(old(d.State()), old(Value()))
    {
      hide Invalidate, Alloc, BumpSeq, NextSeq, SegIdOf;
      ghost var d0, w0 := d.State(), Value();
      var r := d.AllocChunk();
      match r {
        case NoRoom =>
          AllocRefused(d0);
          status := Fail(NoSpace);
        case Chunk(c, off) =>
          ghost var d1 := d.State();
          if d.sb.seqEpoch > 1 {
            var cleared := IndexImpl.InvalidateChunk(d, c);
          }
          ghost var d2 := d.State();
          assert d2 == if IsWrapped(d1) then Invalidate(d1, c, 0) else d1;
          var id := NextSegId();
          Restart(c, off, id);
          status := Ok;
          assert Alloc(d0) == (d1, Chunk(c, off)) && d.State() == BumpSeq(d2, chn);
      }
    }

    static lemma AllocRefused(d: Dev)
      ensures Alloc(d).1.NoRoom? ==> Alloc(d).0 == d
    {
    }

    method Restart(c: u64, off: nat, id: u32)
      requires Valid()
      modifies `segId, `chunk, `baseOff, `curOff, `frameSeq, `frameCount, `totalBytes, `startTime, `lastTime, `endOff
      ensures Valid() && d == old(d) && place == old(place)
      ensures Value() == old(Value()).(chunk := c, baseOff := off, curOff := 0, segId := id, frameSeq := 0, frameCount := 0,
                                       totalBytes := 0, startTime := 0, lastTime := 0, endOff := 0)
    {
      hide Distinct;
      ResetCounters();
      chunk, baseOff, segId := c, off, id;
    }

    method ResetCounters()
      requires Valid()
      modifies `curOff, `frameSeq, `frameCount, `totalBytes, `startTime, `lastTime, `endOff
      ensures Valid() && d == old(d) && place == old(place)
      ensures Value() == old(Value()).(curOff := 0, frameSeq := 0, frameCount := 0, totalBytes := 0, startTime := 0,
                                       lastTime := 0, endOff := 0)
    {
      hide Distinct;
      curOff, frameSeq, frameCount, totalBytes := 0, 0, 0, 0;
      startTime, lastTime, endOff := 0, 0, 0;
    }

    /** Advances the channel's counter on the disk. */
    method NextSegId() returns (id: u32)
      modifies d`st
      ensures d.State() == BumpSeq(old(d.State()), chn)
      ensures id == SegIdOf(chn, NextSeq(old(d.State()), chn))
    {
      var i := chn % 32;
      var entry := d.st.chn[i];
      entry := entry.(segSeq := U32(entry.segSeq + 1));
      d.st := d.st.(chn := d.st.chn[i := entry]);
      id := chn % 256 * 0x100_0000 + entry.segSeq % 0x100_0000;
    }

    /** A group writer turns to the disk the group picks. */
    method ChooseDisk()
      requires Valid() && Ready(Disks())
      modifies this, group
      ensures Valid() && Devs() == old(Devs())
      ensures var p, w := old(Disks()), old(Value());
        Disks() == (if w.grouped then Turn(p) else p) && Value() == if w.grouped then w.(dev := Pick(p)) else w
    {
      hide Load, Pick, Distinct;
      if group != null {
        var i := group.BalancePick();
        d, place := group.devs[i], i;
      }
    }

    method StartHere() returns (status: Status)
      requires Valid()
      modifies this, d`sb, d`st, d.disk
      ensures Valid() && Devs() == old(Devs())
      ensures var p := old(Disks()); var r := StartOn(p.devs[place], old(Value()));
        Disks() == p.(devs := p.devs[place := r.dev]) && Value() == r.wr && status == r.status
    {
      hide StartOn;
      ghost var p := Disks();
      status := StartOnDisk();
      assert forall j :: 0 <= j < |Devs()| && j != place ==> Disks().devs[j] == p.devs[j];
      assert Disks().devs == p.devs[place := d.State()];
    }

    method StartSegment() returns (status: Status)
      requires Valid() && Ready(Disks())
      modifies Footprint()
      ensures Valid() && Devs() == old(Devs())
      ensures PoolResult(Disks(), Value(), status) == StartSeg(old(Disks()), old(Value()))
    {
      hide StartOn, Load, Pick, Distinct, States;
      ChooseDisk();
      status := StartHere();
    }

    method SlotNow(closed: bool) returns (s: Slot)
      ensures s == FillSlot(d.State(), Value(), closed)
    {
      var flags := (if closed then VALID_BIT else OPEN_BIT) + (if rectype != REC_CONTINUOUS then EVENT_BIT else 0);
      s := Slot(segId, chn, rectype, flags, startTime, if closed then lastTime else U32_MAX, frameCount, totalBytes,
                d.sb.groupDiskIndex, d.sb.groupDiskIndex, chunk, 0, chunk, endOff, 0, 0);
    }

    method FinalizeSegment()
      requires Valid() && Ready(Disks())
      modifies d`sb, d`st, d.disk
      ensures Disks() == FinalizeSeg(old(Disks()), old(Value()))
    {
      hide Index.WriteIndex, Load;
      if frameCount > 0 {
        var s := SlotNow(true);
        IndexImpl.WriteIndex(d, s);
      }
      assert Disks().devs == old(Disks().devs)[place := d.State()];
    }

    /** Header and payload of one frame, the payload protected in place before it is written. */
    method WriteFrameRecord(f: Frame)
      requires Valid()
      modifies d.disk
      ensures d.State() == WriteRecord(old(d.State()), Value(), f)
    {
      hide Crypto.Xcrypt, Write, EncodeHdr, Nonce;
      var h := FrameHdr(FRAME_MAGIC, f.chn, f.stream, f.codec, f.frameType, 0, 0, |f.data|, segId, frameSeq,
                        f.pts, f.wallTime, Nonce(frameSeq), 0, Zeros(8));
      var buf := new byte[|f.data|](i requires 0 <= i < |f.data| => f.data[i]);
      assert buf[..] == f.data && buf[..buf.Length] == buf[..];
      match d.dek {
        case HasKey(key) =>
          h := h.(enc := 1);
          Crypto.XcryptInPlace(d.prims.aes, key, segId, frameSeq, 0, buf, buf.Length);
          assert buf[..buf.Length] == buf[..];
        case NoKey =>
      }
      h := h.(crc := d.prims.crc(EncodeHdr(h)));
      assert buf[..] == Protect(d.State(), segId, frameSeq, f.data);
      assert h == HdrFor(d.State(), segId, frameSeq, f);
      var off := baseOff + curOff;
      d.PWrite(off, EncodeHdr(h));
      d.PWrite(off + HDR_SIZE, buf[..]);
    }

    method AdvanceBy(f: Frame)
      requires Valid()
      modifies `curOff, `frameSeq, `frameCount, `totalBytes, `lastTime, `endOff
      ensures Valid() && d == old(d) && Value() == Advance(old(Value()), f)
    {
      hide Need32;
      endOff := curOff;
      curOff := U32(curOff + Need32(|f.data|));
      lastTime := U32(f.wallTime);
      frameSeq, frameCount := U32(frameSeq + 1), U32(frameCount + 1);
      totalBytes := (totalBytes + |f.data|) % U64_END;
    }

    /** A frame into the current chunk, the first one after an open index slot. */
    method PutRecord(f: Frame)
      requires Valid() && d.st.slotCount > 0
      modifies this, d`sb, d`st, d.disk
      ensures Valid() && d == old(d)
      ensures (d.State(), Value()) == PutFrame(old(d.State()), old(Value()), f)
    {
      hide Index.WriteIndex, WriteRecord, FillSlot, Advance;
      if frameCount == 0 {
        startTime := U32(f.wallTime);
        var s := SlotNow(false);
        IndexImpl.WriteIndex(d, s);
      }
      WriteFrameRecord(f);
      AdvanceBy(f);
    }

    method PutOnDisk(f: Frame)
      requires Valid() && place < |Disks().devs| && SlotCount(Disks().devs[place]) > 0
      modifies this, d`sb, d`st, d.disk
      ensures Valid() && Devs() == old(Devs())
      ensures PoolResult(Disks(), Value(), Ok) == PutOn(old(Disks()), old(Value()), f)
    {
      hide PutFrame;
      PutRecord(f);
      PutKept(old(d.State()), old(Value()), f);
      assert Disks().devs == old(Disks().devs)[place := d.State()];
    }

    static lemma PutKept(d: Dev, w: Wr, f: Frame)
      requires SlotCount(d) > 0
      ensures PutFrame(d, w, f).1.dev == w.dev && PutFrame(d, w, f).1.grouped == w.grouped
    {
      hide Index.WriteIndex, WriteRecord;
    }

    method Rotate() returns (status: Status)
      requires Valid() && Ready(Disks())
      modifies Footprint()
      ensures Valid() && Devs() == old(Devs())
      ensures PoolResult(Disks(), Value(), status) == StartSeg(FinalizeSeg(old(Disks()), old(Value())), old(Value()))
    {
      hide StartOn, Finalize, Load, Pick;
      FinalizeSegment();
      status := StartSegment();
    }

    /** Moves to a new segment when the current chunk cannot take the frame. */
    method Room(f: Frame) returns (status: Status)
      requires Valid() && Ready(Disks())
      modifies Footprint()
      ensures Valid() && Devs() == old(Devs())
      ensures PoolResult(Disks(), Value(), status) == MakeRoom(old(Disks()), old(Value()), f)
    {
      hide StartSeg, FinalizeSeg, Load, Need32;
      status := Ok;
      if frameCount > 0 && U32(curOff + Need32(|f.data|)) > d.sb.chunkSectors * SEC {
        status := Rotate();
      }
    }

    /** Writes a frame, refusing one that no chunk can take. */
    method WriteFrame(f: Frame) returns (status: Status)
      requires Valid() && Ready(Disks())
      modifies Footprint()
      ensures Valid() && Devs() == old(Devs())
      ensures PoolResult(Disks(), Value(), status) == Group.WriteFrame(old(Disks()), old(Value()), f)
    {
      hide MakeRoom, PutOn, Load;
      if |f.data| == 0 {
        return Fail(Param);
      }
      if HDR_SIZE + |f.data| > d.sb.chunkSectors * SEC {
        return Fail(NoSpace);
      }
      status := Room(f);
      if status.Ok? {
        PutOnDisk(f);
      }
    }

    method SetType(newType: u8)
      requires Valid()
      modifies `rectype
      ensures Valid() && Disks() == old(Disks()) && Value() == old(Value()).(rectype := newType)
    {
      hide Distinct;
      ghost var p := Disks();
      rectype := newType;
      assert forall j :: 0 <= j < |Devs()| ==> Disks().devs[j] == p.devs[j];
    }

    method ChangeType(newType: u8) returns (status: Status)
      requires Valid() && Ready(Disks())
      modifies Footprint()
      ensures Valid() && Devs() == old(Devs())
      ensures PoolResult(Disks(), Value(), status) == Group.ChangeType(old(Disks()), old(Value()), newType)
    {
      hide StartSeg, FinalizeSeg, Load, Distinct, States;
      FinalizeSegment();
      SetType(newType);
      status := StartSegment();
    }

    method FlushDisks()
      requires Valid()
      modifies (set x | x in Devs()), Images(Devs())
      ensures var p := old(Disks());
        Disks() == p.(devs := if group != null then FlushAll(p.devs) else p.devs[place := StorageDev.Flush(p.devs[place])])
    {
      hide StorageDev.Flush;
      ghost var p := Disks();
      if group != null {
        var i := 0;
        while i < |group.devs|
          invariant 0 <= i <= |group.devs| && Valid() && Value() == old(Value()) && Devs() == old(Devs())
          invariant group.rr == p.rr
          invariant forall j :: 0 <= j < |group.devs| ==>
            group.devs[j].State() == if j < i then StorageDev.Flush(p.devs[j]) else p.devs[j]
        {
          group.devs[i].Flush();
          i := i + 1;
        }
        assert Disks().devs == FlushAll(p.devs);
      } else {
        d.Flush();
        assert Disks().devs == p.devs[0 := d.State()];
      }
    }

    method Close()
      requires Valid() && Ready(Disks())
      modifies Footprint()
      ensures Disks() == Group.Close(old(Disks()), old(Value()))
    {
      hide FinalizeSeg, Load, States, FlushAll, Distinct;
      FinalizeSegment();
      FlushDisks();
    }
  }

  datatype Attempt = Started(w: Writer) | Failed(error: Error)

  /** A writer on one disk; it exists only once its first chunk is allocated. */
  method OpenOn(d: Device, chn: u16, rectype: u8) returns (r: Attempt)
    requires Ready(Pool([d.State()], 0))
    modifies d`sb, d`st, d.disk
    ensures var o := StartOn(old(d.State()), Wr(false, 0, chn, rectype, 0, 0, 0, 0, 0, 0, 0, 0, 0, 0));
      && d.State() == o.dev
      && match o.status
         case Fail(e) => r == Failed(e)
         case Ok => r.Started? && fresh(r.w) && r.w.Valid() && r.w.group == null && r.w.d == d && r.w.Value() == o.wr
  {
    hide StartOn, Load;
    var w := new Writer(d, null, 0, chn, rectype);
    var status := w.StartOnDisk();
    match status {
      case Fail(e) => r := Failed(e);
      case Ok => r := Started(w);
    }
  }

  /** A writer on a group of disks; its first disk is picked like any later one. */
  method OpenInGroup(g: DiskGroup, chn: u16, rectype: u8) returns (r: Attempt)
    requires Distinct(g.devs) && Ready(g.Value())
    modifies g, g.devs, Images(g.devs)
    ensures var o := StartSeg(old(g.Value()), Wr(true, 0, chn, rectype, 0, 0, 0, 0, 0, 0, 0, 0, 0, 0));
      && g.Value() == o.pool
      && match o.status
         case Fail(e) => r == Failed(e)
         case Ok => r.Started? && fresh(r.w) && r.w.Valid() && r.w.group == g && r.w.Value() == o.wr
  {
    hide StartOn, Load, Pick;
    var w := new Writer(g.devs[0], g, 0, chn, rectype);
    assert forall j :: 0 <= j < |g.devs| ==> States(g.devs)[j] == old(States(g.devs))[j];
    assert w.Disks() == old(g.Value());
    var status := w.StartSegment();
    assert w.Disks() == g.Value();
    match status {
      case Fail(e) => r := Failed(e);
      case Ok => r := Started(w);
    }
  }
}
