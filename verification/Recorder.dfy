/** The segment writer: one segment per chunk, frames as 128-byte-aligned records. */
module Recorder {
  import opened Bytes
  import opened RecorderFormat
  import opened Crypto
  import opened StorageDev
  import opened Index

  const REC_CONTINUOUS: u8 := 0

  type Payload = s: seq<byte> | |s| <= U32_MAX witness []

  /** A frame as the application hands it over. */
  datatype Frame = Frame(chn: u16, stream: u8, codec: u8, frameType: u8, pts: u64, wallTime: u64, data: Payload)

  /** A writer: `dev` is the disk it currently writes to, by position in its pool. */
  datatype Wr = Wr(
    grouped: bool, dev: nat, chn: u16, rectype: u8, segId: u32, chunk: u64, baseOff: nat, curOff: u32,
    frameSeq: u32, frameCount: u32, totalBytes: u64, startTime: u32, lastTime: u32, endOff: u32)

  // ---- starting a segment ----

  const SEQ_END: nat := 0x100_0000

  function NextSeq(d: Dev, chn: u16): u32 { U32(d.st.chn[chn % 32].segSeq + 1) }

  function SegIdOf(chn: u16, seqNo: u32): u32 { chn % 256 * SEQ_END + seqNo % SEQ_END }

  function BumpSeq(d: Dev, chn: u16): Dev {
    var i := chn % 32;
    d.(st := d.st.(chn := d.st.chn[i := d.st.chn[i].(segSeq := NextSeq(d, chn))]))
  }

  datatype WrResult = WrResult(dev: Dev, wr: Wr, status: Status)

  /** Takes the next chunk of the disk; on a wrapped disk its old index slots are cleared. */
  function StartOn(d: Dev, w: Wr): (r: WrResult)
    ensures SlotCount(r.dev) == SlotCount(d) && r.wr.dev == w.dev && r.wr.grouped == w.grouped && r.wr.chn == w.chn
    ensures r.status.Ok? || r == WrResult(d, w, Fail(NoSpace))
  {
    match Alloc(d)
    case (_, NoRoom) => WrResult(d, w, Fail(NoSpace))
    case (d1, Chunk(chunk, off)) =>
      var d2 := if IsWrapped(d1) then Invalidate(d1, chunk, 0) else d1;
      WrResult(BumpSeq(d2, w.chn),
               w.(chunk := chunk, baseOff := off, curOff := 0, segId := SegIdOf(w.chn, NextSeq(d2, w.chn)),
                  frameSeq := 0, frameCount := 0, totalBytes := 0, startTime := 0, lastTime := 0, endOff := 0), Ok)
  }

  // ---- index slots of the open segment ----

  function FillSlot(d: Dev, w: Wr, closed: bool): Slot {
    Slot(w.segId, w.chn, w.rectype,
         (if closed then VALID_BIT else OPEN_BIT) + (if w.rectype != REC_CONTINUOUS then EVENT_BIT else 0),
         w.startTime, if closed then w.lastTime else U32_MAX, w.frameCount, w.totalBytes,
         d.sb.groupDiskIndex, d.sb.groupDiskIndex, w.chunk, 0, w.chunk, w.endOff, 0, 0)
  }

  function Finalize(d: Dev, w: Wr): (e: Dev)
    requires SlotCount(d) > 0
    ensures SameRing(d, e)
  {
    if w.frameCount == 0 then d else WriteIndex(d, FillSlot(d, w, true))
  }

  // ---- frame records ----

  /** uint32_t need = rsdk_align_up(64 + len, 128), in 32-bit arithmetic. */
  function Need32(len: u32): u32 { U32(AlignUp(U32(HDR_SIZE + len), FRAME_ALIGN)) }

  function Nonce(frameSeq: u32): Bytes8 { LE(frameSeq, 4) + LE(frameSeq, 4) }

  function HdrFor(d: Dev, segId: u32, frameSeq: u32, f: Frame): FrameHdr {
    var h := FrameHdr(FRAME_MAGIC, f.chn, f.stream, f.codec, f.frameType, if d.dek.HasKey? then 1 else 0, 0,
                      |f.data|, segId, frameSeq, f.pts, f.wallTime, Nonce(frameSeq), 0, Zeros(8));
    h.(crc := d.prims.crc(EncodeHdr(h)))
  }

  function Protect(d: Dev, segId: u32, frameSeq: u32, data: seq<byte>): (r: seq<byte>)
    ensures |r| == |data|
  {
    match d.dek
    case NoKey => data
    case HasKey(key) => Xcrypt(d.prims.aes, key, segId, frameSeq, 0, data)
  }

  /** Header and payload go to the current place in the chunk. */
  function WriteRecord(d: Dev, w: Wr, f: Frame): Dev {
    var off := w.baseOff + w.curOff;
    var disk := Write(d.disk, off, EncodeHdr(HdrFor(d, w.segId, w.frameSeq, f)));
    d.(disk := Write(disk, off + HDR_SIZE, Protect(d, w.segId, w.frameSeq, f.data)))
  }

  function Advance(w: Wr, f: Frame): Wr {
    w.(endOff := w.curOff, curOff := U32(w.curOff + Need32(|f.data|)), lastTime := U32(f.wallTime),
       frameSeq := U32(w.frameSeq + 1), frameCount := U32(w.frameCount + 1),
       totalBytes := (w.totalBytes + |f.data|) % U64_END)
  }

  /** Appends a frame to the current segment; its first frame also opens an index slot. */
  function PutFrame(d: Dev, w: Wr, f: Frame): (Dev, Wr)
    requires SlotCount(d) > 0
  {
    if w.frameCount == 0 then
      var w1 := w.(startTime := U32(f.wallTime));
      (WriteRecord(WriteIndex(d, FillSlot(d, w1, false)), w1, f), Advance(w1, f))
    else
      (WriteRecord(d, w, f), Advance(w, f))
  }
}
