/** Walking the frame records of one indexed segment. */
module Player {
  import opened Bytes
  import opened RecorderFormat
  import opened Crypto
  import opened StorageDev

  datatype Pl = Pl(seg: Slot, baseOff: nat, curOff: u32, endOff: u32)

  function PlayOpen(d: Dev, seg: Slot): Pl {
    Pl(seg, ChunkOff(d, seg.startChunk), seg.startOff, seg.endOff)
  }

  datatype HdrResult = BadHdr(error: Error) | GoodHdr(hdr: FrameHdr)

  function ReadHdr(d: Dev, p: Pl, off: u32): HdrResult {
    var h := DecodeHdr(Read(d.disk, p.baseOff + off, HDR_SIZE));
    if h.magic != FRAME_MAGIC then BadHdr(NotFound)
    else if d.prims.crc(EncodeHdr(h.(crc := 0))) != h.crc then BadHdr(Corrupt)
    else GoodHdr(h)
  }

  function NextOff(off: u32, payloadLen: u32): u32 { U32(AlignUp(U32(off + HDR_SIZE + payloadLen), FRAME_ALIGN)) }

  datatype PlayResult = Stop(error: Error) | Got(hdr: FrameHdr, data: seq<byte>, rest: Pl)

  function NextFrame(d: Dev, p: Pl): PlayResult {
    if p.curOff > p.endOff then Stop(NotFound)
    else
      match ReadHdr(d, p, p.curOff)
      case BadHdr(e) => Stop(e)
      case GoodHdr(h) =>
        var raw := Read(d.disk, p.baseOff + p.curOff + HDR_SIZE, h.payloadLen);
        if h.enc != 0 && d.dek.NoKey? then Stop(Error.Crypto)
        else
          var data := if h.enc != 0 then Xcrypt(d.prims.aes, d.dek.key, h.segId, h.frameSeq, 0, raw) else raw;
          Got(h, data, p.(curOff := NextOff(p.curOff, h.payloadLen)))
  }

  /** What calling NextFrame until it fails, at most `n` times, delivers. */
  function Replay(d: Dev, p: Pl, n: nat): seq<(FrameHdr, seq<byte>)>
    decreases n
  {
    if n == 0 then []
    else match NextFrame(d, p)
      case Stop(_) => []
      case Got(h, data, rest) => [(h, data)] + Replay(d, rest, n - 1)
  }

  /** From here the player delivers `rest` and then nothing more. */
  ghost predicate Plays(d: Dev, p: Pl, rest: seq<(FrameHdr, seq<byte>)>) {
    forall n: nat :: n > |rest| ==> Replay(d, p, n) == rest
  }
}
