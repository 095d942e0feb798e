/** The on-disk structures of the recorder: SuperBlock (512 bytes), SysTab (4096),
    frame header (64) and index slot (64), with their packed little-endian images. */
module RecorderFormat {
  import opened Bytes

  const SEC: nat := 512
  const FRAME_ALIGN: nat := 128
  const HDR_SIZE: nat := 64
  const SLOT_SIZE: nat := 64

  type Bytes5 = s: seq<byte> | |s| == 5 witness Zeros(5)
  type Bytes8 = s: seq<byte> | |s| == 8 witness Zeros(8)
  type Block = s: seq<byte> | |s| == 16 witness Zeros(16)
  type SbPad = s: seq<byte> | |s| == 300 witness Zeros(300)
  type StPad = s: seq<byte> | |s| == 3496 witness Zeros(3496)
  type Key = s: seq<byte> | |s| == 32 witness Zeros(32)
  type Wrapped = s: seq<byte> | |s| == 48 witness Zeros(48)

  /** The two primitives the recorder is built on, left abstract: one block of
      AES-256 and the checksum of a byte string. Every result holds for any choice. */
  datatype Prims = Prims(aes: (Key, Block) -> Block, crc: seq<byte> -> u32)

  datatype Error = Io | Param | NotFound | Corrupt | NoSpace | Crypto | Format
  datatype Status = Ok | Fail(error: Error)

  function AlignUp(v: nat, a: nat): (r: nat)
    requires a > 0
  {
    (v + a - 1) / a * a
  }

  // ---- frame header ----

  const FRAME_MAGIC: Bytes8 := [0x72, 0x73, 0x64, 0x6b, 0x66, 0x72, 0x6d, 0]

  datatype FrameHdr = FrameHdr(
    magic: Bytes8, chn: u16, stream: u8, codec: u8, frameType: u8, enc: u8, rsv0: u16,
    payloadLen: u32, segId: u32, frameSeq: u32, pts: u64, wallTime: u64,
    ivNonce: Bytes8, crc: u32, rsvh: Bytes8)

  function EncodeHdr(h: FrameHdr): (s: seq<byte>)
    ensures |s| == HDR_SIZE
  {
    h.magic + (LE(h.chn, 2) + (LE(h.stream, 1) + (LE(h.codec, 1) + (LE(h.frameType, 1) + (LE(h.enc, 1) +
    (LE(h.rsv0, 2) + HdrTail(h)))))))
  }

  function HdrTail(h: FrameHdr): (s: seq<byte>)
    ensures |s| == 48
  {
    LE(h.payloadLen, 4) + (LE(h.segId, 4) + (LE(h.frameSeq, 4) + (LE(h.pts, 8) + (LE(h.wallTime, 8) +
    (h.ivNonce + (LE(h.crc, 4) + h.rsvh))))))
  }

  function DecodeHdr(s: seq<byte>): FrameHdr
    requires |s| == HDR_SIZE
  {
    var t := s[16..];
    FrameHdr(s[..8], Get16(s[8..10]), Get8(s[10..11]), Get8(s[11..12]), Get8(s[12..13]), Get8(s[13..14]),
             Get16(s[14..16]), Get32(t[..4]), Get32(t[4..8]), Get32(t[8..12]), Get64(t[12..20]),
             Get64(t[20..28]), t[28..36], Get32(t[36..40]), t[40..])
  }

  lemma HdrRoundTrip(h: FrameHdr)
    ensures DecodeHdr(EncodeHdr(h)) == h
  {
    Slices8(h.magic, LE(h.chn, 2), LE(h.stream, 1), LE(h.codec, 1), LE(h.frameType, 1), LE(h.enc, 1),
            LE(h.rsv0, 2), HdrTail(h), EncodeHdr(h));
    Slices8(LE(h.payloadLen, 4), LE(h.segId, 4), LE(h.frameSeq, 4), LE(h.pts, 8), LE(h.wallTime, 8),
            h.ivNonce, LE(h.crc, 4), h.rsvh, HdrTail(h));
    Fit16(h.chn); Fit8(h.stream); Fit8(h.codec); Fit8(h.frameType); Fit8(h.enc); Fit16(h.rsv0);
    Fit32(h.payloadLen); Fit32(h.segId); Fit32(h.frameSeq); Fit64(h.pts); Fit64(h.wallTime); Fit32(h.crc);
  }

  // ---- index slot ----

  datatype Slot = Slot(
    segId: u32, chn: u16, rectype: u8, flags: u8, startTime: u32, endTime: u32, frameCount: u32,
    totalBytes: u64, startDisk: u16, endDisk: u16, startChunk: u64, startOff: u32,
    endChunk: u64, endOff: u32, crc: u32, pad: u32)

  function EncodeSlot(x: Slot): (s: seq<byte>)
    ensures |s| == SLOT_SIZE
  {
    LE(x.segId, 4) + (LE(x.chn, 2) + (LE(x.rectype, 1) + (LE(x.flags, 1) + (LE(x.startTime, 4) +
    (LE(x.endTime, 4) + (LE(x.frameCount, 4) + SlotTail(x)))))))
  }

  function SlotTail(x: Slot): (s: seq<byte>)
    ensures |s| == 44
  {
    LE(x.totalBytes, 8) + (LE(x.startDisk, 2) + (LE(x.endDisk, 2) + (LE(x.startChunk, 8) +
    (LE(x.startOff, 4) + (LE(x.endChunk, 8) + (LE(x.endOff, 4) + (LE(x.crc, 4) + LE(x.pad, 4))))))))
  }

  function DecodeSlot(s: seq<byte>): Slot
    requires |s| == SLOT_SIZE
  {
    var t := s[20..];
    var u := t[36..];
    Slot(Get32(s[..4]), Get16(s[4..6]), Get8(s[6..7]), Get8(s[7..8]), Get32(s[8..12]), Get32(s[12..16]),
         Get32(s[16..20]), Get64(t[..8]), Get16(t[8..10]), Get16(t[10..12]), Get64(t[12..20]),
         Get32(t[20..24]), Get64(t[24..32]), Get32(t[32..36]), Get32(u[..4]), Get32(u[4..]))
  }

  lemma SlotRoundTrip(x: Slot)
    ensures DecodeSlot(EncodeSlot(x)) == x
  {
    Slices8(LE(x.segId, 4), LE(x.chn, 2), LE(x.rectype, 1), LE(x.flags, 1), LE(x.startTime, 4),
            LE(x.endTime, 4), LE(x.frameCount, 4), SlotTail(x), EncodeSlot(x));
    var u := LE(x.crc, 4) + LE(x.pad, 4);
    Slices8(LE(x.totalBytes, 8), LE(x.startDisk, 2), LE(x.endDisk, 2), LE(x.startChunk, 8),
            LE(x.startOff, 4), LE(x.endChunk, 8), LE(x.endOff, 4), u, SlotTail(x));
    Fit32(x.segId); Fit16(x.chn); Fit8(x.rectype); Fit8(x.flags); Fit32(x.startTime); Fit32(x.endTime);
    Fit32(x.frameCount); Fit64(x.totalBytes); Fit16(x.startDisk); Fit16(x.endDisk); Fit64(x.startChunk);
    Fit32(x.startOff); Fit64(x.endChunk); Fit32(x.endOff); Fit32(x.crc); Fit32(x.pad);
    assert u[..4] == LE(x.crc, 4) && u[4..] == LE(x.pad, 4);
  }

  /** An index area that was zeroed at format time reads as the all-zero slot. */
  const ZERO_SLOT := Slot(0, 0, 0, 0, 0, 0, 0, 0, 0, 0, 0, 0, 0, 0, 0, 0)

  lemma {:induction false} FromLEZeros(n: nat)
    ensures FromLE(Zeros(n)) == 0
  {
    if n > 0 {
      assert Zeros(n)[1..] == Zeros(n - 1);
      FromLEZeros(n - 1);
    }
  }

  lemma ZerosSlice(n: nat, i: nat, j: nat)
    requires i <= j <= n
    ensures Zeros(n)[i..j] == Zeros(j - i)
    ensures i == 0 ==> Zeros(n)[..j] == Zeros(j)
    ensures j == n ==> Zeros(n)[i..] == Zeros(n - i)
  {
  }

  lemma ZeroSlotDecodes()
    ensures DecodeSlot(Zeros(SLOT_SIZE)) == ZERO_SLOT
  {
    hide Zeros;
    FromLEZeros(1); FromLEZeros(2); FromLEZeros(4); FromLEZeros(8);
    ZerosSlice(64, 0, 4); ZerosSlice(64, 4, 6); ZerosSlice(64, 6, 7); ZerosSlice(64, 7, 8);
    ZerosSlice(64, 8, 12); ZerosSlice(64, 12, 16); ZerosSlice(64, 16, 20); ZerosSlice(64, 20, 64);
    ZerosSlice(44, 0, 8); ZerosSlice(44, 8, 10); ZerosSlice(44, 10, 12); ZerosSlice(44, 12, 20);
    ZerosSlice(44, 20, 24); ZerosSlice(44, 24, 32); ZerosSlice(44, 32, 36); ZerosSlice(44, 36, 44);
    ZerosSlice(8, 0, 4); ZerosSlice(8, 4, 8);
  }

  // ---- SuperBlock ----

  const SB_MAGIC: Bytes8 := [0x52, 0x53, 0x44, 0x4b, 0x30, 0x31, 0, 0]
  const HDD_OVERWRITE: u8 := 0
  const HDD_STOP: u8 := 1

  datatype SuperBlock = SuperBlock(
    magic: Bytes8, version: u32, crc: u32, diskUuid: Block, groupUuid: Block,
    groupDiskIndex: u16, groupDiskCount: u16,
    totalSectors: u64, rsvStartSec: u64, dataStartSec: u64, chunkSectors: u64, chunkCount: u64,
    writePtrChunk: u64, seqEpoch: u64,
    featureMask: u32, rsvf: u32, metaStartChunk: u64, metaChunkCount: u64,
    encAlgo: u8, encFlags: u8, hddFull: u8,
    rsv0: Bytes5, kdfSalt: Block, wrappedDek: Wrapped, dekKcv: Bytes8, pad: SbPad)

  function EncodeSb(x: SuperBlock): (s: seq<byte>)
    ensures |s| == SEC
  {
    x.magic + (LE(x.version, 4) + (LE(x.crc, 4) + (x.diskUuid + (x.groupUuid +
    (LE(x.groupDiskIndex, 2) + (LE(x.groupDiskCount, 2) + SbGeometry(x)))))))
  }

  function SbGeometry(x: SuperBlock): (s: seq<byte>)
    ensures |s| == 460
  {
    LE(x.totalSectors, 8) + (LE(x.rsvStartSec, 8) + (LE(x.dataStartSec, 8) + (LE(x.chunkSectors, 8) +
    (LE(x.chunkCount, 8) + (LE(x.writePtrChunk, 8) + (LE(x.seqEpoch, 8) + SbFeatures(x)))))))
  }

  function SbFeatures(x: SuperBlock): (s: seq<byte>)
    ensures |s| == 404
  {
    LE(x.featureMask, 4) + (LE(x.rsvf, 4) + (LE(x.metaStartChunk, 8) + (LE(x.metaChunkCount, 8) +
    (LE(x.encAlgo, 1) + (LE(x.encFlags, 1) + (LE(x.hddFull, 1) + SbKeys(x)))))))
  }

  function SbKeys(x: SuperBlock): (s: seq<byte>)
    ensures |s| == 377
  {
    x.rsv0 + (x.kdfSalt + (x.wrappedDek + (x.dekKcv + ([] + ([] + ([] + x.pad))))))
  }

  function DecodeSb(s: seq<byte>): SuperBlock
    requires |s| == SEC
  {
    var t := s[52..];
    var u := t[56..];
    var v := u[27..];
    SuperBlock(s[..8], Get32(s[8..12]), Get32(s[12..16]), s[16..32], s[32..48],
               Get16(s[48..50]), Get16(s[50..52]),
               Get64(t[..8]), Get64(t[8..16]), Get64(t[16..24]), Get64(t[24..32]), Get64(t[32..40]),
               Get64(t[40..48]), Get64(t[48..56]),
               Get32(u[..4]), Get32(u[4..8]), Get64(u[8..16]), Get64(u[16..24]),
               Get8(u[24..25]), Get8(u[25..26]), Get8(u[26..27]),
               v[..5], v[5..21], v[21..69], v[69..77], v[77..])
  }

  lemma SbRoundTrip(x: SuperBlock)
    ensures DecodeSb(EncodeSb(x)) == x
  {
    SbHeadRoundTrip(x);
    SbGeometryRoundTrip(x);
    SbFeaturesRoundTrip(x);
    Slices8(x.rsv0, x.kdfSalt, x.wrappedDek, x.dekKcv, [], [], [], x.pad, SbKeys(x));
  }

  lemma SbHeadRoundTrip(x: SuperBlock)
    ensures var s := EncodeSb(x);
      && s[..8] == x.magic && Get32(s[8..12]) == x.version && Get32(s[12..16]) == x.crc
      && s[16..32] == x.diskUuid && s[32..48] == x.groupUuid
      && Get16(s[48..50]) == x.groupDiskIndex && Get16(s[50..52]) == x.groupDiskCount
      && s[52..] == SbGeometry(x)
  {
    Slices8(x.magic, LE(x.version, 4), LE(x.crc, 4), x.diskUuid, x.groupUuid,
            LE(x.groupDiskIndex, 2), LE(x.groupDiskCount, 2), SbGeometry(x), EncodeSb(x));
    Fit32(x.version); Fit32(x.crc); Fit16(x.groupDiskIndex); Fit16(x.groupDiskCount);
  }

  lemma SbGeometryRoundTrip(x: SuperBlock)
    ensures var t := SbGeometry(x);
      && Get64(t[..8]) == x.totalSectors && Get64(t[8..16]) == x.rsvStartSec
      && Get64(t[16..24]) == x.dataStartSec && Get64(t[24..32]) == x.chunkSectors
      && Get64(t[32..40]) == x.chunkCount && Get64(t[40..48]) == x.writePtrChunk
      && Get64(t[48..56]) == x.seqEpoch && t[56..] == SbFeatures(x)
  {
    Slices8(LE(x.totalSectors, 8), LE(x.rsvStartSec, 8), LE(x.dataStartSec, 8), LE(x.chunkSectors, 8),
            LE(x.chunkCount, 8), LE(x.writePtrChunk, 8), LE(x.seqEpoch, 8), SbFeatures(x), SbGeometry(x));
    Fit64(x.totalSectors); Fit64(x.rsvStartSec); Fit64(x.dataStartSec); Fit64(x.chunkSectors);
    Fit64(x.chunkCount); Fit64(x.writePtrChunk); Fit64(x.seqEpoch);
  }

  lemma SbFeaturesRoundTrip(x: SuperBlock)
    ensures var u := SbFeatures(x);
      && Get32(u[..4]) == x.featureMask && Get32(u[4..8]) == x.rsvf
      && Get64(u[8..16]) == x.metaStartChunk && Get64(u[16..24]) == x.metaChunkCount
      && Get8(u[24..25]) == x.encAlgo && Get8(u[25..26]) == x.encFlags && Get8(u[26..27]) == x.hddFull
      && u[27..] == SbKeys(x)
  {
    Slices8(LE(x.featureMask, 4), LE(x.rsvf, 4), LE(x.metaStartChunk, 8), LE(x.metaChunkCount, 8),
            LE(x.encAlgo, 1), LE(x.encFlags, 1), LE(x.hddFull, 1), SbKeys(x), SbFeatures(x));
    Fit32(x.featureMask); Fit32(x.rsvf); Fit64(x.metaStartChunk); Fit64(x.metaChunkCount);
    Fit8(x.encAlgo); Fit8(x.encFlags); Fit8(x.hddFull);
  }

  // ---- SysTab ----

  const ST_MAGIC: u32 := 0x42415453
  const ST_SIZE: nat := 4096

  datatype ChnPos = ChnPos(curChunk: u64, curOff: u32, segSeq: u32)
  type ChnTable = s: seq<ChnPos> | |s| == 32 witness seq(32, _ => ChnPos(0, 0, 0))

  datatype SysTab = SysTab(
    magic: u32, version: u32, size: u32, crc: u32, formatTime: u64, bitmapStartSec: u64, bitmapSectors: u64,
    indexStartSec: u64, indexSectors: u64, slotSize: u32, slotCount: u32, indexNext: u32, rsvi: u32,
    metaNextOff: u64, metaBytes: u64, chn: ChnTable, rsv: StPad)

  function EncodeChn(cs: seq<ChnPos>): (s: seq<byte>)
    ensures |s| == 16 * |cs|
  {
    if cs == [] then []
    else LE(cs[0].curChunk, 8) + LE(cs[0].curOff, 4) + LE(cs[0].segSeq, 4) + EncodeChn(cs[1..])
  }

  function DecodeChn(s: seq<byte>): (cs: seq<ChnPos>)
    requires |s| % 16 == 0
    ensures |cs| == |s| / 16
  {
    if s == [] then []
    else [ChnPos(Get64(s[..8]), Get32(s[8..12]), Get32(s[12..16]))] + DecodeChn(s[16..])
  }

  lemma {:induction false} ChnRoundTrip(cs: seq<ChnPos>)
    ensures DecodeChn(EncodeChn(cs)) == cs
  {
    if cs != [] {
      ChnEntryRoundTrip(cs[0], EncodeChn(cs[1..]));
      ChnRoundTrip(cs[1..]);
    }
  }

  lemma ChnEntryRoundTrip(c: ChnPos, rest: seq<byte>)
    ensures var s := LE(c.curChunk, 8) + LE(c.curOff, 4) + LE(c.segSeq, 4) + rest;
      && Get64(s[..8]) == c.curChunk && Get32(s[8..12]) == c.curOff && Get32(s[12..16]) == c.segSeq
      && s[16..] == rest
  {
    var s := LE(c.curChunk, 8) + LE(c.curOff, 4) + LE(c.segSeq, 4) + rest;
    Slices8(LE(c.curChunk, 8), LE(c.curOff, 4), LE(c.segSeq, 4), rest, [], [], [], [], s);
    Fit64(c.curChunk); Fit32(c.curOff); Fit32(c.segSeq);
  }

  function EncodeSt(x: SysTab): (s: seq<byte>)
    ensures |s| == ST_SIZE
  {
    LE(x.magic, 4) + (LE(x.version, 4) + (LE(x.size, 4) + (LE(x.crc, 4) + (LE(x.formatTime, 8) +
    (LE(x.bitmapStartSec, 8) + (LE(x.bitmapSectors, 8) + StIndex(x)))))))
  }

  function StIndex(x: SysTab): (s: seq<byte>)
    ensures |s| == 4056
  {
    LE(x.indexStartSec, 8) + (LE(x.indexSectors, 8) + (LE(x.slotSize, 4) + (LE(x.slotCount, 4) +
    (LE(x.indexNext, 4) + (LE(x.rsvi, 4) + (LE(x.metaNextOff, 8) + StChannels(x)))))))
  }

  function StChannels(x: SysTab): (s: seq<byte>)
    ensures |s| == 4016
  {
    LE(x.metaBytes, 8) + (EncodeChn(x.chn) + ([] + ([] + ([] + ([] + ([] + x.rsv))))))
  }

  function DecodeSt(s: seq<byte>): SysTab
    requires |s| == ST_SIZE
  {
    var t := s[40..];
    var u := t[40..];
    SysTab(Get32(s[..4]), Get32(s[4..8]), Get32(s[8..12]), Get32(s[12..16]), Get64(s[16..24]),
           Get64(s[24..32]), Get64(s[32..40]),
           Get64(t[..8]), Get64(t[8..16]), Get32(t[16..20]), Get32(t[20..24]), Get32(t[24..28]),
           Get32(t[28..32]), Get64(t[32..40]), Get64(u[..8]), DecodeChn(u[8..520]), u[520..])
  }

  lemma StRoundTrip(x: SysTab)
    ensures DecodeSt(EncodeSt(x)) == x
  {
    Slices8(LE(x.magic, 4), LE(x.version, 4), LE(x.size, 4), LE(x.crc, 4), LE(x.formatTime, 8),
            LE(x.bitmapStartSec, 8), LE(x.bitmapSectors, 8), StIndex(x), EncodeSt(x));
    Slices8(LE(x.indexStartSec, 8), LE(x.indexSectors, 8), LE(x.slotSize, 4), LE(x.slotCount, 4),
            LE(x.indexNext, 4), LE(x.rsvi, 4), LE(x.metaNextOff, 8), StChannels(x), StIndex(x));
    Slices8(LE(x.metaBytes, 8), EncodeChn(x.chn), [], [], [], [], [], x.rsv, StChannels(x));
    Fit32(x.magic); Fit32(x.version); Fit32(x.size); Fit32(x.crc); Fit64(x.formatTime);
    Fit64(x.bitmapStartSec); Fit64(x.bitmapSectors); Fit64(x.indexStartSec); Fit64(x.indexSectors);
    Fit32(x.slotSize); Fit32(x.slotCount); Fit32(x.indexNext); Fit32(x.rsvi);
    Fit64(x.metaNextOff); Fit64(x.metaBytes);
    ChnRoundTrip(x.chn);
  }
}
