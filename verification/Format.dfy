/** Formatting a disk, and what opening it afterwards finds. */
module Format {
  import opened Bytes
  import opened RecorderFormat
  import opened Crypto
  import opened StorageDev
  import opened Index
  import opened Faithful
  import opened Recording
  import opened IndexRing
  import opened Layout
  import Device
  import MetaRing

  /** The options, defaults already filled in, and the random bytes drawn. */
  datatype Options = Options(features: u32, slots: u32, chunkMib: u32, metaRatio: real, formatTime: u64, hddFull: u8,
                             sn: seq<byte>, uuid: Block, salt: Block, dek: Key)

  const FEAT_ENCRYPTION: nat := 1
  const FEAT_METADATA: nat := 2
  const MIN_SECTORS: nat := 64 * 2048
  const TIB: nat := 0x100_0000_0000

  /** The chunk size for a disk of this many bytes unless one is asked for. */
  function PickChunkMib(total: nat, asked: u32): u32 {
    if asked != 0 then asked else if total <= 4 * TIB then 8 else if total <= 16 * TIB then 16 else 32
  }

  predicate Encrypts(o: Options) { o.features / FEAT_ENCRYPTION % 2 == 1 }

  predicate KeepsMetadata(o: Options) { o.features / FEAT_METADATA % 2 == 1 }

  /** The share of the chunks set aside for metadata; more than all of them for a ratio above 100. */
  function MetaChunks(cc: nat, o: Options): (m: nat)
    requires 0.0 < o.metaRatio
    ensures o.metaRatio <= 100.0 ==> m <= cc
  {
    if !KeepsMetadata(o) then 0
    else
      ShareAtMost(cc, o.metaRatio);
      var share := (cc as real * o.metaRatio / 100.0).Floor;
      if share == 0 && cc > 4 then 1 else share
  }

  lemma ShareAtMost(cc: nat, ratio: real)
    requires 0.0 < ratio
    ensures 0 <= (cc as real * ratio / 100.0).Floor
    ensures ratio <= 100.0 ==> (cc as real * ratio / 100.0).Floor <= cc
  {
    var c := cc as real;
    assert c * ratio >= 0.0;
    if ratio <= 100.0 {
      assert c * ratio <= c * 100.0;
      assert c * ratio / 100.0 <= c;
    }
  }

  const GROUP_UUID: Block := [0x67, 0x72, 0x70, 0x31] + Zeros(12)

  function FormatSb(p: Prims, sectors: u64, plan: Plan, meta: nat, o: Options): SuperBlock {
    var sb := SuperBlock(SB_MAGIC, 1, 0, o.uuid, GROUP_UUID, 0, 1, sectors, 1, plan.dataStart / SEC % U64_END,
                         plan.chunk / SEC % U64_END, plan.chunkCount % U64_END, 0, 1,
                         o.features, 0, (plan.chunkCount - meta) % U64_END, meta % U64_END, 0, 0, o.hddFull,
                         Zeros(5), Zeros(16), Zeros(48), Zeros(8), Zeros(300));
    if Encrypts(o) then
      var (wrapped, kcv) := DekWrap(p.aes, KdfKek(p.aes, o.sn, o.salt), o.dek);
      SealSb(p, sb.(encAlgo := 1, kdfSalt := o.salt, wrappedDek := wrapped, dekKcv := kcv))
    else SealSb(p, sb)
  }

  function FormatSt(p: Prims, plan: Plan, meta: nat, o: Options): SysTab {
    SealSt(p, SysTab(ST_MAGIC, 1, ST_SIZE, 0, o.formatTime, BITMAP_SEC, plan.bitmapSectors % U64_END,
                     (BITMAP_SEC + plan.bitmapSectors) % U64_END, plan.indexSectors % U64_END, SLOT_SIZE,
                     U32(Layout.SlotCount(plan)), 0, 0, 0, meta * plan.chunk % U64_END,
                     seq(32, _ => ChnPos(0, 0, 0)), Zeros(3496)))
  }

  function ReservedSectors(plan: Plan): nat { BITMAP_SEC + plan.bitmapSectors + plan.indexSectors }

  function FormatImage(disk: seq<byte>, sb: SuperBlock, st: SysTab, plan: Plan): (r: seq<byte>)
    ensures |r| == |disk|
  {
    var d0 := Write(disk, 0, Zeros(SEC));
    var d1 := Write(d0, SEC, EncodeSb(sb));
    var d2 := Write(d1, 2 * SEC, EncodeSb(sb));
    var d3 := Write(d2, 3 * SEC, EncodeSt(st));
    var d4 := Write(d3, 11 * SEC, EncodeSt(st));
    Write(d4, BITMAP_SEC * SEC, Zeros((ReservedSectors(plan) - BITMAP_SEC) * SEC))
  }

  lemma FormatReads(disk: seq<byte>, sb: SuperBlock, st: SysTab, plan: Plan)
    requires ReservedSectors(plan) * SEC <= |disk|
    ensures var r := FormatImage(disk, sb, st, plan);
      && Read(r, SEC, SEC) == EncodeSb(sb) && Read(r, 3 * SEC, ST_SIZE) == EncodeSt(st)
      && Read(r, BITMAP_SEC * SEC, (ReservedSectors(plan) - BITMAP_SEC) * SEC) == Zeros((ReservedSectors(plan) - BITMAP_SEC) * SEC)
  {
    hide EncodeSb, EncodeSt, Read, Write;
    var z := Zeros((ReservedSectors(plan) - BITMAP_SEC) * SEC);
    var d0 := Write(disk, 0, Zeros(SEC));
    var d1 := Write(d0, SEC, EncodeSb(sb));
    var d2 := Write(d1, 2 * SEC, EncodeSb(sb));
    var d3 := Write(d2, 3 * SEC, EncodeSt(st));
    var d4 := Write(d3, 11 * SEC, EncodeSt(st));
    ReadBack(d0, SEC, EncodeSb(sb));
    ReadElsewhere(d1, 2 * SEC, EncodeSb(sb), SEC, SEC);
    ReadElsewhere(d2, 3 * SEC, EncodeSt(st), SEC, SEC);
    ReadElsewhere(d3, 11 * SEC, EncodeSt(st), SEC, SEC);
    ReadElsewhere(d4, BITMAP_SEC * SEC, z, SEC, SEC);
    ReadBack(d2, 3 * SEC, EncodeSt(st));
    ReadElsewhere(d3, 11 * SEC, EncodeSt(st), 3 * SEC, ST_SIZE);
    ReadElsewhere(d4, BITMAP_SEC * SEC, z, 3 * SEC, ST_SIZE);
    ReadBack(d4, BITMAP_SEC * SEC, z);
  }

  lemma ReadWithin(disk: seq<byte>, off: nat, n: nat, at: nat, k: nat)
    requires Read(disk, off, n) == Zeros(n) && off <= at && at + k <= off + n
    ensures Read(disk, at, k) == Zeros(k)
  {
    forall i | 0 <= i < k
      ensures Read(disk, at, k)[i] == 0
    {
      assert Read(disk, off, n)[at - off + i] == 0;
    }
  }

  /** Options and disk sizes the recorder's own arithmetic can handle. */
  ghost predicate Sane(sectors: u64, o: Options) {
    && 0.0 < o.metaRatio <= 100.0 && 0 < o.chunkMib < 2048 && sectors * SEC < U64_END
    && NoUnderflow(sectors * SEC, o.chunkMib * MIB, o.slots)
    && 0 < Layout.SlotCount(PlanFor(sectors, o)) < 0x8000_0000
  }

  function PlanFor(sectors: u64, o: Options): Plan
    requires o.chunkMib > 0
  {
    PlanOf(sectors * SEC, o.chunkMib * MIB, o.slots)
  }

  function Formatted(p: Prims, disk: seq<byte>, sectors: u64, o: Options): seq<byte>
    requires 0.0 < o.metaRatio && o.chunkMib > 0
  {
    var plan := PlanFor(sectors, o);
    var meta := MetaChunks(plan.chunkCount, o);
    FormatImage(disk, FormatSb(p, sectors, plan, meta, o), FormatSt(p, plan, meta, o), plan)
  }

  // ---- what opening a formatted disk finds ----

  lemma SmallMod(n: nat)
    ensures n < U64_END ==> n % U64_END == n
  {
  }

  /** The plan of a sane format fits the disk and the tables' fields. */
  lemma PlanNumbers(sectors: u64, o: Options)
    requires Sane(sectors, o)
    ensures var plan := PlanFor(sectors, o);
      && plan.chunk == o.chunkMib * MIB && ReservedSectors(plan) * SEC <= plan.dataStart
      && plan.dataStart + plan.chunkCount * plan.chunk <= sectors * SEC
      && plan.dataStart / SEC * SEC == plan.dataStart && plan.chunkCount < U64_END && plan.dataStart < U64_END
  {
    hide PlanOf, NoUnderflow, Layout.SlotCount;
    var plan := PlanFor(sectors, o);
    PlanFits(sectors * SEC, o.chunkMib * MIB, o.slots);
    PlanChunk(sectors * SEC, o.chunkMib * MIB, o.slots);
    PlanSizes(plan, sectors * SEC, o.chunkMib);
  }

  lemma PlanSizes(plan: Plan, total: nat, mib: nat)
    requires mib > 0 && plan.chunk == mib * MIB && plan.dataStart % plan.chunk == 0
    requires plan.dataStart + plan.chunkCount * plan.chunk <= total
    ensures plan.dataStart / SEC * SEC == plan.dataStart && plan.chunkCount <= total && plan.dataStart <= total
  {
    MulMono(0, plan.chunkCount, plan.chunk);
    CountAtMost(plan.chunkCount, plan.chunk, total);
    WholeStart(plan.dataStart, mib);
  }

  /** The device right after formatting, before any key is looked up. */
  function TableDev(p: Prims, disk: seq<byte>, sectors: u64, o: Options): Dev
    requires 0.0 < o.metaRatio && o.chunkMib > 0
  {
    var plan := PlanFor(sectors, o);
    var meta := MetaChunks(plan.chunkCount, o);
    Dev(p, FormatSb(p, sectors, plan, meta, o), FormatSt(p, plan, meta, o), NoKey, disk)
  }

  /** The superblock says what the plan says. */
  lemma SbOfPlan(p: Prims, disk: seq<byte>, sectors: u64, o: Options)
    requires Sane(sectors, o)
    ensures var plan := PlanFor(sectors, o); var d := TableDev(p, disk, sectors, o);
      && ChunkBytes(d) == o.chunkMib * MIB && DataChunks(d) == plan.chunkCount - MetaChunks(plan.chunkCount, o)
      && StorageDev.DataStart(d) == plan.dataStart && d.sb.metaChunkCount <= d.sb.chunkCount
      && d.sb.writePtrChunk == 0 && d.sb.seqEpoch == 1 && d.sb.magic == SB_MAGIC
  {
    hide PlanOf, FormatSb, FormatSt, MetaChunks, NoUnderflow, Layout.SlotCount;
    var plan := PlanFor(sectors, o);
    var meta := MetaChunks(plan.chunkCount, o);
    PlanNumbers(sectors, o);
    SmallMod(plan.dataStart / SEC); SmallMod(plan.chunkCount); SmallMod(meta); SmallMod(plan.chunkCount - meta);
    SealedSb(p, sectors, plan, meta, o);
    WholeChunk(o.chunkMib);
  }

  /** And the system table. */
  lemma StOfPlan(p: Prims, disk: seq<byte>, sectors: u64, o: Options)
    requires Sane(sectors, o)
    ensures var plan := PlanFor(sectors, o); var d := TableDev(p, disk, sectors, o);
      && Index.SlotCount(d) == Layout.SlotCount(plan) && IndexStart(d) == (BITMAP_SEC + plan.bitmapSectors) * SEC
      && d.st.indexNext == 0 && (forall x :: 0 <= x < 32 ==> d.st.chn[x].segSeq == 0) && d.st.magic == ST_MAGIC
  {
    hide PlanOf, FormatSb, FormatSt, MetaChunks, NoUnderflow;
    var plan := PlanFor(sectors, o);
    var meta := MetaChunks(plan.chunkCount, o);
    PlanNumbers(sectors, o);
    SmallMod(BITMAP_SEC + plan.bitmapSectors);
    SealedSt(p, plan, meta, o);
  }

  /** The tables say what the plan says. */
  lemma TablesOfPlan(p: Prims, disk: seq<byte>, sectors: u64, o: Options)
    requires Sane(sectors, o)
    ensures var plan := PlanFor(sectors, o); var d := TableDev(p, disk, sectors, o);
      && ChunkBytes(d) == o.chunkMib * MIB && DataChunks(d) == plan.chunkCount - MetaChunks(plan.chunkCount, o)
      && StorageDev.DataStart(d) == plan.dataStart && Index.SlotCount(d) == Layout.SlotCount(plan)
      && IndexStart(d) == (BITMAP_SEC + plan.bitmapSectors) * SEC && d.sb.metaChunkCount <= d.sb.chunkCount
      && d.sb.writePtrChunk == 0 && d.sb.seqEpoch == 1 && d.st.indexNext == 0
      && (forall x :: 0 <= x < 32 ==> d.st.chn[x].segSeq == 0)
      && d.sb.magic == SB_MAGIC && d.st.magic == ST_MAGIC
  {
    hide PlanFor, TableDev, MetaChunks, NoUnderflow, Layout.SlotCount, ChunkBytes, DataChunks, StorageDev.DataStart, Index.SlotCount, IndexStart;
    SbOfPlan(p, disk, sectors, o);
    StOfPlan(p, disk, sectors, o);
  }

  lemma WholeChunk(mib: nat)
    ensures mib * MIB / SEC * SEC == mib * MIB && (mib < 2048 ==> mib * MIB / SEC % U64_END == mib * MIB / SEC)
  {
    assert mib * MIB == 512 * (mib * 2048);
  }

  /** A formatted disk has a sound geometry and an untouched ring. */
  lemma GeometryOfPlan(p: Prims, disk: seq<byte>, sectors: u64, o: Options)
    requires sectors * SEC <= |disk| && Sane(sectors, o)
    ensures var d := TableDev(p, disk, sectors, o); GeoOk(d) && RingOk(d, 0)
    ensures ReservedSectors(PlanFor(sectors, o)) * SEC <= |disk|
  {
    hide PlanOf, PlanFor, GeoOk, FormatSb, FormatSt, MetaChunks, NoUnderflow, TableDev, ChunkBytes, DataChunks, StorageDev.DataStart, IndexStart, Index.SlotCount, Layout.SlotCount;
    var plan := PlanFor(sectors, o);
    var d := TableDev(p, disk, sectors, o);
    DiskOfTables(p, disk, sectors, o);
    PlanNumbers(sectors, o);
    TablesOfPlan(p, disk, sectors, o);
    GeometryHolds(d, plan, o.chunkMib, sectors * SEC);
    assert RingOk(d, 0) by {
      FirstLap(DataChunks(d));
    }
  }

  lemma GeometryHolds(d: Dev, plan: Plan, mib: nat, total: nat)
    requires 0 < mib < 2048 && plan.chunk == mib * MIB && ReservedSectors(plan) * SEC <= plan.dataStart
    requires plan.dataStart + plan.chunkCount * plan.chunk <= total <= |d.disk|
    requires ChunkBytes(d) == plan.chunk && DataChunks(d) <= plan.chunkCount && StorageDev.DataStart(d) == plan.dataStart
    requires Index.SlotCount(d) == Layout.SlotCount(plan) && IndexStart(d) == (BITMAP_SEC + plan.bitmapSectors) * SEC
    requires d.sb.metaChunkCount <= d.sb.chunkCount && d.st.indexNext == 0 && 0 < Layout.SlotCount(plan) < 0x8000_0000
    ensures GeoOk(d)
  {
    hide ChunkBytes, DataChunks, StorageDev.DataStart, IndexStart, Index.SlotCount, Layout.SlotCount;
    MulMono(DataChunks(d), plan.chunkCount, plan.chunk);
    ChunkAligned(mib);
    SlotsWithin(plan);
  }

  lemma ChunkAligned(mib: nat)
    requires 0 < mib < 2048
    ensures mib * MIB % FRAME_ALIGN == 0 && 0 < mib * MIB < 0x8000_0000
  {
    assert mib * MIB == 128 * (mib * 8192);
  }

  lemma SlotsWithin(plan: Plan)
    ensures Layout.SlotCount(plan) * SLOT_SIZE <= plan.indexSectors * SEC
  {
    FloorAtMost(plan.indexSectors * SEC, SLOT_SIZE);
  }

  lemma DiskOfTables(p: Prims, disk: seq<byte>, sectors: u64, o: Options)
    requires 0.0 < o.metaRatio && o.chunkMib > 0
    ensures TableDev(p, disk, sectors, o).disk == disk && TableDev(p, disk, sectors, o).prims == p
  {
    hide PlanOf, FormatSb, FormatSt, MetaChunks;
  }

  lemma FirstLap(n: nat)
    ensures n > 0 ==> 0 % n == 0 && 0 / n == 0
  {
  }

  lemma PlanChunk(total: nat, chunk: nat, slots: nat)
    requires chunk > 0
    ensures PlanOf(total, chunk, slots).chunk == chunk
  {
  }

  lemma CountAtMost(n: nat, chunk: nat, total: nat)
    requires chunk > 0 && n * chunk <= total
    ensures n <= total
  {
    MulMono(1, chunk, n);
  }

  lemma WholeStart(start: nat, mib: nat)
    ensures mib > 0 && start % (mib * MIB) == 0 ==> start / SEC * SEC == start
  {
    if mib > 0 && start % (mib * MIB) == 0 {
      var q := start / (mib * MIB);
      assert start == mib * MIB * q;
      assert start == 512 * (mib * 2048 * q);
      ModUnique(start, 512, mib * 2048 * q, 0);
    }
  }

  lemma SealedSb(p: Prims, sectors: u64, plan: Plan, meta: nat, o: Options)
    ensures var sb := FormatSb(p, sectors, plan, meta, o);
      && sb == SealSb(p, sb) && sb.magic == SB_MAGIC && sb.dataStartSec == plan.dataStart / SEC % U64_END
      && sb.chunkSectors == plan.chunk / SEC % U64_END && sb.chunkCount == plan.chunkCount % U64_END
      && sb.writePtrChunk == 0 && sb.seqEpoch == 1 && sb.metaChunkCount == meta % U64_END && sb.hddFull == o.hddFull
  {
    hide EncodeSb, DekWrap, KdfKek, SealSb;
    var sb := SuperBlock(SB_MAGIC, 1, 0, o.uuid, GROUP_UUID, 0, 1, sectors, 1, plan.dataStart / SEC % U64_END,
                         plan.chunk / SEC % U64_END, plan.chunkCount % U64_END, 0, 1,
                         o.features, 0, (plan.chunkCount - meta) % U64_END, meta % U64_END, 0, 0, o.hddFull,
                         Zeros(5), Zeros(16), Zeros(48), Zeros(8), Zeros(300));
    var (wrapped, kcv) := DekWrap(p.aes, KdfKek(p.aes, o.sn, o.salt), o.dek);
    SealKeeps(p, sb);
    SealKeeps(p, sb.(encAlgo := 1, kdfSalt := o.salt, wrappedDek := wrapped, dekKcv := kcv));
  }

  lemma SealKeeps(p: Prims, x: SuperBlock)
    ensures SealSb(p, x) == x.(crc := SealSb(p, x).crc) && SealSb(p, SealSb(p, x)) == SealSb(p, x)
  {
    hide EncodeSb;
    assert SealSb(p, x).(crc := 0) == x.(crc := 0);
  }

  lemma SealedSt(p: Prims, plan: Plan, meta: nat, o: Options)
    ensures var st := FormatSt(p, plan, meta, o);
      && st.magic == ST_MAGIC && st.indexStartSec == (BITMAP_SEC + plan.bitmapSectors) % U64_END
      && st.slotCount == U32(Layout.SlotCount(plan)) && st.indexNext == 0
      && st.chn == seq(32, _ => ChnPos(0, 0, 0))
  {
    hide EncodeSt;
  }

  /** A formatted disk opens, is blank and has a sound geometry. */
  lemma FormatThenOpen(p: Prims, disk: seq<byte>, sectors: u64, o: Options)
    requires sectors * SEC <= |disk| && Sane(sectors, o)
    ensures var r := Open(p, Formatted(p, disk, sectors, o));
      && r.Opened? && BlankDisk(r.dev) && TablesMarked(r.dev) && r.dev.dek == KeyOf(p, r.dev.sb)
      && ChunkBytes(r.dev) == o.chunkMib * MIB
      && DataChunks(r.dev) == PlanFor(sectors, o).chunkCount - MetaChunks(PlanFor(sectors, o).chunkCount, o)
      && Index.SlotCount(r.dev) == Layout.SlotCount(PlanFor(sectors, o))
  {
    hide PlanOf, FormatSb, FormatSt, FormatImage, EncodeSb, EncodeSt, DecodeSb, DecodeSt, MetaChunks, NoUnderflow, KeyOf, GeoOk, RingOk, Read, SlotAt;
    var plan := PlanFor(sectors, o);
    var meta := MetaChunks(plan.chunkCount, o);
    var sb, st := FormatSb(p, sectors, plan, meta, o), FormatSt(p, plan, meta, o);
    var image := Formatted(p, disk, sectors, o);
    TablesOfPlan(p, disk, sectors, o);
    GeometryOfPlan(p, disk, sectors, o);
    FormatReads(disk, sb, st, plan);
    SbHeadRoundTrip(sb);
    SbRoundTrip(sb);
    StRoundTrip(st);
    SbCrcImageOfEncoding(sb);
    SealedSb(p, sectors, plan, meta, o);
    SealedCrc(p, sb);
    var d := Dev(p, sb, st, KeyOf(p, sb), image);
    assert Open(p, image) == Opened(d);
    SameGeometry(Dev(p, sb, st, NoKey, disk), d);
    forall i | 0 <= i < Index.SlotCount(d)
      ensures SlotAt(d, i) == ZERO_SLOT
    {
      BlankSlot(d, plan, i);
    }
  }

  lemma SealedCrc(p: Prims, sb: SuperBlock)
    requires sb == SealSb(p, sb)
    ensures p.crc(EncodeSb(sb.(crc := 0))) == sb.crc
  {
    hide EncodeSb;
  }

  lemma SameGeometry(d: Dev, e: Dev)
    requires e.sb == d.sb && e.st == d.st && |e.disk| == |d.disk|
    ensures GeoOk(e) == GeoOk(d) && RingOk(e, 0) == RingOk(d, 0) && ChunkBytes(e) == ChunkBytes(d) && DataChunks(e) == DataChunks(d)
    ensures Index.SlotCount(e) == Index.SlotCount(d) && IndexStart(e) == IndexStart(d)
  {
  }

  lemma BlankSlot(d: Dev, plan: Plan, i: nat)
    requires Index.SlotCount(d) == Layout.SlotCount(plan) && IndexStart(d) == (BITMAP_SEC + plan.bitmapSectors) * SEC
    requires i < Index.SlotCount(d)
    requires Read(d.disk, BITMAP_SEC * SEC, (ReservedSectors(plan) - BITMAP_SEC) * SEC) == Zeros((ReservedSectors(plan) - BITMAP_SEC) * SEC)
    ensures SlotAt(d, i) == ZERO_SLOT
  {
    hide DecodeSlot, Read;
    ReadWithin(d.disk, BITMAP_SEC * SEC, (ReservedSectors(plan) - BITMAP_SEC) * SEC, SlotOff(d, i), SLOT_SIZE);
    ZeroSlotDecodes();
  }

  /** A formatted disk has room for one writer when its plan has a slot for every data chunk, and for one
      more with every further slot. */
  lemma FormatRoomyFor(p: Prims, disk: seq<byte>, sectors: u64, o: Options, writers: nat)
    requires sectors * SEC <= |disk| && Sane(sectors, o) && writers > 0
    ensures var plan, r := PlanFor(sectors, o), Open(p, Formatted(p, disk, sectors, o));
      r.Opened? && BlankDisk(r.dev) &&
      var data := plan.chunkCount - MetaChunks(plan.chunkCount, o);
      (RoomyIndex(r.dev, writers) <==> data + writers <= Layout.SlotCount(plan) + 1 && data <= 0x100_0000)
  {
    hide PlanOf, Formatted, MetaChunks, NoUnderflow, KeyOf, RingOk, SlotAt, Open, Layout.SlotCount;
    FormatThenOpen(p, disk, sectors, o);
  }

  /** With the usual index density and at most 2^24 chunks, the formatted disk also meets the
      conditions under which nothing recorded by one writer is lost. */
  lemma FormatRoomy(p: Prims, disk: seq<byte>, sectors: u64, o: Options)
    requires sectors * SEC <= |disk| && Sane(sectors, o) && o.slots >= 2
    requires 4 * (SLOT_SIZE * o.slots + 1) <= o.chunkMib * MIB && sectors * SEC / (o.chunkMib * MIB) >= 1
    requires PlanFor(sectors, o).chunkCount <= 0x100_0000
    ensures var r := Open(p, Formatted(p, disk, sectors, o)); r.Opened? && BlankDisk(r.dev) && RoomyIndex(r.dev, 1)
  {
    hide PlanOf, Formatted, MetaChunks, NoUnderflow, KeyOf, GeoOk, RingOk, SlotAt, Open, Layout.SlotCount;
    FormatRoomyFor(p, disk, sectors, o, 1);
    EnoughSlots(sectors * SEC, o.chunkMib * MIB, o.slots);
  }

  /** The superblock that formatting writes. */
  function SbFor(p: Prims, sectors: u64, o: Options): SuperBlock
    requires 0.0 < o.metaRatio && o.chunkMib > 0
  {
    var plan := PlanFor(sectors, o);
    FormatSb(p, sectors, plan, MetaChunks(plan.chunkCount, o), o)
  }

  /** The recorder reads the data key back when the disk was formatted under the serial number
      it opens disks with. */
  lemma FormatKeepsKey(p: Prims, sectors: u64, o: Options)
    requires 0.0 < o.metaRatio && o.chunkMib > 0 && o.sn == DEFAULT_SN
    ensures KeyOf(p, SbFor(p, sectors, o)) == if Encrypts(o) then HasKey(o.dek) else NoKey
  {
    hide PlanOf, MetaChunks, EncodeSb;
    if Encrypts(o) {
      UnwrapWrap(p.aes, KdfKek(p.aes, DEFAULT_SN, o.salt), o.dek);
    }
  }

  /** A serial number as a C string has it: no zero byte inside. */
  ghost predicate NoZeros(sn: seq<byte>) { forall i :: 0 <= i < |sn| ==> sn[i] != 0 }

  /** A byte of a serial number, zeros behind its end. */
  function Padded(sn: seq<byte>, i: nat): byte { if i < |sn| then sn[i] else 0 }

  /** A cipher whose result is the second half of its key. */
  const HALF_KEY: BlockCipher := (k: Key, b: Block) => k[16..]

  /** Under that cipher the check value is made of the first eight bytes of the serial number. */
  lemma HalfKeyCheck(sn: seq<byte>, salt: Block, i: nat)
    requires i < 8
    ensures Kcv(HALF_KEY, KdfKek(HALF_KEY, sn, salt))[i] == Xor(0x5a, Padded(sn, i))
  {
    hide Xor;
    XorZero(0x5a);
    var seed: Key := seq(16, i requires 0 <= i < 16 => Xor(0x5a, salt[i]))
                   + seq(16, i requires 0 <= i < 16 => if i < |sn| then Xor(0x5a, sn[i]) else 0x5a);
    var half := seed[16..];
    assert KdfKek(HALF_KEY, sn, salt) == half + half;
    assert (half + half)[16..] == half;
  }

  /** Serial numbers that give the same eight bytes, one of them of seven, are the same. */
  lemma SameSerial(sn: seq<byte>, other: seq<byte>)
    requires NoZeros(sn) && NoZeros(other) && |other| == 7
    requires forall i :: 0 <= i < 8 ==> Xor(0x5a, Padded(sn, i)) == Xor(0x5a, Padded(other, i))
    ensures sn == other
  {
    hide Xor;
    forall i | 0 <= i < 8
      ensures Padded(sn, i) == Padded(other, i)
    {
      XorLeft(0x5a, Padded(sn, i), Padded(other, i));
    }
    assert Padded(sn, 7) == Padded(other, 7) == 0;
    assert |sn| == 7 by {
      assert |sn| < 7 ==> Padded(sn, |sn|) == 0;
    }
    forall i | 0 <= i < |sn|
      ensures sn[i] == other[i]
    {
      assert Padded(sn, i) == Padded(other, i);
    }
  }

  /** Under any other serial number a cipher exists with which the disk no longer gives its key. */
  lemma FormatLosesKey(p: Prims, sectors: u64, o: Options)
    requires 0.0 < o.metaRatio && o.chunkMib > 0 && Encrypts(o) && NoZeros(o.sn) && o.sn != DEFAULT_SN
    ensures var q := p.(aes := HALF_KEY); KeyOf(q, SbFor(q, sectors, o)) == NoKey
  {
    hide PlanOf, MetaChunks, EncodeSb, Kcv, KdfKek, Xcrypt, Xor;
    if Kcv(HALF_KEY, KdfKek(HALF_KEY, DEFAULT_SN, o.salt)) == Kcv(HALF_KEY, KdfKek(HALF_KEY, o.sn, o.salt)) {
      forall i | 0 <= i < 8
        ensures Xor(0x5a, Padded(o.sn, i)) == Xor(0x5a, Padded(DEFAULT_SN, i))
      {
        HalfKeyCheck(o.sn, o.salt, i);
        HalfKeyCheck(DEFAULT_SN, o.salt, i);
      }
      SameSerial(o.sn, DEFAULT_SN);
    }
  }

  /** Whatever the cipher, an encrypted disk gives its data key back; and that is so for exactly the
      one serial number. */
  lemma FormatKeepsKeyExactly(p: Prims, sectors: u64, o: Options)
    requires 0.0 < o.metaRatio && o.chunkMib > 0 && Encrypts(o) && NoZeros(o.sn)
    ensures (forall aes: BlockCipher :: KeyOf(p.(aes := aes), SbFor(p.(aes := aes), sectors, o)) == HasKey(o.dek)) <==> o.sn == DEFAULT_SN
  {
    hide SbFor, KeyOf;
    if o.sn == DEFAULT_SN {
      forall aes: BlockCipher
        ensures KeyOf(p.(aes := aes), SbFor(p.(aes := aes), sectors, o)) == HasKey(o.dek)
      {
        FormatKeepsKey(p.(aes := aes), sectors, o);
      }
    } else {
      FormatLosesKey(p, sectors, o);
      assert KeyOf(p.(aes := HALF_KEY), SbFor(p.(aes := HALF_KEY), sectors, o)) == NoKey;
    }
  }

  // ---- the values written ----

  /** 8 MiB up to 4 TiB, 16 up to 16 TiB, and 32 beyond, unless the caller says otherwise. */
  lemma ChunkSizes(total: nat, asked: u32)
    ensures asked > 0 ==> PickChunkMib(total, asked) == asked
    ensures PickChunkMib(total, 0) == if total > 17_592_186_044_416 then 32 else if total > 4_398_046_511_104 then 16 else 8
  {
  }

  /** Metadata gets its share of the chunks, rounded down, but one of five or more; without the feature none. */
  lemma MetaShare(cc: nat, o: Options)
    requires 0.0 < o.metaRatio
    ensures var m, share := MetaChunks(cc, o), cc as real * o.metaRatio / 100.0;
      if o.features / 2 % 2 == 0 then m == 0
      else if share < 1.0 then m == if cc >= 5 then 1 else 0
      else m as real <= share < m as real + 1.0
  {
    ShareAtMost(cc, o.metaRatio);
    var share := cc as real * o.metaRatio / 100.0;
    assert share.Floor as real <= share < share.Floor as real + 1.0;
  }

  /** The superblock of a fresh disk. */
  lemma FreshSuperBlock(p: Prims, sectors: u64, o: Options)
    requires Sane(sectors, o)
    ensures var sb, plan := SbFor(p, sectors, o), PlanFor(sectors, o);
      && sb.magic == [82, 83, 68, 75, 48, 49, 0, 0] && sb.version == 1 && sb.diskUuid == o.uuid && sb.groupUuid == [103, 114, 112, 49] + Zeros(12)
      && sb.groupDiskIndex == 0 && sb.groupDiskCount == 1
      && sb.totalSectors == sectors && sb.rsvStartSec == 1 && sb.chunkSectors == 2048 * o.chunkMib
      && 512 * sb.dataStartSec == plan.dataStart && sb.chunkCount == plan.chunkCount
      && sb.metaChunkCount == MetaChunks(plan.chunkCount, o) && sb.metaStartChunk + sb.metaChunkCount == sb.chunkCount
      && sb.writePtrChunk == 0 && sb.seqEpoch == 1 && sb.featureMask == o.features && sb.hddFull == o.hddFull
      && sb.encAlgo == o.features % 2 && (sb.encAlgo == 1 ==> sb.kdfSalt == o.salt)
  {
    hide PlanOf, MetaChunks, NoUnderflow, DekWrap, KdfKek, EncodeSb, Layout.SlotCount;
    var plan := PlanFor(sectors, o);
    PlanNumbers(sectors, o);
    WholeChunk(o.chunkMib);
    SmallMod(plan.chunkCount); SmallMod(MetaChunks(plan.chunkCount, o)); SmallMod(plan.chunkCount - MetaChunks(plan.chunkCount, o));
    SmallMod(plan.dataStart / SEC);
    var meta := MetaChunks(plan.chunkCount, o);
    var sb := SuperBlock(SB_MAGIC, 1, 0, o.uuid, GROUP_UUID, 0, 1, sectors, 1, plan.dataStart / SEC % U64_END,
                         plan.chunk / SEC % U64_END, plan.chunkCount % U64_END, 0, 1,
                         o.features, 0, (plan.chunkCount - meta) % U64_END, meta % U64_END, 0, 0, o.hddFull,
                         Zeros(5), Zeros(16), Zeros(48), Zeros(8), Zeros(300));
    var (wrapped, kcv) := DekWrap(p.aes, KdfKek(p.aes, o.sn, o.salt), o.dek);
    SealKeeps(p, sb);
    SealKeeps(p, sb.(encAlgo := 1, kdfSalt := o.salt, wrappedDek := wrapped, dekKcv := kcv));
  }

  /** The system table of a fresh disk. */
  lemma FreshSysTab(p: Prims, sectors: u64, o: Options)
    requires Sane(sectors, o)
    ensures var plan := PlanFor(sectors, o); var st := FormatSt(p, plan, MetaChunks(plan.chunkCount, o), o);
      && st.magic == 0x42415453 && st.version == 1 && st.size == 4096 && st.formatTime == o.formatTime
      && st.bitmapStartSec == 19 && st.bitmapSectors == plan.bitmapSectors && st.indexStartSec == 19 + plan.bitmapSectors
      && st.indexSectors == plan.indexSectors && st.slotSize == 64 && st.slotCount == Layout.SlotCount(plan) && st.indexNext == 0
      && st.metaNextOff == 0 && st.metaBytes == MetaChunks(plan.chunkCount, o) * (1_048_576 * o.chunkMib)
      && forall i :: 0 <= i < 32 ==> st.chn[i] == ChnPos(0, 0, 0)
  {
    hide PlanOf, MetaChunks, NoUnderflow, EncodeSt, Layout.SlotCount;
    var plan := PlanFor(sectors, o);
    PlanNumbers(sectors, o);
    MulMono(MetaChunks(plan.chunkCount, o), plan.chunkCount, plan.chunk);
    SmallMod(plan.bitmapSectors); SmallMod(BITMAP_SEC + plan.bitmapSectors); SmallMod(plan.indexSectors);
    SmallMod(MetaChunks(plan.chunkCount, o) * plan.chunk);
  }

  /** On a fresh disk the metadata region begins where the data chunks end, and lies on the disk. */
  lemma MetaBehindData(p: Prims, disk: seq<byte>, sectors: u64, o: Options)
    requires Sane(sectors, o)
    ensures var d, plan := TableDev(p, disk, sectors, o), PlanFor(sectors, o);
      && MetaRing.MetaBase(d) == plan.dataStart + DataChunks(d) * plan.chunk
      && MetaRing.MetaBase(d) + d.st.metaBytes == plan.dataStart + plan.chunkCount * plan.chunk <= 512 * sectors
  {
    hide PlanOf, MetaChunks, NoUnderflow, FormatSb, FormatSt, Layout.SlotCount, DataChunks;
    var d, plan := TableDev(p, disk, sectors, o), PlanFor(sectors, o);
    var meta := MetaChunks(plan.chunkCount, o);
    TablesOfPlan(p, disk, sectors, o);
    PlanNumbers(sectors, o);
    FreshSuperBlock(p, sectors, o);
    FreshSysTab(p, sectors, o);
    assert (plan.chunkCount - meta) * plan.chunk + meta * plan.chunk == plan.chunkCount * plan.chunk;
  }

  // ---- the operation ----

  lemma ZeroOneMore(disk: seq<byte>, off: nat, done: nat, more: nat)
    ensures Write(Write(disk, off, Zeros(done)), off + done, Zeros(more)) == Write(disk, off, Zeros(done + more))
  {
  }

  lemma NothingWritten(disk: seq<byte>, off: nat)
    ensures Write(disk, off, Zeros(0)) == disk
  {
  }

  /** Zeroing sector by sector from `first` up to `end`. */
  method ZeroSectors(disk: array<byte>, first: nat, end: nat)
    requires first <= end
    modifies disk
    ensures disk[..] == Write(old(disk[..]), first * SEC, Zeros((end - first) * SEC))
  {
    hide Write;
    var s := first;
    NothingWritten(disk[..], first * SEC);
    while s < end
      invariant first <= s <= end
      invariant disk[..] == Write(old(disk[..]), first * SEC, Zeros((s - first) * SEC))
    {
      ZeroOneMore(old(disk[..]), first * SEC, (s - first) * SEC, SEC);
      Device.WriteArray(disk, s * SEC, Zeros(SEC));
      s := s + 1;
    }
  }

  /** Formatting a disk; one smaller than 64 MiB is refused and left alone. */
  method FormatDisk(p: Prims, disk: array<byte>, o: Options) returns (status: Status)
    requires 0.0 < o.metaRatio && disk.Length / SEC < U64_END
    modifies disk
    ensures disk.Length / SEC < 131072 ==> status == Fail(NoSpace) && disk[..] == old(disk[..])
    ensures disk.Length / SEC >= 131072 ==>
      var mib := PickChunkMib(disk.Length / SEC * SEC, o.chunkMib);
      status == Ok && mib > 0 && disk[..] == Formatted(p, old(disk[..]), disk.Length / SEC, o.(chunkMib := mib))
  {
    hide Write, PlanOf, FormatSb, FormatSt, MetaChunks;
    var sectors := disk.Length / SEC;
    if sectors < MIN_SECTORS {
      return Fail(NoSpace);
    }
    var mib := PickChunkMib(sectors * SEC, o.chunkMib);
    var chunkSectors, chunkCount, dataStartSec, bitmapSectors, indexSectors := ComputeLayout(sectors * SEC, mib * MIB, o.slots);
    var plan := Plan(mib * MIB, chunkCount, dataStartSec * SEC, bitmapSectors, indexSectors);
    var options := o.(chunkMib := mib);
    var meta := MetaChunks(chunkCount, options);
    var sb := FormatSb(p, sectors, plan, meta, options);
    var st := FormatSt(p, plan, meta, options);
    Device.WriteArray(disk, 0, Zeros(SEC));
    Device.WriteArray(disk, SEC, EncodeSb(sb));
    Device.WriteArray(disk, 2 * SEC, EncodeSb(sb));
    Device.WriteArray(disk, 3 * SEC, EncodeSt(st));
    Device.WriteArray(disk, 11 * SEC, EncodeSt(st));
    ZeroSectors(disk, BITMAP_SEC, BITMAP_SEC + bitmapSectors + indexSectors);
    status := Ok;
  }
}
