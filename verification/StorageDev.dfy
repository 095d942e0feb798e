/** One recorder disk: superblock and system table in memory, the raw image, the chunk
    ring allocator, formatting, opening, flushing and re-keying.
    `Dev` is the abstract value of a `Device`; every method is tied to a function on it. */
module StorageDev {
  import opened Bytes
  import opened RecorderFormat
  import opened Crypto

  datatype Dev = Dev(prims: Prims, sb: SuperBlock, st: SysTab, dek: KeyResult, disk: seq<byte>)

  const U64_END: nat := 0x1_0000_0000_0000_0000

  function ChunkBytes(d: Dev): nat { d.sb.chunkSectors * SEC }

  function DataChunks(d: Dev): nat { (d.sb.chunkCount - d.sb.metaChunkCount) % U64_END }

  function DataStart(d: Dev): nat { d.sb.dataStartSec * SEC }

  function ChunkOff(d: Dev, chunk: nat): nat { DataStart(d) + chunk * ChunkBytes(d) }

  function IndexStart(d: Dev): nat { d.st.indexStartSec * SEC }

  // ---- writing superblock and system table back ----

  function SealSb(p: Prims, sb: SuperBlock): SuperBlock { sb.(crc := p.crc(EncodeSb(sb.(crc := 0)))) }

  function SealSt(p: Prims, st: SysTab): SysTab { st.(crc := p.crc(EncodeSt(st.(crc := 0)))) }

  function WriteTables(disk: seq<byte>, sb: SuperBlock, st: SysTab): (r: seq<byte>)
    ensures |r| == |disk|
  {
    Write(Write(Write(Write(disk, 2 * SEC, EncodeSb(sb)), 11 * SEC, EncodeSt(st)), SEC, EncodeSb(sb)), 3 * SEC, EncodeSt(st))
  }

  function Flush(d: Dev): Dev {
    var sb, st := SealSb(d.prims, d.sb), SealSt(d.prims, d.st);
    d.(sb := sb, st := st, disk := WriteTables(d.disk, sb, st))
  }

  const TABLES_END: nat := 19 * SEC

  lemma WriteTablesKeeps(disk: seq<byte>, sb: SuperBlock, st: SysTab, off: nat, n: nat)
    requires TABLES_END <= off
    ensures Read(WriteTables(disk, sb, st), off, n) == Read(disk, off, n)
  {
    var d1 := Write(disk, 2 * SEC, EncodeSb(sb));
    var d2 := Write(d1, 11 * SEC, EncodeSt(st));
    var d3 := Write(d2, SEC, EncodeSb(sb));
    ReadElsewhere(disk, 2 * SEC, EncodeSb(sb), off, n);
    ReadElsewhere(d1, 11 * SEC, EncodeSt(st), off, n);
    ReadElsewhere(d2, SEC, EncodeSb(sb), off, n);
    ReadElsewhere(d3, 3 * SEC, EncodeSt(st), off, n);
  }

  lemma TablesReadBack(disk: seq<byte>, sb: SuperBlock, st: SysTab)
    requires TABLES_END <= |disk|
    ensures Read(WriteTables(disk, sb, st), SEC, SEC) == EncodeSb(sb)
    ensures Read(WriteTables(disk, sb, st), 3 * SEC, ST_SIZE) == EncodeSt(st)
  {
    var d1 := Write(disk, 2 * SEC, EncodeSb(sb));
    var d2 := Write(d1, 11 * SEC, EncodeSt(st));
    var d3 := Write(d2, SEC, EncodeSb(sb));
    ReadBack(d2, SEC, EncodeSb(sb));
    ReadElsewhere(d3, 3 * SEC, EncodeSt(st), SEC, SEC);
    ReadBack(d3, 3 * SEC, EncodeSt(st));
  }

  // ---- opening ----

  datatype OpenResult = Opened(dev: Dev) | NotOpened(error: Error)

  /** Serial number "NT12-32". */
  const DEFAULT_SN: seq<byte> := [0x4e, 0x54, 0x31, 0x32, 0x2d, 0x33, 0x32]

  /** The superblock image the checksum is taken over: its own field zeroed. */
  function SbCrcImage(raw: seq<byte>): seq<byte>
    requires |raw| == SEC
  {
    raw[..12] + Zeros(4) + raw[16..]
  }

  function KeyOf(p: Prims, sb: SuperBlock): KeyResult {
    if sb.encAlgo != 1 then NoKey
    else DekUnwrap(p.aes, KdfKek(p.aes, DEFAULT_SN, sb.kdfSalt), sb.wrappedDek, sb.dekKcv)
  }

  function Open(p: Prims, disk: seq<byte>): OpenResult {
    var main := Read(disk, SEC, SEC);
    var raw := if main[..8] == SB_MAGIC then main else Read(disk, 2 * SEC, SEC);
    if raw[..8] != SB_MAGIC then NotOpened(Format)
    else
      var sb := DecodeSb(raw);
      if p.crc(SbCrcImage(raw)) != sb.crc then NotOpened(Corrupt)
      else
        var st := DecodeSt(Read(disk, 3 * SEC, ST_SIZE));
        var st' := if st.magic == ST_MAGIC then st else DecodeSt(Read(disk, 11 * SEC, ST_SIZE));
        Opened(Dev(p, sb, st', KeyOf(p, sb), disk))
  }

  lemma SbCrcImageOfEncoding(sb: SuperBlock)
    ensures SbCrcImage(EncodeSb(sb)) == EncodeSb(sb.(crc := 0))
  {
    var s, t := EncodeSb(sb), EncodeSb(sb.(crc := 0));
    Slices8(sb.magic, LE(sb.version, 4), LE(sb.crc, 4), sb.diskUuid, sb.groupUuid,
            LE(sb.groupDiskIndex, 2), LE(sb.groupDiskCount, 2), SbGeometry(sb), s);
    Slices8(sb.magic, LE(sb.version, 4), LE(0, 4), sb.diskUuid, sb.groupUuid,
            LE(sb.groupDiskIndex, 2), LE(sb.groupDiskCount, 2), SbGeometry(sb), t);
    assert SbGeometry(sb) == SbGeometry(sb.(crc := 0));
    LEZero(4);
    assert s[..12] == t[..12] by {
      assert s[..12] == s[..8] + s[8..12] && t[..12] == t[..8] + t[8..12];
    }
    assert s[16..] == t[16..] by {
      SuffixFrom16(s); SuffixFrom16(t);
    }
    assert t == t[..12] + t[12..16] + t[16..];
  }

  lemma SuffixFrom16(s: seq<byte>)
    requires |s| == SEC
    ensures s[16..] == s[16..32] + s[32..48] + s[48..50] + s[50..52] + s[52..]
  {
  }

  lemma {:induction false} LEZero(k: nat)
    ensures LE(0, k) == Zeros(k)
  {
    if k > 0 {
      LEZero(k - 1);
      assert Zeros(k) == [0] + Zeros(k - 1);
    }
  }

  ghost predicate TablesMarked(d: Dev) {
    && TABLES_END <= |d.disk| && d.sb.magic == SB_MAGIC && d.st.magic == ST_MAGIC
  }

  /** Closing a disk (which flushes) and opening it again gives back the same device:
      ring position, epoch, index position, segment counters, geometry and key. */
  lemma FlushThenOpen(d: Dev)
    requires TablesMarked(d) && d.dek == KeyOf(d.prims, d.sb)
    ensures Open(d.prims, Flush(d).disk) == Opened(Flush(d))
  {
    var f := Flush(d);
    TablesReadBack(d.disk, f.sb, f.st);
    SbHeadRoundTrip(f.sb);
    SbRoundTrip(f.sb);
    StRoundTrip(f.st);
    SbCrcImageOfEncoding(f.sb);
    assert f.sb.(crc := 0) == d.sb.(crc := 0);
  }

  // ---- key rotation ----

  datatype RekeyResult = RekeyResult(dev: Dev, status: Status)

  function Rekey(d: Dev, newSalt: Block): RekeyResult {
    if d.sb.encAlgo != 1 then RekeyResult(d, Fail(Param))
    else
      var aes := d.prims.aes;
      match KeyOf(d.prims, d.sb)
      case NoKey => RekeyResult(d, Fail(Error.Crypto))
      case HasKey(dek) =>
        var (wrapped, kcv) := DekWrap(aes, KdfKek(aes, DEFAULT_SN, newSalt), dek);
        RekeyResult(Flush(d.(sb := d.sb.(wrappedDek := wrapped, dekKcv := kcv, kdfSalt := newSalt))), Ok)
  }

  /** After a key rotation the disk opens with the data key it had before. */
  lemma RekeyKeepsKey(d: Dev, newSalt: Block)
    requires TablesMarked(d) && d.dek == KeyOf(d.prims, d.sb)
    ensures var r := Rekey(d, newSalt);
      r.status.Ok? ==> Open(d.prims, r.dev.disk) == Opened(r.dev) && r.dev.dek == d.dek && d.dek.HasKey?
    ensures Rekey(d, newSalt).status.Ok? <==> d.sb.encAlgo == 1 && d.dek.HasKey?
  {
    var r := Rekey(d, newSalt);
    if r.status.Ok? {
      var aes := d.prims.aes;
      var kek := KdfKek(aes, DEFAULT_SN, newSalt);
      UnwrapWrap(aes, kek, d.dek.key);
      var (wrapped, kcv) := DekWrap(aes, kek, d.dek.key);
      var m := d.(sb := d.sb.(wrappedDek := wrapped, dekKcv := kcv, kdfSalt := newSalt));
      assert KeyOf(d.prims, m.sb) == d.dek;
      FlushThenOpen(m);
    }
  }

  // ---- the chunk ring ----

  datatype AllocResult = NoRoom | Chunk(chunk: u64, off: nat)

  function Alloc(d: Dev): (Dev, AllocResult) {
    var n := DataChunks(d);
    if n == 0 || (d.sb.hddFull == HDD_STOP && d.sb.writePtrChunk >= n) then (d, NoRoom)
    else
      var c := d.sb.writePtrChunk;
      var next := (c + 1) % U64_END;
      var sb := if next >= n && d.sb.hddFull != HDD_STOP
                then d.sb.(writePtrChunk := 0, seqEpoch := (d.sb.seqEpoch + 1) % U64_END)
                else d.sb.(writePtrChunk := next);
      (d.(sb := sb), Chunk(c, ChunkOff(d, c)))
  }

  predicate IsWrapped(d: Dev) { d.sb.seqEpoch > 1 }
}
