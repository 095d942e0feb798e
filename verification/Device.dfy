/** A disk as an object: tables updated in place, the raw image as an array of bytes. */
module Device {
  import opened Bytes
  import opened RecorderFormat
  import opened Crypto
  import opened StorageDev

  class Device {
    const prims: Prims
    const disk: array<byte>
    var sb: SuperBlock
    var st: SysTab
    var dek: KeyResult

    /** The abstract value. */
    ghost function State(): Dev
      reads this, disk
    {
      Dev(prims, sb, st, dek, disk[..])
    }

    constructor (prims: Prims, disk: array<byte>, sb: SuperBlock, st: SysTab, dek: KeyResult)
      ensures this.disk == disk && State() == Dev(prims, sb, st, dek, disk[..])
    {
      this.prims, this.disk, this.sb, this.st, this.dek := prims, disk, sb, st, dek;
    }

    method PRead(off: nat, n: nat) returns (buf: array<byte>)
      ensures fresh(buf) && buf.Length == n && buf[..] == Read(disk[..], off, n)
    {
      buf := ReadArray(disk, off, n);
    }

    method PWrite(off: nat, data: seq<byte>)
      modifies disk
      ensures disk[..] == Write(old(disk[..]), off, data)
    {
      WriteArray(disk, off, data);
    }

    /** Backup copies first, then the main ones. */
    method Flush()
      modifies `sb, `st, disk
      ensures State() == StorageDev.Flush(old(State()))
    {
      sb := sb.(crc := prims.crc(EncodeSb(sb.(crc := 0))));
      st := st.(crc := prims.crc(EncodeSt(st.(crc := 0))));
      PWrite(2 * SEC, EncodeSb(sb));
      PWrite(11 * SEC, EncodeSt(st));
      PWrite(SEC, EncodeSb(sb));
      PWrite(3 * SEC, EncodeSt(st));
    }

    method AllocChunk() returns (r: AllocResult)
      modifies `sb
      ensures (State(), r) == Alloc(old(State()))
    {
      var n := (sb.chunkCount - sb.metaChunkCount) % U64_END;
      if n == 0 {
        return NoRoom;
      }
      if sb.hddFull == HDD_STOP && sb.writePtrChunk >= n {
        return NoRoom;
      }
      var c := sb.writePtrChunk;
      sb := sb.(writePtrChunk := (c + 1) % U64_END);
      if sb.writePtrChunk >= n {
        if sb.hddFull != HDD_STOP {
          sb := sb.(writePtrChunk := 0, seqEpoch := (sb.seqEpoch + 1) % U64_END);
        }
      }
      r := Chunk(c, sb.dataStartSec * SEC + c * (sb.chunkSectors * SEC));
    }

    /** Key rotation: a new salt, the same data key wrapped again. */
    method Rekey(newSalt: Block) returns (status: Status)
      modifies `sb, `st, disk
      ensures RekeyResult(State(), status) == StorageDev.Rekey(old(State()), newSalt)
    {
      if sb.encAlgo != 1 {
        return Fail(Param);
      }
      var unwrapped := DekUnwrap(prims.aes, KdfKek(prims.aes, DEFAULT_SN, sb.kdfSalt), sb.wrappedDek, sb.dekKcv);
      match unwrapped {
        case NoKey => status := Fail(Error.Crypto);
        case HasKey(dek) =>
          var (wrapped, kcv) := DekWrap(prims.aes, KdfKek(prims.aes, DEFAULT_SN, newSalt), dek);
          sb := sb.(wrappedDek := wrapped, dekKcv := kcv);
          sb := sb.(kdfSalt := newSalt);
          Flush();
          status := Ok;
      }
    }
  }

  method ReadArray(disk: array<byte>, off: nat, n: nat) returns (buf: array<byte>)
    ensures fresh(buf) && buf.Length == n && buf[..] == Read(disk[..], off, n)
  {
    buf := new byte[n];
    var done := 0;
    while done < n
      invariant 0 <= done <= n
      invariant forall i :: 0 <= i < done ==> buf[i] == Read(disk[..], off, n)[i]
    {
      buf[done] := if off + done < disk.Length then disk[off + done] else 0;
      done := done + 1;
    }
  }

  method WriteArray(disk: array<byte>, off: nat, data: seq<byte>)
    modifies disk
    ensures disk[..] == Write(old(disk[..]), off, data)
  {
    ghost var was := disk[..];
    var done := 0;
    while done < |data| && off + done < disk.Length
      invariant 0 <= done <= |data|
      invariant done > 0 ==> off + done <= disk.Length
      invariant forall i :: 0 <= i < disk.Length ==> disk[i] == if off <= i < off + done then data[i - off] else was[i]
    {
      disk[off + done] := data[done];
      done := done + 1;
    }
  }

  datatype OpenDevice = Usable(dev: Device) | Refused(error: Error)

  /** Opening falls back to a backup copy only when the magic of the main one is wrong. */
  method OpenDisk(prims: Prims, disk: array<byte>) returns (r: OpenDevice)
    ensures match StorageDev.Open(prims, disk[..])
      case NotOpened(e) => r == Refused(e)
      case Opened(d) => r.Usable? && fresh(r.dev) && r.dev.disk == disk && r.dev.State() == d
  {
    var buf := ReadArray(disk, SEC, SEC);
    var raw := buf[..];
    if raw[..8] != SB_MAGIC {
      buf := ReadArray(disk, 2 * SEC, SEC);
      raw := buf[..];
      if raw[..8] != SB_MAGIC {
        return Refused(Format);
      }
    }
    var sb := DecodeSb(raw);
    if prims.crc(SbCrcImage(raw)) != sb.crc {
      return Refused(Corrupt);
    }
    buf := ReadArray(disk, 3 * SEC, ST_SIZE);
    var st := DecodeSt(buf[..]);
    if st.magic != ST_MAGIC {
      buf := ReadArray(disk, 11 * SEC, ST_SIZE);
      st := DecodeSt(buf[..]);
    }
    var d := new Device(prims, disk, sb, st, KeyOf(prims, sb));
    r := Usable(d);
  }
}
