/**
 * The RAK15001 SPI flash module (RAK15001_flash.cpp): sector-addressed read
 * and write with read-back verification, and the configuration check at
 * start-up.
 *
 * The chip (a GD25Q16C driven by the RAK_FLASH_SPI library) is modelled by
 * its contents `flash` and the usual NOR behaviour: erasing a sector sets its
 * bytes to 0xFF, and programming can only clear bits. Whether each library
 * call succeeds is an oracle; an access that would run past the end of the
 * chip is treated as a failed transfer, and a failed read is taken to leave
 * its destination buffer as it was (the library's behaviour there is not
 * visible).
 */
module Rak15001Flash {

  const SECTOR_SIZE: nat := 4096
  const SECTOR_COUNT: nat := 512
  /** `total_size` of the chip description: 1 << 21 bytes. */
  const FLASH_SIZE: nat := 0x20_0000
  const ERASED: bv8 := 0xFF
  /** First marker byte of a stored LoRaWAN settings record. */
  const VALID_MARK_1: bv8 := 0xAA

  /** The outcomes of the library calls one `write_rak15001` makes. */
  datatype WriteOutcome = WriteOutcome(erase: bool, write: bool, ready: bool, readBack: bool)

  /** Byte address of the first byte of `sector`. */
  function SectorAddress(sector: nat): (a: nat)
    ensures sector < SECTOR_COUNT ==> a + SECTOR_SIZE <= FLASH_SIZE
    ensures a % SECTOR_SIZE == 0
  {
    sector * SECTOR_SIZE
  }

  /** The chip contents after erasing `sector`. */
  function Erase(mem: seq<bv8>, sector: nat): (r: seq<bv8>)
    requires |mem| == FLASH_SIZE && sector < SECTOR_COUNT
    ensures |r| == FLASH_SIZE
    ensures forall k :: 0 <= k < FLASH_SIZE ==>
      r[k] == if SectorAddress(sector) <= k < SectorAddress(sector) + SECTOR_SIZE then ERASED else mem[k]
  {
    var a := SectorAddress(sector);
    mem[..a] + seq(SECTOR_SIZE, _ => ERASED) + mem[a + SECTOR_SIZE..]
  }

  /** NOR programming of `data` over `cells`: every bit can only go from 1 to 0. */
  function Program(cells: seq<bv8>, data: seq<bv8>): (r: seq<bv8>)
    requires |cells| == |data|
    ensures |r| == |data|
  {
    seq(|data|, i requires 0 <= i < |data| => cells[i] & data[i])
  }

  /** The chip contents after programming `data` at `addr`. */
  function Programmed(mem: seq<bv8>, addr: nat, data: seq<bv8>): (r: seq<bv8>)
    requires addr + |data| <= |mem|
    ensures |r| == |mem|
    ensures r[addr..addr + |data|] == Program(mem[addr..addr + |data|], data)
    ensures forall k :: 0 <= k < |mem| && !(addr <= k < addr + |data|) ==> r[k] == mem[k]
  {
    var r := mem[..addr] + Program(mem[addr..addr + |data|], data) + mem[addr + |data|..];
    assert r[addr..addr + |data|] == Program(mem[addr..addr + |data|], data);
    r
  }

  /** Programming bits onto erased cells stores exactly the data. */
  lemma ProgramOntoErased(cells: seq<bv8>, data: seq<bv8>)
    requires |cells| == |data| && forall k :: 0 <= k < |cells| ==> cells[k] == ERASED
    ensures Program(cells, data) == data
  {
    forall k | 0 <= k < |data| ensures Program(cells, data)[k] == data[k] {
      assert cells[k] & data[k] == data[k];
    }
  }

  /** Programming stores exactly the data iff the cells already had every 1 bit the data has. */
  lemma {:induction false} ProgramExact(cells: seq<bv8>, data: seq<bv8>)
    requires |cells| == |data|
    ensures Program(cells, data) == data <==> forall k :: 0 <= k < |data| ==> cells[k] & data[k] == data[k]
  {
    if Program(cells, data) == data {
      forall k | 0 <= k < |data| ensures cells[k] & data[k] == data[k] {
        assert Program(cells, data)[k] == data[k];
      }
    }
  }

  /** The chip after an erase (when `erased`) followed by a successful program. */
  function WriteImage(mem: seq<bv8>, sector: nat, data: seq<bv8>, erased: bool): (r: seq<bv8>)
    requires |mem| == FLASH_SIZE && sector < SECTOR_COUNT && SectorAddress(sector) + |data| <= FLASH_SIZE
    ensures |r| == FLASH_SIZE
  {
    Programmed(if erased then Erase(mem, sector) else mem, SectorAddress(sector), data)
  }

  /**
   * After a successful erase, a write of at most one sector reads back as the
   * data, so the read-back compare passes.
   */
  lemma WriteAfterEraseReadsBack(mem: seq<bv8>, sector: nat, data: seq<bv8>)
    requires |mem| == FLASH_SIZE && sector < SECTOR_COUNT && |data| <= SECTOR_SIZE
    ensures var a := SectorAddress(sector); WriteImage(mem, sector, data, true)[a..a + |data|] == data
  {
    var a := SectorAddress(sector);
    var e := Erase(mem, sector);
    ProgramOntoErased(e[a..a + |data|], data);
  }

  /**
   * Without the erase, the write reads back as the data iff every 1 bit of
   * the data was still set in the chip.
   */
  lemma WriteWithoutEraseReadsBack(mem: seq<bv8>, sector: nat, data: seq<bv8>)
    requires |mem| == FLASH_SIZE && sector < SECTOR_COUNT && SectorAddress(sector) + |data| <= FLASH_SIZE
    ensures var a := SectorAddress(sector);
      WriteImage(mem, sector, data, false)[a..a + |data|] == data
      <==> forall k :: 0 <= k < |data| ==> mem[a + k] & data[k] == data[k]
  {
    var a := SectorAddress(sector);
    ProgramExact(mem[a..a + |data|], data);
  }

  /** The chip contents after `write_rak15001(0, image, |image|)` with outcomes `o`. */
  function SavedImage(mem: seq<bv8>, image: seq<bv8>, o: WriteOutcome): (r: seq<bv8>)
    requires |mem| == FLASH_SIZE && |image| < 0x1_0000
    ensures |r| == FLASH_SIZE
  {
    if o.write then WriteImage(mem, 0, image, o.erase)
    else if o.erase then Erase(mem, 0) else mem
  }

  /** Whether that write reports success: every step succeeded and `image` reads back. */
  predicate Saved(after: seq<bv8>, image: seq<bv8>, o: WriteOutcome)
    requires |image| <= |after|
  {
    o.write && o.ready && o.readBack && after[..|image|] == image
  }

  class Rak15001 {
    /** Contents of the flash chip. */
    var flash: seq<bv8>
    /** `g_has_rak15001`. */
    var hasRak15001: bool
    /** Image of `g_lorawan_settings` as the bytes written to and read from sector 0. */
    var settings: seq<bv8>

    ghost predicate Valid()
      reads this
    {
      |flash| == FLASH_SIZE && |settings| < 0x1_0000
    }

    constructor (contents: seq<bv8>, image: seq<bv8>)
      requires |contents| == FLASH_SIZE && |image| < 0x1_0000
      ensures Valid() && flash == contents && settings == image && !hasRak15001
    {
      flash := contents;
      settings := image;
      hasRak15001 := false;
    }

    /**
     * `init_rak15001`: the flag is set only when both `begin` and
     * `waitUntilReady` succeed; a failure leaves it as it was.
     */
    method Init(beginOk: bool, readyOk: bool) returns (ok: bool)
      modifies this`hasRak15001
      ensures ok == (beginOk && readyOk)
      ensures hasRak15001 == (ok || old(hasRak15001))
    {
      if !beginOk {
        return false;
      }
      if !readyOk {
        return false;
      }
      hasRak15001 := true;
      return true;
    }

    /**
     * `read_rak15001`: rejects a sector above 511 before touching the chip,
     * otherwise reads `size` bytes at `sector * 4096`.
     */
    method ReadSector(sector: int, size: int, readOk: bool) returns (ok: bool, data: seq<bv8>)
      requires Valid() && 0 <= sector < 0x1_0000 && 0 <= size < 0x1_0000
      ensures ok <==> sector < SECTOR_COUNT && readOk && SectorAddress(sector) + size <= FLASH_SIZE
      ensures ok ==> data == flash[SectorAddress(sector)..SectorAddress(sector) + size]
    {
      if sector > 511 {
        return false, [];
      }
      ok, data := ReadBuffer(sector * 4096, size, readOk);
    }

    /**
     * `write_rak15001`: rejects a sector above 511 before touching the chip;
     * otherwise erases the sector (a failed erase is only logged), programs
     * the first `size` bytes of `buffer` at `sector * 4096`, waits, reads the
     * bytes back and reports whether they equal the buffer.
     */
    method WriteSector(sector: int, buffer: seq<bv8>, size: int, o: WriteOutcome) returns (ok: bool)
      requires Valid() && 0 <= sector < 0x1_0000 && 0 <= size < 0x1_0000 && size <= |buffer|
      modifies this`flash
      ensures Valid()
      ensures sector > 511 ==> !ok && flash == old(flash)
      ensures sector <= 511 ==>
        var a := SectorAddress(sector);
        var erased := if o.erase then Erase(old(flash), sector) else old(flash);
        var written := o.write && a + size <= FLASH_SIZE;
        && flash == (if written then WriteImage(old(flash), sector, buffer[..size], o.erase) else erased)
        && (ok <==> written && o.ready && o.readBack && flash[a..a + size] == buffer[..size])
    {
      if sector > 511 {
        return false;
      }
      var erased := EraseSector(sector, o.erase);
      var data := buffer[..size];
      var written := WriteBuffer(sector * 4096, data, o.write);
      if !written {
        return false;
      }
      var ready := WaitUntilReady(o.ready);
      if !ready {
        return false;
      }
      var readBack, checkBuff := ReadBuffer(sector * 4096, size, o.readBack);
      if !readBack {
        return false;
      }
      if checkBuff != data {
        return false;
      }
      return true;
    }

    /** `save_config`: writes the settings image to sector 0. */
    method SaveConfig(o: WriteOutcome) returns (ok: bool)
      requires Valid()
      modifies this`flash
      ensures Valid()
      ensures flash == SavedImage(old(flash), settings, o)
      ensures ok <==> Saved(flash, settings, o)
    {
      ok := WriteSector(0, settings, |settings|, o);
      assert settings[..|settings|] == settings;
    }

    /**
     * `read_config`: reads the two marker bytes of sector 0. If that read
     * fails, the module is marked absent and the result is false. If the
     * markers are not (0xAA, `dataMarker`), the settings image is written to
     * sector 0 first, and a failed write gives false. Otherwise the settings
     * are read back from sector 0 (a failed read keeps the current image) and
     * the result is true.
     */
    method ReadConfig(dataMarker: bv8, firstRead: bool, rewrite: WriteOutcome, finalRead: bool) returns (ok: bool)
      requires Valid()
      modifies this
      ensures Valid()
      ensures !firstRead ==> !ok && !hasRak15001 && flash == old(flash) && settings == old(settings)
      ensures firstRead ==> hasRak15001 == old(hasRak15001)
      ensures firstRead && old(flash)[0] == VALID_MARK_1 && old(flash)[1] == dataMarker ==>
        ok && flash == old(flash)
        && settings == if finalRead then old(flash)[..|old(settings)|] else old(settings)
      ensures firstRead && !(old(flash)[0] == VALID_MARK_1 && old(flash)[1] == dataMarker) ==>
        flash == SavedImage(old(flash), old(settings), rewrite)
        && (ok <==> Saved(flash, old(settings), rewrite))
        && settings == if ok && finalRead then flash[..|old(settings)|] else old(settings)
    {
      var read, checkBuff := ReadSector(0, 2, firstRead);
      if read {
        if checkBuff[0] != VALID_MARK_1 || checkBuff[1] != dataMarker {
          // the same write as `save_config`
          var saved := SaveConfig(rewrite);
          if !saved {
            return false;
          }
        }
        Reload(finalRead);
        return true;
      } else {
        hasRak15001 := false;
        return false;
      }
    }

    /** The final read of `read_config`: a failed read keeps the current image. */
    method Reload(readOk: bool)
      requires Valid()
      modifies this`settings
      ensures Valid()
      ensures settings == if readOk then flash[..|old(settings)|] else old(settings)
    {
      var reread, image := ReadSector(0, |settings|, readOk);
      if reread {
        settings := image;
      }
    }

    // The RAK_FLASH_SPI calls, as the chip behaves.

    method EraseSector(sector: nat, ok: bool) returns (done: bool)
      requires Valid() && sector < SECTOR_COUNT
      modifies this`flash
      ensures Valid() && done == ok
      ensures flash == if ok then Erase(old(flash), sector) else old(flash)
    {
      if ok {
        flash := Erase(flash, sector);
      }
      return ok;
    }

    method WriteBuffer(addr: nat, data: seq<bv8>, ok: bool) returns (done: bool)
      requires Valid()
      modifies this`flash
      ensures Valid() && done == (ok && addr + |data| <= FLASH_SIZE)
      ensures flash == if done then Programmed(old(flash), addr, data) else old(flash)
    {
      done := ok && addr + |data| <= FLASH_SIZE;
      if done {
        flash := Programmed(flash, addr, data);
      }
    }

    method ReadBuffer(addr: nat, size: nat, ok: bool) returns (done: bool, data: seq<bv8>)
      requires Valid()
      ensures done == (ok && addr + size <= FLASH_SIZE)
      ensures done ==> data == flash[addr..addr + size]
    {
      done := ok && addr + size <= FLASH_SIZE;
      data := if done then flash[addr..addr + size] else [];
    }

    method WaitUntilReady(ok: bool) returns (done: bool)
      ensures done == ok
    {
      return ok;
    }
  }
}
