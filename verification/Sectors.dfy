/**
 The disk as the file system sees it: NumSectors sectors of SectorSize bytes, read and
 written whole. That each call is atomic is proved in module SynchDiskProtocol.
 */
module Sectors {
  import opened Bytes

  const SECTOR_SIZE: nat := 128
  /** 32 tracks of 32 sectors. */
  const NUM_SECTORS: nat := 1024

  const BLANK: seq<Byte> := seq(SECTOR_SIZE, _ => 0)

  type Sector = s: seq<Byte> | |s| == SECTOR_SIZE witness BLANK
  type Image = d: seq<Sector> | |d| == NUM_SECTORS witness seq<Sector>(NUM_SECTORS, _ => BLANK)

  /** c with the bytes from a position on replaced. */
  function Overlay(c: seq<Byte>, position: nat, bytes: seq<Byte>): (r: seq<Byte>)
    ensures |r| == |c|
  {
    seq(|c|, i requires 0 <= i < |c| => if position <= i < position + |bytes| then bytes[i - position] else c[i])
  }

  class SynchDisk {
    var sectors: Image

    constructor (initial: Image)
      ensures sectors == initial
    {
      sectors := initial;
    }

    /** Copies a sector to data[start..]. */
    method ReadSector(sectorNumber: int, data: array<Byte>, start: nat)
      requires 0 <= sectorNumber < NUM_SECTORS
      requires start + SECTOR_SIZE <= data.Length
      modifies data
      ensures data[..] == Overlay(old(data[..]), start, sectors[sectorNumber])
    {
      forall i | 0 <= i < SECTOR_SIZE {
        data[start + i] := sectors[sectorNumber][i];
      }
    }

    /** Replaces a sector by data[start..start + SectorSize]. */
    method WriteSector(sectorNumber: int, data: array<Byte>, start: nat)
      requires 0 <= sectorNumber < NUM_SECTORS
      requires start + SECTOR_SIZE <= data.Length
      modifies this
      ensures sectors == old(sectors)[sectorNumber := data[start..start + SECTOR_SIZE]]
    {
      sectors := sectors[sectorNumber := data[start..start + SECTOR_SIZE]];
    }
  }

  /** bcopy: n bytes from source[at..] to target[to..]. */
  method BCopy(source: array<Byte>, at: nat, target: array<Byte>, to: nat, n: nat)
    requires at + n <= source.Length && to + n <= target.Length
    requires source != target
    modifies target
    ensures target[..] == Overlay(old(target[..]), to, source[at..at + n])
  {
    forall i | 0 <= i < n {
      target[to + i] := source[at + i];
    }
  }
}
