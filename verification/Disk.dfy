/**
 The disk's timing: the head seeks at 500 ticks a track, the platter turns by one sector every 500
 ticks, and a buffer holds what has passed under the head since the last seek.
 */
module Disks {
  import opened Sectors

  const SECTORS_PER_TRACK: nat := 32
  const SEEK_TIME: nat := 500
  const ROTATION_TIME: nat := 500

  /** From one edge of the disk to the other; and, with a whole turn and the transfer, the bound of every latency. */
  const MAX_SEEK: nat := 15500
  const MAX_LATENCY: nat := 32000

  type SectorNumber = n: nat | n < NUM_SECTORS

  /** Division of C integers: towards zero. */
  function Quotient(a: int, b: int): int
    requires b > 0
  {
    if a >= 0 then a / b else -((-a) / b)
  }

  /** The ticks to seek to a sector's track, and then to the next sector boundary. */
  function TimeToSeek(lastSector: SectorNumber, newSector: SectorNumber, totalTicks: nat): (int, int) {
    var newTrack := newSector / SECTORS_PER_TRACK;
    var oldTrack := lastSector / SECTORS_PER_TRACK;
    var seek := (if newTrack >= oldTrack then newTrack - oldTrack else oldTrack - newTrack) * SEEK_TIME;
    var over := (totalTicks + seek) % ROTATION_TIME;
    (seek, if over > 0 then ROTATION_TIME - over else 0)
  }

  function ModuloDiff(to: nat, from: nat): nat {
    var toOffset := to % SECTORS_PER_TRACK;
    var fromOffset := from % SECTORS_PER_TRACK;
    ((toOffset - fromOffset) + SECTORS_PER_TRACK) % SECTORS_PER_TRACK
  }

  /** The buffer test of ComputeLatency. */
  predicate BufferHit(lastSector: SectorNumber, bufferInit: nat, newSector: SectorNumber, totalTicks: nat) {
    var (seek, rotation) := TimeToSeek(lastSector, newSector, totalTicks);
    var timeAfter := totalTicks + seek + rotation;
    seek == 0
    && Quotient(timeAfter - bufferInit, ROTATION_TIME) > ModuloDiff(newSector, bufferInit / ROTATION_TIME)
  }

  function ComputeLatency(lastSector: SectorNumber, bufferInit: nat, newSector: SectorNumber, writing: bool,
                          totalTicks: nat): int
  {
    var (seek, rotation) := TimeToSeek(lastSector, newSector, totalTicks);
    var timeAfter := totalTicks + seek + rotation;
    if !writing && BufferHit(lastSector, bufferInit, newSector, totalTicks) then ROTATION_TIME
    else
      seek + (rotation + ModuloDiff(newSector, timeAfter / ROTATION_TIME) * ROTATION_TIME) + ROTATION_TIME
  }

  /** At the sector boundary t the head is over the start of this sector, whatever the track. */
  predicate UnderHead(sector: nat, t: int) {
    t >= 0 && t % ROTATION_TIME == 0 && SameOffset(t / ROTATION_TIME, sector)
  }

  predicate SameOffset(m: nat, n: nat) {
    m % SECTORS_PER_TRACK == n % SECTORS_PER_TRACK
  }

  /** ModuloDiff counts the sectors to wait for: the least n with "from + n" at the offset of "to" on its track. */
  lemma ModuloDiffMeans(to: nat, from: nat)
    ensures ModuloDiff(to, from) < SECTORS_PER_TRACK && SameOffset(from + ModuloDiff(to, from), to)
    ensures forall n | from <= n < from + ModuloDiff(to, from) :: !SameOffset(n, to)
  {
    var a, b := to % SECTORS_PER_TRACK, from % SECTORS_PER_TRACK;
    assert ModuloDiff(to, from) == if a >= b then a - b else a - b + SECTORS_PER_TRACK;
    forall n: nat | from <= n <= from + ModuloDiff(to, from)
      ensures SameOffset(n, to) <==> n == from + ModuloDiff(to, from)
    {
      OffsetAfter(from, n - from);
    }
  }

  /** The offset reached within one turn. */
  lemma OffsetAfter(from: nat, n: nat)
    requires n < SECTORS_PER_TRACK
    ensures var b := from % SECTORS_PER_TRACK;
      (from + n) % SECTORS_PER_TRACK == if b + n < SECTORS_PER_TRACK then b + n else b + n - SECTORS_PER_TRACK
  {
  }

  /** How many tracks lie between two sectors. */
  function TracksApart(a: SectorNumber, b: SectorNumber): (n: nat)
    ensures a / 32 + n == b / 32 || b / 32 + n == a / 32
  {
    if a / 32 <= b / 32 then b / 32 - a / 32 else a / 32 - b / 32
  }

  /**
   A seek takes 500 ticks for each track, inwards or outwards; after seeking and waiting, the head is
   at the first sector boundary not before the end of the seek.
   */
  lemma SeekEndsAtBoundary(lastSector: SectorNumber, newSector: SectorNumber, totalTicks: nat)
    ensures var (seek, rotation) := TimeToSeek(lastSector, newSector, totalTicks);
      && seek == 500 * TracksApart(lastSector, newSector) <= MAX_SEEK
      && (seek == 0 <==> lastSector / SECTORS_PER_TRACK == newSector / SECTORS_PER_TRACK)
      && 0 <= rotation < 500 && (totalTicks + seek + rotation) % 500 == 0
  {
  }

  /** At the tick "start", and at none before since "arrival", a sector boundary has the sector under the head. */
  ghost predicate FirstUnderHead(sector: SectorNumber, arrival: int, start: int) {
    arrival <= start && UnderHead(sector, start) && forall t | arrival <= t < start :: !UnderHead(sector, t)
  }

  /**
   Unless it comes from the buffer, a transfer starts at a sector boundary after the seek with the
   target under the head, and at the first such.
   */
  lemma TransferStartsUnderHead(lastSector: SectorNumber, bufferInit: nat, newSector: SectorNumber, writing: bool,
                                totalTicks: nat)
    requires writing || !BufferHit(lastSector, bufferInit, newSector, totalTicks)
    ensures var latency := ComputeLatency(lastSector, bufferInit, newSector, writing, totalTicks);
      var arrival := totalTicks + 500 * TracksApart(lastSector, newSector);
      FirstUnderHead(newSector, arrival, totalTicks + latency - 500)
  {
    var (seek, rotation) := TimeToSeek(lastSector, newSector, totalTicks);
    SeekEndsAtBoundary(lastSector, newSector, totalTicks);
    var timeAfter := totalTicks + seek + rotation;
    var from := timeAfter / ROTATION_TIME;
    ModuloDiffMeans(newSector, from);
    var start := timeAfter + ModuloDiff(newSector, from) * ROTATION_TIME;
    assert start / ROTATION_TIME == from + ModuloDiff(newSector, from);
    forall t | totalTicks + seek <= t < start ensures !UnderHead(newSector, t) {
      if t % ROTATION_TIME == 0 {
        assert t >= timeAfter;
        assert from <= t / ROTATION_TIME < from + ModuloDiff(newSector, from);
      }
    }
  }

  /** Every latency is at least a sector's time, so the interrupt lies in the future, and less than MAX_LATENCY. */
  lemma LatencyBounds(lastSector: SectorNumber, bufferInit: nat, newSector: SectorNumber, writing: bool,
                      totalTicks: nat)
    ensures ROTATION_TIME <= ComputeLatency(lastSector, bufferInit, newSector, writing, totalTicks) < MAX_LATENCY
  {
    var (seek, rotation) := TimeToSeek(lastSector, newSector, totalTicks);
    SeekEndsAtBoundary(lastSector, newSector, totalTicks);
    ModuloDiffMeans(newSector, (totalTicks + seek + rotation) / ROTATION_TIME);
  }

  /** The buffer never makes a read slower than a write, which does without it. */
  lemma BufferNeverSlower(lastSector: SectorNumber, bufferInit: nat, newSector: SectorNumber, totalTicks: nat)
    ensures ComputeLatency(lastSector, bufferInit, newSector, false, totalTicks)
      <= ComputeLatency(lastSector, bufferInit, newSector, true, totalTicks)
  {
    LatencyBounds(lastSector, bufferInit, newSector, true, totalTicks);
  }

  /**
   The head has come over the start of the sector since the buffer's first boundary. By the boundary
   that ends the wait of a request at this tick, the sector has then passed to its end.
   */
  ghost predicate Passed(sector: nat, bufferInit: nat, totalTicks: nat) {
    exists t :: bufferInit <= t < totalTicks && UnderHead(sector, t)
  }

  /**
   The buffer test agrees with its meaning: a read within the track hits if and only if the wanted
   sector has passed since the buffer was started.
   */
  lemma HitMeansPassed(lastSector: SectorNumber, bufferInit: nat, newSector: SectorNumber, totalTicks: nat)
    requires bufferInit % ROTATION_TIME == 0 && bufferInit <= totalTicks
    requires lastSector / SECTORS_PER_TRACK == newSector / SECTORS_PER_TRACK
    ensures BufferHit(lastSector, bufferInit, newSector, totalTicks) <==> Passed(newSector, bufferInit, totalTicks)
  {
    SeekEndsAtBoundary(lastSector, newSector, totalTicks);
    var timeAfter := totalTicks + TimeToSeek(lastSector, newSector, totalTicks).1;
    var from := bufferInit / ROTATION_TIME;
    ModuloDiffMeans(newSector, from);
    var wait := ModuloDiff(newSector, from);
    var first := bufferInit + wait * ROTATION_TIME;
    assert first / ROTATION_TIME == from + wait;
    assert UnderHead(newSector, first);
    assert BufferHit(lastSector, bufferInit, newSector, totalTicks) <==> first + ROTATION_TIME <= timeAfter;
    assert first < totalTicks <==> first + ROTATION_TIME <= timeAfter;
    if t :| bufferInit <= t < totalTicks && UnderHead(newSector, t) {
      assert t >= first by { assert SameOffset(t / ROTATION_TIME, newSector); }
    }
  }

  class Disk {
    /** The sectors of the file that simulates the disk. */
    var file: Image
    var active: bool
    var lastSector: SectorNumber
    var bufferInit: nat
    /** When the latest request is due to complete. */
    ghost var doneAt: nat

    /** The buffer was started at a sector boundary, which is past once the latest request has completed. */
    ghost predicate Valid()
      reads this
    {
      bufferInit % ROTATION_TIME == 0 && bufferInit <= doneAt
    }

    constructor (file: Image)
      ensures Valid() && !active && this.file == file && lastSector == 0 && bufferInit == 0 && doneAt == 0
    {
      this.file, active, lastSector, bufferInit, doneAt := file, false, 0, 0, 0;
    }

    /** A seek empties the buffer, which starts anew at the first boundary on the new track. */
    method UpdateLast(newSector: SectorNumber, totalTicks: nat)
      modifies `lastSector, `bufferInit
      ensures lastSector == newSector
      ensures newSector / SECTORS_PER_TRACK == old(lastSector) / SECTORS_PER_TRACK ==> bufferInit == old(bufferInit)
      ensures newSector / SECTORS_PER_TRACK != old(lastSector) / SECTORS_PER_TRACK ==>
        && bufferInit % ROTATION_TIME == 0
        && totalTicks < bufferInit
        && bufferInit <= totalTicks + ComputeLatency(old(lastSector), old(bufferInit), newSector, true, totalTicks)
        && bufferInit - ROTATION_TIME < totalTicks + TimeToSeek(old(lastSector), newSector, totalTicks).0 <= bufferInit
    {
      SeekEndsAtBoundary(lastSector, newSector, totalTicks);
      var (seek, rotate) := TimeToSeek(lastSector, newSector, totalTicks);
      if seek != 0 { bufferInit := totalTicks + seek + rotate; }
      lastSector := newSector;
    }

    /** Reads a sector at once, and returns it with the delay for which the interrupt is to be scheduled. */
    method ReadRequest(sectorNumber: SectorNumber, totalTicks: nat) returns (data: Sector, ticks: int)
      requires Valid() && !active && doneAt <= totalTicks
      modifies this
      ensures Valid() && active && doneAt == totalTicks + ticks && file == old(file) && lastSector == sectorNumber
      ensures data == file[sectorNumber]
      ensures ROTATION_TIME <= ticks < MAX_LATENCY
      ensures
        if sectorNumber / 32 == old(lastSector) / 32 && Passed(sectorNumber, old(bufferInit), totalTicks)
        then ticks == 500
        else FirstUnderHead(sectorNumber, totalTicks + 500 * TracksApart(old(lastSector), sectorNumber), doneAt - 500)
      ensures sectorNumber / 32 == old(lastSector) / 32 ==> bufferInit == old(bufferInit)
    {
      ticks := ComputeLatency(lastSector, bufferInit, sectorNumber, false, totalTicks);
      LatencyBounds(lastSector, bufferInit, sectorNumber, false, totalTicks);
      if sectorNumber / SECTORS_PER_TRACK == lastSector / SECTORS_PER_TRACK {
        HitMeansPassed(lastSector, bufferInit, sectorNumber, totalTicks);
      }
      if !BufferHit(lastSector, bufferInit, sectorNumber, totalTicks) {
        TransferStartsUnderHead(lastSector, bufferInit, sectorNumber, false, totalTicks);
      }
      data := file[sectorNumber];
      active := true;
      doneAt := totalTicks + ticks;
      UpdateLast(sectorNumber, totalTicks);
    }

    method WriteRequest(sectorNumber: SectorNumber, data: Sector, totalTicks: nat) returns (ticks: int)
      requires Valid() && !active && doneAt <= totalTicks
      modifies this
      ensures Valid() && active && doneAt == totalTicks + ticks && lastSector == sectorNumber
      ensures file == old(file)[sectorNumber := data]
      ensures ROTATION_TIME <= ticks < MAX_LATENCY
      ensures FirstUnderHead(sectorNumber, totalTicks + 500 * TracksApart(old(lastSector), sectorNumber), doneAt - 500)
      ensures sectorNumber / 32 == old(lastSector) / 32 ==> bufferInit == old(bufferInit)
    {
      ticks := ComputeLatency(lastSector, bufferInit, sectorNumber, true, totalTicks);
      LatencyBounds(lastSector, bufferInit, sectorNumber, true, totalTicks);
      TransferStartsUnderHead(lastSector, bufferInit, sectorNumber, true, totalTicks);
      file := file[sectorNumber := data];
      active := true;
      doneAt := totalTicks + ticks;
      UpdateLast(sectorNumber, totalTicks);
    }

    /** The interrupt, which comes no earlier than scheduled; the kernel's handler is then called. */
    method HandleInterrupt(totalTicks: nat)
      requires Valid() && active && doneAt <= totalTicks
      modifies `active
      ensures Valid() && !active
    {
      active := false;
    }
  }
}
