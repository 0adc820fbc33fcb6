/**
 Byte access to a file that can only be moved a whole sector at a time: requests are staged
 through a buffer of whole sectors.
 */
module OpenFiles {
  import opened Bytes
  import opened Sectors
  import opened FileHeaders

  /** How many of n requested bytes at a position lie inside a file of the given length. */
  function Transferred(n: int, position: nat, length: nat): (r: nat) {
    if n <= 0 || position >= length then 0
    else if position + n > length then length - position
    else n
  }

  /** The n bytes of c from a position on. */
  function Window(c: seq<Byte>, position: nat, n: nat): (w: seq<Byte>)
    requires n > 0 ==> position + n <= |c|
    ensures |w| == n
  {
    if n == 0 then [] else c[position..position + n]
  }

  /** What a read of n bytes at a position gets of c. */
  function Portion(c: seq<Byte>, position: nat, n: int): seq<Byte> {
    Window(c, position, Transferred(n, position, |c|))
  }

  /** c after a write of bytes at a position: what lies beyond its end is not written. */
  function Patched(c: seq<Byte>, position: nat, bytes: seq<Byte>): (r: seq<Byte>)
    ensures |r| == |c|
  {
    Overlay(c, position, bytes[..Transferred(|bytes|, position, |c|)])
  }

  /** An overlay that fits replaces one slice. */
  lemma OverlaySlices(c: seq<Byte>, position: nat, bytes: seq<Byte>)
    requires position + |bytes| <= |c|
    ensures Overlay(c, position, bytes) == c[..position] + bytes + c[position + |bytes|..]
    ensures Overlay(c, position, bytes)[position..position + |bytes|] == bytes
  {
  }

  /** A read gets what was asked for, or what is left of the file. */
  lemma PortionMeans(c: seq<Byte>, position: nat, n: int)
    ensures n <= 0 || position >= |c| ==> Portion(c, position, n) == []
    ensures n > 0 && position < |c| ==>
      Portion(c, position, n) == if n <= |c| - position then c[position..position + n] else c[position..]
  {
  }

  /** A write replaces as many bytes as it has, or as are left of the file. */
  lemma PatchedMeans(c: seq<Byte>, position: nat, bytes: seq<Byte>)
    ensures position >= |c| ==> Patched(c, position, bytes) == c
    ensures position < |c| ==>
      var n := if |bytes| <= |c| - position then |bytes| else |c| - position;
      Patched(c, position, bytes) == c[..position] + bytes[..n] + c[position + n..]
  {
  }

  /** A byte inside the file lies in one of its sectors. */
  lemma LastSector(h: Header, p: nat)
    requires WellFormed(h) && p < h.numBytes
    ensures p / SECTOR_SIZE < h.numSectors <= NUM_DIRECT
  {
  }

  /** The file's sectors first..i have been read into buf. */
  ghost predicate Loaded(d: Image, h: Header, buf: seq<Byte>, first: nat, i: nat)
    requires WellFormed(h) && i <= h.numSectors
  {
    forall j | first <= j < i :: (j + 1 - first) * SECTOR_SIZE <= |buf|
      && buf[(j - first) * SECTOR_SIZE..(j + 1 - first) * SECTOR_SIZE] == d[h.dataSectors[j]]
  }

  lemma LoadStep(d: Image, h: Header, was: seq<Byte>, buf: seq<Byte>, first: nat, i: nat)
    requires WellFormed(h) && first <= i < h.numSectors
    requires Loaded(d, h, was, first, i)
    requires (i + 1 - first) * SECTOR_SIZE <= |was| == |buf|
    requires buf == Overlay(was, (i - first) * SECTOR_SIZE, d[h.dataSectors[i]])
    ensures Loaded(d, h, buf, first, i + 1)
  {
    forall j | first <= j < i + 1
      ensures buf[(j - first) * SECTOR_SIZE..(j + 1 - first) * SECTOR_SIZE] == d[h.dataSectors[j]]
    {
      var lo, hi, end := (j - first) * SECTOR_SIZE, (j + 1 - first) * SECTOR_SIZE, (i - first) * SECTOR_SIZE;
      if j < i {
        assert was[lo..hi] == d[h.dataSectors[j]];
        assert hi <= end;
        assert buf[lo..hi] == was[lo..hi];
      } else {
        assert hi == end + SECTOR_SIZE;
        assert buf[lo..hi] == d[h.dataSectors[i]];
      }
    }
  }

  lemma LoadedByte(d: Image, h: Header, buf: seq<Byte>, first: nat, last: nat, p: nat)
    requires WellFormed(h) && first <= last < h.numSectors
    requires Loaded(d, h, buf, first, last + 1)
    requires first * SECTOR_SIZE <= p < (last + 1) * SECTOR_SIZE
    ensures p - first * SECTOR_SIZE < |buf| && buf[p - first * SECTOR_SIZE] == RawByte(d, h, p)
  {
    var j := p / SECTOR_SIZE;
    var sector := d[h.dataSectors[j]];
    assert buf[(j - first) * SECTOR_SIZE..(j + 1 - first) * SECTOR_SIZE] == sector;
    assert sector[p % SECTOR_SIZE] == buf[p - first * SECTOR_SIZE];
  }

  lemma LoadedWindow(d: Image, h: Header, buf: seq<Byte>, first: nat, last: nat, position: nat, n: nat)
    requires WellFormed(h) && first <= last < h.numSectors
    requires Loaded(d, h, buf, first, last + 1)
    requires 0 < n && position + n <= h.numBytes
    requires first * SECTOR_SIZE <= position && position + n <= (last + 1) * SECTOR_SIZE <= |buf| + first * SECTOR_SIZE
    ensures var at := position - first * SECTOR_SIZE;
      buf[at..at + n] == Window(Contents(d, h), position, n)
  {
    hide RawByte, Loaded;
    var at, c := position - first * SECTOR_SIZE, Contents(d, h);
    var w := buf[at..at + n];
    forall k | 0 <= k < n ensures w[k] == Window(c, position, n)[k] {
      LoadedByte(d, h, buf, first, last, position + k);
      WindowByte(c, position, n, k);
      assert c[position + k] == RawByte(d, h, position + k);
      assert w[k] == buf[at + k];
    }
  }

  /** buf, which starts at sector first of the file, holds the file's bytes of sector j. */
  ghost predicate Fetched(d: Image, h: Header, buf: seq<Byte>, first: nat, j: nat)
    requires WellFormed(h)
  {
    forall k | 0 <= k < |buf| && (j - first) * SECTOR_SIZE <= k < (j + 1 - first) * SECTOR_SIZE ::
      first * SECTOR_SIZE + k < h.numBytes ==> buf[k] == RawByte(d, h, first * SECTOR_SIZE + k)
  }

  lemma FetchedByOverlay(d: Image, h: Header, was: seq<Byte>, buf: seq<Byte>, first: nat, j: nat)
    requires WellFormed(h) && first <= j && j * SECTOR_SIZE < h.numBytes
    requires (j + 1 - first) * SECTOR_SIZE <= |was|
    requires var n := Transferred(SECTOR_SIZE, j * SECTOR_SIZE, h.numBytes);
             buf == Overlay(was, (j - first) * SECTOR_SIZE, Window(Contents(d, h), j * SECTOR_SIZE, n))
    ensures Fetched(d, h, buf, first, j)
    ensures forall i | i != j && Fetched(d, h, was, first, i) :: Fetched(d, h, buf, first, i)
  {
    var at := (j - first) * SECTOR_SIZE;
    forall k: nat | k < |buf| && at <= k < (j + 1 - first) * SECTOR_SIZE && first * SECTOR_SIZE + k < h.numBytes
      ensures buf[k] == RawByte(d, h, first * SECTOR_SIZE + k)
    {
      FetchedByte(d, h, was, buf, first, j, k);
    }
    forall i: nat | i != j && Fetched(d, h, was, first, i) ensures Fetched(d, h, buf, first, i) {
      assert forall k | 0 <= k < |buf| && (i - first) * SECTOR_SIZE <= k < (i + 1 - first) * SECTOR_SIZE ::
          buf[k] == was[k];
    }
  }

  lemma FetchedByte(d: Image, h: Header, was: seq<Byte>, buf: seq<Byte>, first: nat, j: nat, k: nat)
    requires WellFormed(h) && first <= j && j * SECTOR_SIZE < h.numBytes
    requires (j + 1 - first) * SECTOR_SIZE <= |was|
    requires var n := Transferred(SECTOR_SIZE, j * SECTOR_SIZE, h.numBytes);
             buf == Overlay(was, (j - first) * SECTOR_SIZE, Window(Contents(d, h), j * SECTOR_SIZE, n))
    requires (j - first) * SECTOR_SIZE <= k < (j + 1 - first) * SECTOR_SIZE && first * SECTOR_SIZE + k < h.numBytes
    ensures buf[k] == RawByte(d, h, first * SECTOR_SIZE + k)
  {
    hide RawByte, WellFormed;
    var at, position := (j - first) * SECTOR_SIZE, j * SECTOR_SIZE;
    var p, n, c := k - at, Transferred(SECTOR_SIZE, position, h.numBytes), Contents(d, h);
    assert position + p == first * SECTOR_SIZE + k && p < n;
    OverlaidByte(was, at, Window(c, position, n), p);
    WindowByte(c, position, n, p);
  }

  lemma WindowByte(c: seq<Byte>, position: nat, n: nat, p: nat)
    requires position + n <= |c| && p < n
    ensures Window(c, position, n)[p] == c[position + p]
  {
  }

  lemma OverlaidByte(c: seq<Byte>, at: nat, bytes: seq<Byte>, p: nat)
    requires at + p < |c| && p < |bytes|
    ensures Overlay(c, at, bytes)[at + p] == bytes[p]
  {
  }

  /** buf holds, from sector first of the file on, the new bytes of the request and the old bytes around it. */
  ghost predicate Staged(d: Image, h: Header, buf: seq<Byte>, first: nat, position: nat, bytes: seq<Byte>)
    requires WellFormed(h)
  {
    forall k | 0 <= k < |buf| ::
      var p := first * SECTOR_SIZE + k;
      if position <= p < position + |bytes| then buf[k] == bytes[p - position]
      else p < h.numBytes ==> buf[k] == RawByte(d, h, p)
  }

  /** Only the edges of a request that are not aligned need their old bytes. */
  lemma StagedByCopy(d: Image, h: Header, was: seq<Byte>, buf: seq<Byte>, first: nat, last: nat,
                     position: nat, bytes: seq<Byte>)
    requires WellFormed(h) && first <= last < h.numSectors
    requires |was| == |buf| == (last + 1 - first) * SECTOR_SIZE
    requires first * SECTOR_SIZE <= position < (first + 1) * SECTOR_SIZE
    requires last * SECTOR_SIZE < position + |bytes| <= (last + 1) * SECTOR_SIZE
    requires position != first * SECTOR_SIZE ==> Fetched(d, h, was, first, first)
    requires position + |bytes| != (last + 1) * SECTOR_SIZE ==> Fetched(d, h, was, first, last)
    requires buf == Overlay(was, position - first * SECTOR_SIZE, bytes)
    ensures Staged(d, h, buf, first, position, bytes)
  {
  }

  /** The file's sectors first..i have been replaced by the sectors of buf. */
  ghost predicate Flushed(d: Image, d': Image, h: Header, buf: seq<Byte>, first: nat, i: nat)
    requires WellFormed(h) && i <= h.numSectors
  {
    && (forall j | first <= j < i :: (j + 1 - first) * SECTOR_SIZE <= |buf|
          && d'[h.dataSectors[j]] == buf[(j - first) * SECTOR_SIZE..(j + 1 - first) * SECTOR_SIZE])
    && (forall s | 0 <= s < NUM_SECTORS && (forall j | first <= j < i :: h.dataSectors[j] != s) :: d'[s] == d[s])
  }

  lemma FlushStep(d: Image, d': Image, h: Header, buf: seq<Byte>, first: nat, i: nat)
    requires WellFormed(h) && first <= i < h.numSectors
    requires (i + 1 - first) * SECTOR_SIZE <= |buf|
    requires Flushed(d, d', h, buf, first, i)
    ensures Flushed(d, d'[h.dataSectors[i] := buf[(i - first) * SECTOR_SIZE..(i + 1 - first) * SECTOR_SIZE]],
                    h, buf, first, i + 1)
  {
  }

  lemma FlushedByte(d: Image, d': Image, h: Header, buf: seq<Byte>, first: nat, last: nat, p: nat)
    requires WellFormed(h) && first <= last < h.numSectors && p < h.numBytes
    requires |buf| == (last + 1 - first) * SECTOR_SIZE
    requires Flushed(d, d', h, buf, first, last + 1)
    ensures RawByte(d', h, p) ==
      if first * SECTOR_SIZE <= p < (last + 1) * SECTOR_SIZE then buf[p - first * SECTOR_SIZE]
                                 else RawByte(d, h, p)
  {
    var j := p / SECTOR_SIZE;
    if first <= j <= last {
      assert buf[(j - first) * SECTOR_SIZE..(j + 1 - first) * SECTOR_SIZE][p % SECTOR_SIZE]
          == buf[p - first * SECTOR_SIZE];
    } else {
      assert d'[h.dataSectors[j]] == d[h.dataSectors[j]];
    }
  }

  /** Flushing a staged request changes exactly the requested bytes of the file. */
  lemma FlushedContents(d: Image, d': Image, h: Header, buf: seq<Byte>, first: nat, last: nat,
                        position: nat, bytes: seq<Byte>)
    requires WellFormed(h) && first <= last < h.numSectors
    requires |buf| == (last + 1 - first) * SECTOR_SIZE
    requires first * SECTOR_SIZE <= position && position + |bytes| <= (last + 1) * SECTOR_SIZE
    requires Staged(d, h, buf, first, position, bytes)
    requires Flushed(d, d', h, buf, first, last + 1)
    ensures Contents(d', h) == Overlay(Contents(d, h), position, bytes)
  {
    forall p | 0 <= p < h.numBytes
      ensures RawByte(d', h, p) == Overlay(Contents(d, h), position, bytes)[p]
    {
      FlushedByte(d, d', h, buf, first, last, p);
      if first * SECTOR_SIZE <= p < (last + 1) * SECTOR_SIZE {
        assert buf[p - first * SECTOR_SIZE] ==
          if position <= p < position + |bytes| then bytes[p - position] else RawByte(d, h, p);
      }
    }
  }

  lemma FlushedFrame(d: Image, d': Image, h: Header, buf: seq<Byte>, first: nat, i: nat)
    requires WellFormed(h) && i <= h.numSectors
    requires Flushed(d, d', h, buf, first, i)
    ensures forall s | 0 <= s < NUM_SECTORS && s !in Data(h) :: d'[s] == d[s]
  {
    forall s | 0 <= s < NUM_SECTORS && s !in Data(h) ensures d'[s] == d[s] {
      forall j | first <= j < i ensures h.dataSectors[j] != s {
        assert h.dataSectors[j] in Data(h);
      }
    }
  }

  class OpenFile {
    const disk: SynchDisk
    const hdr: FileHeader
    var seekPosition: int

    ghost predicate Valid()
      reads hdr, hdr.dataSectors
    {
      hdr.Valid() && WellFormed(hdr.View())
    }

    /** The bytes of the file, as they are on the disk now. */
    ghost function Stored(): (c: seq<Byte>)
      requires Valid()
      reads hdr, hdr.dataSectors, disk
      ensures |c| == hdr.numBytes
    {
      Contents(disk.sectors, hdr.View())
    }

    lemma StoredMeans()
      requires Valid()
      ensures WellFormed(hdr.View()) && Stored() == Contents(disk.sectors, hdr.View())
    {
    }

    lemma ShortFile()
      requires Valid()
      ensures |Stored()| == hdr.numBytes <= MAX_FILE_SIZE
    {
    }

    /** Brings the header into memory. */
    constructor (disk: SynchDisk, sector: int)
      requires 0 <= sector < NUM_SECTORS
      ensures this.disk == disk && seekPosition == 0
      ensures fresh(hdr) && hdr.Valid() && fresh(hdr.dataSectors)
      ensures hdr.View() == ParseHeader(disk.sectors[sector])
    {
      this.disk := disk;
      var h := new FileHeader();
      h.FetchFrom(disk, sector);
      hdr := h;
      seekPosition := 0;
    }

    /** The loop that reads the sectors of a request into a buffer. */
    method ReadSectors(buf: array<Byte>, firstSector: nat, lastSector: nat)
      requires Valid() && firstSector <= lastSector < hdr.numSectors
      requires buf.Length == (1 + lastSector - firstSector) * SECTOR_SIZE
      requires buf != hdr.dataSectors as object
      modifies buf
      ensures hdr.View() == old(hdr.View())
      ensures Loaded(disk.sectors, hdr.View(), buf[..], firstSector, lastSector + 1)
    {
      ghost var h := hdr.View();
      var i := firstSector;
      while i <= lastSector
        invariant firstSector <= i <= lastSector + 1
        invariant hdr.View() == h
        invariant Loaded(disk.sectors, h, buf[..], firstSector, i)
      {
        ghost var was := buf[..];
        disk.ReadSector(hdr.ByteToSector(i * SECTOR_SIZE), buf, (i - firstSector) * SECTOR_SIZE);
        LoadStep(disk.sectors, h, was, buf[..], firstSector, i);
        i := i + 1;
      }
    }

    method WriteFrom(buf: array<Byte>, firstSector: nat, i: nat)
      requires Valid() && firstSector <= i < hdr.numSectors
      requires (i + 1 - firstSector) * SECTOR_SIZE <= buf.Length
      modifies disk
      ensures disk.sectors == old(disk.sectors)[hdr.dataSectors[i] :=
          buf[..][(i - firstSector) * SECTOR_SIZE..(i + 1 - firstSector) * SECTOR_SIZE]]
    {
      disk.WriteSector(hdr.ByteToSector(i * SECTOR_SIZE), buf, (i - firstSector) * SECTOR_SIZE);
    }

    /** The loop that writes the sectors of a request from a buffer. */
    method WriteSectors(buf: array<Byte>, firstSector: nat, lastSector: nat)
      requires Valid() && firstSector <= lastSector < hdr.numSectors
      requires buf.Length == (1 + lastSector - firstSector) * SECTOR_SIZE
      modifies disk
      ensures hdr.View() == old(hdr.View()) && buf[..] == old(buf[..])
      ensures Flushed(old(disk.sectors), disk.sectors, hdr.View(), buf[..], firstSector, lastSector + 1)
    {
      ghost var h := hdr.View();
      var i := firstSector;
      while i <= lastSector
        invariant firstSector <= i <= lastSector + 1
        invariant hdr.View() == h && buf[..] == old(buf[..])
        invariant Flushed(old(disk.sectors), disk.sectors, h, buf[..], firstSector, i)
      {
        FlushStep(old(disk.sectors), disk.sectors, h, buf[..], firstSector, i);
        WriteFrom(buf, firstSector, i);
        i := i + 1;
      }
    }

    method Seek(position: int)
      modifies this
      ensures seekPosition == position
    {
      seekPosition := position;
    }

    method Read(into: array<Byte>, numBytes: int) returns (result: nat)
      requires Valid() && 0 <= seekPosition && seekPosition + numBytes <= INT_MAX
      requires Transferred(numBytes, seekPosition, hdr.numBytes) <= into.Length
      requires into != hdr.dataSectors as object
      modifies this, into
      ensures result == Transferred(numBytes, old(seekPosition), hdr.numBytes)
      ensures into[..] == Overlay(old(into[..]), 0, Window(Stored(), old(seekPosition), result))
      ensures seekPosition == old(seekPosition) + result
      ensures var position := old(seekPosition);
        && (numBytes > 0 && position < hdr.numBytes ==>
              result == if numBytes <= hdr.numBytes - position then numBytes else hdr.numBytes - position)
        && (numBytes <= 0 || position >= hdr.numBytes ==> result == 0)
        && (result > 0 ==> into[..result] == Stored()[position..position + result])
    {
      result := ReadAt(into, 0, numBytes, seekPosition);
      seekPosition := seekPosition + result;
    }

    method Write(from: array<Byte>, numBytes: int) returns (result: nat)
      requires Valid() && 0 <= seekPosition && seekPosition + numBytes <= INT_MAX
      requires Transferred(numBytes, seekPosition, hdr.numBytes) <= from.Length
      modifies this, disk
      ensures Valid() && hdr.View() == old(hdr.View())
      ensures result == Transferred(numBytes, old(seekPosition), hdr.numBytes)
      ensures Stored() == Overlay(old(Stored()), old(seekPosition), from[..result])
      ensures forall s | 0 <= s < NUM_SECTORS && s !in Data(hdr.View()) :: disk.sectors[s] == old(disk.sectors)[s]
      ensures seekPosition == old(seekPosition) + result
      ensures var position := old(seekPosition);
        && (numBytes > 0 && position < hdr.numBytes ==>
              result == if numBytes <= hdr.numBytes - position then numBytes else hdr.numBytes - position)
        && (numBytes <= 0 || position >= hdr.numBytes ==> result == 0)
        && (result == 0 ==> Stored() == old(Stored()))
        && (result > 0 ==>
              Stored() == old(Stored())[..position] + from[..result] + old(Stored())[position + result..])
    {
      result := WriteAt(from, numBytes, seekPosition);
      seekPosition := seekPosition + result;
    }

    /** Reads every full or partial sector of a request that lies in the file, and copies out the part asked for. */
    method ReadSome(into: array<Byte>, start: nat, count: nat, position: nat)
      requires Valid() && 0 < count && position + count <= hdr.numBytes && start + count <= into.Length
      requires into != hdr.dataSectors as object
      modifies into
      ensures Valid() && hdr.View() == old(hdr.View())
      ensures into[..] == Overlay(old(into[..]), start, Window(Stored(), position, count))
    {
      hide Overlay, Window, Contents;
      var firstSector := position / SECTOR_SIZE;
      var lastSector := (position + count - 1) / SECTOR_SIZE;
      var buf := new Byte[(1 + lastSector - firstSector) * SECTOR_SIZE];
      ghost var h := hdr.View();
      LastSector(h, position + count - 1);

      ReadSectors(buf, firstSector, lastSector);
      LoadedWindow(disk.sectors, h, buf[..], firstSector, lastSector, position, count);
      var offset := position - firstSector * SECTOR_SIZE;
      assert buf[..][offset..offset + count] == buf[offset..offset + count];
      BCopy(buf, offset, into, start, count);
    }

    /** Reads as many of the bytes asked for as lie in the file. */
    method ReadAt(into: array<Byte>, start: nat, numBytes: int, position: nat) returns (result: nat)
      requires Valid() && position + numBytes <= INT_MAX
      requires start + Transferred(numBytes, position, hdr.numBytes) <= into.Length
      requires into != hdr.dataSectors as object
      modifies into
      ensures Valid() && hdr.View() == old(hdr.View())
      ensures result == Transferred(numBytes, position, hdr.numBytes)
      ensures into[..] == Overlay(old(into[..]), start, Window(Stored(), position, result))
      ensures numBytes > 0 && position < hdr.numBytes ==>
                result == if numBytes <= hdr.numBytes - position then numBytes else hdr.numBytes - position
      ensures numBytes <= 0 || position >= hdr.numBytes ==> result == 0
      ensures result > 0 ==> into[start..start + result] == Stored()[position..position + result]
    {
      var fileLength := hdr.FileLength();
      if numBytes <= 0 || position >= fileLength {
        assert into[..] == Overlay(old(into[..]), start, []);
        return 0;
      }
      result := if position + numBytes > fileLength then fileLength - position else numBytes;
      ReadSome(into, start, result, position);
      hide Overlay, WellFormed, Contents;
      OverlaySlices(old(into[..]), start, Window(Stored(), position, result));
    }

    /** Reads one sector of the file into its place in a buffer that starts at sector firstSector. */
    method FetchSector(buf: array<Byte>, firstSector: nat, j: nat)
      requires Valid() && firstSector <= j && j * SECTOR_SIZE < hdr.numBytes
      requires (j + 1 - firstSector) * SECTOR_SIZE <= buf.Length && buf != hdr.dataSectors as object
      modifies buf
      ensures Valid() && hdr.View() == old(hdr.View())
      ensures Fetched(disk.sectors, hdr.View(), buf[..], firstSector, j)
      ensures forall i | i != j && Fetched(disk.sectors, hdr.View(), old(buf[..]), firstSector, i) ::
                Fetched(disk.sectors, hdr.View(), buf[..], firstSector, i)
    {
      ghost var was := buf[..];
      var _ := ReadAt(buf, (j - firstSector) * SECTOR_SIZE, SECTOR_SIZE, j * SECTOR_SIZE);
      FetchedByOverlay(disk.sectors, hdr.View(), was, buf[..], firstSector, j);
    }

    /** Fills buf with the sectors of a request: reads those that change only in part, then copies in the new bytes. */
    method Stage(from: array<Byte>, count: nat, position: nat, buf: array<Byte>, firstSector: nat, lastSector: nat)
      requires Valid() && 0 < count <= from.Length && position + count <= hdr.numBytes
      requires firstSector * SECTOR_SIZE <= position < (firstSector + 1) * SECTOR_SIZE
      requires lastSector * SECTOR_SIZE < position + count <= (lastSector + 1) * SECTOR_SIZE
      requires firstSector <= lastSector
      requires lastSector < hdr.numSectors && buf.Length == (1 + lastSector - firstSector) * SECTOR_SIZE
      requires buf != from && buf != hdr.dataSectors as object
      modifies buf
      ensures hdr.View() == old(hdr.View())
      ensures Staged(disk.sectors, hdr.View(), buf[..], firstSector, position, from[..count])
    {
      var firstAligned := position == firstSector * SECTOR_SIZE;
      var lastAligned := position + count == (lastSector + 1) * SECTOR_SIZE;
      ghost var h := hdr.View();
      if !firstAligned {
        FetchSector(buf, firstSector, firstSector);
      }
      if !lastAligned && (firstSector != lastSector || firstAligned) {
        FetchSector(buf, firstSector, lastSector);
      }
      ghost var fetched := buf[..];
      BCopy(from, 0, buf, position - firstSector * SECTOR_SIZE, count);
      assert from[..count] == from[0..0 + count];
      StagedByCopy(disk.sectors, h, fetched, buf[..], firstSector, lastSector, position, from[..count]);
    }

    /** Reads the sectors it will change only in part, patches them, and writes every sector of such a request. */
    method WriteSome(from: array<Byte>, count: nat, position: nat)
      requires Valid() && 0 < count <= from.Length && position + count <= hdr.numBytes
      modifies disk
      ensures Valid() && hdr.View() == old(hdr.View())
      ensures Stored() == Overlay(old(Stored()), position, from[..count])
      ensures forall s | 0 <= s < NUM_SECTORS && s !in Data(hdr.View()) :: disk.sectors[s] == old(disk.sectors)[s]
    {
      var firstSector := position / SECTOR_SIZE;
      var lastSector := (position + count - 1) / SECTOR_SIZE;
      var buf := new Byte[(1 + lastSector - firstSector) * SECTOR_SIZE];
      ghost var h := hdr.View();
      ghost var before := disk.sectors;
      LastSector(h, position + count - 1);

      Stage(from, count, position, buf, firstSector, lastSector);
      WriteSectors(buf, firstSector, lastSector);
      FlushedContents(before, disk.sectors, h, buf[..], firstSector, lastSector, position, from[..count]);
      FlushedFrame(before, disk.sectors, h, buf[..], firstSector, lastSector + 1);
    }

    /** Writes as many of the bytes given as lie in the file. */
    method WriteAt(from: array<Byte>, numBytes: int, position: nat) returns (result: nat)
      requires Valid() && position + numBytes <= INT_MAX
      requires Transferred(numBytes, position, hdr.numBytes) <= from.Length
      modifies disk
      ensures Valid() && hdr.View() == old(hdr.View())
      ensures result == Transferred(numBytes, position, hdr.numBytes)
      ensures Stored() == Overlay(old(Stored()), position, from[..result])
      ensures forall s | 0 <= s < NUM_SECTORS && s !in Data(hdr.View()) :: disk.sectors[s] == old(disk.sectors)[s]
      ensures numBytes > 0 && position < hdr.numBytes ==>
                result == if numBytes <= hdr.numBytes - position then numBytes else hdr.numBytes - position
      ensures numBytes <= 0 || position >= hdr.numBytes ==> result == 0
      ensures result > 0 ==>
                Stored() == old(Stored())[..position] + from[..result] + old(Stored())[position + result..]
      ensures result == 0 ==> Stored() == old(Stored())
    {
      var fileLength := hdr.FileLength();
      if numBytes <= 0 || position >= fileLength {
        return 0;
      }
      result := if position + numBytes > fileLength then fileLength - position else numBytes;
      WriteSome(from, result, position);
      hide Overlay, WellFormed, Contents;
      OverlaySlices(old(Stored()), position, from[..result]);
    }

    /** ReadAt and Read into a buffer of their own: the portion of the file that they get. */
    method GetAt(numBytes: int, position: nat) returns (bytes: seq<Byte>)
      requires Valid() && position + numBytes <= INT_MAX
      ensures bytes == Portion(Stored(), position, numBytes)
    {
      var into := new Byte[if numBytes < 0 then 0 else numBytes];
      var result := ReadAt(into, 0, numBytes, position);
      bytes := into[..result];
    }

    method Get(numBytes: int) returns (bytes: seq<Byte>)
      requires Valid() && 0 <= seekPosition && seekPosition + numBytes <= INT_MAX
      modifies this
      ensures bytes == Portion(Stored(), old(seekPosition), numBytes)
      ensures seekPosition == old(seekPosition) + |bytes|
    {
      var into := new Byte[if numBytes < 0 then 0 else numBytes];
      var result := Read(into, numBytes);
      bytes := into[..result];
    }

    /** Write of the bytes of a sequence: as many of them as lie inside the file. */
    method Put(bytes: seq<Byte>) returns (result: nat)
      requires Valid() && 0 <= seekPosition && seekPosition + |bytes| <= INT_MAX
      modifies this, disk
      ensures Valid() && hdr.View() == old(hdr.View())
      ensures result == Transferred(|bytes|, old(seekPosition), hdr.numBytes) <= |bytes|
      ensures Stored() == Overlay(old(Stored()), old(seekPosition), bytes[..result])
      ensures forall s | 0 <= s < NUM_SECTORS && s !in Data(hdr.View()) :: disk.sectors[s] == old(disk.sectors)[s]
      ensures seekPosition == old(seekPosition) + result
    {
      var from := new Byte[|bytes|](i requires 0 <= i < |bytes| => bytes[i]);
      assert from[..] == bytes;
      result := Write(from, |bytes|);
      assert from[..result] == bytes[..result];
    }

    /** ReadAt from the start of the file into memory that holds an image: the image overlaid with the file. */
    method ReadOver(image: seq<Byte>) returns (bytes: seq<Byte>)
      requires Valid() && |image| <= INT_MAX
      ensures bytes == Overlay(image, 0, Window(Stored(), 0, Transferred(|image|, 0, hdr.numBytes)))
      ensures hdr.numBytes >= |image| ==> bytes == Stored()[..|image|]
    {
      var buffer := new Byte[|image|](i requires 0 <= i < |image| => image[i]);
      assert buffer[..] == image;
      var _ := ReadAt(buffer, 0, |image|, 0);
      bytes := buffer[..];
    }

    /** WriteAt of an image at the start of the file: as much of it as the file holds. */
    method WriteOver(image: seq<Byte>)
      requires Valid() && |image| <= INT_MAX
      modifies disk
      ensures Valid() && hdr.View() == old(hdr.View())
      ensures Stored() == Overlay(old(Stored()), 0, image[..Transferred(|image|, 0, hdr.numBytes)])
      ensures hdr.numBytes == |image| ==> Stored() == image
      ensures forall s | 0 <= s < NUM_SECTORS && s !in Data(hdr.View()) :: disk.sectors[s] == old(disk.sectors)[s]
    {
      var buffer := new Byte[|image|](i requires 0 <= i < |image| => image[i]);
      assert buffer[..] == image;
      var n := WriteAt(buffer, |image|, 0);
      assert buffer[..n] == image[..n];
    }
  }
}
