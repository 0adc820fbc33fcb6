/**
 The file header (the i-node): the length of a file and the sectors that hold its data, in
 exactly one disk sector.
 */
module FileHeaders {
  import opened Bytes
  import opened Sectors
  import opened BitMaps

  /** A header sector holds two counts of four bytes and then sector numbers of four bytes: (128 - 8) / 4. */
  const NUM_DIRECT: nat := 30
  /** 30 sectors of 128 bytes. */
  const MAX_FILE_SIZE: nat := 3840

  /** The value of a header, in memory or parsed from a sector. */
  datatype Header = Header(numBytes: Int32, numSectors: Int32, dataSectors: seq<Int32>)

  function HeaderBytes(h: Header): (s: Sector)
    requires |h.dataSectors| == NUM_DIRECT
  {
    EncodeInts([h.numBytes, h.numSectors] + h.dataSectors)
  }

  function ParseHeader(s: Sector): (h: Header)
    ensures |h.dataSectors| == NUM_DIRECT
  {
    var ints := DecodeInts(s);
    Header(ints[0], ints[1], ints[2..])
  }

  lemma HeaderRoundTrip(h: Header)
    requires |h.dataSectors| == NUM_DIRECT
    ensures ParseHeader(HeaderBytes(h)) == h
  {
    IntsRoundTrip([h.numBytes, h.numSectors] + h.dataSectors);
  }

  /** A header whose length fits its sectors and whose sectors are distinct disk sectors. */
  ghost predicate WellFormed(h: Header) {
    && |h.dataSectors| == NUM_DIRECT
    && 0 <= h.numBytes <= MAX_FILE_SIZE
    && h.numSectors == DivRoundUp(h.numBytes, SECTOR_SIZE)
    && (forall i | 0 <= i < h.numSectors :: 0 <= h.dataSectors[i] < NUM_SECTORS)
    && (forall i, j | 0 <= i < j < h.numSectors :: h.dataSectors[i] != h.dataSectors[j])
  }

  ghost function Data(h: Header): set<int>
    requires 0 <= h.numSectors <= |h.dataSectors|
  {
    set i | 0 <= i < h.numSectors :: h.dataSectors[i]
  }

  /** The byte at offset p of the data sectors of h. */
  ghost function RawByte(d: Image, h: Header, p: nat): Byte
    requires WellFormed(h) && p < h.numSectors * SECTOR_SIZE
  {
    d[h.dataSectors[p / SECTOR_SIZE]][p % SECTOR_SIZE]
  }

  /** The bytes of the file; what lies past numBytes in the last sector is not part of it. */
  ghost function Contents(d: Image, h: Header): (c: seq<Byte>)
    requires WellFormed(h)
    ensures |c| == h.numBytes
  {
    seq(h.numBytes, p requires 0 <= p < h.numBytes => RawByte(d, h, p))
  }

  /** Some sectors, one after another. */
  ghost function Joined(d: Image, sectors: seq<Int32>): (b: seq<Byte>)
    requires forall i | 0 <= i < |sectors| :: 0 <= sectors[i] < NUM_SECTORS
    ensures |b| == SECTOR_SIZE * |sectors|
  {
    if sectors == [] then [] else Joined(d, sectors[..|sectors| - 1]) + d[sectors[|sectors| - 1]]
  }

  lemma {:induction false} JoinedByte(d: Image, sectors: seq<Int32>, p: nat)
    requires forall i | 0 <= i < |sectors| :: 0 <= sectors[i] < NUM_SECTORS
    requires p < SECTOR_SIZE * |sectors|
    ensures Joined(d, sectors)[p] == d[sectors[p / SECTOR_SIZE]][p % SECTOR_SIZE]
  {
    var n := |sectors| - 1;
    if p < SECTOR_SIZE * n { JoinedByte(d, sectors[..n], p); }
  }

  /** The contents are the data sectors in the order of the header's table, joined and cut to the length. */
  lemma ContentsJoined(d: Image, h: Header)
    requires WellFormed(h)
    ensures h.numBytes <= SECTOR_SIZE * h.numSectors < h.numBytes + SECTOR_SIZE
    ensures Contents(d, h) == Joined(d, h.dataSectors[..h.numSectors])[..h.numBytes]
  {
    forall p | 0 <= p < h.numBytes ensures RawByte(d, h, p) == Joined(d, h.dataSectors[..h.numSectors])[p] {
      JoinedByte(d, h.dataSectors[..h.numSectors], p);
    }
  }

  /** Where the fields lie in a header's sector, each with its low byte first; and the limits that follow. */
  lemma HeaderLayout(h: Header, i: nat)
    requires |h.dataSectors| == NUM_DIRECT && i < NUM_DIRECT
    ensures NUM_DIRECT == (SECTOR_SIZE - 2 * 4) / 4 && MAX_FILE_SIZE == NUM_DIRECT * SECTOR_SIZE
    ensures HeaderBytes(h)[0..4] == IntBytes(h.numBytes) && HeaderBytes(h)[4..8] == IntBytes(h.numSectors)
    ensures HeaderBytes(h)[8 + 4 * i..12 + 4 * i] == IntBytes(h.dataSectors[i])
  {
    var ints := [h.numBytes, h.numSectors] + h.dataSectors;
    EncodedInt(ints, 0);
    EncodedInt(ints, 1);
    EncodedInt(ints, 2 + i);
  }

  lemma ContentsFrame(d: Image, d': Image, h: Header)
    requires WellFormed(h)
    requires forall s | s in Data(h) :: d'[s] == d[s]
    ensures Contents(d', h) == Contents(d, h)
  {
    forall p | 0 <= p < h.numBytes ensures RawByte(d', h, p) == RawByte(d, h, p) {
      assert h.dataSectors[p / SECTOR_SIZE] in Data(h);
    }
  }

  /** ds are the lowest clear bits of before, in order, and after has just them marked in addition. */
  ghost predicate Granted(before: seq<bool>, ds: seq<int>, after: seq<bool>)
    requires |after| == |before|
  {
    && (forall i | 0 <= i < |ds| :: 0 <= ds[i] < |before| && !before[ds[i]] && after[ds[i]])
    && (forall i, j | 0 <= i < j < |ds| :: ds[i] < ds[j])
    && (forall s | 0 <= s < |before| && before[s] :: after[s])
    && (forall s | 0 <= s < |before| && after[s] && !before[s] :: s in ds)
    && (forall s, i | 0 <= i < |ds| && 0 <= s < ds[i] :: after[s])
  }

  lemma GrantedData(before: seq<bool>, h: Header, after: seq<bool>, s: int)
    requires |before| == |after| == NUM_SECTORS && WellFormed(h)
    requires Granted(before, h.dataSectors[..h.numSectors], after)
    ensures s in Data(h) ==> 0 <= s < NUM_SECTORS && !before[s]
    ensures 0 <= s < NUM_SECTORS ==> (after[s] <==> before[s] || s in Data(h))
  {
    var ds := h.dataSectors[..h.numSectors];
    if s in Data(h) {
      var i :| 0 <= i < h.numSectors && h.dataSectors[i] == s;
      assert ds[i] == s;
    }
    if 0 <= s < NUM_SECTORS && s in ds {
      var i :| 0 <= i < |ds| && ds[i] == s;
      assert h.dataSectors[i] == s;
    }
  }

  /** The sectors that n calls of Find grant, in order. */
  function Claimed(bits: seq<bool>, n: nat): (ds: seq<int>)
    ensures |ds| == n
    decreases n, 0
  {
    if n == 0 then [] else Claimed(bits, n - 1) + [FirstClear(AfterClaims(bits, n - 1))]
  }

  /** The map after n calls of Find. */
  function AfterClaims(bits: seq<bool>, n: nat): (marked: seq<bool>)
    ensures |marked| == |bits|
    decreases n, 1
  {
    if n == 0 then bits
    else
      var marked := AfterClaims(bits, n - 1);
      var s := FirstClear(marked);
      if s == -1 then marked else marked[s := true]
  }

  /** As long as bits are clear, every call of Find grants one. */
  lemma {:induction false} ClaimsCount(bits: seq<bool>, n: nat)
    requires n <= CountClear(bits)
    ensures CountClear(AfterClaims(bits, n)) == CountClear(bits) - n
    ensures n > 0 ==> var s := FirstClear(AfterClaims(bits, n - 1));
                      && s >= 0 && Claimed(bits, n)[n - 1] == s
                      && AfterClaims(bits, n) == AfterClaims(bits, n - 1)[s := true]
  {
    if n > 0 {
      var marked := AfterClaims(bits, n - 1);
      ClaimsCount(bits, n - 1);
      FirstClearMeans(marked);
      if FirstClear(marked) == -1 {
        CountClearZero(marked);
      } else {
        CountClearMark(marked, FirstClear(marked));
      }
    }
  }

  lemma GrantedStep(before: seq<bool>, ds: seq<int>, marked: seq<bool>, s: int)
    requires |marked| == |before| && Granted(before, ds, marked)
    requires 0 <= s < |marked| && !marked[s]
    requires forall i | 0 <= i < s :: marked[i]
    ensures Granted(before, ds + [s], marked[s := true])
  {
    forall i | 0 <= i < |ds| ensures ds[i] < s {
      assert marked[ds[i]];
    }
  }

  lemma {:induction false} ClaimGrants(before: seq<bool>, n: nat)
    requires n <= CountClear(before)
    ensures Granted(before, Claimed(before, n), AfterClaims(before, n))
  {
    if n > 0 {
      var marked := AfterClaims(before, n - 1);
      ClaimGrants(before, n - 1);
      ClaimsCount(before, n);
      FirstClearMeans(marked);
      GrantedStep(before, Claimed(before, n - 1), marked, FirstClear(marked));
    }
  }

  class FileHeader {
    var numBytes: Int32
    var numSectors: Int32
    const dataSectors: array<Int32>

    ghost predicate Valid() {
      dataSectors.Length == NUM_DIRECT
    }

    function View(): (h: Header)
      reads this, dataSectors
    {
      Header(numBytes, numSectors, dataSectors[..])
    }

    constructor ()
      ensures Valid() && fresh(dataSectors)
    {
      dataSectors := new Int32[NUM_DIRECT];
    }

    /** Fails, and leaves the map alone, when fewer bits are clear than sectors are needed. */
    method Allocate(freeMap: BitMap, fileSize: Int32) returns (ok: bool)
      requires Valid() && freeMap.Valid()
      requires 0 <= fileSize <= MAX_FILE_SIZE
      requires freeMap.numBits <= NUM_SECTORS
      modifies this, dataSectors, freeMap.words
      ensures ok <==> CountClear(old(freeMap.Marked())) >= DivRoundUp(fileSize, SECTOR_SIZE)
      ensures !ok ==> freeMap.Marked() == old(freeMap.Marked())
      ensures ok ==> numBytes == fileSize && WellFormed(View())
                     && Granted(old(freeMap.Marked()), dataSectors[..numSectors], freeMap.Marked())
    {
      numBytes := fileSize;
      numSectors := DivRoundUp(fileSize, SECTOR_SIZE);
      var clear := freeMap.NumClear();
      if clear < numSectors {
        return false;
      }
      ClaimSectors(freeMap);
      ClaimGrants(old(freeMap.Marked()), numSectors);
      assert forall i | 0 <= i < numSectors :: dataSectors[i] == dataSectors[..numSectors][i];
      return true;
    }

    /** The loop of Allocate. */
    method ClaimSectors(freeMap: BitMap)
      requires Valid() && freeMap.Valid()
      requires 0 <= numSectors <= NUM_DIRECT && numSectors <= CountClear(freeMap.Marked())
      requires freeMap.numBits <= NUM_SECTORS
      modifies dataSectors, freeMap.words
      ensures dataSectors[..numSectors] == Claimed(old(freeMap.Marked()), numSectors)
      ensures freeMap.Marked() == AfterClaims(old(freeMap.Marked()), numSectors)
    {
      ghost var before := freeMap.Marked();
      var i := 0;
      while i < numSectors
        invariant 0 <= i <= numSectors
        invariant dataSectors[..i] == Claimed(before, i)
        invariant freeMap.Marked() == AfterClaims(before, i)
      {
        ClaimsCount(before, i + 1);
        ghost var granted := dataSectors[..i];
        dataSectors[i] := freeMap.Find();
        assert dataSectors[..i] == granted;
        assert dataSectors[..i + 1] == granted + [dataSectors[i]];
        i := i + 1;
      }
    }

    /** Clears the bit of every data sector. Each must be marked: the source asserts it as it goes. */
    method Deallocate(freeMap: BitMap)
      requires Valid() && freeMap.Valid() && WellFormed(View())
      requires freeMap.numBits == NUM_SECTORS
      requires forall s | s in Data(View()) :: freeMap.Marked()[s]
      modifies freeMap.words
      ensures View() == old(View())
      ensures forall s | 0 <= s < NUM_SECTORS ::
                freeMap.Marked()[s] <==> old(freeMap.Marked())[s] && s !in Data(View())
    {
      ghost var before := freeMap.Marked();
      var i := 0;
      while i < numSectors
        invariant 0 <= i <= numSectors
        invariant View() == old(View())
        invariant forall s | 0 <= s < NUM_SECTORS ::
                    freeMap.Marked()[s] <==> before[s] && s !in dataSectors[..i]
      {
        assert dataSectors[i] in Data(View());
        var marked := freeMap.Test(dataSectors[i]);
        assert marked;
        freeMap.Clear(dataSectors[i]);
        assert dataSectors[..i + 1] == dataSectors[..i] + [dataSectors[i]];
        i := i + 1;
      }
      forall s | 0 <= s < NUM_SECTORS ensures s in Data(View()) <==> s in dataSectors[..i] {
      }
    }

    /** Initialises the header from a sector. */
    method FetchFrom(disk: SynchDisk, sector: int)
      requires Valid() && 0 <= sector < NUM_SECTORS
      modifies this, dataSectors
      ensures View() == ParseHeader(disk.sectors[sector])
    {
      var buffer := new Byte[SECTOR_SIZE];
      disk.ReadSector(sector, buffer, 0);
      assert buffer[..] == disk.sectors[sector];
      var h := ParseHeader(buffer[..]);
      numBytes, numSectors := h.numBytes, h.numSectors;
      forall i | 0 <= i < NUM_DIRECT {
        dataSectors[i] := h.dataSectors[i];
      }
      assert dataSectors[..] == h.dataSectors;
    }

    /** Stores the header in a sector, from where FetchFrom recovers it. */
    method WriteBack(disk: SynchDisk, sector: int)
      requires Valid() && 0 <= sector < NUM_SECTORS
      requires disk != this as object
      modifies disk
      ensures disk.sectors == old(disk.sectors)[sector := disk.sectors[sector]]
      ensures ParseHeader(disk.sectors[sector]) == View()
    {
      var image := HeaderBytes(View());
      var buffer := new Byte[SECTOR_SIZE](i requires 0 <= i < SECTOR_SIZE => image[i]);
      assert buffer[..] == image;
      disk.WriteSector(sector, buffer, 0);
      assert buffer[0..SECTOR_SIZE] == image;
      HeaderRoundTrip(View());
    }

    /** The sector that stores the byte at an offset. */
    function ByteToSector(offset: nat): (s: Int32)
      requires Valid() && offset < MAX_FILE_SIZE
      reads this, dataSectors
      ensures WellFormed(View()) && offset < numBytes ==> s in Data(View())
    {
      dataSectors[offset / SECTOR_SIZE]
    }

    function FileLength(): Int32
      reads this
    {
      numBytes
    }
  }
}
