/** Formatting: the two system files are laid out on a disk that may hold anything. */
module Formatting {
  import opened Sectors
  import opened BitMaps
  import opened FileHeaders
  import opened OpenFiles
  import opened Directories
  import MapFile
  import opened Volumes
  import opened VolumeDisk
  import opened VolumeSpace

  /** The catalog of an empty volume with the given system headers. */
  ghost function EmptyCatalog(mapHeader: Header, dirHeader: Header, t: seq<Entry>): Catalog
    requires WellFormed(mapHeader) && WellFormed(dirHeader)
  {
    var freeMap := Owner(FREE_MAP_SECTOR, mapHeader, {FREE_MAP_SECTOR as int} + Data(mapHeader));
    var directory := Owner(DIRECTORY_SECTOR, dirHeader, {DIRECTORY_SECTOR as int} + Data(dirHeader));
    Catalog(freeMap.extent + directory.extent, t, map[FREE_MAP := freeMap, DIRECTORY := directory], map[])
  }

  /** The bits set by marking the two header sectors and allocating both system files. */
  ghost predicate Laid(b0: seq<bool>, b1: seq<bool>, b2: seq<bool>, mapHeader: Header, dirHeader: Header) {
    && |b0| == |b1| == |b2| == NUM_SECTORS
    && (forall s | 0 <= s < NUM_SECTORS :: b0[s] <==> s == FREE_MAP_SECTOR || s == DIRECTORY_SECTOR)
    && WellFormed(mapHeader) && Granted(b0, mapHeader.dataSectors[..mapHeader.numSectors], b1)
    && WellFormed(dirHeader) && Granted(b1, dirHeader.dataSectors[..dirHeader.numSectors], b2)
  }

  lemma LaidConsistent(b0: seq<bool>, b1: seq<bool>, b2: seq<bool>, mapHeader: Header, dirHeader: Header, t: seq<Entry>)
    requires Laid(b0, b1, b2, mapHeader, dirHeader)
    requires |t| == NUM_DIR_ENTRIES && forall i | 0 <= i < |t| :: !t[i].inUse
    ensures Consistent(EmptyCatalog(mapHeader, dirHeader, t))
    ensures b2 == MarkedBits(EmptyCatalog(mapHeader, dirHeader, t).marked)
    ensures FREE_MAP_SECTOR !in Data(mapHeader) && DIRECTORY_SECTOR !in Data(dirHeader)
    ensures DIRECTORY_SECTOR !in Data(mapHeader) && FREE_MAP_SECTOR !in Data(dirHeader)
    ensures Data(mapHeader) !! Data(dirHeader)
    ensures forall s | s in EmptyCatalog(mapHeader, dirHeader, t).marked :: 0 <= s < NUM_SECTORS
  {
    var c := EmptyCatalog(mapHeader, dirHeader, t);
    forall s
      ensures s in Data(mapHeader) ==> 0 <= s < NUM_SECTORS && !b0[s]
      ensures s in Data(dirHeader) ==> 0 <= s < NUM_SECTORS && !b1[s]
      ensures 0 <= s < NUM_SECTORS ==> (b1[s] <==> b0[s] || s in Data(mapHeader))
      ensures 0 <= s < NUM_SECTORS ==> (b2[s] <==> b1[s] || s in Data(dirHeader))
    {
      GrantedData(b0, mapHeader, b1, s);
      GrantedData(b1, dirHeader, b2, s);
    }
    forall s ensures s in c.marked <==> Owned(c.owners, s) {
      assert FREE_MAP in c.owners && DIRECTORY in c.owners;
    }
  }

  lemma LaidRoom(b0: seq<bool>, b1: seq<bool>, mapHeader: Header)
    requires |b0| == |b1| == NUM_SECTORS
    requires forall s | 0 <= s < NUM_SECTORS :: b0[s] <==> s == FREE_MAP_SECTOR || s == DIRECTORY_SECTOR
    requires WellFormed(mapHeader) && Granted(b0, mapHeader.dataSectors[..mapHeader.numSectors], b1)
    ensures CountClear(b1) >= NUM_SECTORS - 2 - NUM_DIRECT
  {
    var marked := {FREE_MAP_SECTOR as int, DIRECTORY_SECTOR as int} + Data(mapHeader);
    forall s
      ensures s in Data(mapHeader) ==> 0 <= s < NUM_SECTORS
      ensures 0 <= s < NUM_SECTORS ==> (b1[s] <==> s in marked)
    {
      GrantedData(b0, mapHeader, b1, s);
    }
    DataCount(mapHeader.dataSectors, mapHeader.numSectors);
    ClearCount(b1, marked);
  }

  lemma EmptyDescribed(b0: seq<bool>, b1: seq<bool>, b2: seq<bool>, mapHeader: Header, dirHeader: Header, t: seq<Entry>,
                       d: Image)
    requires Laid(b0, b1, b2, mapHeader, dirHeader)
    requires |t| == NUM_DIR_ENTRIES && forall i | 0 <= i < |t| :: !t[i].inUse
    requires mapHeader.numBytes == FREE_MAP_FILE_SIZE && dirHeader.numBytes == DIRECTORY_FILE_SIZE
    requires ParseHeader(d[FREE_MAP_SECTOR]) == mapHeader && ParseHeader(d[DIRECTORY_SECTOR]) == dirHeader
    requires StoredBits(Contents(d, mapHeader)) == b2
    requires ParseTable(Contents(d, dirHeader)) == t
    ensures Describes(EmptyCatalog(mapHeader, dirHeader, t), d)
    ensures Files(EmptyCatalog(mapHeader, dirHeader, t)) == map[]
  {
    var c := EmptyCatalog(mapHeader, dirHeader, t);
    LaidConsistent(b0, b1, b2, mapHeader, dirHeader, t);
    assert FreeMapOn(d, c.owners[FREE_MAP], c.marked);
    assert TableOn(d, c.owners[DIRECTORY], t);
  }

  /** Reserves the header sectors and allocates the two system files. There is room for them: the asserts hold. */
  method LayOut()
    returns (freeMap: BitMap, mapHdr: FileHeader, dirHdr: FileHeader, ghost b0: seq<bool>, ghost b1: seq<bool>)
    ensures freeMap.Valid() && fresh(freeMap) && fresh(freeMap.words) && freeMap.numBits == NUM_SECTORS
    ensures mapHdr.Valid() && fresh(mapHdr) && fresh(mapHdr.dataSectors)
    ensures dirHdr.Valid() && fresh(dirHdr) && fresh(dirHdr.dataSectors)
    ensures Laid(b0, b1, freeMap.Marked(), mapHdr.View(), dirHdr.View())
    ensures mapHdr.numBytes == FREE_MAP_FILE_SIZE && dirHdr.numBytes == DIRECTORY_FILE_SIZE
  {
    freeMap := new BitMap(NUM_SECTORS);
    mapHdr := new FileHeader();
    dirHdr := new FileHeader();
    freeMap.Mark(FREE_MAP_SECTOR);
    freeMap.Mark(DIRECTORY_SECTOR);
    b0 := freeMap.Marked();
    ClearCount(b0, {FREE_MAP_SECTOR as int, DIRECTORY_SECTOR as int});
    var ok := mapHdr.Allocate(freeMap, FREE_MAP_FILE_SIZE);
    assert ok;
    b1 := freeMap.Marked();
    LaidRoom(b0, b1, mapHdr.View());
    ok := dirHdr.Allocate(freeMap, DIRECTORY_FILE_SIZE);
    assert ok;
  }

  /** Writes the headers of the two system files to their sectors, and opens the files. */
  method OpenSystemFiles(disk: SynchDisk, mapHdr: FileHeader, dirHdr: FileHeader)
    returns (freeMapFile: OpenFile, directoryFile: OpenFile)
    requires mapHdr.Valid() && dirHdr.Valid() && WellFormed(mapHdr.View()) && WellFormed(dirHdr.View())
    modifies disk
    ensures fresh(freeMapFile) && fresh(freeMapFile.hdr) && fresh(freeMapFile.hdr.dataSectors)
    ensures fresh(directoryFile) && fresh(directoryFile.hdr) && fresh(directoryFile.hdr.dataSectors)
    ensures freeMapFile.disk == disk && directoryFile.disk == disk
    ensures freeMapFile.Valid() && directoryFile.Valid()
    ensures freeMapFile.hdr.View() == mapHdr.View() == ParseHeader(disk.sectors[FREE_MAP_SECTOR])
    ensures directoryFile.hdr.View() == dirHdr.View() == ParseHeader(disk.sectors[DIRECTORY_SECTOR])
  {
    mapHdr.WriteBack(disk, FREE_MAP_SECTOR);
    dirHdr.WriteBack(disk, DIRECTORY_SECTOR);
    freeMapFile := new OpenFile(disk, FREE_MAP_SECTOR);
    directoryFile := new OpenFile(disk, DIRECTORY_SECTOR);
  }

  /** Writes both tables to their files, the free map first. */
  method WriteTables(directory: Directory, freeMap: BitMap, directoryFile: OpenFile, freeMapFile: OpenFile)
    requires freeMapFile.disk == directoryFile.disk && freeMapFile.Valid() && directoryFile.Valid()
    requires Data(freeMapFile.hdr.View()) !! Data(directoryFile.hdr.View())
    requires freeMapFile.hdr.numBytes == FREE_MAP_FILE_SIZE && directoryFile.hdr.numBytes == DIRECTORY_FILE_SIZE
    requires directory.Valid() && directory.tableSize == NUM_DIR_ENTRIES
    requires freeMap.Valid() && freeMap.numBits == NUM_SECTORS
    modifies freeMapFile.disk
    ensures StoredBits(Contents(freeMapFile.disk.sectors, freeMapFile.hdr.View())) == freeMap.Marked()
    ensures ParseTable(Contents(freeMapFile.disk.sectors, directoryFile.hdr.View())) == directory.table[..]
    ensures SameOutside(old(freeMapFile.disk.sectors), freeMapFile.disk.sectors,
                        Data(freeMapFile.hdr.View()) + Data(directoryFile.hdr.View()))
  {
    var disk := freeMapFile.disk;
    ghost var d := disk.sectors;
    MapFile.WriteBack(freeMap, freeMapFile);
    ghost var d2 := disk.sectors;
    directory.WriteBack(directoryFile);
    TwoWrites(d, d2, disk.sectors, freeMapFile.hdr.View(), directoryFile.hdr.View());
  }

  /** Lays out an empty directory and a free map, and opens both. */
  method Format(disk: SynchDisk) returns (freeMapFile: OpenFile, directoryFile: OpenFile, ghost c: Catalog)
    modifies disk
    ensures fresh(freeMapFile) && fresh(freeMapFile.hdr) && fresh(freeMapFile.hdr.dataSectors)
    ensures fresh(directoryFile) && fresh(directoryFile.hdr) && fresh(directoryFile.hdr.dataSectors)
    ensures freeMapFile.disk == disk && directoryFile.disk == disk
    ensures freeMapFile.hdr.Valid() && directoryFile.hdr.Valid()
    ensures Consistent(c) && Describes(c, disk.sectors) && Files(c) == map[]
    ensures freeMapFile.hdr.View() == c.owners[FREE_MAP].header
    ensures directoryFile.hdr.View() == c.owners[DIRECTORY].header
  {
    hide Data, Contents, StoredBits, ParseTable;
    var directory := new Directory(NUM_DIR_ENTRIES);
    var freeMap, mapHdr, dirHdr;
    ghost var b0, b1;
    freeMap, mapHdr, dirHdr, b0, b1 := LayOut();
    ghost var b2, mapHeader, dirHeader, t := freeMap.Marked(), mapHdr.View(), dirHdr.View(), directory.table[..];
    LaidConsistent(b0, b1, b2, mapHeader, dirHeader, t);
    freeMapFile, directoryFile := OpenSystemFiles(disk, mapHdr, dirHdr);
    WriteTables(directory, freeMap, directoryFile, freeMapFile);
    c := EmptyCatalog(mapHeader, dirHeader, t);
    EmptyDescribed(b0, b1, b2, mapHeader, dirHeader, t, disk.sectors);
  }
}
