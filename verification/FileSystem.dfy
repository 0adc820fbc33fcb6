/**
 The file system: Create, Open and Remove fetch the directory and the free map from the disk
 through two ordinary files, change them in memory, and write them back.
 */
module FileSystems {
  import opened Bytes
  import opened Sectors
  import opened BitMaps
  import opened FileHeaders
  import opened OpenFiles
  import opened Directories
  import MapFile
  import opened Volumes
  import opened VolumeOps
  import opened VolumeDisk
  import opened VolumeSpace
  import opened Formatting
  import opened StaleHandles

  class FileSystem {
    const disk: SynchDisk
    const freeMapFile: OpenFile
    const directoryFile: OpenFile
    /** What the disk holds. The disk determines it (lemma DescribedOnce). */
    ghost var catalog: Catalog

    /** The two system files are open, on the headers that the catalog gives them. */
    ghost predicate Opened()
      reads this, freeMapFile.hdr, freeMapFile.hdr.dataSectors, directoryFile.hdr, directoryFile.hdr.dataSectors
    {
      && freeMapFile.disk == disk && directoryFile.disk == disk
      && freeMapFile.hdr.Valid() && directoryFile.hdr.Valid()
      && FREE_MAP in catalog.owners && freeMapFile.hdr.View() == catalog.owners[FREE_MAP].header
      && DIRECTORY in catalog.owners && directoryFile.hdr.View() == catalog.owners[DIRECTORY].header
    }

    ghost predicate Valid()
      reads this, disk, freeMapFile.hdr, freeMapFile.hdr.dataSectors, directoryFile.hdr, directoryFile.hdr.dataSectors
    {
      Opened() && Consistent(catalog) && Describes(catalog, disk.sectors)
    }

    lemma ValidIsComplete()
      requires Valid()
      ensures Complete(catalog) && Consistent(catalog) && Describes(catalog, disk.sectors)
    {
    }

    /** Formats the disk, or opens the two system files of a disk that holds a volume. */
    constructor (disk: SynchDisk, format: bool, ghost mounted: Catalog)
      requires !format ==> Consistent(mounted) && Describes(mounted, disk.sectors)
      modifies disk
      ensures Valid() && this.disk == disk
      ensures fresh(freeMapFile) && fresh(freeMapFile.hdr) && fresh(freeMapFile.hdr.dataSectors)
      ensures fresh(directoryFile) && fresh(directoryFile.hdr) && fresh(directoryFile.hdr.dataSectors)
      ensures format ==> Files(catalog) == map[]
      ensures !format ==> catalog == mounted && disk.sectors == old(disk.sectors)
    {
      this.disk := disk;
      if format {
        var mapFile, dirFile;
        ghost var c;
        mapFile, dirFile, c := Format(disk);
        freeMapFile, directoryFile, catalog := mapFile, dirFile, c;
      } else {
        freeMapFile := new OpenFile(disk, FREE_MAP_SECTOR);
        directoryFile := new OpenFile(disk, DIRECTORY_SECTOR);
        catalog := mounted;
      }
    }

    /** The directory as it is on the disk. */
    method FetchDirectory() returns (directory: Directory)
      requires Opened() && TableOn(disk.sectors, catalog.owners[DIRECTORY], catalog.table)
      ensures fresh(directory) && directory.Valid() && fresh(directory.table)
      ensures directory.tableSize == NUM_DIR_ENTRIES && directory.table[..] == catalog.table
    {
      ghost var stored := directoryFile.Stored();
      assert stored[..DIRECTORY_FILE_SIZE] == stored;
      directory := new Directory(NUM_DIR_ENTRIES);
      directory.FetchFrom(directoryFile);
    }

    /** The free map as it is on the disk. */
    method FetchFreeMap() returns (freeMap: BitMap)
      requires Opened() && FreeMapOn(disk.sectors, catalog.owners[FREE_MAP], catalog.marked)
      ensures fresh(freeMap) && freeMap.Valid() && fresh(freeMap.words)
      ensures freeMap.numBits == NUM_SECTORS && freeMap.Marked() == MarkedBits(catalog.marked)
    {
      ghost var stored := freeMapFile.Stored();
      assert stored[..FREE_MAP_FILE_SIZE] == stored;
      freeMap := new BitMap(NUM_SECTORS);
      MapFile.FetchFrom(freeMap, freeMapFile);
    }

    /** Looks a name up and brings the header of its file into memory; null when the name is not listed. */
    method Open(name: seq<Byte>) returns (file: OpenFile?)
      requires Valid()
      ensures file == null <==> Key(name) !in Files(catalog)
      ensures file != null ==> fresh(file) && fresh(file.hdr) && fresh(file.hdr.dataSectors)
      ensures file != null ==> file.Valid() && file.disk == disk && file.seekPosition == 0
      ensures file != null ==> Bound(catalog, file.hdr.View(), Key(name)) && file.Stored() == Files(catalog)[Key(name)]
    {
      var directory := FetchDirectory();
      var sector := directory.Find(name);
      ListedSector(catalog, disk.sectors, Key(name), sector);
      file := null;
      if sector >= 0 {
        file := new OpenFile(disk, sector);
      }
    }

    /** The disk now holds another catalog, with the system files where they were. */
    ghost method Commit(c: Catalog)
      requires Opened() && Consistent(c) && Describes(c, disk.sectors)
      requires FREE_MAP in c.owners && c.owners[FREE_MAP] == catalog.owners[FREE_MAP]
      requires DIRECTORY in c.owners && c.owners[DIRECTORY] == catalog.owners[DIRECTORY]
      modifies `catalog
      ensures Valid() && catalog == c
    {
      catalog := c;
    }

    /** Writes the header of a new file and both tables to the disk, and thereby enters the file in the catalog. */
    method FlushCreation(hdr: FileHeader, sector: int, directory: Directory, freeMap: BitMap,
                         ghost slot: nat, ghost e: Entry, ghost o: Owner)
      requires Valid()
      requires hdr.Valid() && WellFormed(hdr.View())
      requires 0 <= sector < NUM_SECTORS && sector !in Data(hdr.View())
      requires o == Owner(sector, hdr.View(), {sector} + Data(hdr.View()))
      requires Creation(catalog, slot, e, o)
      requires directory.Valid() && directory.tableSize == NUM_DIR_ENTRIES
      requires directory.table[..] == catalog.table[slot := e]
      requires freeMap.Valid() && freeMap.numBits == NUM_SECTORS
      requires freeMap.Marked() == MarkedBits(catalog.marked + o.extent)
      requires forall s | s in o.extent :: 0 <= s < NUM_SECTORS
      modifies this, disk
      ensures Valid()
      ensures exists bytes: seq<Byte> ::
                |bytes| == hdr.numBytes && catalog == AfterCreation(old(catalog), slot, e, o, bytes)
    {
      ghost var c, d, h, mh, dh := catalog, disk.sectors, hdr.View(), freeMapFile.hdr.View(), directoryFile.hdr.View();
      SystemHeaders(c, d);
      hdr.WriteBack(disk, sector);
      ghost var d1 := disk.sectors;
      directory.WriteBack(directoryFile);
      ghost var d2 := disk.sectors;
      MapFile.WriteBack(freeMap, freeMapFile);
      ghost var d3 := disk.sectors;
      TwoWrites(d1, d2, d3, dh, mh);
      CreationFlushed(c, d, d1, d3, slot, e, o);
      Commit(AfterCreation(c, slot, e, o, Contents(d3, h)));
    }

    /** The in-memory part of Create: finds a header sector, enters the name, and allocates the data sectors. */
    method Reserve(name: seq<Byte>, initialSize: Int32, directory: Directory)
      returns (ok: bool, freeMap: BitMap, sector: int, hdr: FileHeader, ghost slot: nat, ghost e: Entry)
      requires Opened() && FreeMapOn(disk.sectors, catalog.owners[FREE_MAP], catalog.marked)
      requires 0 <= initialSize <= MAX_FILE_SIZE
      requires directory.Valid() && IsIndexOf(directory.table[..], Key(name), -1)
      requires FirstClear(MarkedBits(catalog.marked)) >= 0
      requires CountClear(MarkedBits(catalog.marked)[FirstClear(MarkedBits(catalog.marked)) := true]) >= NUM_DIRECT
      modifies directory.table
      ensures ok <==> !IsFreeIndex(old(directory.table[..]), -1)
      ensures ok ==> freeMap.Valid() && freeMap.numBits == NUM_SECTORS && hdr.Valid() && WellFormed(hdr.View())
      ensures ok ==> hdr.numBytes == initialSize && sector == FirstClear(MarkedBits(catalog.marked))
      ensures ok ==> Granted(MarkedBits(catalog.marked)[sector := true], hdr.dataSectors[..hdr.numSectors],
                             freeMap.Marked())
      ensures ok ==> IsFreeIndex(old(directory.table[..]), slot)
      ensures ok ==> directory.table[..] == old(directory.table[..])[slot := e]
      ensures ok ==> e.sector == sector && Named(e, Key(name))
    {
      hide HeaderOn, Granted, CountClear, FirstClear;
      ghost var t := directory.table[..];
      slot, e := 0, DirectoryEntry(false, 0, NO_NAME);
      hdr := new FileHeader();
      freeMap := FetchFreeMap();
      sector := freeMap.Find();
      if sector == -1 {
        return false, freeMap, sector, hdr, slot, e;
      }
      ok := directory.Add(name, sector);
      if !ok {
        return;
      }
      slot, e :|
        IsFreeIndex(t, slot) && directory.table[..] == t[slot := e] && e.sector == sector && Named(e, Key(name));
      ok := hdr.Allocate(freeMap, initialSize);
    }

    /** The part of Create that runs once the name is known to be new. */
    method CreateNew(name: seq<Byte>, initialSize: Int32, directory: Directory) returns (success: bool)
      requires Valid() && 0 <= initialSize <= MAX_FILE_SIZE && IsIndexOf(catalog.table, Key(name), -1)
      requires directory.Valid() && directory.tableSize == NUM_DIR_ENTRIES && directory.table[..] == catalog.table
      modifies this, disk, directory.table
      ensures Valid()
      ensures success <==> !IsFreeIndex(old(catalog.table), -1)
      ensures !success ==> disk.sectors == old(disk.sectors) && catalog == old(catalog)
      ensures success ==> Enters(old(catalog), catalog, Key(name), initialSize)
    {
      hide Disjoint, Owned, DistinctNames, HeaderOn, FileOn, Granted, CountClear, FirstClear, FirstFit;
      FreeSectorFound(catalog, disk.sectors);
      var freeMap, sector, hdr;
      ghost var slot, e;
      success, freeMap, sector, hdr, slot, e := Reserve(name, initialSize, directory);
      if success {
        ghost var o := Owner(sector, hdr.View(), {sector} + Data(hdr.View()));
        NewOwner(catalog.marked, sector, hdr.View(), freeMap.Marked(), o);
        FlushCreation(hdr, sector, directory, freeMap, slot, e, o);
      }
    }

    /**
     Creates a file of a fixed size. Of the four ways to fail that the source tests for, only two
     can happen: the name is taken, or the directory is full.
     */
    method Create(name: seq<Byte>, initialSize: Int32) returns (success: bool)
      requires Valid() && 0 <= initialSize <= MAX_FILE_SIZE
      modifies this, disk
      ensures Valid()
      ensures success <==> Key(name) !in old(Files(catalog)) && |old(Files(catalog))| < NUM_DIR_ENTRIES
      ensures !success ==> disk.sectors == old(disk.sectors) && catalog == old(catalog)
      ensures success ==> exists bytes: seq<Byte> ::
                            |bytes| == initialSize && Files(catalog) == old(Files(catalog))[Key(name) := bytes]
      ensures success ==> Enters(old(catalog), catalog, Key(name), initialSize)
      ensures forall h, key | old(Bound(catalog, h, key)) :: Bound(catalog, h, key)
    {
      ghost var c := catalog;
      var directory := FetchDirectory();
      var found := directory.Find(name);
      ListedSector(c, disk.sectors, Key(name), found);
      FullDirectory(c);
      if found != -1 {
        return false;
      }
      success := CreateNew(name, initialSize, directory);
      if success {
        ghost var slot: nat, e: Entry, o: Owner, bytes: seq<Byte> :|
          && Creation(c, slot, e, o) && catalog == AfterCreation(c, slot, e, o, bytes)
          && Key(e.name) == Key(name) && |bytes| == initialSize;
        Created(c, slot, e, o, bytes);
        CreatedBounds(c, slot, e, o, bytes);
      }
    }

    /** Writes both tables to the disk, and thereby takes a file out of the catalog. */
    method FlushRemoval(directory: Directory, freeMap: BitMap, ghost slot: nat)
      requires Valid() && Removal(catalog, slot)
      requires directory.Valid() && directory.tableSize == NUM_DIR_ENTRIES
      requires directory.table[..] == catalog.table[slot := catalog.table[slot].(inUse := false)]
      requires freeMap.Valid() && freeMap.numBits == NUM_SECTORS
      requires freeMap.Marked() == MarkedBits(catalog.marked - catalog.owners[slot].extent)
      modifies this, disk
      ensures Valid() && catalog == AfterRemoval(old(catalog), slot)
    {
      hide Owned, Disjoint, DistinctNames, FileOn, HeaderOn;
      ghost var c, d := catalog, disk.sectors;
      SystemHeaders(c, d);
      WriteTables(directory, freeMap, directoryFile, freeMapFile);
      RemovalFlushed(c, d, disk.sectors, slot);
      Commit(AfterRemoval(c, slot));
    }

    /** Frees the data sectors and the header sector of a file, in memory. */
    method ReleaseSectors(sector: int, ghost o: Owner) returns (freeMap: BitMap)
      requires Opened() && FreeMapOn(disk.sectors, catalog.owners[FREE_MAP], catalog.marked)
      requires HeaderOn(disk.sectors, o) && sector == o.home
      requires forall s | s in Data(o.header) :: 0 <= s < NUM_SECTORS && MarkedBits(catalog.marked)[s]
      ensures fresh(freeMap) && freeMap.Valid() && fresh(freeMap.words) && freeMap.numBits == NUM_SECTORS
      ensures freeMap.Marked() == MarkedBits(catalog.marked - o.extent)
    {
      var fileHdr := new FileHeader();
      fileHdr.FetchFrom(disk, sector);
      freeMap := FetchFreeMap();
      fileHdr.Deallocate(freeMap);
      RemovedMarking(catalog.marked, o, disk.sectors, freeMap.Marked());
      freeMap.Clear(sector);
    }

    /** The in-memory part of Remove: frees the sectors and the directory entry. */
    method Release(name: seq<Byte>, sector: int, directory: Directory, ghost slot: nat) returns (freeMap: BitMap)
      requires Opened() && FreeMapOn(disk.sectors, catalog.owners[FREE_MAP], catalog.marked)
      requires slot in catalog.owners && HeaderOn(disk.sectors, catalog.owners[slot])
      requires sector == catalog.owners[slot].home
      requires forall s | s in Data(catalog.owners[slot].header) ::
                 0 <= s < NUM_SECTORS && MarkedBits(catalog.marked)[s]
      requires directory.Valid()
      requires IsIndexOf(directory.table[..], Key(name), slot) && DistinctNames(directory.table[..])
      modifies directory.table
      ensures freeMap.Valid() && freeMap.numBits == NUM_SECTORS
      ensures freeMap.Marked() == MarkedBits(catalog.marked - catalog.owners[slot].extent)
      ensures directory.table[..] == old(directory.table[..])[slot := old(directory.table[..])[slot].(inUse := false)]
    {
      freeMap := ReleaseSectors(sector, catalog.owners[slot]);
      var _ := directory.Remove(name);
    }

    /** Removes a listed file; false when the name is not listed. */
    method Remove(name: seq<Byte>) returns (success: bool)
      requires Valid()
      modifies this, disk
      ensures Valid()
      ensures success <==> Key(name) in old(Files(catalog))
      ensures !success ==> disk.sectors == old(disk.sectors) && catalog == old(catalog)
      ensures success ==> Files(catalog) == old(Files(catalog)) - {Key(name)} && Takes(old(catalog), catalog, Key(name))
      ensures forall h, key | old(Bound(catalog, h, key)) && key != Key(name) :: Bound(catalog, h, key)
    {
      ghost var c := catalog;
      var directory := FetchDirectory();
      var sector := directory.Find(name);
      ListedSector(c, disk.sectors, Key(name), sector);
      if sector == -1 {
        return false;
      }
      RemoveListed(name, sector, directory, SlotOf(c.table, Key(name)));
      Removed(c, SlotOf(c.table, Key(name)));
      RemovedBounds(c, SlotOf(c.table, Key(name)));
      return true;
    }

    /** The part of Remove that runs once the name has been found. */
    method RemoveListed(name: seq<Byte>, sector: int, directory: Directory, ghost slot: nat)
      requires Valid() && IsIndexOf(catalog.table, Key(name), slot)
      requires Removal(catalog, slot) && sector == catalog.owners[slot].home
      requires directory.Valid() && directory.tableSize == NUM_DIR_ENTRIES && directory.table[..] == catalog.table
      modifies this, disk, directory.table
      ensures Valid() && catalog == AfterRemoval(old(catalog), slot)
    {
      hide Owned, Disjoint, Data, HeaderOn;
      ListedMarked(catalog, disk.sectors, slot);
      var freeMap := Release(name, sector, directory, slot);
      FlushRemoval(directory, freeMap, slot);
    }

    /** What a handle reads is what the map of files says. */
    lemma StoredIsListed(file: OpenFile, key: seq<Byte>)
      requires Valid() && file.disk == disk && file.Valid() && Bound(catalog, file.hdr.View(), key)
      ensures key in Files(catalog) && file.Stored() == Files(catalog)[key]
    {
      BoundStored(catalog, disk.sectors, file.hdr.View(), key);
    }

    /** OpenFile.WriteAt, seen from the file system that the file was opened on. */
    method WriteOpened(file: OpenFile, from: array<Byte>, numBytes: int, position: nat, ghost key: seq<Byte>)
      returns (result: nat)
      requires Valid() && file.disk == disk && file.Valid() && Bound(catalog, file.hdr.View(), key)
      requires position + numBytes <= INT_MAX
      requires Transferred(numBytes, position, file.hdr.numBytes) <= from.Length
      modifies this, disk
      ensures Valid() && file.hdr.View() == old(file.hdr.View())
      ensures result == Transferred(numBytes, position, |old(Files(catalog))[key]|)
      ensures Files(catalog) == old(Files(catalog))[key := Overlay(old(Files(catalog))[key], position, from[..result])]
      ensures forall h, k | old(Bound(catalog, h, k)) :: Bound(catalog, h, k)
    {
      hide Disjoint, Owned, DistinctNames, HeaderOn, FreeMapOn, TableOn;
      ghost var c, d, h := catalog, disk.sectors, file.hdr.View();
      assert FileOn(d, c.owners[SlotOf(c.table, key)], c.contents[SlotOf(c.table, key)]);
      result := file.WriteAt(from, numBytes, position);
      DescribesWrite(c, d, disk.sectors, h, key, position, from[..result]);
      Written(c, key, position, from[..result]);
      catalog := AfterWrite(c, key, position, from[..result]);
    }

    /**
     OpenFile.WriteAt through any handle, as one whose file has been removed: it changes the sectors that the
     handle names and no others, and leaves the volume as it is if none of these is marked.
     */
    method WriteStale(file: OpenFile, from: array<Byte>, numBytes: int, position: nat) returns (result: nat)
      requires Valid() && file.disk == disk && file.Valid() && position + numBytes <= INT_MAX
      requires Transferred(numBytes, position, file.hdr.numBytes) <= from.Length
      modifies disk
      ensures catalog == old(catalog) && file.hdr.View() == old(file.hdr.View())
      ensures result == Transferred(numBytes, position, file.hdr.numBytes)
      ensures Wrote(old(disk.sectors), disk.sectors, file.hdr.View(), position, from[..result])
      ensures Data(file.hdr.View()) !! catalog.marked ==> Valid()
    {
      hide Consistent, Describes;
      ghost var c, d, h := catalog, disk.sectors, file.hdr.View();
      result := file.WriteAt(from, numBytes, position);
      if Data(h) !! catalog.marked { DescribesUnmarked(c, d, disk.sectors, Data(h)); }
    }

    /** OpenFile.Write likewise, while none of the sectors is marked. */
    method PutStale(file: OpenFile, bytes: seq<Byte>) returns (result: nat)
      requires Valid() && file.disk == disk && file.Valid() && Data(file.hdr.View()) !! catalog.marked
      requires 0 <= file.seekPosition && file.seekPosition + |bytes| <= INT_MAX
      modifies disk, file
      ensures Valid() && catalog == old(catalog) && file.hdr.View() == old(file.hdr.View())
      ensures result == Transferred(|bytes|, old(file.seekPosition), file.hdr.numBytes)
      ensures file.Stored() == Patched(old(file.Stored()), old(file.seekPosition), bytes)
      ensures file.seekPosition == old(file.seekPosition) + result
    {
      hide Consistent, Describes;
      ghost var c, d, h := catalog, disk.sectors, file.hdr.View();
      result := file.Put(bytes);
      DescribesUnmarked(c, d, disk.sectors, Data(h));
    }

    /** Whether none of the data sectors that a handle names is marked on the disk. */
    method Unmarked(file: OpenFile) returns (unmarked: bool)
      requires Valid() && file.Valid()
      ensures unmarked <==> Data(file.hdr.View()) !! catalog.marked
    {
      hide Consistent, HeaderOn, TableOn, FileOn;
      var freeMap := FetchFreeMap();
      ghost var h := file.hdr.View();
      var i := 0;
      while i < file.hdr.numSectors
        invariant 0 <= i <= file.hdr.numSectors && freeMap.Valid() && freeMap.numBits == NUM_SECTORS
        invariant freeMap.Marked() == MarkedBits(catalog.marked)
        invariant forall j | 0 <= j < i :: h.dataSectors[j] as int !in catalog.marked
      {
        var marked := freeMap.Test(file.hdr.dataSectors[i]);
        if marked {
          assert h.dataSectors[i] in Data(h);
          return false;
        }
        i := i + 1;
      }
      unmarked := true;
    }

    /** WriteOpened of the bytes of a sequence. */
    method PutAt(file: OpenFile, bytes: seq<Byte>, position: nat, ghost key: seq<Byte>) returns (result: nat)
      requires Valid() && file.disk == disk && file.Valid() && Bound(catalog, file.hdr.View(), key)
      requires position + |bytes| <= INT_MAX
      modifies this, disk
      ensures Valid() && file.hdr.View() == old(file.hdr.View())
      ensures result == Transferred(|bytes|, position, |old(Files(catalog))[key]|)
      ensures Files(catalog) == old(Files(catalog))[key := Patched(old(Files(catalog))[key], position, bytes)]
      ensures forall h, k | old(Bound(catalog, h, k)) :: Bound(catalog, h, k)
    {
      hide Consistent, Describes, Bound;
      var from := new Byte[|bytes|](i requires 0 <= i < |bytes| => bytes[i]);
      assert from[..] == bytes;
      result := WriteOpened(file, from, |bytes|, position, key);
      assert from[..result] == bytes[..result];
    }

    /** OpenFile.Write likewise: the write is at the seek position, which moves on. */
    method Put(file: OpenFile, bytes: seq<Byte>, ghost key: seq<Byte>) returns (result: nat)
      requires Valid() && file.disk == disk && file.Valid() && Bound(catalog, file.hdr.View(), key)
      requires 0 <= file.seekPosition && file.seekPosition + |bytes| <= INT_MAX
      modifies this, disk, file
      ensures Valid() && file.hdr.View() == old(file.hdr.View())
      ensures result == Transferred(|bytes|, old(file.seekPosition), |old(Files(catalog))[key]|)
      ensures Files(catalog) ==
        old(Files(catalog))[key := Patched(old(Files(catalog))[key], old(file.seekPosition), bytes)]
      ensures forall h, k | old(Bound(catalog, h, k)) :: Bound(catalog, h, k)
      ensures file.seekPosition == old(file.seekPosition) + result
    {
      hide Disjoint, Owned, DistinctNames, HeaderOn, FreeMapOn, TableOn;
      ghost var c, d, h, position := catalog, disk.sectors, file.hdr.View(), file.seekPosition;
      assert FileOn(d, c.owners[SlotOf(c.table, key)], c.contents[SlotOf(c.table, key)]);
      result := file.Put(bytes);
      DescribesWrite(c, d, disk.sectors, h, key, position, bytes[..result]);
      Written(c, key, position, bytes[..result]);
      catalog := AfterWrite(c, key, position, bytes[..result]);
    }

    /** What OpenFile.ReadAt and OpenFile.Read get through a handle is what the map of files says. */
    method GetAt(file: OpenFile, numBytes: int, position: nat, ghost key: seq<Byte>) returns (bytes: seq<Byte>)
      requires Valid() && file.disk == disk && file.Valid() && Bound(catalog, file.hdr.View(), key)
      requires position + numBytes <= INT_MAX
      ensures bytes == Portion(Files(catalog)[key], position, numBytes)
    {
      StoredIsListed(file, key);
      bytes := file.GetAt(numBytes, position);
    }

    method Get(file: OpenFile, numBytes: int, ghost key: seq<Byte>) returns (bytes: seq<Byte>)
      requires Valid() && file.disk == disk && file.Valid() && Bound(catalog, file.hdr.View(), key)
      requires 0 <= file.seekPosition && file.seekPosition + numBytes <= INT_MAX
      modifies file
      ensures Valid() && file.Valid() && file.hdr.View() == old(file.hdr.View())
      ensures bytes == Portion(Files(catalog)[key], old(file.seekPosition), numBytes)
      ensures file.seekPosition == old(file.seekPosition) + |bytes|
    {
      StoredIsListed(file, key);
      bytes := file.Get(numBytes);
    }
  }

  /** What a read through a handle sees is what the map of files says. */
  lemma BoundStored(c: Catalog, d: Image, h: Header, key: seq<Byte>)
    requires Consistent(c) && Describes(c, d) && Bound(c, h, key)
    ensures WellFormed(h) && Contents(d, h) == Files(c)[key]
  {
    var slot := SlotOf(c.table, key);
    assert FileOn(d, c.owners[slot], c.contents[slot]);
  }
}
