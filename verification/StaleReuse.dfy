/**
 The harm that a stale handle does: the sectors that Remove frees are the ones that the next Create of
 the same size picks, so that the handle on the removed file reads and writes the new one.
 */
module StaleReuse {
  import opened Bytes
  import opened Sectors
  import opened FileHeaders
  import opened OpenFiles
  import opened Directories
  import opened Volumes
  import opened VolumeOps
  import opened VolumeDisk
  import opened FileSystems
  import opened StaleHandles

  /** A file entered, and what a handle on it is bound to. */
  lemma EnteredOwner(c: Catalog, c': Catalog, key: seq<Byte>, size: int)
    returns (slot: nat, e: Entry, o: Owner, bytes: seq<Byte>)
    requires Consistent(c) && Enters(c, c', key, size)
    ensures Creation(c, slot, e, o) && c' == AfterCreation(c, slot, e, o, bytes) && Key(e.name) == key
    ensures FirstFit(c.marked, o) && o.header.numBytes == size
    ensures Consistent(c') && Files(c') == Files(c)[key := bytes]
    ensures key in Names(c'.table) && SlotOf(c'.table, key) == slot && c'.owners[slot] == o
  {
    slot, e, o, bytes :|
      && Creation(c, slot, e, o) && c' == AfterCreation(c, slot, e, o, bytes)
      && Key(e.name) == key && |bytes| == size == o.header.numBytes && FirstFit(c.marked, o);
    Created(c, slot, e, o, bytes);
    NamesAdded(c.table, slot, e);
  }

  /** A file was created, opened as h and removed, and another created of the same size. */
  ghost predicate Replaced(c: Catalog, c1: Catalog, c2: Catalog, c3: Catalog, key: seq<Byte>, other: seq<Byte>,
                           size: int, h: Header)
  {
    && Consistent(c) && Enters(c, c1, key, size)
    && Complete(c1) && Bound(c1, h, key) && Takes(c1, c2, key) && Enters(c2, c3, other, size)
  }

  /** The old header and the new one then name the same sectors. */
  lemma SameSectors(c: Catalog, c1: Catalog, c2: Catalog, c3: Catalog, key: seq<Byte>, other: seq<Byte>, size: int,
                    h: Header, d: Image, d': Image)
    returns (g: Header)
    requires Replaced(c, c1, c2, c3, key, other, size, h)
    ensures Consistent(c3) && Bound(c3, g, other) && WellFormed(g) && WellFormed(h) && h.numBytes == size
    ensures Data(g) == Data(h) <= c3.marked
    ensures Contents(d, g) == Contents(d, h) && Contents(d', g) == Contents(d', h)
  {
    var slot, e, o, bytes := EnteredOwner(c, c1, key, size);
    CreateRemove(c, slot, e, o, bytes);
    Removed(c1, slot);
    var slot', e', o', bytes' := EnteredOwner(c2, c3, other, size);
    assert c2.marked == c.marked;
    hide *;
    g := o'.header;
    FirstFitOnce(c.marked, o, o', d);
    FirstFitOnce(c.marked, o, o', d');
  }

  /** So the old handle reads the new file, and can spoil it. */
  lemma Reused(c: Catalog, c1: Catalog, c2: Catalog, c3: Catalog, key: seq<Byte>, other: seq<Byte>, size: int,
               h: Header, d: Image)
    requires Replaced(c, c1, c2, c3, key, other, size, h)
    requires Describes(c3, d)
    ensures Consistent(c3) && WellFormed(h) && other in Files(c3)
    ensures Contents(d, h) == Files(c3)[other]
    ensures size > 0 ==> !Harmless(c3, d, h)
  {
    var g := SameSectors(c, c1, c2, c3, key, other, size, h, d, d);
    BoundStored(c3, d, g, other);
    HarmlessExactly(c3, d, h);
    if size > 0 {
      assert h.dataSectors[0] in Data(h);
    }
  }

  /** What is written through it is written to the new file, and changes nothing else. */
  lemma ReusedWrite(c: Catalog, c1: Catalog, c2: Catalog, c3: Catalog, key: seq<Byte>, other: seq<Byte>, size: int,
                    h: Header, d: Image, d': Image, position: nat, bytes: seq<Byte>)
    requires Replaced(c, c1, c2, c3, key, other, size, h)
    requires Describes(c3, d) && WellFormed(h) && Wrote(d, d', h, position, bytes)
    ensures Consistent(c3) && other in Files(c3)
    ensures Describes(AfterWrite(c3, other, position, bytes), d')
    ensures Files(AfterWrite(c3, other, position, bytes)) ==
      Files(c3)[other := Overlay(Files(c3)[other], position, bytes)]
  {
    var g := SameSectors(c, c1, c2, c3, key, other, size, h, d, d');
    DescribesWrite(c3, d, d', g, other, position, bytes);
    Written(c3, other, position, bytes);
  }

  lemma TakenBack(m: map<seq<Byte>, seq<Byte>>, key: seq<Byte>, bytes: seq<Byte>)
    requires key !in m
    ensures m[key := bytes] - {key} == m
  {
  }

  method CreateAndOpen(fs: FileSystem, name: seq<Byte>, size: Int32) returns (file: OpenFile)
    requires fs.Valid() && 0 <= size <= MAX_FILE_SIZE && Complete(fs.catalog)
    requires Key(name) !in Files(fs.catalog) && |Files(fs.catalog)| < NUM_DIR_ENTRIES
    modifies fs, fs.disk
    ensures fs.Valid() && Complete(fs.catalog) && Enters(old(fs.catalog), fs.catalog, Key(name), size)
    ensures Key(name) in Files(fs.catalog) && Files(fs.catalog) - {Key(name)} == old(Files(fs.catalog))
    ensures fresh(file) && fresh(file.hdr) && fresh(file.hdr.dataSectors) && file.disk == fs.disk && file.Valid()
    ensures Bound(fs.catalog, file.hdr.View(), Key(name))
  {
    hide *;
    ghost var m := Files(fs.catalog);
    var _ := fs.Create(name, size);
    fs.ValidIsComplete();
    ghost var bytes: seq<Byte> :| |bytes| == size && Files(fs.catalog) == m[Key(name) := bytes];
    TakenBack(m, Key(name), bytes);
    var first := fs.Open(name);
    file := first;
  }

  /**
   The calls that bring it about, on any volume with room: the handle on the removed file reads the file
   that took its sectors, and some write through it would leave the disk without the volume.
   */
  method Spoil(fs: FileSystem, name: seq<Byte>, other: seq<Byte>, size: Int32) returns (file: OpenFile)
    requires fs.Valid() && 0 < size <= MAX_FILE_SIZE && Complete(fs.catalog)
    requires Key(name) !in Files(fs.catalog) && Key(other) !in Files(fs.catalog)
    requires |Files(fs.catalog)| < NUM_DIR_ENTRIES
    modifies fs, fs.disk
    ensures fs.Valid() && Complete(fs.catalog) && fresh(file) && file.disk == fs.disk && file.Valid()
    ensures Key(other) in Files(fs.catalog) && file.Stored() == Files(fs.catalog)[Key(other)]
    ensures !Harmless(fs.catalog, fs.disk.sectors, file.hdr.View())
  {
    hide *;
    fs.ValidIsComplete();
    ghost var c := fs.catalog;
    file := CreateAndOpen(fs, name, size);
    ghost var c1 := fs.catalog;
    var _ := fs.Remove(name);
    fs.ValidIsComplete();
    ghost var c2 := fs.catalog;
    var _ := fs.Create(other, size);
    fs.ValidIsComplete();
    Reused(c, c1, c2, fs.catalog, Key(name), Key(other), size, file.hdr.View(), fs.disk.sectors);
    file.StoredMeans();
  }
}
