/** How changes to the sectors of a disk change the catalog that describes it. */
module VolumeDisk {
  import opened Bytes
  import opened Sectors
  import opened BitMaps
  import opened FileHeaders
  import opened Directories
  import opened Volumes
  import opened VolumeOps

  /** The data sectors of the two system files: what rewriting the tables may change. */
  ghost function TableSectors(c: Catalog): set<int>
    requires Complete(c)
  {
    (c.owners[FREE_MAP].extent - {FREE_MAP_SECTOR as int}) + (c.owners[DIRECTORY].extent - {DIRECTORY_SECTOR as int})
  }

  /** Rewriting the tables and sectors that no file owns leaves every header in place. */
  lemma HeaderStays(c: Catalog, d: Image, d': Image, w: set<int>, f: int)
    requires Consistent(c) && Describes(c, d) && f in c.owners && HeaderOn(d, c.owners[f])
    requires SameOutside(d, d', TableSectors(c) + w) && w !! c.marked
    ensures HeaderOn(d', c.owners[f])
  {
    var o := c.owners[f];
    assert o.home in o.extent;
    assert o.home in c.marked by { assert Owned(c.owners, o.home); }
    HeaderKept(d, d', o, TableSectors(c) + w);
  }

  /** It also leaves the contents of every listed file in place. */
  lemma ContentsStay(c: Catalog, d: Image, d': Image, w: set<int>, f: int)
    requires Consistent(c) && Describes(c, d) && f in c.contents
    requires SameOutside(d, d', TableSectors(c) + w) && w !! c.marked
    ensures FileOn(d', c.owners[f], c.contents[f])
  {
    var o := c.owners[f];
    assert FileOn(d, o, c.contents[f]);
    forall s | s in o.extent ensures s !in TableSectors(c) + w {
      assert Owned(c.owners, s);
      assert o.extent !! c.owners[FREE_MAP].extent && o.extent !! c.owners[DIRECTORY].extent;
    }
    FileKept(d, d', o, TableSectors(c) + w);
  }

  /** The tables on the disk record another marking and another directory. */
  ghost predicate TablesHold(c: Catalog, d': Image, marked: set<int>, t: seq<Entry>)
    requires Complete(c)
  {
    && FreeMapOn(d', c.owners[FREE_MAP], marked)
    && TableOn(d', c.owners[DIRECTORY], t)
  }

  lemma DescribesCreation(c: Catalog, d: Image, d': Image, slot: nat, e: Entry, o: Owner, bytes: seq<Byte>)
    requires Consistent(c) && Describes(c, d) && Creation(c, slot, e, o)
    requires SameOutside(d, d', TableSectors(c) + {o.home})
    requires FileOn(d', o, bytes)
    requires TablesHold(c, d', c.marked + o.extent, c.table[slot := e])
    ensures Describes(AfterCreation(c, slot, e, o, bytes), d')
  {
    var c' := AfterCreation(c, slot, e, o, bytes);
    CreatedComplete(c, slot, e, o, bytes);
    forall f | f in c'.contents ensures FileOn(d', c'.owners[f], c'.contents[f]) {
      if f != slot {
        assert o.home in o.extent;
        ContentsStay(c, d, d', {o.home}, f);
      }
    }
  }

  lemma DescribesRemoval(c: Catalog, d: Image, d': Image, slot: nat)
    requires Consistent(c) && Describes(c, d) && Removal(c, slot)
    requires SameOutside(d, d', TableSectors(c))
    requires TablesHold(c, d', c.marked - c.owners[slot].extent, c.table[slot := c.table[slot].(inUse := false)])
    ensures Describes(AfterRemoval(c, slot), d')
  {
    hide Owned, Disjoint, DistinctNames, HeaderOn;
    var c' := AfterRemoval(c, slot);
    RemovedComplete(c, slot);
    assert TableSectors(c) == TableSectors(c) + {};
    forall f | f in c'.contents ensures FileOn(d', c'.owners[f], c'.contents[f]) {
      ContentsStay(c, d, d', {}, f);
    }
  }

  /** What OpenFile.WriteAt does through a handle that is bound to a listed file. */
  lemma DescribesWrite(c: Catalog, d: Image, d': Image, handle: Header, key: seq<Byte>, position: nat, bytes: seq<Byte>)
    requires Consistent(c) && Describes(c, d) && Bound(c, handle, key) && WellFormed(handle)
    requires SameOutside(d, d', Data(handle))
    requires Contents(d', handle) == Overlay(Contents(d, handle), position, bytes)
    ensures Describes(AfterWrite(c, key, position, bytes), d')
    ensures forall h, k | Bound(c, h, k) :: Bound(AfterWrite(c, key, position, bytes), h, k)
  {
    DescribesWritten(c, d, d', handle, key, position, bytes);
    hide Consistent, FreeMapOn, TableOn, FileOn;
  }

  /** The files beside the one that is written. */
  lemma KeptBeside(c: Catalog, d: Image, d': Image, slot: nat, w: set<int>, f: int)
    requires Disjoint(c.owners) && slot in c.owners && f in c.owners && f != slot && w <= c.owners[slot].extent
    requires SameOutside(d, d', w) && HeaderOn(d, c.owners[f])
    ensures HeaderOn(d', c.owners[f]) && Contents(d', c.owners[f].header) == Contents(d, c.owners[f].header)
  {
    assert c.owners[slot].extent !! c.owners[f].extent;
    FileKept(d, d', c.owners[f], w);
  }

  lemma OthersKept(c: Catalog, d: Image, d': Image, slot: nat, w: set<int>)
    requires Consistent(c) && Describes(c, d) && slot in c.contents && w <= c.owners[slot].extent
    requires SameOutside(d, d', w)
    ensures FreeMapOn(d', c.owners[FREE_MAP], c.marked) && TableOn(d', c.owners[DIRECTORY], c.table)
    ensures forall f | f in c.contents && f != slot :: FileOn(d', c.owners[f], c.contents[f])
  {
    KeptBeside(c, d, d', slot, w, FREE_MAP);
    KeptBeside(c, d, d', slot, w, DIRECTORY);
    forall f | f in c.contents && f != slot ensures FileOn(d', c.owners[f], c.contents[f]) {
      assert FileOn(d, c.owners[f], c.contents[f]);
      KeptBeside(c, d, d', slot, w, f);
    }
  }

  lemma SlotWritten(c: Catalog, d: Image, slot: nat, contents: seq<Byte>)
    requires Complete(c) && slot in c.contents
    requires FreeMapOn(d, c.owners[FREE_MAP], c.marked) && TableOn(d, c.owners[DIRECTORY], c.table)
    requires forall f | f in c.contents && f != slot :: FileOn(d, c.owners[f], c.contents[f])
    requires FileOn(d, c.owners[slot], contents)
    ensures Describes(c.(contents := c.contents[slot as int := contents]), d)
  {
    hide FreeMapOn, TableOn, FileOn;
    assert c.contents[slot as int := contents].Keys == c.contents.Keys;
  }

  lemma DescribesWritten(c: Catalog, d: Image, d': Image, handle: Header, key: seq<Byte>,
                         position: nat, bytes: seq<Byte>)
    requires Consistent(c) && Describes(c, d) && Bound(c, handle, key) && WellFormed(handle)
    requires SameOutside(d, d', Data(handle))
    requires Contents(d', handle) == Overlay(Contents(d, handle), position, bytes)
    ensures Describes(AfterWrite(c, key, position, bytes), d')
  {
    hide Disjoint, Owned, DistinctNames, FreeMapOn, TableOn;
    var slot := SlotOf(c.table, key);
    assert FileOn(d, c.owners[slot], c.contents[slot]);
    HeaderKept(d, d', c.owners[slot], Data(handle));
    hide HeaderOn, Contents;
    OthersKept(c, d, d', slot, Data(handle));
    SlotWritten(c, d', slot, Overlay(c.contents[slot], position, bytes));
  }

  /*** The images that the operations pass through ***/

  /** Two files written one after the other. */
  lemma TwoWrites(d1: Image, d2: Image, d3: Image, a: Header, b: Header)
    requires WellFormed(a) && WellFormed(b) && Data(a) !! Data(b)
    requires SameOutside(d1, d2, Data(a)) && SameOutside(d2, d3, Data(b))
    ensures Contents(d3, a) == Contents(d2, a)
    ensures SameOutside(d1, d3, Data(a) + Data(b))
  {
    ContentsFrame(d2, d3, a);
  }

  lemma SystemHeaders(c: Catalog, d: Image)
    requires Consistent(c) && Describes(c, d)
    ensures WellFormed(c.owners[FREE_MAP].header) && WellFormed(c.owners[DIRECTORY].header)
    ensures Data(c.owners[FREE_MAP].header) !! Data(c.owners[DIRECTORY].header)
    ensures TableSectors(c) == Data(c.owners[DIRECTORY].header) + Data(c.owners[FREE_MAP].header)
  {
    assert c.owners[FREE_MAP].extent !! c.owners[DIRECTORY].extent;
  }

  /**
   Where a volume is found on a disk: the header in sector 0 is the free map's, with a bit for each of the
   1024 sectors; the one in sector 1 is the directory's, with ten entries of twenty bytes.
   */
  lemma VolumeLayout(c: Catalog, d: Image)
    requires Consistent(c) && Describes(c, d)
    ensures var mapHeader, dirHeader := ParseHeader(d[0]), ParseHeader(d[1]);
      && WellFormed(mapHeader) && mapHeader.numBytes == 128 && WellFormed(dirHeader) && dirHeader.numBytes == 200
      && (forall s | 0 <= s < 1024 :: s in c.marked <==> BitsOf(DecodeWords(Contents(d, mapHeader)), 1024)[s])
      && c.table == ParseTable(Contents(d, dirHeader)) && |c.table| == 10
      && 0 in c.marked && 1 in c.marked && Data(mapHeader) + Data(dirHeader) <= c.marked
  {
    assert Owned(c.owners, 0) && Owned(c.owners, 1);
    forall s | 0 <= s < 1024
      ensures s in c.marked <==> BitsOf(DecodeWords(Contents(d, ParseHeader(d[0]))), 1024)[s]
    {
      assert MarkedBits(c.marked)[s] <==> s in c.marked;
    }
    forall s | s in Data(ParseHeader(d[0])) + Data(ParseHeader(d[1])) ensures s in c.marked {
      assert Owned(c.owners, s);
    }
  }

  /** From a changed image, both tables were rewritten: the headers are where they were, and the tables are new. */
  lemma TablesRewritten(c: Catalog, d: Image, d': Image, w: set<int>, marked: set<int>, t: seq<Entry>)
    requires Consistent(c) && Describes(c, d) && w !! c.marked
    requires SameOutside(d, d', TableSectors(c) + w)
    requires StoredBits(Contents(d', c.owners[FREE_MAP].header)) == MarkedBits(marked)
    requires forall s | s in marked :: 0 <= s < NUM_SECTORS
    requires ParseTable(Contents(d', c.owners[DIRECTORY].header)) == t
    ensures TablesHold(c, d', marked, t)
  {
    HeaderStays(c, d, d', w, FREE_MAP);
    HeaderStays(c, d, d', w, DIRECTORY);
  }

  /** The header found first and the sectors allocated after it make an owner of free sectors. */
  lemma NewOwner(marked: set<int>, sector: int, h: Header, bits: seq<bool>, o: Owner)
    requires forall s | s in marked :: 0 <= s < NUM_SECTORS
    requires 0 <= sector < NUM_SECTORS && sector !in marked && sector == FirstClear(MarkedBits(marked))
    requires |bits| == NUM_SECTORS && WellFormed(h)
    requires Granted(MarkedBits(marked)[sector := true], h.dataSectors[..h.numSectors], bits)
    requires o == Owner(sector, h, {sector} + Data(h))
    ensures sector !in Data(h) && o.extent !! marked && FirstFit(marked, o)
    ensures bits == MarkedBits(marked + o.extent)
    ensures forall s | s in marked + o.extent :: 0 <= s < NUM_SECTORS
  {
    forall s ensures s in Data(h) ==> 0 <= s < NUM_SECTORS && s != sector && s !in marked {
      GrantedData(MarkedBits(marked)[sector := true], h, bits, s);
    }
    forall s | 0 <= s < NUM_SECTORS ensures bits[s] == MarkedBits(marked + o.extent)[s] {
      GrantedData(MarkedBits(marked)[sector := true], h, bits, s);
    }
  }

  /** The sectors that Create picks: the first that is free, and then the lowest ones for the data. */
  ghost predicate FirstFit(marked: set<int>, o: Owner) {
    && 0 <= o.home < NUM_SECTORS && o.home == FirstClear(MarkedBits(marked))
    && WellFormed(o.header) && o.extent == {o.home} + Data(o.header)
    && exists bits: seq<bool> | |bits| == NUM_SECTORS ::
         Granted(MarkedBits(marked)[o.home := true], o.header.dataSectors[..o.header.numSectors], bits)
  }

  /** What comes after equal beginnings is not lower in the one than in the other. */
  lemma NotLower(before: seq<bool>, ds: seq<int>, after: seq<bool>, ds': seq<int>, after': seq<bool>, i: nat)
    requires |before| == |after| == |after'| && Granted(before, ds, after) && Granted(before, ds', after')
    requires i < |ds| == |ds'| && forall k | 0 <= k < i :: ds[k] == ds'[k]
    ensures ds[i] >= ds'[i]
  {
  }

  /** From one map, the lowest n clear bits are always the same. */
  lemma {:induction false} GrantedOnce(before: seq<bool>, ds: seq<int>, after: seq<bool>,
                                       ds': seq<int>, after': seq<bool>, n: nat)
    requires |before| == |after| == |after'| && Granted(before, ds, after) && Granted(before, ds', after')
    requires n <= |ds| == |ds'|
    ensures forall k | 0 <= k < n :: ds[k] == ds'[k]
  {
    hide Granted;
    if n > 0 {
      GrantedOnce(before, ds, after, ds', after', n - 1);
      NotLower(before, ds, after, ds', after', n - 1);
      NotLower(before, ds', after', ds, after, n - 1);
    }
  }

  /** So two files of one size, each created when the same sectors are free, have the same sectors and bytes. */
  lemma FirstFitOnce(marked: set<int>, o: Owner, o': Owner, d: Image)
    requires FirstFit(marked, o) && FirstFit(marked, o') && o.header.numBytes == o'.header.numBytes
    ensures Data(o.header) == Data(o'.header) && Contents(d, o.header) == Contents(d, o'.header)
  {
    var n, bits := o.header.numSectors, MarkedBits(marked)[o.home := true];
    var ds, ds' := o.header.dataSectors[..n], o'.header.dataSectors[..n];
    var after: seq<bool> :| |after| == NUM_SECTORS && Granted(bits, ds, after);
    var after': seq<bool> :| |after'| == NUM_SECTORS && Granted(bits, ds', after');
    GrantedOnce(bits, ds, after, ds', after', n);
    assert forall i | 0 <= i < n :: o.header.dataSectors[i] == ds[i] && o'.header.dataSectors[i] == ds'[i];
    forall p | 0 <= p < o.header.numBytes ensures RawByte(d, o.header, p) == RawByte(d, o'.header, p) {
    }
  }

  /** What Create does to the catalog. */
  ghost predicate Enters(c: Catalog, c': Catalog, key: seq<Byte>, size: int) {
    exists slot: nat, e: Entry, o: Owner, bytes: seq<Byte> |
      Creation(c, slot, e, o) && c' == AfterCreation(c, slot, e, o, bytes) ::
      Key(e.name) == key && |bytes| == size == o.header.numBytes && FirstFit(c.marked, o)
  }

  /** What Remove does to it. */
  ghost predicate Takes(c: Catalog, c': Catalog, key: seq<Byte>) {
    key in Names(c.table) && Removal(c, SlotOf(c.table, key)) && c' == AfterRemoval(c, SlotOf(c.table, key))
  }

  /** After the header and both tables have been written, the disk is described by the enlarged catalog. */
  lemma CreationFlushed(c: Catalog, d: Image, d1: Image, d': Image, slot: nat, e: Entry, o: Owner)
    requires Consistent(c) && Describes(c, d) && Creation(c, slot, e, o)
    requires 0 <= o.home < NUM_SECTORS && WellFormed(o.header) && o.home !in Data(o.header)
    requires o.extent == {o.home} + Data(o.header) && forall s | s in o.extent :: 0 <= s < NUM_SECTORS
    requires d1 == d[o.home := d1[o.home]] && ParseHeader(d1[o.home]) == o.header
    requires SameOutside(d1, d', Data(c.owners[DIRECTORY].header) + Data(c.owners[FREE_MAP].header))
    requires StoredBits(Contents(d', c.owners[FREE_MAP].header)) == MarkedBits(c.marked + o.extent)
    requires ParseTable(Contents(d', c.owners[DIRECTORY].header)) == c.table[slot := e]
    ensures Consistent(AfterCreation(c, slot, e, o, Contents(d', o.header)))
    ensures Describes(AfterCreation(c, slot, e, o, Contents(d', o.header)), d')
  {
    SystemHeaders(c, d);
    assert SameOutside(d, d', TableSectors(c) + {o.home});
    assert o.home in o.extent;
    TablesRewritten(c, d, d', {o.home}, c.marked + o.extent, c.table[slot := e]);
    TablesMarked(c);
    assert d'[o.home] == d1[o.home];
    DescribesCreation(c, d, d', slot, e, o, Contents(d', o.header));
    CreatedConsistent(c, slot, e, o, Contents(d', o.header));
  }

  lemma TablesMarked(c: Catalog)
    requires Consistent(c)
    ensures TableSectors(c) <= c.marked
  {
    forall s | s in TableSectors(c) ensures s in c.marked {
      assert s in c.owners[FREE_MAP].extent || s in c.owners[DIRECTORY].extent;
      assert Owned(c.owners, s);
    }
  }

  /** The sector is where the header of the listed file is. */
  ghost predicate HomeOf(c: Catalog, d: Image, key: seq<Byte>, sector: int)
    requires Complete(c)
  {
    && key in Names(c.table)
    && var o := c.owners[SlotOf(c.table, key)];
       0 <= sector < NUM_SECTORS && sector == o.home && ParseHeader(d[sector]) == o.header
       && FileOn(d, o, c.contents[SlotOf(c.table, key)])
  }

  /** What Directory.Find returns for a name: the header sector of its file, or -1 if it is not listed. */
  lemma ListedSector(c: Catalog, d: Image, key: seq<Byte>, found: int)
    requires Consistent(c) && Describes(c, d)
    requires exists r :: IsIndexOf(c.table, key, r) && found == if r == -1 then -1 else c.table[r].sector
    ensures found == -1 <==> key !in Names(c.table)
    ensures found != -1 ==> HomeOf(c, d, key, found)
  {
    var r :| IsIndexOf(c.table, key, r) && found == if r == -1 then -1 else c.table[r].sector;
    if r != -1 {
      SlotUnique(c.table, r);
      assert FileOn(d, c.owners[r], c.contents[r]);
    }
  }

  /** What Deallocate and Clear leave of the marking when a file is removed. */
  lemma RemovedMarking(marked: set<int>, o: Owner, d: Image, bits: seq<bool>)
    requires |bits| == NUM_SECTORS && HeaderOn(d, o)
    requires forall s | 0 <= s < NUM_SECTORS :: bits[s] <==> MarkedBits(marked)[s] && s !in Data(o.header)
    ensures bits[o.home := false] == MarkedBits(marked - o.extent)
  {
  }

  /** The data sectors of a listed file are marked: Deallocate's assertion holds. */
  lemma ListedMarked(c: Catalog, d: Image, slot: nat)
    requires Consistent(c) && Describes(c, d) && slot in c.contents
    ensures HeaderOn(d, c.owners[slot])
    ensures forall s | s in Data(c.owners[slot].header) :: 0 <= s < NUM_SECTORS && MarkedBits(c.marked)[s]
  {
    assert FileOn(d, c.owners[slot], c.contents[slot]);
    ExtentMarked(c, slot);
    hide Consistent, FileOn;
  }

  lemma ExtentMarked(c: Catalog, f: int)
    requires Consistent(c) && f in c.owners
    ensures c.owners[f].extent <= c.marked
  {
    forall s | s in c.owners[f].extent ensures s in c.marked {
      assert Owned(c.owners, s);
    }
  }

  /** After both tables have been written, the disk is described by the reduced catalog. */
  lemma RemovalFlushed(c: Catalog, d: Image, d': Image, slot: nat)
    requires Consistent(c) && Describes(c, d) && Removal(c, slot)
    requires SameOutside(d, d', Data(c.owners[FREE_MAP].header) + Data(c.owners[DIRECTORY].header))
    requires StoredBits(Contents(d', c.owners[FREE_MAP].header)) == MarkedBits(c.marked - c.owners[slot].extent)
    requires ParseTable(Contents(d', c.owners[DIRECTORY].header)) == c.table[slot := c.table[slot].(inUse := false)]
    ensures Consistent(AfterRemoval(c, slot)) && Describes(AfterRemoval(c, slot), d')
  {
    SystemHeaders(c, d);
    assert SameOutside(d, d', TableSectors(c) + {});
    assert forall s | s in c.marked :: 0 <= s < NUM_SECTORS by { assert FreeMapOn(d, c.owners[FREE_MAP], c.marked); }
    TablesRewritten(c, d, d', {}, c.marked - c.owners[slot].extent, c.table[slot := c.table[slot].(inUse := false)]);
    DescribesRemoval(c, d, d', slot);
    RemovedConsistent(c, slot);
  }
}
