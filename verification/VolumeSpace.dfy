/** Conservation of sectors: every sector is free or belongs to exactly one file. */
module VolumeSpace {
  import opened Bytes
  import opened Sectors
  import opened BitMaps
  import opened FileHeaders
  import opened Directories
  import opened Volumes

  /** The sectors that a file of a given length takes. */
  function FileSectors(length: nat): (n: nat)
    ensures length <= MAX_FILE_SIZE ==> n <= 1 + NUM_DIRECT
  {
    1 + DivRoundUp(length, SECTOR_SIZE)
  }

  /** Together, the sectors of the files in the slots below n. */
  ghost function SlotSectors(contents: map<int, seq<Byte>>, n: nat): nat {
    if n == 0 then 0
    else SlotSectors(contents, n - 1) + (if n - 1 in contents then FileSectors(|contents[n - 1]|) else 0)
  }

  ghost function OwnedBelow(owners: map<int, Owner>, n: nat): set<int> {
    if n == 0 then {}
    else OwnedBelow(owners, n - 1) + (if n - 3 in owners then owners[n - 3].extent else {})
  }

  lemma {:induction false} OwnedBelowMeans(owners: map<int, Owner>, n: nat, s: int)
    ensures s in OwnedBelow(owners, n) <==> exists f :: f in owners && -2 <= f < n - 2 && s in owners[f].extent
  {
    if n > 0 {
      OwnedBelowMeans(owners, n - 1, s);
      if s in OwnedBelow(owners, n) && s !in OwnedBelow(owners, n - 1) {
        assert n - 3 in owners && s in owners[n - 3].extent;
      }
    }
  }

  ghost function ExtentsBelow(owners: map<int, Owner>, n: nat): nat {
    if n == 0 then 0
    else ExtentsBelow(owners, n - 1) + (if n - 3 in owners then |owners[n - 3].extent| else 0)
  }

  lemma {:induction false} DisjointUnion(owners: map<int, Owner>, n: nat)
    requires Disjoint(owners)
    ensures |OwnedBelow(owners, n)| == ExtentsBelow(owners, n)
  {
    if n > 0 {
      DisjointUnion(owners, n - 1);
      if n - 3 in owners {
        var extent := owners[n - 3].extent;
        forall s | s in OwnedBelow(owners, n - 1) ensures s !in extent {
          OwnedBelowMeans(owners, n - 1, s);
        }
        assert OwnedBelow(owners, n - 1) !! owners[n - 3].extent;
      }
    }
  }

  /** A well-formed header's data sectors are as many as it says. */
  lemma {:induction false} DataCount(ds: seq<Int32>, n: nat)
    requires n <= |ds|
    requires forall i, j | 0 <= i < j < n :: ds[i] != ds[j]
    ensures |set i | 0 <= i < n :: ds[i]| == n
  {
    if n > 0 {
      DataCount(ds, n - 1);
      assert (set i | 0 <= i < n :: ds[i]) == (set i | 0 <= i < n - 1 :: ds[i]) + {ds[n - 1]};
    }
  }

  lemma ExtentCount(d: Image, o: Owner)
    requires HeaderOn(d, o)
    ensures |o.extent| == FileSectors(o.header.numBytes)
  {
    DataCount(o.header.dataSectors, o.header.numSectors);
    assert |Data(o.header)| == o.header.numSectors;
  }

  lemma {:induction false} ClearCount(bits: seq<bool>, marked: set<int>)
    requires forall s | s in marked :: 0 <= s < |bits|
    requires forall s | 0 <= s < |bits| :: bits[s] <==> s in marked
    ensures CountClear(bits) == |bits| - |marked|
  {
    if bits == [] {
      assert forall s :: s !in marked;
      assert marked <= {};
    } else {
      var n := |bits| - 1;
      assert bits == bits[..n] + [bits[n]];
      CountClearAppend(bits[..n], bits[n]);
      ClearCount(bits[..n], marked - {n});
    }
  }

  /** Every listed file takes as many sectors as its length calls for. */
  ghost predicate Sized(c: Catalog) {
    && FREE_MAP in c.owners && |c.owners[FREE_MAP].extent| == FileSectors(FREE_MAP_FILE_SIZE)
    && DIRECTORY in c.owners && |c.owners[DIRECTORY].extent| == FileSectors(DIRECTORY_FILE_SIZE)
    && (forall f | f in c.contents :: |c.contents[f]| <= MAX_FILE_SIZE)
    && (forall f | f in c.contents :: f in c.owners && |c.owners[f].extent| == FileSectors(|c.contents[f]|))
    && (forall f | f in c.owners && f >= 0 :: f in c.contents)
  }

  lemma DescribedSizes(c: Catalog, d: Image)
    requires Describes(c, d)
    ensures Sized(c)
  {
    ExtentCount(d, c.owners[FREE_MAP]);
    ExtentCount(d, c.owners[DIRECTORY]);
    forall f | f in c.contents
      ensures |c.contents[f]| <= MAX_FILE_SIZE && |c.owners[f].extent| == FileSectors(|c.contents[f]|)
    {
      assert FileOn(d, c.owners[f], c.contents[f]);
      ExtentCount(d, c.owners[f]);
    }
  }

  lemma {:induction false} ListedSectors(c: Catalog, n: nat)
    requires Sized(c)
    ensures ExtentsBelow(c.owners, n + 2) == 5 + SlotSectors(c.contents, n)
  {
    if n == 0 {
      assert ExtentsBelow(c.owners, 1) == 2;
    } else {
      ListedSectors(c, n - 1);
    }
  }

  lemma {:induction false} SlotSectorsBound(c: Catalog, n: nat)
    requires Sized(c)
    ensures SlotSectors(c.contents, n) <= n * (1 + NUM_DIRECT)
  {
    if n > 0 {
      SlotSectorsBound(c, n - 1);
    }
  }

  lemma MarkedCount(c: Catalog)
    requires Consistent(c)
    ensures |c.marked| == ExtentsBelow(c.owners, NUM_DIR_ENTRIES + 2)
  {
    forall s ensures s in c.marked <==> s in OwnedBelow(c.owners, NUM_DIR_ENTRIES + 2) {
      OwnedBelowMeans(c.owners, NUM_DIR_ENTRIES + 2, s);
      if Owned(c.owners, s) {
        var f :| f in c.owners && s in c.owners[f].extent;
        assert f in {FREE_MAP, DIRECTORY} + Slots(c.table);
        assert -2 <= f < NUM_DIR_ENTRIES;
      }
    }
    assert c.marked == OwnedBelow(c.owners, NUM_DIR_ENTRIES + 2);
    DisjointUnion(c.owners, NUM_DIR_ENTRIES + 2);
  }

  /** The free sectors of a consistent volume are those not taken by its files and the five of the system. */
  lemma FreeSpace(c: Catalog, d: Image)
    requires Consistent(c) && Describes(c, d)
    ensures CountClear(MarkedBits(c.marked)) == NUM_SECTORS - 5 - SlotSectors(c.contents, NUM_DIR_ENTRIES)
  {
    MarkedCount(c);
    DescribedSizes(c, d);
    ListedSectors(c, NUM_DIR_ENTRIES);
    ClearCount(MarkedBits(c.marked), c.marked);
  }

  /** The directory fills up before the disk does: there is always room for one more file of the largest size. */
  lemma RoomForAnother(c: Catalog, d: Image)
    requires Consistent(c) && Describes(c, d)
    ensures CountClear(MarkedBits(c.marked)) >= 1 + NUM_DIRECT
  {
    FreeSpace(c, d);
    DescribedSizes(c, d);
    SlotSectorsBound(c, NUM_DIR_ENTRIES);
  }

  /** So Find finds a sector for the header, and enough are left for the data. */
  lemma FreeSectorFound(c: Catalog, d: Image)
    requires Consistent(c) && Describes(c, d)
    ensures var s := FirstClear(MarkedBits(c.marked));
            0 <= s < NUM_SECTORS && s !in c.marked && CountClear(MarkedBits(c.marked)[s := true]) >= NUM_DIRECT
    ensures forall s | s in c.marked :: 0 <= s < NUM_SECTORS
  {
    RoomForAnother(c, d);
    FirstClearMeans(MarkedBits(c.marked));
    if FirstClear(MarkedBits(c.marked)) == -1 {
      CountClearZero(MarkedBits(c.marked));
    } else {
      CountClearMark(MarkedBits(c.marked), FirstClear(MarkedBits(c.marked)));
    }
  }

  /*** The number of files ***/

  ghost function NamesBelow(t: seq<Entry>, n: nat): set<seq<Byte>>
    requires n <= |t|
  {
    if n == 0 then {} else NamesBelow(t, n - 1) + (if t[n - 1].inUse then {Key(t[n - 1].name)} else {})
  }

  ghost function UsedBelow(t: seq<Entry>, n: nat): (used: nat)
    requires n <= |t|
    ensures used <= n
    ensures used == n <==> forall i | 0 <= i < n :: t[i].inUse
  {
    if n == 0 then 0 else UsedBelow(t, n - 1) + (if t[n - 1].inUse then 1 else 0)
  }

  lemma {:induction false} NamesCount(t: seq<Entry>, n: nat)
    requires DistinctNames(t) && n <= |t|
    ensures |NamesBelow(t, n)| == UsedBelow(t, n)
  {
    if n > 0 {
      NamesCount(t, n - 1);
      if t[n - 1].inUse {
        NamesBelowMeans(t, n - 1, Key(t[n - 1].name));
      }
    }
  }

  lemma {:induction false} NamesBelowMeans(t: seq<Entry>, n: nat, key: seq<Byte>)
    requires n <= |t|
    ensures key in NamesBelow(t, n) <==> exists i :: 0 <= i < n && Named(t[i], key)
  {
    if n > 0 {
      NamesBelowMeans(t, n - 1, key);
      if key in NamesBelow(t, n) && key !in NamesBelow(t, n - 1) {
        assert Named(t[n - 1], key);
      }
    }
  }

  /** The directory is full exactly when there are as many files as entries. */
  lemma FullDirectory(c: Catalog)
    requires Consistent(c)
    ensures |Files(c)| <= NUM_DIR_ENTRIES
    ensures |Files(c)| == NUM_DIR_ENTRIES <==> IsFreeIndex(c.table, -1)
  {
    NamesCount(c.table, NUM_DIR_ENTRIES);
    forall key ensures key in Names(c.table) <==> key in NamesBelow(c.table, NUM_DIR_ENTRIES) {
      NamesBelowMeans(c.table, NUM_DIR_ENTRIES, key);
    }
    assert Names(c.table) == NamesBelow(c.table, NUM_DIR_ENTRIES);
    assert |Files(c)| == |Files(c).Keys|;
  }
}
