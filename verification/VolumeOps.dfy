/**
 What creating, removing and writing files does to the catalog: it stays consistent, and
 the map from names to contents changes in exactly the intended way.
 */
module VolumeOps {
  import opened Bytes
  import opened Sectors
  import opened Directories
  import opened Volumes

  /*** Names ***/

  lemma NamesAdded(t: seq<Entry>, slot: nat, e: Entry)
    requires DistinctNames(t) && slot < |t| && !t[slot].inUse
    requires e.inUse && Key(e.name) !in Names(t)
    ensures DistinctNames(t[slot := e]) && Names(t[slot := e]) == Names(t) + {Key(e.name)}
    ensures forall key | key in Names(t) :: SlotOf(t[slot := e], key) == SlotOf(t, key)
    ensures SlotOf(t[slot := e], Key(e.name)) == slot
  {
    var t' := t[slot := e];
    forall i, j | 0 <= i < j < |t| && t'[i].inUse && t'[j].inUse ensures Key(t'[i].name) != Key(t'[j].name) {
      if i == slot { assert Key(t[j].name) in Names(t); }
      if j == slot { assert Key(t[i].name) in Names(t); }
    }
    forall key ensures key in Names(t') <==> key in Names(t) + {Key(e.name)} {
      if key in Names(t) {
        var i := SlotOf(t, key);
        assert t'[i] == t[i];
      } else if key == Key(e.name) {
        assert t'[slot] == e;
      }
    }
    forall key | key in Names(t) ensures SlotOf(t', key) == SlotOf(t, key) {
      assert t'[SlotOf(t, key)] == t[SlotOf(t, key)];
      SlotUnique(t', SlotOf(t, key));
    }
    SlotUnique(t', slot);
  }

  lemma NamesRemoved(t: seq<Entry>, slot: nat, t': seq<Entry>)
    requires DistinctNames(t) && slot < |t| && t[slot].inUse
    requires t' == t[slot := t[slot].(inUse := false)]
    ensures DistinctNames(t') && Names(t') == Names(t) - {Key(t[slot].name)}
    ensures forall key | key in Names(t') :: SlotOf(t', key) == SlotOf(t, key)
  {
    forall key ensures key in Names(t') <==> key in Names(t) - {Key(t[slot].name)} {
      if key in Names(t) - {Key(t[slot].name)} {
        var i := SlotOf(t, key);
        assert t'[i] == t[i];
      }
    }
    forall key | key in Names(t') ensures SlotOf(t', key) == SlotOf(t, key) {
      SlotUnique(t, SlotOf(t', key));
    }
  }

  /*** Creation ***/

  /** A file is added in a free slot, under a new name, in sectors that were free. */
  ghost predicate Creation(c: Catalog, slot: nat, e: Entry, o: Owner) {
    && slot < |c.table| && !c.table[slot].inUse
    && e.inUse && Key(e.name) !in Names(c.table)
    && e.sector == o.home && o.extent !! c.marked
  }

  ghost function AfterCreation(c: Catalog, slot: nat, e: Entry, o: Owner, bytes: seq<Byte>): Catalog
    requires slot < |c.table|
  {
    Catalog(c.marked + o.extent, c.table[slot := e], c.owners[slot as int := o], c.contents[slot as int := bytes])
  }

  lemma CreatedOwned(owners: map<int, Owner>, slot: int, o: Owner, s: int)
    requires slot !in owners
    ensures Owned(owners[slot := o], s) <==> Owned(owners, s) || s in o.extent
  {
    var owners' := owners[slot := o];
    if Owned(owners, s) {
      var f :| f in owners && s in owners[f].extent;
      assert f in owners' && owners'[f] == owners[f];
    }
    if s in o.extent {
      assert slot in owners' && owners'[slot] == o;
    }
    if Owned(owners', s) {
      var f :| f in owners' && s in owners'[f].extent;
      assert f != slot ==> f in owners && owners'[f] == owners[f];
    }
  }

  lemma CreatedDisjoint(owners: map<int, Owner>, slot: int, o: Owner)
    requires slot !in owners && Disjoint(owners)
    requires forall s | s in o.extent :: !Owned(owners, s)
    ensures Disjoint(owners[slot := o])
  {
    forall f | f in owners ensures owners[f].extent !! o.extent {
      forall s | s in owners[f].extent ensures s !in o.extent {
        assert Owned(owners, s);
      }
    }
  }

  lemma CreatedComplete(c: Catalog, slot: nat, e: Entry, o: Owner, bytes: seq<Byte>)
    requires Complete(c) && Creation(c, slot, e, o)
    ensures Complete(AfterCreation(c, slot, e, o, bytes))
  {
    var c' := AfterCreation(c, slot, e, o, bytes);
    assert Slots(c'.table) == Slots(c.table) + {slot as int};
    assert c'.owners.Keys == c.owners.Keys + {slot as int};
    assert c'.contents.Keys == c.contents.Keys + {slot as int};
  }

  lemma CreatedConsistent(c: Catalog, slot: nat, e: Entry, o: Owner, bytes: seq<Byte>)
    requires Consistent(c) && Creation(c, slot, e, o)
    ensures Consistent(AfterCreation(c, slot, e, o, bytes))
  {
    var c' := AfterCreation(c, slot, e, o, bytes);
    CreatedComplete(c, slot, e, o, bytes);
    NamesAdded(c.table, slot, e);
    forall s ensures s in c'.marked <==> Owned(c'.owners, s) {
      CreatedOwned(c.owners, slot, o, s);
    }
    CreatedDisjoint(c.owners, slot, o);
  }

  /** A creation adds one file, keeps every other one, and marks the sectors of the new one. */
  lemma Created(c: Catalog, slot: nat, e: Entry, o: Owner, bytes: seq<Byte>)
    requires Consistent(c) && Creation(c, slot, e, o)
    ensures Consistent(AfterCreation(c, slot, e, o, bytes))
    ensures Files(AfterCreation(c, slot, e, o, bytes)) == Files(c)[Key(e.name) := bytes]
  {
    CreatedConsistent(c, slot, e, o, bytes);
    FilesAdded(c, slot, e, o, bytes);
  }

  lemma FilesAdded(c: Catalog, slot: nat, e: Entry, o: Owner, bytes: seq<Byte>)
    requires Complete(c) && DistinctNames(c.table) && Creation(c, slot, e, o)
    requires Complete(AfterCreation(c, slot, e, o, bytes))
    ensures Files(AfterCreation(c, slot, e, o, bytes)) == Files(c)[Key(e.name) := bytes]
  {
    var m := Files(c)[Key(e.name) := bytes];
    NamesAdded(c.table, slot, e);
    assert m.Keys == Names(c.table[slot := e]);
    hide *;
    forall key | key in Files(AfterCreation(c, slot, e, o, bytes)) && key in m
      ensures Files(AfterCreation(c, slot, e, o, bytes))[key] == m[key]
    {
      FileAdded(c, slot, e, o, bytes, key);
    }
    SameMap(Files(AfterCreation(c, slot, e, o, bytes)), m);
  }

  lemma FileAdded(c: Catalog, slot: nat, e: Entry, o: Owner, bytes: seq<Byte>, key: seq<Byte>)
    requires Complete(c) && DistinctNames(c.table) && Creation(c, slot, e, o)
    requires Complete(AfterCreation(c, slot, e, o, bytes)) && key in Files(AfterCreation(c, slot, e, o, bytes))
    ensures key == Key(e.name) || key in Files(c)
    ensures Files(AfterCreation(c, slot, e, o, bytes))[key] == if key == Key(e.name) then bytes else Files(c)[key]
  {
    NamesAdded(c.table, slot, e);
  }

  /** Every handle on a file stays bound to it when another file is created. */
  lemma CreatedBounds(c: Catalog, slot: nat, e: Entry, o: Owner, bytes: seq<Byte>)
    requires Consistent(c) && Creation(c, slot, e, o)
    ensures Complete(AfterCreation(c, slot, e, o, bytes))
    ensures forall h, key | Bound(c, h, key) :: Bound(AfterCreation(c, slot, e, o, bytes), h, key)
  {
    CreatedComplete(c, slot, e, o, bytes);
    NamesAdded(c.table, slot, e);
  }

  /*** Removal ***/

  ghost predicate Removal(c: Catalog, slot: nat) {
    slot < |c.table| && c.table[slot].inUse && slot in c.owners
  }

  ghost function AfterRemoval(c: Catalog, slot: nat): Catalog
    requires Removal(c, slot)
  {
    Catalog(
      c.marked - c.owners[slot].extent,
      c.table[slot := c.table[slot].(inUse := false)],
      c.owners - {slot as int},
      c.contents - {slot as int})
  }

  lemma RemovedComplete(c: Catalog, slot: nat)
    requires Complete(c) && Removal(c, slot)
    ensures Complete(AfterRemoval(c, slot))
  {
    var c' := AfterRemoval(c, slot);
    assert Slots(c'.table) == Slots(c.table) - {slot as int};
    assert c'.owners.Keys == c.owners.Keys - {slot as int};
    assert c'.contents.Keys == c.contents.Keys - {slot as int};
  }

  lemma RemovedOwned(owners: map<int, Owner>, slot: int, s: int)
    requires slot in owners && Disjoint(owners)
    ensures Owned(owners - {slot}, s) <==> Owned(owners, s) && s !in owners[slot].extent
  {
    var owners' := owners - {slot};
    if Owned(owners, s) && s !in owners[slot].extent {
      var f :| f in owners && s in owners[f].extent;
      assert f in owners' && owners'[f] == owners[f];
    }
    if Owned(owners', s) {
      var f :| f in owners' && s in owners'[f].extent;
      assert f in owners && owners'[f] == owners[f];
    }
  }

  lemma RemovedConsistent(c: Catalog, slot: nat)
    requires Consistent(c) && Removal(c, slot)
    ensures Consistent(AfterRemoval(c, slot))
  {
    var c' := AfterRemoval(c, slot);
    RemovedComplete(c, slot);
    NamesRemoved(c.table, slot, c'.table);
    forall s ensures s in c'.marked <==> Owned(c'.owners, s) {
      RemovedOwned(c.owners, slot, s);
    }
  }

  /** A removal takes one file away, keeps every other one, and frees exactly its sectors. */
  lemma Removed(c: Catalog, slot: nat)
    requires Consistent(c) && Removal(c, slot)
    ensures Consistent(AfterRemoval(c, slot))
    ensures Files(AfterRemoval(c, slot)) == Files(c) - {Key(c.table[slot].name)}
  {
    RemovedConsistent(c, slot);
    FilesRemoved(c, slot);
  }

  lemma FilesRemoved(c: Catalog, slot: nat)
    requires Complete(c) && DistinctNames(c.table) && Removal(c, slot) && Complete(AfterRemoval(c, slot))
    ensures Files(AfterRemoval(c, slot)) == Files(c) - {Key(c.table[slot].name)}
  {
    NamesRemoved(c.table, slot, AfterRemoval(c, slot).table);
    var m, m' := Files(c) - {Key(c.table[slot].name)}, Files(AfterRemoval(c, slot));
    forall key | key in m' && key in m ensures m'[key] == m[key] {
      FileLeft(c, slot, key);
    }
    SameMap(m', m);
  }

  lemma FileLeft(c: Catalog, slot: nat, key: seq<Byte>)
    requires Complete(c) && Removal(c, slot) && Complete(AfterRemoval(c, slot))
    requires key in Names(AfterRemoval(c, slot).table) && key in Names(c.table)
    requires SlotOf(AfterRemoval(c, slot).table, key) == SlotOf(c.table, key)
    ensures Files(AfterRemoval(c, slot))[key] == Files(c)[key]
  {
  }

  /** Every handle on a file stays bound to it when another file is removed. */
  lemma RemovedBounds(c: Catalog, slot: nat)
    requires Consistent(c) && Removal(c, slot)
    ensures Complete(AfterRemoval(c, slot))
    ensures forall h, key | Bound(c, h, key) && key != Key(c.table[slot].name) :: Bound(AfterRemoval(c, slot), h, key)
  {
    RemovedComplete(c, slot);
    NamesRemoved(c.table, slot, AfterRemoval(c, slot).table);
  }

  /** Removing the file that was just created restores the catalog, up to what is left in the free entry. */
  lemma CreateRemove(c: Catalog, slot: nat, e: Entry, o: Owner, bytes: seq<Byte>)
    requires Consistent(c) && Creation(c, slot, e, o)
    ensures Removal(AfterCreation(c, slot, e, o, bytes), slot)
    ensures AfterRemoval(AfterCreation(c, slot, e, o, bytes), slot) == c.(table := c.table[slot := e.(inUse := false)])
  {
    var c'' := AfterRemoval(AfterCreation(c, slot, e, o, bytes), slot);
    assert c''.marked == c.marked;
    assert c''.owners == c.owners;
    assert c''.contents == c.contents;
  }

  /*** Writing through a handle ***/

  ghost function AfterWrite(c: Catalog, key: seq<Byte>, position: nat, bytes: seq<Byte>): Catalog
    requires Complete(c) && key in Names(c.table)
  {
    var slot := SlotOf(c.table, key);
    c.(contents := c.contents[slot as int := Overlay(c.contents[slot], position, bytes)])
  }

  /** A write changes the bytes it covers of its own file, and nothing else in the volume. */
  lemma Written(c: Catalog, key: seq<Byte>, position: nat, bytes: seq<Byte>)
    requires Consistent(c) && key in Names(c.table)
    ensures Consistent(AfterWrite(c, key, position, bytes))
    ensures Files(AfterWrite(c, key, position, bytes)) == Files(c)[key := Overlay(Files(c)[key], position, bytes)]
  {
    WrittenConsistent(c, key, position, bytes);
    forall key' | key' in Names(c.table)
      ensures Files(AfterWrite(c, key, position, bytes))[key'] ==
        if key' == key then Overlay(Files(c)[key], position, bytes) else Files(c)[key']
    {
      WrittenFile(c, key, position, bytes, key');
    }
  }

  lemma WrittenFile(c: Catalog, key: seq<Byte>, position: nat, bytes: seq<Byte>, key': seq<Byte>)
    requires Consistent(c) && key in Names(c.table) && key' in Names(c.table)
    requires Consistent(AfterWrite(c, key, position, bytes))
    ensures Files(AfterWrite(c, key, position, bytes))[key'] ==
      if key' == key then Overlay(Files(c)[key], position, bytes) else Files(c)[key']
  {
  }

  lemma WrittenConsistent(c: Catalog, key: seq<Byte>, position: nat, bytes: seq<Byte>)
    requires Consistent(c) && key in Names(c.table)
    ensures Consistent(AfterWrite(c, key, position, bytes))
  {
    var c' := AfterWrite(c, key, position, bytes);
    assert c'.contents.Keys == c.contents.Keys;
    assert Complete(c');
  }
}
