/**
 The meaning of a disk image: a catalog says which sectors belong to which file and what
 the files hold. A consistent catalog stands for a map from names to contents.
 */
module Volumes {
  import opened Bytes
  import opened Sectors
  import opened BitMaps
  import opened FileHeaders
  import opened Directories

  const FREE_MAP_SECTOR: nat := 0
  const DIRECTORY_SECTOR: nat := 1
  const NUM_DIR_ENTRIES: nat := 10
  /** A bit for each of the 1024 sectors. */
  const FREE_MAP_FILE_SIZE: nat := 128
  /** Ten entries of twenty bytes. */
  const DIRECTORY_FILE_SIZE: nat := 200

  /** The two system files own sectors like every other file; a listed file is known by its directory slot. */
  const FREE_MAP: int := -2
  const DIRECTORY: int := -1

  /** A file's header, where it is stored, and every sector the file takes. */
  datatype Owner = Owner(home: int, header: Header, extent: set<int>)

  datatype Catalog = Catalog(
    marked: set<int>,
    table: seq<Entry>,
    owners: map<int, Owner>,
    contents: map<int, seq<Byte>>)

  /*** Ownership ***/

  ghost function Slots(t: seq<Entry>): set<int> {
    set i | 0 <= i < |t| && t[i].inUse
  }

  ghost predicate DistinctNames(t: seq<Entry>) {
    forall i, j | 0 <= i < j < |t| && t[i].inUse && t[j].inUse :: Key(t[i].name) != Key(t[j].name)
  }

  /** The files of a catalog are the two system files and those in use in the table. */
  ghost predicate Complete(c: Catalog) {
    && |c.table| == NUM_DIR_ENTRIES
    && c.owners.Keys == {FREE_MAP, DIRECTORY} + Slots(c.table)
    && c.contents.Keys == Slots(c.table)
    && (forall f | f in c.contents :: c.owners[f].home == c.table[f].sector)
    && c.owners[FREE_MAP].home == FREE_MAP_SECTOR
    && c.owners[DIRECTORY].home == DIRECTORY_SECTOR
  }

  ghost predicate Owned(owners: map<int, Owner>, s: int) {
    exists f :: f in owners && s in owners[f].extent
  }

  ghost predicate Disjoint(owners: map<int, Owner>) {
    forall f, g | f in owners && g in owners && f != g :: owners[f].extent !! owners[g].extent
  }

  /** No two files share a sector, exactly the owned sectors are marked, and names differ. */
  ghost predicate Consistent(c: Catalog) {
    && Complete(c)
    && Disjoint(c.owners)
    && (forall s :: s in c.marked <==> Owned(c.owners, s))
    && DistinctNames(c.table)
  }

  /*** The map from names to contents ***/

  ghost function Names(t: seq<Entry>): set<seq<Byte>> {
    set i | 0 <= i < |t| && t[i].inUse :: Key(t[i].name)
  }

  ghost function SlotOf(t: seq<Entry>, key: seq<Byte>): (i: nat)
    requires key in Names(t)
    ensures i < |t| && Named(t[i], key)
  {
    var i :| 0 <= i < |t| && Named(t[i], key);
    i
  }

  ghost function Files(c: Catalog): (m: map<seq<Byte>, seq<Byte>>)
    requires Complete(c)
    ensures m.Keys == Names(c.table)
  {
    map key | key in Names(c.table) :: c.contents[SlotOf(c.table, key)]
  }

  lemma SlotUnique(t: seq<Entry>, i: nat)
    requires DistinctNames(t) && i < |t| && t[i].inUse
    ensures Key(t[i].name) in Names(t) && SlotOf(t, Key(t[i].name)) == i
  {
  }

  /** h is the header of the file listed under a key: what a handle opened on it holds. */
  ghost predicate Bound(c: Catalog, h: Header, key: seq<Byte>)
    requires Complete(c)
  {
    key in Names(c.table) && h == c.owners[SlotOf(c.table, key)].header
  }

  /*** Reading a catalog off the disk ***/

  ghost predicate HeaderOn(d: Image, o: Owner) {
    && 0 <= o.home < NUM_SECTORS
    && WellFormed(o.header) && o.home !in Data(o.header)
    && o.extent == {o.home} + Data(o.header)
    && ParseHeader(d[o.home]) == o.header
  }

  ghost function MarkedBits(marked: set<int>): (bits: seq<bool>)
    ensures |bits| == NUM_SECTORS
  {
    seq(NUM_SECTORS, s => s in marked)
  }

  /** The bits that the contents of the free-map file hold. */
  ghost function StoredBits(contents: seq<Byte>): (bits: seq<bool>)
    requires |contents| == FREE_MAP_FILE_SIZE
    ensures |bits| == NUM_SECTORS
  {
    BitsOf(DecodeWords(contents), NUM_SECTORS)
  }

  ghost predicate FreeMapOn(d: Image, o: Owner, marked: set<int>) {
    && HeaderOn(d, o) && o.header.numBytes == FREE_MAP_FILE_SIZE
    && StoredBits(Contents(d, o.header)) == MarkedBits(marked)
    && (forall s | s in marked :: 0 <= s < NUM_SECTORS)
  }

  ghost predicate TableOn(d: Image, o: Owner, t: seq<Entry>) {
    && HeaderOn(d, o) && o.header.numBytes == DIRECTORY_FILE_SIZE
    && ParseTable(Contents(d, o.header)) == t
  }

  ghost predicate FileOn(d: Image, o: Owner, contents: seq<Byte>) {
    HeaderOn(d, o) && Contents(d, o.header) == contents
  }

  ghost predicate Describes(c: Catalog, d: Image) {
    && Complete(c)
    && FreeMapOn(d, c.owners[FREE_MAP], c.marked)
    && TableOn(d, c.owners[DIRECTORY], c.table)
    && (forall f | f in c.contents :: FileOn(d, c.owners[f], c.contents[f]))
  }

  lemma OwnerOnce(d: Image, o: Owner, o': Owner)
    requires HeaderOn(d, o) && HeaderOn(d, o') && o.home == o'.home
    ensures o == o'
  {
  }

  lemma TablesOnce(c: Catalog, c': Catalog, d: Image)
    requires Describes(c, d) && Describes(c', d)
    ensures c.table == c'.table && c.marked == c'.marked
    ensures c.owners[FREE_MAP] == c'.owners[FREE_MAP] && c.owners[DIRECTORY] == c'.owners[DIRECTORY]
  {
    OwnerOnce(d, c.owners[FREE_MAP], c'.owners[FREE_MAP]);
    OwnerOnce(d, c.owners[DIRECTORY], c'.owners[DIRECTORY]);
    forall s | 0 <= s < NUM_SECTORS ensures s in c.marked <==> s in c'.marked {
      assert MarkedBits(c.marked)[s] == MarkedBits(c'.marked)[s];
    }
  }

  lemma FilesOnce(c: Catalog, c': Catalog, d: Image)
    requires Describes(c, d) && Describes(c', d)
    ensures forall f | f in c.contents && f in c'.contents ::
              c.contents[f] == c'.contents[f] && c.owners[f] == c'.owners[f]
  {
    TablesOnce(c, c', d);
    forall f | f in c.contents && f in c'.contents
      ensures c.contents[f] == c'.contents[f] && c.owners[f] == c'.owners[f]
    {
      OwnerOnce(d, c.owners[f], c'.owners[f]);
    }
  }

  /** Maps with equal keys and equal values are equal; of use where unfolding their definitions is costly. */
  lemma SameOwners(m: map<int, Owner>, m': map<int, Owner>, keys: set<int>)
    requires m.Keys == {FREE_MAP, DIRECTORY} + keys && m'.Keys == {FREE_MAP, DIRECTORY} + keys
    requires m[FREE_MAP] == m'[FREE_MAP] && m[DIRECTORY] == m'[DIRECTORY]
    requires forall f | f in keys :: m[f] == m'[f]
    ensures m == m'
  {
    assert m.Keys == m'.Keys;
    forall f | f in m ensures m[f] == m'[f] {
      assert f in {FREE_MAP, DIRECTORY} + keys;
    }
  }

  /** The sectors of the disk determine the catalog: nothing of it is kept elsewhere. */
  lemma DescribedOnce(c: Catalog, c': Catalog, d: Image)
    requires Describes(c, d) && Describes(c', d)
    ensures c == c'
  {
    TablesOnce(c, c', d);
    SlotsOnce(c, c');
    FilesOnce(c, c', d);
    SameOwners(c.owners, c'.owners, c.contents.Keys);
    SameMap(c.contents, c'.contents);
  }

  /** The directory's table tells which slots have files. */
  lemma SlotsOnce(c: Catalog, c': Catalog)
    requires Complete(c) && Complete(c') && c.table == c'.table
    ensures c.contents.Keys == c'.contents.Keys && c.owners.Keys == c'.owners.Keys
  {
  }

  lemma SameMap<K, V>(a: map<K, V>, b: map<K, V>)
    requires a.Keys == b.Keys && forall k | k in a && k in b :: a[k] == b[k]
    ensures a == b
  {
    assert forall k :: k in a <==> k in b;
    assert forall k | k in a :: a[k] == b[k];
  }

  /** d' differs from d at most at the sectors of w. */
  ghost predicate SameOutside(d: Image, d': Image, w: set<int>) {
    forall s | 0 <= s < NUM_SECTORS && s !in w :: d'[s] == d[s]
  }

  /** A file none of whose sectors changed is the same file with the same contents. */
  lemma FileKept(d: Image, d': Image, o: Owner, w: set<int>)
    requires HeaderOn(d, o) && SameOutside(d, d', w) && o.extent !! w
    ensures HeaderOn(d', o) && Contents(d', o.header) == Contents(d, o.header)
  {
    assert o.home in o.extent;
    forall s | s in Data(o.header) ensures d'[s] == d[s] {
      assert s in o.extent;
    }
    ContentsFrame(d, d', o.header);
  }

  /** A file stays in place, if not with its contents, when only its data sectors and other files' change. */
  lemma HeaderKept(d: Image, d': Image, o: Owner, w: set<int>)
    requires HeaderOn(d, o) && SameOutside(d, d', w) && o.home !in w
    ensures HeaderOn(d', o)
  {
  }
}
