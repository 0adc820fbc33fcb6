/**
 The directory: a fixed table of (in use, header sector, name) entries, stored as an
 ordinary file. Names are compared and copied with strncmp and strncpy on nine characters.
 */
module Directories {
  import opened Bytes
  import opened Sectors
  import opened FileHeaders
  import opened OpenFiles

  const FILE_NAME_MAX_LEN: nat := 9
  const ENTRY_SIZE: nat := 20

  /** A name as C sees it: the characters before the terminating zero. */
  ghost predicate CString(s: seq<Byte>) {
    forall i | 0 <= i < |s| :: s[i] != 0
  }

  /*** Names ***/

  /** The i-th character of a string that is followed by a zero. */
  function CharAt(s: seq<Byte>, i: nat): Byte {
    if i < |s| then s[i] else 0
  }

  /** strncmp(s, t, n) == 0, from character i on. */
  predicate StrNEqual(s: seq<Byte>, t: seq<Byte>, n: nat, i: nat)
    decreases n - i
  {
    if i >= n then true
    else if CharAt(s, i) != CharAt(t, i) then false
    else if CharAt(s, i) == 0 then true
    else StrNEqual(s, t, n, i + 1)
  }

  /** strncpy(target, s, n): copies and pads with zeros, and leaves the rest of target alone. */
  function StrNCpy(target: seq<Byte>, s: seq<Byte>, n: nat): (r: seq<Byte>)
    ensures |r| == |target|
  {
    seq(|target|, i requires 0 <= i < |target| => if i < n then CharAt(s, i) else target[i])
  }

  /** The part of a name that the directory distinguishes: at most nine characters. */
  function KeyFrom(s: seq<Byte>, i: nat): (k: seq<Byte>)
    ensures |k| <= if i < FILE_NAME_MAX_LEN then FILE_NAME_MAX_LEN - i else 0
    decreases FILE_NAME_MAX_LEN - i
  {
    if i >= FILE_NAME_MAX_LEN || CharAt(s, i) == 0 then [] else [CharAt(s, i)] + KeyFrom(s, i + 1)
  }

  function Key(s: seq<Byte>): (k: seq<Byte>)
    ensures |k| <= FILE_NAME_MAX_LEN
  {
    KeyFrom(s, 0)
  }

  lemma {:induction false} EqualKeys(s: seq<Byte>, t: seq<Byte>, i: nat)
    ensures StrNEqual(s, t, FILE_NAME_MAX_LEN, i) <==> KeyFrom(s, i) == KeyFrom(t, i)
    decreases FILE_NAME_MAX_LEN - i
  {
    if i < FILE_NAME_MAX_LEN {
      EqualKeys(s, t, i + 1);
      if CharAt(s, i) != 0 && CharAt(t, i) != 0 {
        assert KeyFrom(s, i)[0] == CharAt(s, i) && KeyFrom(s, i)[1..] == KeyFrom(s, i + 1);
        assert KeyFrom(t, i)[0] == CharAt(t, i) && KeyFrom(t, i)[1..] == KeyFrom(t, i + 1);
      }
    }
  }

  lemma {:induction false} CopiedKey(target: seq<Byte>, s: seq<Byte>, i: nat)
    requires |target| == FILE_NAME_MAX_LEN + 1
    ensures KeyFrom(StrNCpy(target, s, FILE_NAME_MAX_LEN), i) == KeyFrom(s, i)
    decreases FILE_NAME_MAX_LEN - i
  {
    if i < FILE_NAME_MAX_LEN {
      CopiedKey(target, s, i + 1);
    }
  }

  /** The key of a C string is its first nine characters. */
  lemma {:induction false} KeyIsPrefix(s: seq<Byte>, i: nat)
    requires CString(s) && i <= |s|
    ensures KeyFrom(s, i) ==
      if |s| <= FILE_NAME_MAX_LEN then s[i..] else if i < FILE_NAME_MAX_LEN then s[i..FILE_NAME_MAX_LEN] else []
    decreases |s| - i
  {
    if i < FILE_NAME_MAX_LEN && i < |s| {
      KeyIsPrefix(s, i + 1);
    }
  }

  /*** Entries ***/

  datatype DirectoryEntry = DirectoryEntry(inUse: bool, sector: Int32, name: seq<Byte>)

  const NO_NAME: seq<Byte> := seq(FILE_NAME_MAX_LEN + 1, _ => 0)
  type Entry = e: DirectoryEntry | |e.name| == FILE_NAME_MAX_LEN + 1 witness DirectoryEntry(false, 0, NO_NAME)

  /** The layout of an entry: the flag, the sector at offset 4, the name at offset 8, and two bytes of padding. */
  function EntryBytes(e: Entry): (b: seq<Byte>)
    ensures |b| == ENTRY_SIZE
  {
    [if e.inUse then 1 else 0, 0, 0, 0] + IntBytes(e.sector) + e.name + [0, 0]
  }

  function ParseEntry(b: seq<Byte>): Entry
    requires |b| == ENTRY_SIZE
  {
    DirectoryEntry(b[0] != 0, BytesInt(b[4..8]), b[8..18])
  }

  lemma TableByte(t: seq<Entry>, i: nat, k: nat)
    requires i < |t| && k < ENTRY_SIZE
    ensures TableBytes(t)[ENTRY_SIZE * i + k] == EntryBytes(t[i])[k]
  {
    hide EntryBytes;
    assert (ENTRY_SIZE * i + k) / ENTRY_SIZE == i && (ENTRY_SIZE * i + k) % ENTRY_SIZE == k;
  }

  lemma TableSlice(t: seq<Entry>, i: nat)
    requires i < |t|
    ensures TableBytes(t)[ENTRY_SIZE * i..ENTRY_SIZE * i + ENTRY_SIZE] == EntryBytes(t[i])
  {
    hide EntryBytes, TableBytes;
    var b := TableBytes(t)[ENTRY_SIZE * i..ENTRY_SIZE * i + ENTRY_SIZE];
    forall k | 0 <= k < ENTRY_SIZE ensures b[k] == EntryBytes(t[i])[k] {
      TableByte(t, i, k);
    }
  }

  lemma EntryLayout(e: Entry)
    ensures var b := EntryBytes(e);
      b[0] == (if e.inUse then 1 else 0) && b[4..8] == IntBytes(e.sector) && b[8..18] == e.name
  {
  }

  /** Where an entry and its fields lie in the bytes of a table. */
  lemma TableLayout(t: seq<Entry>, i: nat)
    requires i < |t|
    ensures ENTRY_SIZE == 20 && FILE_NAME_MAX_LEN == 9 && |TableBytes(t)| == 20 * |t|
    ensures var b := TableBytes(t)[20 * i..20 * i + 20];
      b[0] == (if t[i].inUse then 1 else 0) && b[4..8] == IntBytes(t[i].sector) && b[8..18] == t[i].name
  {
    TableSlice(t, i);
    EntryLayout(t[i]);
  }

  lemma EntryRoundTrip(e: Entry)
    ensures ParseEntry(EntryBytes(e)) == e
  {
    var b := EntryBytes(e);
    assert b[4..8] == IntBytes(e.sector);
    assert b[8..18] == e.name;
    IntRoundTrip(e.sector);
  }

  function TableBytes(t: seq<Entry>): (b: seq<Byte>)
    ensures |b| == ENTRY_SIZE * |t|
  {
    seq(ENTRY_SIZE * |t|, i requires 0 <= i < ENTRY_SIZE * |t| => EntryBytes(t[i / ENTRY_SIZE])[i % ENTRY_SIZE])
  }

  function ParseTable(b: seq<Byte>): (t: seq<Entry>)
    ensures |t| == |b| / ENTRY_SIZE
  {
    seq(|b| / ENTRY_SIZE, i requires 0 <= i < |b| / ENTRY_SIZE =>
      ParseEntry(b[ENTRY_SIZE * i..ENTRY_SIZE * i + ENTRY_SIZE]))
  }

  lemma TableRoundTrip(t: seq<Entry>)
    ensures ParseTable(TableBytes(t)) == t
  {
    hide EntryBytes, ParseEntry;
    forall i | 0 <= i < |t| ensures ParseTable(TableBytes(t))[i] == t[i] {
      TableSlice(t, i);
      EntryRoundTrip(t[i]);
    }
  }

  /** An entry in use under a key. */
  predicate Named(e: Entry, key: seq<Byte>) {
    e.inUse && Key(e.name) == key
  }

  /** r is the first entry of t in use under a key, or -1 when there is none. */
  ghost predicate IsIndexOf(t: seq<Entry>, key: seq<Byte>, r: int) {
    && -1 <= r < |t|
    && (forall i | 0 <= i < (if r == -1 then |t| else r) :: !Named(t[i], key))
    && (r != -1 ==> Named(t[r], key))
  }

  /** r is the first free entry of t, or -1 when the table is full. */
  ghost predicate IsFreeIndex(t: seq<Entry>, r: int) {
    && -1 <= r < |t|
    && (forall i | 0 <= i < (if r == -1 then |t| else r) :: t[i].inUse)
    && (r != -1 ==> !t[r].inUse)
  }

  class Directory {
    const tableSize: nat
    const table: array<Entry>

    ghost predicate Valid() {
      table.Length == tableSize
    }

    constructor (size: nat)
      ensures Valid() && fresh(table) && tableSize == size
      ensures forall i | 0 <= i < size :: !table[i].inUse
    {
      table := new Entry[size];
      tableSize := size;
      new;
      var i := 0;
      while i < tableSize
        invariant i <= tableSize
        invariant forall j | 0 <= j < i :: !table[j].inUse
      {
        table[i] := table[i].(inUse := false);
        i := i + 1;
      }
    }

    /** Reads the table from a file: one that holds all of it replaces it all, a shorter one its first bytes. */
    method FetchFrom(file: OpenFile)
      requires Valid() && file.Valid() && ENTRY_SIZE * tableSize <= INT_MAX
      modifies table
      ensures table[..] == ParseTable(
          Overlay(TableBytes(old(table[..])), 0,
                  Window(old(file.Stored()), 0, Transferred(ENTRY_SIZE * tableSize, 0, file.hdr.numBytes))))
      ensures file.hdr.numBytes >= ENTRY_SIZE * tableSize ==>
                table[..] == ParseTable(old(file.Stored())[..ENTRY_SIZE * tableSize])
    {
      var bytes := file.ReadOver(TableBytes(table[..]));
      var t := ParseTable(bytes);
      forall i | 0 <= i < tableSize {
        table[i] := t[i];
      }
      assert table[..] == t;
    }

    /** Writes as much of the table as the file holds; from one of exactly its size FetchFrom recovers it. */
    method WriteBack(file: OpenFile)
      requires Valid() && file.Valid() && ENTRY_SIZE * tableSize <= INT_MAX
      modifies file.disk
      ensures file.Valid() && file.hdr.View() == old(file.hdr.View())
      ensures file.Stored() == Overlay(old(file.Stored()), 0,
          TableBytes(table[..])[..Transferred(ENTRY_SIZE * tableSize, 0, file.hdr.numBytes)])
      ensures file.hdr.numBytes == ENTRY_SIZE * tableSize ==> ParseTable(file.Stored()) == table[..]
      ensures forall s | 0 <= s < NUM_SECTORS && s !in Data(file.hdr.View()) ::
                file.disk.sectors[s] == old(file.disk.sectors)[s]
    {
      file.WriteOver(TableBytes(table[..]));
      TableRoundTrip(table[..]);
    }

    /** The index of a name in the table, or -1. */
    method FindIndex(name: seq<Byte>) returns (r: int)
      requires Valid()
      ensures IsIndexOf(table[..], Key(name), r)
    {
      var i := 0;
      while i < tableSize
        invariant i <= tableSize
        invariant forall j | 0 <= j < i :: !Named(table[j], Key(name))
      {
        EqualKeys(table[i].name, name, 0);
        if table[i].inUse && StrNEqual(table[i].name, name, FILE_NAME_MAX_LEN, 0) {
          return i;
        }
        i := i + 1;
      }
      return -1;
    }

    /** The header sector of a file, or -1. */
    method Find(name: seq<Byte>) returns (sector: int)
      requires Valid()
      ensures exists r :: IsIndexOf(table[..], Key(name), r) && sector == if r == -1 then -1 else table[r].sector
    {
      var i := FindIndex(name);
      if i != -1 {
        return table[i].sector;
      }
      return -1;
    }

    /** Enters a name in the first free entry. */
    method Add(name: seq<Byte>, newSector: Int32) returns (ok: bool)
      requires Valid()
      modifies table
      ensures ok <==> IsIndexOf(old(table[..]), Key(name), -1) && !IsFreeIndex(old(table[..]), -1)
      ensures !ok ==> table[..] == old(table[..])
      ensures ok ==> exists r: nat, e: Entry | IsFreeIndex(old(table[..]), r) && table[..] == old(table[..])[r := e] ::
                       e.sector == newSector && Named(e, Key(name))
    {
      var index := FindIndex(name);
      if index != -1 {
        return false;
      }
      var i := 0;
      while i < tableSize
        invariant i <= tableSize && table[..] == old(table[..])
        invariant forall j | 0 <= j < i :: table[j].inUse
      {
        if !table[i].inUse {
          ghost var t := table[..];
          var e: Entry := DirectoryEntry(true, newSector, StrNCpy(table[i].name, name, FILE_NAME_MAX_LEN));
          CopiedKey(table[i].name, name, 0);
          table[i] := e;
          assert IsFreeIndex(t, i) && table[..] == t[i := e] && Named(e, Key(name));
          return true;
        }
        i := i + 1;
      }
      return false;
    }

    /** Frees the entry of a name. */
    method Remove(name: seq<Byte>) returns (ok: bool)
      requires Valid()
      modifies table
      ensures ok <==> !IsIndexOf(old(table[..]), Key(name), -1)
      ensures !ok ==> table[..] == old(table[..])
      ensures ok ==> exists r: nat | IsIndexOf(old(table[..]), Key(name), r) ::
                       table[..] == old(table[..])[r := old(table[..])[r].(inUse := false)]
    {
      var i := FindIndex(name);
      if i == -1 {
        return false;
      }
      ghost var t := table[..];
      table[i] := table[i].(inUse := false);
      assert IsIndexOf(t, Key(name), i) && table[..] == t[i := t[i].(inUse := false)];
      return true;
    }
  }
}
