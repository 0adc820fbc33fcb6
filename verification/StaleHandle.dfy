/**
 A handle keeps the header that it read when it was opened, whatever becomes of the file: after
 Remove, and perhaps another Create, writes through it go where the file used to be.
 */
module StaleHandles {
  import opened Bytes
  import opened Sectors
  import opened FileHeaders
  import opened Directories
  import opened Volumes
  import opened VolumeOps

  /** A change to sectors that are not marked leaves the volume as it is. */
  lemma DescribesUnmarked(c: Catalog, d: Image, d': Image, w: set<int>)
    requires Consistent(c) && Describes(c, d) && SameOutside(d, d', w) && w !! c.marked
    ensures Describes(c, d')
  {
    forall f | f in c.owners ensures c.owners[f].extent !! w {
      forall s | s in c.owners[f].extent ensures s !in w {
        assert Owned(c.owners, s);
      }
    }
    FileKept(d, d', c.owners[FREE_MAP], w);
    FileKept(d, d', c.owners[DIRECTORY], w);
    forall f | f in c.contents ensures FileOn(d', c.owners[f], c.contents[f]) {
      assert FileOn(d, c.owners[f], c.contents[f]);
      FileKept(d, d', c.owners[f], w);
    }
  }

  /** The sectors that a handle on a removed file still names are not marked, until another file gets them. */
  lemma RemovedUnmarked(c: Catalog, d: Image, h: Header, key: seq<Byte>)
    requires Consistent(c) && Describes(c, d) && Bound(c, h, key)
    ensures WellFormed(h) && Data(h) !! AfterRemoval(c, SlotOf(c.table, key)).marked
  {
    var slot := SlotOf(c.table, key);
    assert FileOn(d, c.owners[slot], c.contents[slot]);
  }

  /** A write through a handle, as OpenFile.WriteAt does it. */
  ghost predicate Wrote(d: Image, d': Image, h: Header, position: nat, bytes: seq<Byte>)
    requires WellFormed(h)
  {
    SameOutside(d, d', Data(h)) && Contents(d', h) == Overlay(Contents(d, h), position, bytes)
  }

  /** Whatever is written through the handle, and wherever, the disk holds the same volume. */
  ghost predicate Harmless(c: Catalog, d: Image, h: Header)
    requires WellFormed(h)
  {
    forall d': Image, position: nat, bytes: seq<Byte> | Wrote(d, d', h, position, bytes) :: Describes(c, d')
  }

  /** The first byte of a sector changed. */
  function Poked(d: Image, s: nat, b: Byte): Image
    requires s < NUM_SECTORS
  {
    d[s := d[s][0 := b]]
  }

  /** In a file that has the sector, that is one byte of its contents: a sector of a file is never all padding. */
  lemma PokedContents(d: Image, h: Header, i: nat, b: Byte)
    requires WellFormed(h) && i < h.numSectors
    ensures i * SECTOR_SIZE < h.numBytes
    ensures Contents(Poked(d, h.dataSectors[i], b), h) == Contents(d, h)[i * SECTOR_SIZE := b]
    ensures Contents(d, h)[i * SECTOR_SIZE] == d[h.dataSectors[i]][0]
  {
    var d' := Poked(d, h.dataSectors[i], b);
    forall p | 0 <= p < h.numBytes
      ensures RawByte(d', h, p) == if p == i * SECTOR_SIZE then b else RawByte(d, h, p)
    {
      assert p / SECTOR_SIZE != i ==> h.dataSectors[p / SECTOR_SIZE] != h.dataSectors[i];
    }
    assert Contents(d, h)[i * SECTOR_SIZE] == RawByte(d, h, i * SECTOR_SIZE);
  }

  lemma PokedWrites(d: Image, h: Header, i: nat, b: Byte)
    requires WellFormed(h) && i < h.numSectors
    ensures Wrote(d, Poked(d, h.dataSectors[i], b), h, i * SECTOR_SIZE, [b])
  {
    PokedContents(d, h, i, b);
    assert h.dataSectors[i] in Data(h);
    var c := Contents(d, h);
    assert c[i * SECTOR_SIZE := b] == Overlay(c, i * SECTOR_SIZE, [b]);
  }

  /** It shows in each of the ways in which the disk is read. */
  lemma PokedHeader(s: Sector, b: Byte)
    requires b != s[0]
    ensures ParseHeader(s[0 := b]) != ParseHeader(s)
  {
    var s' := s[0 := b];
    assert s[..4][0] == s[0] && s'[..4][0] == b && forall k | 1 <= k < 4 :: s'[..4][k] == s[..4][k];
    assert DecodeInts(s)[0] == BytesInt(s[..4]) && DecodeInts(s')[0] == BytesInt(s'[..4]);
  }

  lemma PokedMap(c: seq<Byte>, b: Byte)
    requires |c| == FREE_MAP_FILE_SIZE && b % 2 != c[0] % 2
    ensures StoredBits(c[0 := b]) != StoredBits(c)
  {
    var c' := c[0 := b];
    assert DecodeWords(c)[0] == BytesWord(c[..4]) && DecodeWords(c')[0] == BytesWord(c'[..4]);
    assert StoredBits(c)[0] != StoredBits(c')[0];
  }

  lemma PokedTable(c: seq<Byte>, j: nat, b: Byte)
    requires |c| == DIRECTORY_FILE_SIZE && j < 2 && (b == 0) != (c[j * SECTOR_SIZE] == 0)
    ensures ParseTable(c[j * SECTOR_SIZE := b]) != ParseTable(c)
  {
    var c' := c[j * SECTOR_SIZE := b];
    if j == 0 {
      assert ParseTable(c)[0] == ParseEntry(c[0..20]) && ParseTable(c')[0] == ParseEntry(c'[0..20]);
      assert c[0..20][0] == c[0] && c'[0..20][0] == c'[0];
      assert ParseTable(c)[0].inUse != ParseTable(c')[0].inUse;
    } else {
      assert ParseTable(c)[6] == ParseEntry(c[120..140]) && ParseTable(c')[6] == ParseEntry(c'[120..140]);
      assert c[120..140][8] == c[128] && c'[120..140][8] == c'[128];
      assert ParseTable(c)[6].name[0] == c[128] && ParseTable(c')[6].name[0] == c'[128];
    }
  }

  /** Another byte: of the other parity, or zero for not zero. */
  function Other(b: Byte, byParity: bool): (r: Byte)
    ensures r != b && if byParity then r % 2 != b % 2 else (r == 0) != (b == 0)
  {
    if !byParity then (if b == 0 then 1 else 0) else if b % 2 == 0 then b + 1 else b - 1
  }

  /** The image no longer holds what it did, be the changed sector the free map's or the directory's... */
  lemma PokedOwner(c: Catalog, d: Image, f: int, s: nat)
    requires Describes(c, d) && f in c.owners && s < NUM_SECTORS && s in c.owners[f].extent
    requires f == FREE_MAP || f == DIRECTORY
    ensures var d' := Poked(d, s, Other(d[s][0], f != DIRECTORY));
      !(FreeMapOn(d', c.owners[FREE_MAP], c.marked) && TableOn(d', c.owners[DIRECTORY], c.table))
  {
    var b, o := Other(d[s][0], f != DIRECTORY), c.owners[f];
    if s == o.home {
      PokedHeader(d[s], b);
    } else {
      var j :| 0 <= j < o.header.numSectors && o.header.dataSectors[j] == s;
      PokedContents(d, o.header, j, b);
      if f == FREE_MAP {
        PokedMap(Contents(d, o.header), b);
      } else {
        PokedTable(Contents(d, o.header), j, b);
      }
    }
  }

  /** ...or a listed file's. */
  lemma PokedFile(d: Image, o: Owner, contents: seq<Byte>, s: nat, b: Byte)
    requires FileOn(d, o, contents) && s < NUM_SECTORS && s in o.extent && b != d[s][0]
    ensures !FileOn(Poked(d, s, b), o, contents)
  {
    if s == o.home {
      PokedHeader(d[s], b);
    } else {
      var j :| 0 <= j < o.header.numSectors && o.header.dataSectors[j] == s;
      PokedContents(d, o.header, j, b);
      assert contents[j * SECTOR_SIZE := b][j * SECTOR_SIZE] != contents[j * SECTOR_SIZE];
    }
  }

  lemma PokedDiffers(c: Catalog, d: Image, f: int, s: nat)
    requires Describes(c, d) && f in c.owners && s < NUM_SECTORS && s in c.owners[f].extent
    ensures !Describes(c, Poked(d, s, Other(d[s][0], f != DIRECTORY)))
  {
    if f == FREE_MAP || f == DIRECTORY {
      PokedOwner(c, d, f, s);
    } else {
      PokedFile(d, c.owners[f], c.contents[f], s, Other(d[s][0], f != DIRECTORY));
    }
  }

  /**
   So a handle, stale or not, is harmless if and only if none of the data sectors that its header
   names is marked: for one whose file has been removed, until one of them is given to another.
   */
  lemma HarmlessExactly(c: Catalog, d: Image, h: Header)
    requires Consistent(c) && Describes(c, d) && WellFormed(h)
    ensures Harmless(c, d, h) <==> Data(h) !! c.marked
  {
    if Data(h) !! c.marked {
      forall d': Image, position: nat, bytes: seq<Byte> | Wrote(d, d', h, position, bytes) ensures Describes(c, d') {
        DescribesUnmarked(c, d, d', Data(h));
      }
    } else {
      var s :| s in Data(h) && s in c.marked;
      assert Owned(c.owners, s);
      var f :| f in c.owners && s in c.owners[f].extent;
      var i :| 0 <= i < h.numSectors && h.dataSectors[i] == s;
      var b := Other(d[s][0], f != DIRECTORY);
      PokedWrites(d, h, i, b);
      PokedDiffers(c, d, f, s);
    }
  }
}
