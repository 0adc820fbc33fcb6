/** The file system's own test routines: a file is copied in and printed a few bytes at a time. */
module FileTests {
  import opened Lists
  import opened Bytes
  import opened FileHeaders
  import opened OpenFiles
  import opened Directories
  import opened Volumes
  import opened FileSystems

  /** One round of Print adds what comes next; the last gets nothing, at the end. */
  lemma PrintRound(c: seq<Byte>, position: nat, n: int)
    requires position <= |c| && n > 0
    ensures var got := Portion(c, position, n);
      && position + |got| <= |c| && c[..position] + got == c[..position + |got|]
      && (got == [] <==> position == |c|)
  {
    PortionMeans(c, position, n);
  }

  /** Print: whatever the size of the pieces, what is read until nothing comes is the whole file. */
  method Print(fs: FileSystem, name: seq<Byte>, transferSize: nat) returns (printed: Option<seq<Byte>>)
    requires fs.Valid() && Complete(fs.catalog) && 0 < transferSize <= INT_MAX - MAX_FILE_SIZE
    ensures printed.None? <==> Key(name) !in Files(fs.catalog)
    ensures printed.Some? ==> printed.value == Files(fs.catalog)[Key(name)]
  {
    hide *;
    var openFile := fs.Open(name);
    if openFile == null { return None; }
    ghost var c := Files(fs.catalog)[Key(name)];
    openFile.ShortFile();
    var bytes, more := [], true;
    while more
      invariant openFile.Valid() && 0 <= openFile.seekPosition <= |c| && bytes == c[..openFile.seekPosition]
      invariant fs.Valid() && openFile.disk == fs.disk && Bound(fs.catalog, openFile.hdr.View(), Key(name))
      invariant !more ==> openFile.seekPosition == |c|
      decreases more, |c| - openFile.seekPosition
    {
      PrintRound(c, openFile.seekPosition, transferSize);
      var got := fs.Get(openFile, transferSize, Key(name));
      bytes := bytes + got;
      more := got != [];
    }
    printed := Some(bytes);
  }

  /** One round of Copy: the next piece goes behind those that are there. */
  lemma CopyRound(c: seq<Byte>, data: seq<Byte>, i: nat, n: nat)
    requires |c| == |data| && 0 < n && i + n <= |data| && c[..i] == data[..i]
    ensures Transferred(n, i, |c|) == n
    ensures var c' := Patched(c, i, data[i..i + n]);
      |c'| == |c| && c'[..i + n] == data[..i + n]
  {
    PatchedMeans(c, i, data[i..i + n]);
  }

  lemma Replaced(m: map<seq<Byte>, seq<Byte>>, key: seq<Byte>, a: seq<Byte>, b: seq<Byte>)
    ensures m[key := a][key := b] == m[key := b]
    ensures key in m ==> m[key := m[key]] == m
  {
  }

  /** One piece, and what the file is then. */
  method CopyPiece(fs: FileSystem, openFile: OpenFile, data: seq<Byte>, i: nat, n: nat, ghost key: seq<Byte>)
    requires fs.Valid() && Complete(fs.catalog) && openFile.disk == fs.disk && openFile.Valid()
    requires Bound(fs.catalog, openFile.hdr.View(), key) && key in Files(fs.catalog)
    requires |Files(fs.catalog)[key]| == |data| && 0 < n && i + n <= |data| <= INT_MAX
    requires openFile.seekPosition == i && Files(fs.catalog)[key][..i] == data[..i]
    modifies fs, fs.disk, openFile
    ensures fs.Valid() && Complete(fs.catalog) && openFile.Valid() && Bound(fs.catalog, openFile.hdr.View(), key)
    ensures openFile.hdr.View() == old(openFile.hdr.View()) && openFile.seekPosition == i + n
    ensures exists c: seq<Byte> | |c| == |data| ::
      Files(fs.catalog) == old(Files(fs.catalog))[key := c] && c[..i + n] == data[..i + n]
  {
    hide *;
    ghost var c := Files(fs.catalog)[key];
    CopyRound(c, data, i, n);
    var _ := fs.Put(openFile, data[i..i + n], key);
    fs.ValidIsComplete();
    ghost var c' := Patched(c, i, data[i..i + n]);
    assert |c'| == |data| && Files(fs.catalog) == old(Files(fs.catalog))[key := c'];
  }

  /** The loop of Copy. */
  method CopyPieces(fs: FileSystem, openFile: OpenFile, data: seq<Byte>, transferSize: nat, ghost key: seq<Byte>)
    requires fs.Valid() && Complete(fs.catalog) && openFile.disk == fs.disk && openFile.Valid()
    requires Bound(fs.catalog, openFile.hdr.View(), key) && key in Files(fs.catalog)
    requires |Files(fs.catalog)[key]| == |data| <= INT_MAX && openFile.seekPosition == 0 && transferSize > 0
    modifies fs, fs.disk, openFile
    ensures fs.Valid() && Complete(fs.catalog) && Files(fs.catalog) == old(Files(fs.catalog))[key := data]
  {
    hide *;
    ghost var m, c := Files(fs.catalog), Files(fs.catalog)[key];
    Replaced(m, key, c, c);
    var i := 0;
    while i < |data|
      invariant 0 <= i <= |data| && openFile.Valid() && openFile.seekPosition == i
      invariant fs.Valid() && Complete(fs.catalog) && Bound(fs.catalog, openFile.hdr.View(), key)
      invariant Files(fs.catalog) == m[key := c] && |c| == |data| && c[..i] == data[..i]
    {
      var amountRead := if transferSize <= |data| - i then transferSize else |data| - i;
      CopyPiece(fs, openFile, data, i, amountRead, key);
      ghost var c' :| |c'| == |data| && Files(fs.catalog) == m[key := c][key := c']
                      && c'[..i + amountRead] == data[..i + amountRead];
      Replaced(m, key, c, c');
      c, i := c', i + amountRead;
    }
    assert c == data;
  }

  /** Copy: creates a file of the size of the data, and writes these to it a piece at a time. */
  method Copy(fs: FileSystem, data: seq<Byte>, to: seq<Byte>, transferSize: nat) returns (copied: bool)
    requires fs.Valid() && Complete(fs.catalog) && |data| <= MAX_FILE_SIZE && transferSize > 0
    modifies fs, fs.disk
    ensures fs.Valid() && Complete(fs.catalog)
    ensures copied <==> Key(to) !in old(Files(fs.catalog)) && |old(Files(fs.catalog))| < NUM_DIR_ENTRIES
    ensures Files(fs.catalog) ==
      if copied then old(Files(fs.catalog))[Key(to) := data] else old(Files(fs.catalog))
  {
    assert |data| <= 3840 <= INT_MAX;
    var size: Int32 := |data|;
    hide *;
    ghost var m := Files(fs.catalog);
    copied := fs.Create(to, size);
    fs.ValidIsComplete();
    if copied {
      ghost var bytes: seq<Byte> :| |bytes| == size && Files(fs.catalog) == m[Key(to) := bytes];
      var openFile := fs.Open(to);
      CopyPieces(fs, openFile, data, transferSize, Key(to));
      Replaced(m, Key(to), bytes, data);
    }
  }
}
