/**
 A client of the file system: any sequence of creations, removals, openings, and seeks, reads and writes
 on any of the handles opened so far. What it sees, failures and bytes read included, is what a map from
 keys to byte strings and a position in each handle would show it.
 */
module Sessions {
  import opened Bytes
  import opened Sectors
  import opened Sequences
  import opened FileHeaders
  import opened OpenFiles
  import opened Directories
  import opened Volumes
  import VolumeDisk
  import opened FileSystems

  /** What is done with a handle. */
  datatype Op =
    | Seek(position: int)
    | Read(numBytes: int)
    | Write(bytes: seq<Byte>)
    | ReadAt(numBytes: int, position: int)
    | WriteAt(bytes: seq<Byte>, position: int)

  /** Undefined stands for a request that is not made, as the source says nothing of what it would do. */
  datatype Answer = Undefined | Done | Got(bytes: seq<Byte>) | Put(count: nat)

  /** A handle is known by its number, in the order of opening. */
  datatype Call =
    | Create(name: seq<Byte>, initialSize: Int32)
    | Remove(name: seq<Byte>)
    | Open(name: seq<Byte>)
    | On(handle: nat, op: Op)

  /**
   Stale stands for a write through a handle whose file has been removed, when some of its sectors have
   been given to another file; it is not made either.
   */
  datatype Outcome =
    TooLarge | Success(success: bool) | NotFound | Opened(handle: nat) | NoHandle | Stale | Answered(answer: Answer)

  /*** The specification ***/

  type FileMap = map<seq<Byte>, seq<Byte>>

  /** An open handle: live until its file is removed. */
  datatype Cursor = Cursor(key: seq<Byte>, live: bool, length: nat, position: int)

  datatype World = World(files: FileMap, cursors: seq<Cursor>)

  /** The bytes of a file, and the position in it. */
  datatype Handle = Handle(contents: seq<Byte>, position: int)

  /** No negative position, and an end that is an int. */
  predicate InRange(position: int, n: int) {
    position >= 0 && position + n <= INT_MAX
  }

  function ReadingAt(h: Handle, n: int, position: int): Answer {
    if InRange(position, n) then Got(Portion(h.contents, position, n)) else Undefined
  }

  function WritingAt(h: Handle, bytes: seq<Byte>, position: int): (Handle, Answer) {
    if InRange(position, |bytes|) then
      (h.(contents := Patched(h.contents, position, bytes)), Put(Transferred(|bytes|, position, |h.contents|)))
    else (h, Undefined)
  }

  /** One operation on a handle: the file and position afterwards, and what the client is told. */
  function Acted(h: Handle, op: Op): (Handle, Answer) {
    match op
    case Seek(position) => (h.(position := position), Done)
    case ReadAt(n, position) => (h, ReadingAt(h, n, position))
    case Read(n) =>
      var a := ReadingAt(h, n, h.position);
      (if a.Got? then h.(position := h.position + |a.bytes|) else h, a)
    case WriteAt(bytes, position) => WritingAt(h, bytes, position)
    case Write(bytes) =>
      var (g, a) := WritingAt(h, bytes, h.position);
      (if a.Put? then g.(position := h.position + a.count) else g, a)
  }

  predicate Writes(op: Op) {
    op.Write? || op.WriteAt?
  }

  /** An operation on handle i, when the bytes that it sees are these. */
  predicate ActsOn(w: World, i: nat, contents: seq<Byte>, op: Op, r: Outcome, w': World)
    requires i < |w.cursors|
  {
    var c := w.cursors[i];
    var (h, a) := Acted(Handle(contents, c.position), op);
    && r == Answered(a)
    && w' == World(if c.live then w.files[c.key := h.contents] else w.files,
                   w.cursors[i := c.(position := h.position)])
  }

  /** The handles on a file that is removed. */
  function Closed(cursors: seq<Cursor>, key: seq<Byte>): (r: seq<Cursor>)
    ensures |r| == |cursors|
  {
    seq(|cursors|, i requires 0 <= i < |cursors| =>
      if cursors[i].key == key then cursors[i].(live := false) else cursors[i])
  }

  /**
   One call. The map does not determine what is read through a handle whose file has been removed, except
   for the number of bytes, nor whether a write through it is made; if it is, it leaves all files alone.
   */
  ghost predicate Step(w: World, c: Call, r: Outcome, w': World) {
    match c
    case Create(name, size) =>
      if !(0 <= size <= MAX_FILE_SIZE) then r == TooLarge && w' == w
      else if Key(name) in w.files || |w.files| >= NUM_DIR_ENTRIES then r == Success(false) && w' == w
      else
        && r == Success(true)
        && exists bytes: seq<Byte> :: |bytes| == size && w' == w.(files := w.files[Key(name) := bytes])
    case Remove(name) =>
      && r == Success(Key(name) in w.files)
      && w' == if r.success then World(w.files - {Key(name)}, Closed(w.cursors, Key(name))) else w
    case Open(name) =>
      if Key(name) !in w.files then r == NotFound && w' == w
      else
        && r == Opened(|w.cursors|)
        && w' == w.(cursors := w.cursors + [Cursor(Key(name), true, |w.files[Key(name)]|, 0)])
    case On(i, op) =>
      if i >= |w.cursors| then r == NoHandle && w' == w
      else if w.cursors[i].live then w.cursors[i].key in w.files && ActsOn(w, i, w.files[w.cursors[i].key], op, r, w')
      else
        || (Writes(op) && r == Stale && w' == w)
        || exists contents: seq<Byte> :: |contents| == w.cursors[i].length && ActsOn(w, i, contents, op, r, w')
  }

  ghost predicate IsRun(worlds: seq<World>, calls: seq<Call>, outcomes: seq<Outcome>) {
    && |worlds| == |calls| + 1 && |outcomes| == |calls|
    && forall i | 0 <= i < |calls| :: Step(worlds[i], calls[i], outcomes[i], worlds[i + 1])
  }

  lemma RunGrows(worlds: seq<World>, calls: seq<Call>, outcomes: seq<Outcome>, i: nat, r: Outcome, w: World)
    requires i < |calls| && IsRun(worlds, calls[..i], outcomes) && Step(worlds[i], calls[i], r, w)
    ensures IsRun(worlds + [w], calls[..i + 1], outcomes + [r])
  {
    hide Step;
    forall j | 0 <= j < i + 1
      ensures Step((worlds + [w])[j], calls[..i + 1][j], (outcomes + [r])[j], (worlds + [w])[j + 1])
    {
      if j < i { assert calls[..i + 1][j] == calls[..i][j]; }
    }
  }

  /** A call that may change the bytes of a file. */
  predicate Touches(w: World, c: Call, key: seq<Byte>) {
    match c
    case Remove(name) => Key(name) == key
    case On(i, op) => i < |w.cursors| && w.cursors[i].live && w.cursors[i].key == key && Writes(op)
    case _ => false
  }

  lemma StepLeaves(w: World, c: Call, r: Outcome, w': World, key: seq<Byte>)
    requires Step(w, c, r, w') && key in w.files && !Touches(w, c, key)
    ensures key in w'.files && w'.files[key] == w.files[key]
  {
  }

  lemma {:induction false} RunLeaves(worlds: seq<World>, calls: seq<Call>, outcomes: seq<Outcome>,
                                     i: nat, j: nat, key: seq<Byte>)
    requires IsRun(worlds, calls, outcomes) && i <= j <= |calls| && key in worlds[i].files
    requires forall k | i <= k < j :: !Touches(worlds[k], calls[k], key)
    ensures key in worlds[j].files && worlds[j].files[key] == worlds[i].files[key]
  {
    if i < j {
      RunLeaves(worlds, calls, outcomes, i, j - 1, key);
      StepLeaves(worlds[j - 1], calls[j - 1], outcomes[j - 1], worlds[j], key);
    }
  }

  /** What a write through a handle leaves, if all its bytes were written. */
  lemma WrittenThen(w: World, i: nat, bytes: seq<Byte>, position: int, r: Outcome, w': World)
    requires Step(w, On(i, WriteAt(bytes, position)), r, w') && r == Answered(Put(|bytes|))
    requires i < |w.cursors| && w.cursors[i].live
    ensures position >= 0
    ensures var key := w.cursors[i].key;
      key in w'.files && Portion(w'.files[key], position, |bytes|) == bytes
  {
    var c := w.files[w.cursors[i].key];
    var n := Transferred(|bytes|, position, |c|);
    assert n == |bytes| && bytes[..n] == bytes;
    assert n > 0 ==> Overlay(c, position, bytes)[position..position + n] == bytes;
  }

  /**
   Bytes that were written are read back, through any handle on the file, whatever other calls come in
   between, as long as none removes the file or writes to it.
   */
  lemma ReadsBack(worlds: seq<World>, calls: seq<Call>, outcomes: seq<Outcome>,
                  i: nat, j: nat, h: nat, g: nat, bytes: seq<Byte>, position: int)
    requires IsRun(worlds, calls, outcomes) && i < j < |calls|
    requires calls[i] == On(h, WriteAt(bytes, position)) && outcomes[i] == Answered(Put(|bytes|))
    requires h < |worlds[i].cursors| && worlds[i].cursors[h].live
    requires forall k | i < k < j :: !Touches(worlds[k], calls[k], worlds[i].cursors[h].key)
    requires calls[j] == On(g, ReadAt(|bytes|, position)) && g < |worlds[j].cursors|
    requires worlds[j].cursors[g].live && worlds[j].cursors[g].key == worlds[i].cursors[h].key
    ensures outcomes[j] == Answered(Got(bytes))
  {
    assert Step(worlds[i], calls[i], outcomes[i], worlds[i + 1]);
    assert Step(worlds[j], calls[j], outcomes[j], worlds[j + 1]);
    WrittenThen(worlds[i], h, bytes, position, outcomes[i], worlds[i + 1]);
    RunLeaves(worlds, calls, outcomes, i + 1, j, worlds[i].cursors[h].key);
  }

  /** The bytes that some calls got, one after another. */
  ghost function JoinedBytes(outcomes: seq<Outcome>): seq<Byte> {
    if outcomes == [] then []
    else
      (if outcomes[0].Answered? && outcomes[0].answer.Got? then outcomes[0].answer.bytes else [])
      + JoinedBytes(outcomes[1..])
  }

  /** A read at the position gets the next bytes of the file, and none only at its end. */
  lemma ReadStep(w: World, h: nat, n: int, r: Outcome, w': World)
    requires Step(w, On(h, Read(n)), r, w') && h < |w.cursors| && w.cursors[h].live && n > 0
    requires w.cursors[h].key in w.files
    requires 0 <= w.cursors[h].position <= |w.files[w.cursors[h].key]| <= INT_MAX - n
    ensures var c, p := w.files[w.cursors[h].key], w.cursors[h].position;
      && w'.files == w.files && r.Answered? && r.answer.Got? && p + |r.answer.bytes| <= |c|
      && w'.cursors == w.cursors[h := w.cursors[h].(position := p + |r.answer.bytes|)]
      && c[p..] == r.answer.bytes + c[p + |r.answer.bytes|..]
      && (r.answer.bytes == [] ==> p == |c|)
  {
    var c, p := w.files[w.cursors[h].key], w.cursors[h].position;
    PortionMeans(c, p, n);
    assert w.files[w.cursors[h].key := c] == w.files;
  }

  /**
   Reads of any size, one after another until one gets nothing: what they have got, joined, is all of
   the file from where they started.
   */
  lemma {:induction false} ReadsJoined(worlds: seq<World>, calls: seq<Call>, outcomes: seq<Outcome>,
                                       i: nat, j: nat, h: nat, n: int)
    requires IsRun(worlds, calls, outcomes) && i < j <= |calls| && n > 0
    requires forall m | i <= m < j :: calls[m] == On(h, Read(n))
    requires outcomes[j - 1] == Answered(Got([]))
    requires h < |worlds[i].cursors| && worlds[i].cursors[h].live && worlds[i].cursors[h].key in worlds[i].files
    requires 0 <= worlds[i].cursors[h].position <= |worlds[i].files[worlds[i].cursors[h].key]| <= INT_MAX - n
    ensures JoinedBytes(outcomes[i..j]) == worlds[i].files[worlds[i].cursors[h].key][worlds[i].cursors[h].position..]
    decreases j - i
  {
    assert Step(worlds[i], calls[i], outcomes[i], worlds[i + 1]);
    ReadStep(worlds[i], h, n, outcomes[i], worlds[i + 1]);
    assert outcomes[i..j][1..] == outcomes[i + 1..j];
    hide Step;
    if i + 1 < j {
      ReadsJoined(worlds, calls, outcomes, i + 1, j, h, n);
    }
  }

  predicate Removes(c: Call, r: Outcome, key: seq<Byte>) {
    c.Remove? && Key(c.name) == key && r == Success(true)
  }

  lemma LiveStep(w: World, c: Call, r: Outcome, w': World, h: nat)
    requires Step(w, c, r, w') && h < |w.cursors|
    ensures h < |w'.cursors| && w'.cursors[h].key == w.cursors[h].key && w'.cursors[h].length == w.cursors[h].length
    ensures w'.cursors[h].live <==> w.cursors[h].live && !Removes(c, r, w.cursors[h].key)
  {
  }

  /** A handle is live as long as nobody has removed its file. */
  lemma {:induction false} LiveExactly(worlds: seq<World>, calls: seq<Call>, outcomes: seq<Outcome>,
                                       i: nat, j: nat, h: nat)
    requires IsRun(worlds, calls, outcomes) && i <= j <= |calls|
    requires h < |worlds[i].cursors| && worlds[i].cursors[h].live
    ensures h < |worlds[j].cursors| && worlds[j].cursors[h].key == worlds[i].cursors[h].key
    ensures worlds[j].cursors[h].live
      <==> forall m | i <= m < j :: !Removes(calls[m], outcomes[m], worlds[i].cursors[h].key)
  {
    if i < j {
      LiveExactly(worlds, calls, outcomes, i, j - 1, h);
      LiveStep(worlds[j - 1], calls[j - 1], outcomes[j - 1], worlds[j], h);
    }
  }

  /** Seek sets the position for Read and Write, which otherwise are ReadAt and WriteAt there. */
  lemma SeekThen(h: Handle, p: int, n: int, bytes: seq<Byte>)
    ensures var s := Acted(h, Seek(p)).0;
      && s.contents == h.contents && Acted(s, Read(n)).1 == Acted(h, ReadAt(n, p)).1
      && Acted(s, Write(bytes)).1 == Acted(h, WriteAt(bytes, p)).1
      && Acted(s, Write(bytes)).0.contents == Acted(h, WriteAt(bytes, p)).0.contents
  {
  }

  /*** The client ***/

  /** Seeks and reads, on the bytes that the handle's sectors hold. */
  method Look(file: OpenFile, op: Op) returns (a: Answer)
    requires file.Valid() && !Writes(op)
    modifies file
    ensures var h := Handle(file.Stored(), old(file.seekPosition));
      Acted(h, op) == (h.(position := file.seekPosition), a)
  {
    match op {
      case Seek(position) =>
        file.Seek(position);
        a := Done;
      case Read(n) =>
        a := Undefined;
        if InRange(file.seekPosition, n) {
          var bytes := file.Get(n);
          a := Got(bytes);
        }
      case ReadAt(n, position) =>
        a := Undefined;
        if InRange(position, n) {
          var bytes := file.GetAt(n, position);
          a := Got(bytes);
        }
    }
  }

  /** Writes through a handle on a listed file. */
  method Store(fs: FileSystem, file: OpenFile, op: Op, ghost key: seq<Byte>) returns (a: Answer)
    requires fs.Valid() && Complete(fs.catalog) && file.disk == fs.disk && file.Valid() && Writes(op)
    requires Bound(fs.catalog, file.hdr.View(), key)
    modifies fs, fs.disk, file
    ensures fs.Valid() && Complete(fs.catalog) && file.Valid() && file.hdr.View() == old(file.hdr.View())
    ensures forall h, k | old(Bound(fs.catalog, h, k)) :: Bound(fs.catalog, h, k)
    ensures var (h, b) := Acted(Handle(old(Files(fs.catalog))[key], old(file.seekPosition)), op);
      a == b && file.seekPosition == h.position
      && Files(fs.catalog) == old(Files(fs.catalog))[key := h.contents]
  {
    hide Consistent, Describes, Disjoint, DistinctNames, Files, Patched, Transferred, Complete;
    ghost var m := Files(fs.catalog);
    assert m == m[key := m[key]];
    a := Undefined;
    if op.Write? && InRange(file.seekPosition, |op.bytes|) {
      var count := fs.Put(file, op.bytes, key);
      a := Put(count);
    } else if op.WriteAt? && InRange(op.position, |op.bytes|) {
      var count := fs.PutAt(file, op.bytes, op.position, key);
      a := Put(count);
    }
    fs.ValidIsComplete();
  }

  /** Writes through a handle none of whose sectors is marked: all files stay as they are. */
  method StoreUnmarked(fs: FileSystem, file: OpenFile, op: Op) returns (a: Answer)
    requires fs.Valid() && file.disk == fs.disk && file.Valid() && Writes(op)
    requires Data(file.hdr.View()) !! fs.catalog.marked
    modifies fs.disk, file
    ensures fs.Valid() && fs.catalog == old(fs.catalog) && file.Valid() && file.hdr.View() == old(file.hdr.View())
    ensures var (h, b) := Acted(Handle(old(file.Stored()), old(file.seekPosition)), op);
      a == b && file.seekPosition == h.position && file.Stored() == h.contents
  {
    hide Consistent, Describes;
    a := Undefined;
    if op.Write? && InRange(file.seekPosition, |op.bytes|) {
      var count := fs.PutStale(file, op.bytes);
      a := Put(count);
    } else if op.WriteAt? && InRange(op.position, |op.bytes|) {
      var from := new Byte[|op.bytes|](i requires 0 <= i < |op.bytes| => op.bytes[i]);
      assert from[..] == op.bytes;
      var count := fs.WriteStale(file, from, |op.bytes|, op.position);
      assert from[..count] == op.bytes[..count];
      a := Put(count);
    }
  }

  /** Any operation through a handle on a listed file. */
  method Act(fs: FileSystem, file: OpenFile, op: Op, ghost key: seq<Byte>) returns (a: Answer)
    requires fs.Valid() && Complete(fs.catalog) && file.disk == fs.disk && file.Valid()
    requires Bound(fs.catalog, file.hdr.View(), key)
    modifies fs, fs.disk, file
    ensures fs.Valid() && Complete(fs.catalog) && file.Valid() && file.hdr.View() == old(file.hdr.View())
    ensures forall h, k | old(Bound(fs.catalog, h, k)) :: Bound(fs.catalog, h, k)
    ensures key in old(Files(fs.catalog))
    ensures var (h, b) := Acted(Handle(old(Files(fs.catalog))[key], old(file.seekPosition)), op);
      a == b && file.seekPosition == h.position
      && Files(fs.catalog) == old(Files(fs.catalog))[key := h.contents]
  {
    hide Consistent, Describes, Disjoint, DistinctNames, Files, Complete, Acted, Bound;
    fs.StoredIsListed(file, key);
    if Writes(op) {
      a := Store(fs, file, op, key);
    } else {
      ghost var m := Files(fs.catalog);
      a := Look(file, op);
      assert m == m[key := m[key]];
    }
  }

  /** What a client knows of a handle. */
  ghost predicate Held(c: Catalog, disk: SynchDisk, file: OpenFile, cursor: Cursor)
    requires Complete(c)
    reads file, file.hdr, file.hdr.dataSectors
  {
    && file.disk == disk && file.Valid() && file.hdr.numBytes == cursor.length
    && file.seekPosition == cursor.position
    && (cursor.live ==> Bound(c, file.hdr.View(), cursor.key))
  }

  class Session {
    const fs: FileSystem
    var handles: seq<OpenFile>
    var cursors: seq<Cursor>

    ghost predicate Valid()
      reads this, fs, fs.disk, handles, set h | h in handles :: h.hdr, set h | h in handles :: h.hdr.dataSectors
      reads fs.freeMapFile.hdr, fs.freeMapFile.hdr.dataSectors, fs.directoryFile.hdr, fs.directoryFile.hdr.dataSectors
    {
      && fs.Valid() && Complete(fs.catalog)
      && |handles| == |cursors| && Distinct(handles)
      && forall i | 0 <= i < |handles| :: Held(fs.catalog, fs.disk, handles[i], cursors[i])
    }

    ghost function Abstract(): (w: World)
      requires Complete(fs.catalog)
      reads this, fs
      ensures w.files == Files(fs.catalog)
    {
      World(Files(fs.catalog), cursors)
    }

    constructor (fs: FileSystem)
      requires fs.Valid()
      ensures Valid() && this.fs == fs && handles == [] && Complete(fs.catalog)
      ensures Abstract() == World(Files(fs.catalog), [])
    {
      this.fs, handles, cursors := fs, [], [];
    }

    method Create(name: seq<Byte>, size: Int32) returns (r: Outcome)
      requires Valid()
      modifies fs, fs.disk
      ensures Valid() && Step(old(Abstract()), Call.Create(name, size), r, Abstract())
    {
      hide Consistent, Describes, Disjoint, DistinctNames, Files, Bound, Complete, VolumeDisk.Enters;
      if !(0 <= size <= MAX_FILE_SIZE) { return TooLarge; }
      var success := fs.Create(name, size);
      fs.ValidIsComplete();
      r := Success(success);
    }

    method Remove(name: seq<Byte>) returns (r: Outcome)
      requires Valid()
      modifies fs, fs.disk, `cursors
      ensures Valid() && Step(old(Abstract()), Call.Remove(name), r, Abstract())
    {
      hide Consistent, Describes, Disjoint, DistinctNames, Files, Bound, Complete, VolumeDisk.Takes;
      var success := fs.Remove(name);
      fs.ValidIsComplete();
      if success { cursors := Closed(cursors, Key(name)); }
      r := Success(success);
    }

    method Open(name: seq<Byte>) returns (r: Outcome)
      requires Valid()
      modifies `handles, `cursors
      ensures Valid() && Step(old(Abstract()), Call.Open(name), r, Abstract())
      ensures old(handles) <= handles && forall j | |old(handles)| <= j < |handles| :: fresh(handles[j])
    {
      hide Consistent, Describes, Disjoint, DistinctNames, Files, Bound, Complete;
      var file := fs.Open(name);
      if file == null { return NotFound; }
      r := Opened(|cursors|);
      handles := handles + [file];
      cursors := cursors + [Cursor(Key(name), true, file.hdr.numBytes, 0)];
    }

    /** Any operation on a live handle: the bytes are those of the map. */
    method OnLive(i: nat, op: Op) returns (r: Outcome)
      requires Valid() && i < |handles| && cursors[i].live
      modifies fs, fs.disk, handles[i], `cursors
      ensures Valid() && old(cursors[i].key in Files(fs.catalog))
      ensures ActsOn(old(Abstract()), i, old(Files(fs.catalog)[cursors[i].key]), op, r, Abstract())
    {
      hide Consistent, Describes, Disjoint, DistinctNames, Files, Complete, Acted, WellFormed, Contents;
      var c, file := cursors[i], handles[i];
      var a := Act(fs, file, op, c.key);
      cursors := cursors[i := c.(position := file.seekPosition)];
      r := Answered(a);
    }

    /** Any operation on a stale handle, whose sectors may hold anything; a write only while they are nobody's. */
    method OnStale(i: nat, op: Op) returns (r: Outcome)
      requires Valid() && i < |handles| && !cursors[i].live
      modifies fs.disk, handles[i], `cursors
      ensures Valid() && fs.catalog == old(fs.catalog)
      ensures
        || (Writes(op) && r == Stale && Abstract() == old(Abstract()))
        || exists contents: seq<Byte> ::
             |contents| == old(cursors[i].length) && ActsOn(old(Abstract()), i, contents, op, r, Abstract())
    {
      hide Consistent, Describes, Disjoint, DistinctNames, Files, Complete, Acted, WellFormed, Contents;
      var c, file := cursors[i], handles[i];
      ghost var contents := file.Stored();
      var a;
      if !Writes(op) {
        a := Look(file, op);
      } else {
        var unmarked := fs.Unmarked(file);
        if !unmarked { return Stale; }
        a := StoreUnmarked(fs, file, op);
      }
      cursors := cursors[i := c.(position := file.seekPosition)];
      r := Answered(a);
      assert ActsOn(old(Abstract()), i, contents, op, r, Abstract());
    }

    method Operate(i: nat, op: Op) returns (r: Outcome)
      requires Valid()
      modifies fs, fs.disk, handles, `cursors
      ensures Valid() && Step(old(Abstract()), On(i, op), r, Abstract())
    {
      hide Consistent, Describes, Disjoint, DistinctNames, Files, Complete, ActsOn, Held, WellFormed;
      if i >= |handles| {
        r := NoHandle;
      } else if cursors[i].live {
        r := OnLive(i, op);
      } else {
        r := OnStale(i, op);
      }
    }

    method Do(c: Call) returns (r: Outcome)
      requires Valid()
      modifies fs, fs.disk, handles, `handles, `cursors
      ensures Valid() && Complete(fs.catalog) && Step(old(Abstract()), c, r, Abstract())
      ensures old(handles) <= handles && forall j | |old(handles)| <= j < |handles| :: fresh(handles[j])
    {
      hide Consistent, Describes, Disjoint, DistinctNames, Files, Complete, Step, Held;
      match c {
        case Create(name, size) => r := Create(name, size);
        case Remove(name) => r := Remove(name);
        case Open(name) => r := Open(name);
        case On(i, op) => r := Operate(i, op);
      }
    }

    /** One call more. */
    method DoNext(calls: seq<Call>, i: nat, outcomes: seq<Outcome>, ghost worlds: seq<World>)
      returns (r: Outcome, ghost w: World)
      requires Valid() && Complete(fs.catalog) && i < |calls| && |worlds| == i + 1
      requires IsRun(worlds, calls[..i], outcomes) && worlds[i] == Abstract()
      modifies fs, fs.disk, handles, `handles, `cursors
      ensures Valid() && Complete(fs.catalog) && w == Abstract()
      ensures IsRun(worlds + [w], calls[..i + 1], outcomes + [r])
      ensures old(handles) <= handles && forall j | |old(handles)| <= j < |handles| :: fresh(handles[j])
    {
      hide *;
      r := Do(calls[i]);
      w := Abstract();
      RunGrows(worlds, calls, outcomes, i, r, w);
    }

    /** The first n of some calls of a new session. */
    method DoAll(calls: seq<Call>, n: nat) returns (outcomes: seq<Outcome>, ghost worlds: seq<World>)
      requires Valid() && handles == [] && n <= |calls|
      modifies fs, fs.disk, `handles, `cursors
      ensures Valid() && Complete(fs.catalog) && |worlds| == n + 1 && IsRun(worlds, calls[..n], outcomes)
      ensures worlds[0] == old(Abstract()) && worlds[n] == Abstract()
      ensures forall j | 0 <= j < |handles| :: fresh(handles[j])
    {
      if n == 0 {
        outcomes, worlds := [], [Abstract()];
      } else {
        hide *;
        outcomes, worlds := DoAll(calls, n - 1);
        var r;
        ghost var w;
        r, w := DoNext(calls, n - 1, outcomes, worlds);
        outcomes, worlds := outcomes + [r], worlds + [w];
      }
    }
  }

  /**
   Any sequence of calls at all, failing ones included, with any number of handles in use at once: each
   outcome is one that the world gives, and its files are at last what the disk holds, from which a new
   FileSystem would read them.
   */
  method Execute(fs: FileSystem, calls: seq<Call>) returns (outcomes: seq<Outcome>, ghost worlds: seq<World>)
    requires fs.Valid()
    modifies fs, fs.disk
    ensures fs.Valid() && Complete(fs.catalog) && IsRun(worlds, calls, outcomes)
    ensures worlds[0] == World(old(Files(fs.catalog)), []) && worlds[|calls|].files == Files(fs.catalog)
  {
    hide IsRun;
    var session := new Session(fs);
    outcomes, worlds := session.DoAll(calls, |calls|);
    assert calls[..|calls|] == calls;
  }
}
