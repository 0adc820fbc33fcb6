/**
 The dining philosophers of homework 5, for any number n >= 2 of them. A fork is taken by creating
 its file exclusively and put back by unlinking it; each open or unlink is one atomic step, and a
 philosopher whose open fails tries again later.
 */
module Philosophers {

  type Fork = nat

  /** One open with O_CREAT|O_EXCL among the fork files that exist: the files afterwards, and whether it succeeded. */
  function Created(existing: set<Fork>, f: Fork): (set<Fork>, bool) {
    if f in existing then (existing, false) else (existing + {f}, true)
  }

  datatype Place =
    | Thinking
    | Hungry      // trying to take the first fork
    | Reaching    // has the first fork, trying to take the second
    | Eating
    | Putting     // has put back the first fork only

  datatype State = State(forks: set<Fork>, places: seq<Place>)

  /** The fork philosopher i of n takes and puts back first, and the other one. */
  function First(i: nat, n: nat): Fork
    requires i < n
  {
    if i == n - 1 then n - 1 else i + 1
  }

  function Second(i: nat, n: nat): Fork
    requires i < n
  {
    if i == n - 1 then 0 else i
  }

  /** Philosopher i uses the forks on either side, i and the next around the table, and takes the higher one first. */
  lemma OwnForks(i: nat, n: nat)
    requires i < n && n >= 2
    ensures {First(i, n), Second(i, n)} == {i, (i + 1) % n} && First(i, n) > Second(i, n)
  {
  }

  ghost predicate Init(s: State) {
    s.forks == {} && forall i | 0 <= i < |s.places| :: s.places[i] == Thinking
  }

  /** One attempt to create f: on success the philosopher moves on, otherwise nothing changes. */
  ghost predicate Try(s: State, i: nat, f: Fork, next: Place, s': State)
    requires i < |s.places|
  {
    var (forks, created) := Created(s.forks, f);
    s' == if created then State(forks, s.places[i := next]) else s
  }

  ghost predicate Step(s: State, i: nat, s': State) {
    i < |s.places| &&
    var n := |s.places|;
    match s.places[i]
    case Thinking => s' == s.(places := s.places[i := Hungry])
    case Hungry => Try(s, i, First(i, n), Reaching, s')
    case Reaching => Try(s, i, Second(i, n), Eating, s')
    case Eating => s' == State(s.forks - {First(i, n)}, s.places[i := Putting])
    case Putting => s' == State(s.forks - {Second(i, n)}, s.places[i := Thinking])
  }

  /** By its own place in the program, philosopher i has taken fork f and not put it back. */
  predicate Holds(s: State, i: nat, f: Fork)
    requires i < |s.places|
  {
    || (f == First(i, |s.places|) && (s.places[i].Reaching? || s.places[i].Eating?))
    || (f == Second(i, |s.places|) && (s.places[i].Eating? || s.places[i].Putting?))
  }

  /** A file exists if and only if someone holds its fork, and never do two. */
  ghost predicate Inv(s: State) {
    && |s.places| >= 2
    && (forall i, f | 0 <= i < |s.places| && Holds(s, i, f) :: f in s.forks)
    && (forall f | f in s.forks :: exists i | 0 <= i < |s.places| :: Holds(s, i, f))
    && (forall i, j, f | 0 <= i < |s.places| && 0 <= j < |s.places| && Holds(s, i, f) && Holds(s, j, f) :: i == j)
  }

  /** What the others hold does not change when philosopher i steps. */
  lemma StepHolds(s: State, i: nat, s': State)
    requires Inv(s) && Step(s, i, s')
    ensures |s'.places| == |s.places|
    ensures forall j, f | 0 <= j < |s.places| && j != i :: Holds(s', j, f) == Holds(s, j, f)
    ensures forall f | Holds(s', i, f) && !Holds(s, i, f) :: f !in s.forks && f in s'.forks
    ensures forall f | f in s.forks && f !in s'.forks :: Holds(s, i, f) && !Holds(s', i, f)
    ensures forall f | f in s'.forks && f !in s.forks :: Holds(s', i, f)
    ensures forall f | Holds(s, i, f) && !Holds(s', i, f) :: f !in s'.forks
  {
  }

  lemma StepKeeps(s: State, i: nat, s': State)
    requires Inv(s) && Step(s, i, s')
    ensures Inv(s')
  {
    StepHolds(s, i, s');
    var n := |s.places|;
    forall f | f in s'.forks ensures exists j | 0 <= j < n :: Holds(s', j, f) {
      if f in s.forks {
        var j :| 0 <= j < n && Holds(s, j, f);
        assert Holds(s', j, f);
      } else {
        assert Holds(s', i, f);
      }
    }
    forall j, f | 0 <= j < n && Holds(s', j, f) ensures f in s'.forks {
      if j != i {
        assert Holds(s, j, f);
      }
    }
  }

  ghost predicate Next(s: State, s': State) {
    exists i :: Step(s, i, s')
  }

  ghost predicate IsRun(run: seq<State>, n: nat) {
    && |run| > 0 && Init(run[0]) && |run[0].places| == n
    && forall k | 0 <= k < |run| - 1 :: Next(run[k], run[k + 1])
  }

  lemma {:induction false} RunKeeps(run: seq<State>, n: nat, k: nat)
    requires n >= 2 && IsRun(run, n) && k < |run|
    ensures |run[k].places| == n && Inv(run[k])
  {
    if k > 0 {
      RunKeeps(run, n, k - 1);
      assert Next(run[k - 1], run[k]);
      var i: nat :| Step(run[k - 1], i, run[k]);
      StepKeeps(run[k - 1], i, run[k]);
    }
  }

  /** In every reachable state a fork file exists if and only if exactly one philosopher holds that fork. */
  lemma ForkFileMeansOneHolder(run: seq<State>, n: nat, k: nat, f: Fork)
    requires n >= 2 && IsRun(run, n) && k < |run|
    ensures |run[k].places| == n
    ensures f in run[k].forks <==>
      exists i | 0 <= i < n :: Holds(run[k], i, f) && forall j | 0 <= j < n && j != i :: !Holds(run[k], j, f)
  {
    RunKeeps(run, n, k);
    if f in run[k].forks {
      var i :| 0 <= i < n && Holds(run[k], i, f);
      assert Holds(run[k], i, f) && forall j | 0 <= j < n && j != i :: !Holds(run[k], j, f);
    }
  }

  /** Neighbours, the last and the first included, never eat together. */
  lemma NeighboursNeverEatTogether(run: seq<State>, n: nat, k: nat, i: nat)
    requires n >= 2 && IsRun(run, n) && k < |run| && i < n
    ensures |run[k].places| == n && !(run[k].places[i] == Eating && run[k].places[(i + 1) % n] == Eating)
  {
    RunKeeps(run, n, k);
    var s, j := run[k], if i == n - 1 then 0 else i + 1;
    assert j == (i + 1) % n;
    if s.places[i] == Eating && s.places[j] == Eating {
      var f := j;
      assert Holds(s, i, f) && Holds(s, j, f);
    }
  }

  /** The next step of philosopher i is not a failed attempt. */
  predicate CanMove(s: State, i: nat)
    requires i < |s.places|
  {
    match s.places[i]
    case Hungry => First(i, |s.places|) !in s.forks
    case Reaching => Second(i, |s.places|) !in s.forks
    case _ => true
  }

  function Wanted(s: State, i: nat): Fork
    requires i < |s.places|
  {
    if s.places[i] == Reaching then Second(i, |s.places|) else First(i, |s.places|)
  }

  predicate HasFork(p: Place) {
    p.Reaching? || p.Eating? || p.Putting?
  }

  lemma HolderHasFork(s: State, h: nat, f: Fork)
    requires h < |s.places| && Holds(s, h, f)
    ensures HasFork(s.places[h])
  {
  }

  /** Each philosopher on the path wants a fork that the next one has. */
  ghost predicate WaitsAlong(s: State, path: seq<nat>) {
    && (forall k | 0 <= k < |path| :: path[k] < |s.places|)
    && forall k | 0 <= k < |path| - 1 :: !CanMove(s, path[k]) && Holds(s, path[k + 1], Wanted(s, path[k]))
  }

  /**
   From any blocked philosopher, follow whoever has the fork that one wants: the wanted forks
   decrease, as everybody takes the higher fork first, so the path ends at somebody who can move.
   */
  lemma {:induction false} BlockedByMover(s: State, i: nat) returns (path: seq<nat>)
    requires Inv(s) && i < |s.places| && !CanMove(s, i)
    ensures |path| >= 2 && path[0] == i && WaitsAlong(s, path)
    ensures CanMove(s, path[|path| - 1]) && HasFork(s.places[path[|path| - 1]])
    decreases Wanted(s, i)
  {
    var h: nat :| h < |s.places| && Holds(s, h, Wanted(s, i));
    HolderHasFork(s, h, Wanted(s, i));
    if CanMove(s, h) {
      path := [i, h];
      assert path[|path| - 1] == h;
    } else {
      var rest := BlockedByMover(s, h);
      path := [i] + rest;
      assert path[|path| - 1] == rest[|rest| - 1];
    }
  }

  /** What philosopher i does next. */
  function Moved(s: State, i: nat): State
    requires i < |s.places|
  {
    var n := |s.places|;
    match s.places[i]
    case Thinking => s.(places := s.places[i := Hungry])
    case Hungry => State(s.forks + {First(i, n)}, s.places[i := Reaching])
    case Reaching => State(s.forks + {Second(i, n)}, s.places[i := Eating])
    case Eating => State(s.forks - {First(i, n)}, s.places[i := Putting])
    case Putting => State(s.forks - {Second(i, n)}, s.places[i := Thinking])
  }

  lemma MoverMoves(s: State, i: nat)
    requires i < |s.places| && CanMove(s, i)
    ensures Step(s, i, Moved(s, i)) && Moved(s, i) != s
  {
    assert Moved(s, i).places[i] != s.places[i];
  }

  /**
   The philosophers never deadlock, nor does any group of them: in every reachable state, somebody
   who has a fork can make a step that changes the state if anyone is blocked; and if nobody is,
   everybody can.
   */
  lemma NeverDeadlocked(run: seq<State>, n: nat, k: nat, i: nat)
    requires n >= 2 && IsRun(run, n) && k < |run| && i < n
    ensures |run[k].places| == n
    ensures !CanMove(run[k], i) ==>
      exists j | 0 <= j < n ::
        HasFork(run[k].places[j]) && Step(run[k], j, Moved(run[k], j)) && Moved(run[k], j) != run[k]
    ensures CanMove(run[k], i) ==> Step(run[k], i, Moved(run[k], i)) && Moved(run[k], i) != run[k]
  {
    RunKeeps(run, n, k);
    if CanMove(run[k], i) {
      MoverMoves(run[k], i);
    } else {
      var path := BlockedByMover(run[k], i);
      MoverMoves(run[k], path[|path| - 1]);
    }
  }

  /** Whoever blocks a philosopher sits next to it, and has the fork between them. */
  lemma BlockedByNeighbour(run: seq<State>, n: nat, k: nat, i: nat) returns (j: nat)
    requires n >= 2 && IsRun(run, n) && k < |run| && i < n
    requires |run[k].places| == n && !CanMove(run[k], i)
    ensures j < n && j != i && (j == (i + 1) % n || i == (j + 1) % n)
    ensures Holds(run[k], j, Wanted(run[k], i)) && Wanted(run[k], i) in {i, (i + 1) % n} * {j, (j + 1) % n}
  {
    RunKeeps(run, n, k);
    var f := Wanted(run[k], i);
    j :| 0 <= j < n && Holds(run[k], j, f);
    OwnForks(i, n);
    OwnForks(j, n);
    assert f in {First(i, n), Second(i, n)} && f in {First(j, n), Second(j, n)};
  }

  /** Philosopher i goes from thinking to eating while nobody has its forks. */
  lemma Dine(s: State, i: nat) returns (run: seq<State>)
    requires |s.places| >= 2 && i < |s.places| && s.places[i] == Thinking
    requires First(i, |s.places|) !in s.forks && Second(i, |s.places|) !in s.forks
    ensures |run| == 4 && run[0] == s && forall k | 0 <= k < 3 :: Step(run[k], i, run[k + 1])
    ensures run[3] == State(s.forks + {First(i, |s.places|), Second(i, |s.places|)}, s.places[i := Eating])
  {
    OwnForks(i, |s.places|);
    var s1 := Moved(s, i);
    var s2 := Moved(s1, i);
    var s3 := Moved(s2, i);
    assert s3.forks == s.forks + {First(i, |s.places|), Second(i, |s.places|)};
    assert s3.places == s.places[i := Eating];
    run := [s, s1, s2, s3];
  }

  predicate Neighbours(i: nat, j: nat, n: nat)
    requires n > 0
  {
    j == (i + 1) % n || i == (j + 1) % n
  }

  /** Any two who are not neighbours may eat at the same time. */
  lemma OthersMayEatTogether(n: nat, i: nat, j: nat) returns (run: seq<State>)
    requires n >= 2 && i < n && j < n && i != j && !Neighbours(i, j, n)
    ensures IsRun(run, n) && |run| == 7 && |run[6].places| == n && run[6].places[i] == run[6].places[j] == Eating
  {
    var s := State({}, seq(n, _ => Thinking));
    OwnForks(i, n);
    OwnForks(j, n);
    assert {i, (i + 1) % n} !! {j, (j + 1) % n};
    var first := Dine(s, i);
    assert First(j, n) in {j, (j + 1) % n} && Second(j, n) in {j, (j + 1) % n};
    var second := Dine(first[3], j);
    run := first + second[1..];
    forall k | 0 <= k < |run| - 1 ensures Next(run[k], run[k + 1]) {
      if k < 3 { assert Step(first[k], i, first[k + 1]); } else { assert Step(second[k - 3], j, second[k - 2]); }
    }
  }

  /** Only the files of i's own forks come and go, and both are there when it eats. */
  ghost predicate OwnForksOnly(files: set<Fork>, places: seq<Place>, i: nat, files': set<Fork>, places': seq<Place>) {
    && i < |places| == |places'|
    && var own := {i, (i + 1) % |places|};
       && files' - files <= own && files - files' <= own && (places'[i] == Eating ==> own <= files')
       && forall j | 0 <= j < |places| && j != i :: places'[j] == places[j]
  }

  lemma StepForks(s: State, i: nat, s': State)
    requires Inv(s) && Inv(s') && Step(s, i, s')
    ensures OwnForksOnly(s.forks, s.places, i, s'.forks, s'.places)
  {
    var n := |s.places|;
    OwnForks(i, n);
    var own := {First(i, n), Second(i, n)};
    assert own == {i, (i + 1) % n};
    hide Inv;
    if s'.places[i] == Eating && s.places[i] == Reaching {
      assert Holds(s, i, First(i, n));
    }
  }

  /** The philosophers as one object; the processes' steps are calls of Advance in any order. */
  class Table {
    var files: set<Fork>
    var places: seq<Place>

    ghost function Abstract(): State
      reads this
    {
      State(files, places)
    }

    /** A file exists if and only if someone holds its fork, and never do two. */
    ghost predicate Valid()
      reads this
    {
      Inv(Abstract())
    }

    /** initlock: unlinks whatever files were left behind. */
    constructor (n: nat)
      requires n >= 2
      ensures Valid() && Init(Abstract()) && |places| == n
    {
      files, places := {}, seq(n, _ => Thinking);
    }

    method TryLock(f: Fork) returns (created: bool)
      modifies `files
      ensures (files, created) == Created(old(files), f)
    {
      created := f !in files;
      if created { files := files + {f}; }
    }

    method Unlock(f: Fork)
      modifies `files
      ensures files == old(files) - {f}
    {
      files := files - {f};
    }

    /** The next open, unlink or other step of philosopher i. */
    method Advance(i: nat) returns (moved: bool)
      requires Valid() && i < |places|
      modifies this
      ensures Valid() && Step(old(Abstract()), i, Abstract()) && |places| == |old(places)|
      ensures moved <==> CanMove(old(Abstract()), i)
      ensures OwnForksOnly(old(files), old(places), i, files, places)
    {
      ghost var s := Abstract();
      var n, next := |places|, Hungry;
      moved := true;
      match places[i] {
        case Thinking =>
        case Hungry =>
          moved := TryLock(First(i, n));
          next := Reaching;
        case Reaching =>
          moved := TryLock(Second(i, n));
          next := Eating;
        case Eating =>
          Unlock(First(i, n));
          next := Putting;
        case Putting =>
          Unlock(Second(i, n));
          next := Thinking;
      }
      if moved { places := places[i := next]; }
      assert Step(s, i, Abstract());
      StepKeeps(s, i, Abstract());
      hide Inv, Step, OwnForksOnly;
      StepForks(s, i, Abstract());
    }
  }
}
