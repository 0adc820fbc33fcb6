/**
 SynchList as a monitor: a lock and a condition, both made of a semaphore, around a list. The
 condition is a counting semaphore that remembers signals, and Wait gives up the lock before its P;
 the steps are those of the code, preempted anywhere between atomic segments.
 */
module SynchLists {
  import opened Counting
  import opened Semaphores

  /** A pointer given to Append; the list answers Null when it has nothing to remove. */
  datatype Item = Null | Pointer(address: nat)

  /** What a thread wants the lock for. A credit is a unit of the condition, taken in Wait and not yet used up. */
  datatype Goal = ToAppend(item: Item) | ToTest(credited: bool)

  datatype Place =
    | Idle
    | Acquiring(goal: Goal, phase: Phase)
    | Appending(item: Item)
    | Signalling              // has appended, and has not yet signalled
    | Testing(credited: bool)
    | Taking(credited: bool)  // has seen a non-empty list
    | Leaving
    | Parting                 // in Wait, about to release the lock
    | Waiting(phase: Phase)   // in the P of Wait

  /** The histories of what was appended and what removed are for the proof. */
  datatype State =
    State(lock: Sema, cond: Sema, list: seq<Item>, places: seq<Place>, appended: seq<Item>, removed: seq<Item>)

  predicate Inside(p: Place) {
    p.Appending? || p.Signalling? || p.Testing? || p.Taking? || p.Leaving? || p.Parting?
  }

  /** An appender that has yet to signal, or a remover that has been let through and has yet to take its item. */
  predicate Promised(p: Place) {
    p.Signalling? || p == Acquiring(ToTest(true), Away) || p == Acquiring(ToTest(true), Asleep)
    || p == Acquiring(ToTest(true), Woken) || p == Testing(true) || p == Taking(true)
  }

  predicate Sleeping(p: Place) {
    (p.Acquiring? || p.Waiting?) && p.phase == Asleep
  }

  function LockPhase(p: Place): Phase {
    if p.Acquiring? then p.phase else Away
  }

  function CondPhase(p: Place): Phase {
    if p.Waiting? then p.phase else Away
  }

  ghost function LockPhases(places: seq<Place>): (ph: seq<Phase>)
    ensures |ph| == |places| && forall t | 0 <= t < |ph| :: ph[t] == LockPhase(places[t])
  {
    seq(|places|, t requires 0 <= t < |places| => LockPhase(places[t]))
  }

  ghost function CondPhases(places: seq<Place>): (ph: seq<Phase>)
    ensures |ph| == |places| && forall t | 0 <= t < |ph| :: ph[t] == CondPhase(places[t])
  {
    seq(|places|, t requires 0 <= t < |places| => CondPhase(places[t]))
  }

  ghost function Holders(places: seq<Place>): nat {
    Count(places, (p: Place) => Inside(p))
  }

  ghost function Promises(places: seq<Place>): nat {
    Count(places, (p: Place) => Promised(p))
  }

  /** What List::Remove returns and leaves. */
  function TakeFirst(list: seq<Item>): (Item, seq<Item>) {
    if list == [] then (Null, []) else (list[0], list[1..])
  }

  function Entered(goal: Goal): Place {
    match goal
    case ToAppend(item) => Appending(item)
    case ToTest(credited) => Testing(credited)
  }

  /** V puts the first sleeper on its way to test again. */
  function Wake(queue: seq<Tid>, places: seq<Place>): seq<Place> {
    if queue == [] || queue[0] >= |places| then places
    else
      match places[queue[0]]
      case Acquiring(goal, _) => places[queue[0] := Acquiring(goal, Woken)]
      case Waiting(_) => places[queue[0] := Waiting(Woken)]
      case _ => places
  }

  ghost predicate Init(s: State) {
    && s.lock == Sema(1, []) && s.cond == Sema(0, []) && s.list == s.appended == s.removed == []
    && forall t | 0 <= t < |s.places| :: s.places[t] == Idle
  }

  ghost predicate Begin(s: State, t: Tid, goal: Goal, s': State)
    requires t < |s.places|
  {
    goal != ToTest(true) && s' == s.(places := s.places[t := Acquiring(goal, Away)])
  }

  ghost predicate Step(s: State, t: Tid, s': State) {
    t < |s.places| &&
    match s.places[t]
    case Idle => exists goal :: Begin(s, t, goal, s')
    case Acquiring(goal, phase) =>
      phase != Asleep &&
      var (lock, got) := TryP(s.lock, t);
      s' == s.(lock := lock, places := s.places[t := if got then Entered(goal) else Acquiring(goal, Asleep)])
    case Appending(item) =>
      s' == s.(list := s.list + [item], appended := s.appended + [item], places := s.places[t := Signalling])
    case Signalling => s' == s.(cond := AfterV(s.cond), places := Wake(s.cond.queue, s.places[t := Leaving]))
    case Testing(credited) => s' == s.(places := s.places[t := if s.list == [] then Parting else Taking(credited)])
    case Taking(_) =>
      var (item, rest) := TakeFirst(s.list);
      s' == s.(list := rest, removed := s.removed + [item], places := s.places[t := Leaving])
    case Leaving => s' == s.(lock := AfterV(s.lock), places := Wake(s.lock.queue, s.places[t := Idle]))
    case Parting => s' == s.(lock := AfterV(s.lock), places := Wake(s.lock.queue, s.places[t := Waiting(Away)]))
    case Waiting(phase) =>
      phase != Asleep &&
      var (cond, got) := TryP(s.cond, t);
      s' == s.(cond := cond, places := s.places[t := if got then Acquiring(ToTest(true), Away) else Waiting(Asleep)])
  }

  ghost predicate Queues(s: State) {
    && SemaInv(s.lock, LockPhases(s.places))
    && SemaInv(s.cond, CondPhases(s.places))
  }

  /** Items never outnumber the units, credits and signals still to come that will have them removed. */
  ghost predicate Inv(s: State) {
    && Queues(s)
    && s.lock.value + Holders(s.places) == 1
    && |s.list| <= s.cond.value + Promises(s.places)
    && (forall t | 0 <= t < |s.places| && s.places[t].Taking? :: s.list != [])
    && s.appended == s.removed + s.list
  }

  /** Waking the first sleeper of the lock changes one phase and neither count. */
  lemma WakeLock(s: Sema, places: seq<Place>)
    requires s.queue != [] ==> s.queue[0] < |places| && LockPhase(places[s.queue[0]]) == Asleep
    ensures LockPhases(Wake(s.queue, places)) == PhasesAfterV(s, LockPhases(places))
    ensures CondPhases(Wake(s.queue, places)) == CondPhases(places)
    ensures Holders(Wake(s.queue, places)) == Holders(places)
    ensures Promises(Wake(s.queue, places)) == Promises(places)
  {
    if s.queue != [] {
      var w := s.queue[0];
      CountUpdate(places, w, Acquiring(places[w].goal, Woken), (p: Place) => Inside(p));
      CountUpdate(places, w, Acquiring(places[w].goal, Woken), (p: Place) => Promised(p));
    }
  }

  lemma WakeCond(s: Sema, places: seq<Place>)
    requires s.queue != [] ==> s.queue[0] < |places| && CondPhase(places[s.queue[0]]) == Asleep
    ensures CondPhases(Wake(s.queue, places)) == PhasesAfterV(s, CondPhases(places))
    ensures LockPhases(Wake(s.queue, places)) == LockPhases(places)
    ensures Holders(Wake(s.queue, places)) == Holders(places)
    ensures Promises(Wake(s.queue, places)) == Promises(places)
  {
    if s.queue != [] {
      var w := s.queue[0];
      CountUpdate(places, w, Waiting(Woken), (p: Place) => Inside(p));
      CountUpdate(places, w, Waiting(Woken), (p: Place) => Promised(p));
    }
  }

  /** The phases and counts after one thread has moved. */
  lemma Moved(places: seq<Place>, t: Tid, p: Place)
    requires t < |places|
    ensures LockPhases(places[t := p]) == LockPhases(places)[t := LockPhase(p)]
    ensures CondPhases(places[t := p]) == CondPhases(places)[t := CondPhase(p)]
    ensures LockPhase(p) == LockPhase(places[t]) ==> LockPhases(places[t := p]) == LockPhases(places)
    ensures CondPhase(p) == CondPhase(places[t]) ==> CondPhases(places[t := p]) == CondPhases(places)
    ensures Holders(places[t := p]) ==
      Holders(places) - (if Inside(places[t]) then 1 else 0) + if Inside(p) then 1 else 0
    ensures Promises(places[t := p]) ==
      Promises(places) - (if Promised(places[t]) then 1 else 0) + if Promised(p) then 1 else 0
  {
    CountUpdate(places, t, p, (p: Place) => Inside(p));
    CountUpdate(places, t, p, (p: Place) => Promised(p));
  }

  /** P on the lock. */
  lemma AcquireKeeps(s: State, t: Tid, s': State)
    requires Inv(s) && Step(s, t, s') && s.places[t].Acquiring?
    ensures Inv(s')
  {
    TryPKeeps(s.lock, LockPhases(s.places), t);
    hide Holders, Promises;
    Moved(s.places, t, s'.places[t]);
  }

  /** P on the condition: a unit becomes a credit. */
  lemma WaitKeeps(s: State, t: Tid, s': State)
    requires Inv(s) && Step(s, t, s') && s.places[t].Waiting?
    ensures Inv(s')
  {
    TryPKeeps(s.cond, CondPhases(s.places), t);
    hide Holders, Promises;
    Moved(s.places, t, s'.places[t]);
  }

  /** V on the lock, at the end of a call or in Wait. */
  lemma ReleaseKeeps(s: State, t: Tid, p: Place, s': State)
    requires Inv(s) && t < |s.places| && (s.places[t].Leaving? || s.places[t].Parting?)
    requires p == Idle || p == Waiting(Away)
    requires s' == s.(lock := AfterV(s.lock), places := Wake(s.lock.queue, s.places[t := p]))
    ensures Inv(s')
  {
    VKeeps(s.lock, LockPhases(s.places));
    Moved(s.places, t, p);
    assert s.lock.queue != [] ==> LockPhases(s.places)[s.lock.queue[0]] == Asleep;
    WakeLock(s.lock, s.places[t := p]);
  }

  /** V on the condition: the appender's promise becomes a unit. */
  lemma SignalKeeps(s: State, t: Tid, s': State)
    requires Inv(s) && Step(s, t, s') && s.places[t].Signalling?
    ensures Inv(s')
  {
    var condPhases := CondPhases(s.places);
    VKeeps(s.cond, condPhases);
    Moved(s.places, t, Leaving);
    assert s.cond.queue != [] ==> condPhases[s.cond.queue[0]] == Asleep;
    WakeCond(s.cond, s.places[t := Leaving]);
  }

  /** The steps on the list itself, taken inside, and the beginning of a call. */
  lemma BeginKeeps(s: State, t: Tid, s': State)
    requires Inv(s) && Step(s, t, s') && s.places[t].Idle?
    ensures Inv(s')
  {
    Moved(s.places, t, s'.places[t]);
  }

  lemma AppendKeeps(s: State, t: Tid, s': State)
    requires Inv(s) && Step(s, t, s') && s.places[t].Appending?
    ensures Inv(s')
  {
    Moved(s.places, t, Signalling);
  }

  lemma TestKeeps(s: State, t: Tid, s': State)
    requires Inv(s) && Step(s, t, s') && s.places[t].Testing?
    ensures Inv(s')
  {
    Moved(s.places, t, s'.places[t]);
  }

  lemma TakeKeeps(s: State, t: Tid, s': State)
    requires Inv(s) && Step(s, t, s') && s.places[t].Taking?
    ensures Inv(s')
  {
    Moved(s.places, t, Leaving);
    CountUnique(s.places, t, (p: Place) => Inside(p));
    assert s.list == [s.list[0]] + s.list[1..];
  }

  lemma StepKeeps(s: State, t: Tid, s': State)
    requires Inv(s) && Step(s, t, s')
    ensures Inv(s')
  {
    match s.places[t]
    case Acquiring(_, _) => AcquireKeeps(s, t, s');
    case Waiting(_) => WaitKeeps(s, t, s');
    case Leaving => ReleaseKeeps(s, t, Idle, s');
    case Parting => ReleaseKeeps(s, t, Waiting(Away), s');
    case Signalling => SignalKeeps(s, t, s');
    case Idle => BeginKeeps(s, t, s');
    case Appending(_) => AppendKeeps(s, t, s');
    case Testing(_) => TestKeeps(s, t, s');
    case Taking(_) => TakeKeeps(s, t, s');
  }

  ghost predicate Next(s: State, s': State) {
    exists t :: Step(s, t, s')
  }

  ghost predicate IsRun(run: seq<State>) {
    && |run| > 0 && Init(run[0])
    && forall i | 0 <= i < |run| - 1 :: Next(run[i], run[i + 1])
  }

  lemma {:induction false} RunKeeps(run: seq<State>, i: nat)
    requires IsRun(run) && i < |run|
    ensures Inv(run[i])
  {
    if i == 0 {
      var s := run[0];
      CountNone(s.places, (p: Place) => Inside(p));
      assert forall t | 0 <= t < |s.places| :: LockPhases(s.places)[t] == Away;
      assert forall t | 0 <= t < |s.places| :: CondPhases(s.places)[t] == Away;
    } else {
      RunKeeps(run, i - 1);
      assert Next(run[i - 1], run[i]);
      var t :| Step(run[i - 1], t, run[i]);
      StepKeeps(run[i - 1], t, run[i]);
    }
  }

  /** Items leave in the order in which they came, none lost and none made up; only one thread is ever inside. */
  lemma FirstInFirstOut(run: seq<State>, i: nat, t: Tid, u: Tid)
    requires IsRun(run) && i < |run| && t < |run[i].places| && u < |run[i].places|
    ensures run[i].appended == run[i].removed + run[i].list
    ensures Inside(run[i].places[t]) && Inside(run[i].places[u]) ==> t == u
    ensures run[i].places[t].Taking? ==> run[i].list != []
  {
    RunKeeps(run, i);
    if Inside(run[i].places[t]) { CountUnique(run[i].places, t, (p: Place) => Inside(p)); }
  }

  /**
   Remove's assertion that it found an item: when a thread is about to take one, it will get Null
   exactly when the next item in the order of appending was appended as Null.
   */
  lemma AssertionFailsOnNull(run: seq<State>, i: nat, t: Tid)
    requires IsRun(run) && i < |run| && t < |run[i].places| && run[i].places[t].Taking?
    ensures |run[i].removed| < |run[i].appended|
    ensures TakeFirst(run[i].list).0 == Null <==> run[i].appended[|run[i].removed|] == Null
  {
    RunKeeps(run, i);
    assert run[i].appended[|run[i].removed|] == run[i].list[0];
  }

  /** One thread that appends Null. */
  lemma AppendsNull() returns (run: seq<State>)
    ensures IsRun(run) && |run| == 6
    ensures run[5] == State(Sema(1, []), Sema(1, []), [Null], [Idle], [Null], [])
  {
    var free, held, silent := Sema(1, []), Sema(0, []), Sema(0, []);
    var s0 := State(free, silent, [], [Idle], [], []);
    var s1 := State(free, silent, [], [Acquiring(ToAppend(Null), Away)], [], []);
    var s2 := State(held, silent, [], [Appending(Null)], [], []);
    var s3 := State(held, silent, [Null], [Signalling], [Null], []);
    var s4 := State(held, Sema(1, []), [Null], [Leaving], [Null], []);
    var s5 := State(free, Sema(1, []), [Null], [Idle], [Null], []);
    assert Begin(s0, 0, ToAppend(Null), s1);
    assert Step(s0, 0, s1) && Step(s1, 0, s2) && Step(s2, 0, s3) && Step(s3, 0, s4) && Step(s4, 0, s5);
    run := [s0, s1, s2, s3, s4, s5];
  }

  /** The same thread then removes it: the assertion fails. */
  lemma AssertionFails() returns (run: seq<State>)
    ensures IsRun(run) && |run| == 9
    ensures run[8].places == [Taking(false)] && TakeFirst(run[8].list).0 == Null
  {
    var before := AppendsNull();
    var s5 := before[5];
    var s6 := s5.(places := [Acquiring(ToTest(false), Away)]);
    var s7 := s6.(lock := Sema(0, []), places := [Testing(false)]);
    var s8 := s7.(places := [Taking(false)]);
    assert Begin(s5, 0, ToTest(false), s6);
    assert Step(s5, 0, s6) && Step(s6, 0, s7) && Step(s7, 0, s8);
    run := before + [s6, s7, s8];
  }

  /**
   No wakeup is lost: beside an item and a remover asleep on the condition there is always an
   appender about to signal, a remover let through, or a woken one about to test.
   */
  lemma NoLostWakeup(run: seq<State>, i: nat)
    requires IsRun(run) && i < |run| && run[i].list != [] && run[i].cond.queue != []
    ensures exists t | 0 <= t < |run[i].places| ::
      Promised(run[i].places[t]) || run[i].places[t] == Waiting(Woken)
  {
    RunKeeps(run, i);
    var s := run[i];
    if s.cond.value == 0 {
      var t := CountWitness(s.places, (p: Place) => Promised(p));
    } else {
      var t := CountWitness(CondPhases(s.places), (p: Phase) => p == Woken);
    }
  }

  /** A state in which no thread can go on without a new call: a remover that waits, waits for an item. */
  ghost predicate Settled(s: State) {
    && s.lock == Sema(1, [])
    && (forall t | 0 <= t < |s.places| :: s.places[t] in {Idle, Waiting(Asleep)})
    && (s.cond.queue != [] ==> s.list == [] && s.cond.value == 0)
  }

  /** When all are idle or asleep, none sleeps on the lock, and one on the condition only if the list is empty. */
  lemma AllAtRest(s: State)
    requires Inv(s) && forall t | 0 <= t < |s.places| :: s.places[t] == Idle || Sleeping(s.places[t])
    ensures Settled(s)
  {
    CountNone(s.places, (p: Place) => Inside(p));
    if s.lock.queue != [] {
      NoIdleUnit(s.lock, LockPhases(s.places));
    }
    forall t | 0 <= t < |s.places| ensures s.places[t] in {Idle, Waiting(Asleep)} {
      assert LockPhases(s.places)[t] != Asleep;
    }
    if s.cond.queue != [] {
      NoIdleUnit(s.cond, CondPhases(s.places));
      CountNone(s.places, (p: Place) => Promised(p));
    }
  }

  lemma NeverStuck(run: seq<State>, i: nat)
    requires IsRun(run) && i < |run|
    requires forall t | 0 <= t < |run[i].places| :: run[i].places[t] == Idle || Sleeping(run[i].places[t])
    ensures Settled(run[i])
  {
    RunKeeps(run, i);
    AllAtRest(run[i]);
  }

  /*** Every call returns, or waits for an item ***/

  /** A step that begins no call. */
  ghost predicate Continues(s: State, s': State) {
    exists t: Tid :: t < |s.places| && s.places[t] != Idle && Step(s, t, s')
  }

  ghost predicate IsPath(path: seq<State>) {
    |path| > 0 && forall k | 0 <= k < |path| - 1 :: Continues(path[k], path[k + 1])
  }

  predicate Brings(p: Place, item: Item) {
    p == Appending(item) || (p.Acquiring? && p.goal == ToAppend(item))
  }

  /** How far a thread is from its return, or from sleep; a unit of the condition may bring four more steps. */
  function Distance(p: Place): nat {
    match p
    case Idle => 0
    case Leaving => 1
    case Taking(_) => 2
    case Waiting(phase) => if phase == Asleep then 2 else 3
    case Parting => 4
    case Testing(_) => 5
    case Acquiring(goal, _) => if goal.ToTest? then 6 else 9
    case Signalling => 7
    case Appending(_) => 8
  }

  ghost function Remaining(s: State): nat {
    Total(s.places, (p: Place) => Distance(p)) + 4 * s.cond.value
  }

  /** What a step leaves of the items: those appended stay, and one that is still to be appended is, or is kept. */
  ghost predicate Onward(s: State, s': State) {
    && |s'.places| == |s.places| && s.appended <= s'.appended
    && forall t, item | 0 <= t < |s.places| && Brings(s.places[t], item) ::
         Brings(s'.places[t], item) || (|s'.appended| > |s.appended| && s'.appended[|s.appended|] == item)
  }

  lemma RemainingMoved(places: seq<Place>, t: Tid, p: Place)
    requires t < |places|
    ensures Total(places[t := p], (p: Place) => Distance(p))
      == Total(places, (p: Place) => Distance(p)) - Distance(places[t]) + Distance(p)
  {
    TotalUpdate(places, t, p, (p: Place) => Distance(p));
  }

  lemma RemainingWoken(queue: seq<Tid>, places: seq<Place>)
    ensures var d := (p: Place) => Distance(p);
      Total(Wake(queue, places), d)
        <= Total(places, d) + if queue != [] && queue[0] < |places| && places[queue[0]].Waiting? then 1 else 0
    ensures |Wake(queue, places)| == |places|
    ensures forall t, item | 0 <= t < |places| && Brings(places[t], item) :: Brings(Wake(queue, places)[t], item)
  {
    var places' := Wake(queue, places);
    if queue != [] && queue[0] < |places| {
      assert places' == places[queue[0] := places'[queue[0]]];
      RemainingMoved(places, queue[0], places'[queue[0]]);
    }
  }

  /** Whoever is inside can go on, and comes nearer to the end. */
  lemma LeaverMoves(s: State, t: Tid, p: Place) returns (s': State)
    requires Inv(s) && t < |s.places|
    requires (s.places[t].Leaving? && p == Idle) || (s.places[t].Parting? && p == Waiting(Away))
    ensures Continues(s, s') && Remaining(s') < Remaining(s) && Onward(s, s')
  {
    var places := s.places[t := p];
    s' := s.(lock := AfterV(s.lock), places := Wake(s.lock.queue, places));
    assert s.lock.queue != [] ==> LockPhases(s.places)[s.lock.queue[0]] == Asleep;
    RemainingMoved(s.places, t, p);
    RemainingWoken(s.lock.queue, places);
    assert Step(s, t, s');
  }

  lemma SignallerMoves(s: State, t: Tid) returns (s': State)
    requires Inv(s) && t < |s.places| && s.places[t].Signalling?
    ensures Continues(s, s') && Remaining(s') < Remaining(s) && Onward(s, s')
  {
    var places := s.places[t := Leaving];
    s' := s.(cond := AfterV(s.cond), places := Wake(s.cond.queue, places));
    RemainingMoved(s.places, t, Leaving);
    RemainingWoken(s.cond.queue, places);
    assert Step(s, t, s');
  }

  lemma ListMoves(s: State, t: Tid) returns (s': State)
    requires t < |s.places| && (s.places[t].Appending? || s.places[t].Testing? || s.places[t].Taking?)
    ensures Continues(s, s') && Remaining(s') < Remaining(s) && Onward(s, s')
  {
    match s.places[t] {
      case Appending(item) =>
        s' := s.(list := s.list + [item], appended := s.appended + [item], places := s.places[t := Signalling]);
      case Testing(credited) =>
        s' := s.(places := s.places[t := if s.list == [] then Parting else Taking(credited)]);
      case Taking(_) =>
        var (item, rest) := TakeFirst(s.list);
        s' := s.(list := rest, removed := s.removed + [item], places := s.places[t := Leaving]);
    }
    RemainingMoved(s.places, t, s'.places[t]);
    assert Step(s, t, s');
  }

  /** When nobody is inside, who is not asleep on the lock gets in. */
  lemma SomeoneEnters(s: State, t: Tid) returns (s': State)
    requires s.lock.value > 0 && t < |s.places| && s.places[t].Acquiring? && s.places[t].phase != Asleep
    ensures Continues(s, s') && Remaining(s') < Remaining(s) && Onward(s, s')
  {
    s' := s.(lock := TryP(s.lock, t).0, places := s.places[t := Entered(s.places[t].goal)]);
    RemainingMoved(s.places, t, s'.places[t]);
    assert Step(s, t, s');
  }

  /** Who is not asleep on the condition comes back for the lock, or falls asleep. */
  lemma WaiterMoves(s: State, t: Tid) returns (s': State)
    requires t < |s.places| && s.places[t].Waiting? && s.places[t].phase != Asleep
    ensures Continues(s, s') && Remaining(s') < Remaining(s) && Onward(s, s')
  {
    var (cond, got) := TryP(s.cond, t);
    s' := s.(cond := cond, places := s.places[t := if got then Acquiring(ToTest(true), Away) else Waiting(Asleep)]);
    RemainingMoved(s.places, t, s'.places[t]);
    assert Step(s, t, s');
  }

  lemma InsideMoves(s: State, t: Tid) returns (s': State)
    requires Inv(s) && t < |s.places| && Inside(s.places[t])
    ensures Continues(s, s') && Remaining(s') < Remaining(s) && Onward(s, s')
  {
    hide Inv, Continues, Remaining, Onward;
    match s.places[t] {
      case Leaving => s' := LeaverMoves(s, t, Idle);
      case Parting => s' := LeaverMoves(s, t, Waiting(Away));
      case Signalling => s' := SignallerMoves(s, t);
      case _ => s' := ListMoves(s, t);
    }
  }

  lemma OutsideMoves(s: State, t: Tid) returns (s': State)
    requires Inv(s) && Holders(s.places) == 0 && t < |s.places| && s.places[t] != Idle && !Sleeping(s.places[t])
    ensures Continues(s, s') && Remaining(s') < Remaining(s) && Onward(s, s')
  {
    if Inside(s.places[t]) { CountSome(s.places, t, (p: Place) => Inside(p)); }
    hide Continues, Remaining, Onward;
    if s.places[t].Acquiring? {
      s' := SomeoneEnters(s, t);
    } else {
      s' := WaiterMoves(s, t);
    }
  }

  lemma SomeoneMoves(s: State) returns (s': State)
    requires Inv(s) && exists t | 0 <= t < |s.places| :: s.places[t] != Idle && !Sleeping(s.places[t])
    ensures Continues(s, s') && Remaining(s') < Remaining(s) && Onward(s, s') && Inv(s')
  {
    hide Inv, Remaining, Onward, Step, Sleeping;
    if Holders(s.places) > 0 {
      var t := CountWitness(s.places, (p: Place) => Inside(p));
      s' := InsideMoves(s, t);
    } else {
      var t :| 0 <= t < |s.places| && s.places[t] != Idle && !Sleeping(s.places[t]);
      s' := OutsideMoves(s, t);
    }
    var t: Tid :| t < |s.places| && s.places[t] != Idle && Step(s, t, s');
    StepKeeps(s, t, s');
  }

  /** Of a state, and one after it: the items appended have grown by others, among which are all those on their way. */
  ghost predicate AllAppended(s: State, last: State) {
    && |last.places| == |s.places| && s.appended <= last.appended
    && forall t, item | 0 <= t < |s.places| && Brings(s.places[t], item) :: item in last.appended[|s.appended|..]
  }

  lemma AppendedAfter(s: State, s': State, last: State)
    requires Onward(s, s') && AllAppended(s', last)
    ensures AllAppended(s, last)
  {
    assert last.appended[|s.appended|..] == s'.appended[|s.appended|..] + last.appended[|s'.appended|..];
    forall t, item | 0 <= t < |s.places| && Brings(s.places[t], item) ensures item in last.appended[|s.appended|..] {
      if !Brings(s'.places[t], item) { assert s'.appended[|s.appended|..][0] == item; }
    }
  }

  lemma {:induction false} PathToRest(s: State) returns (path: seq<State>)
    requires Inv(s)
    ensures IsPath(path) && path[0] == s && AllAppended(s, path[|path| - 1]) && Settled(path[|path| - 1])
    ensures Inv(path[|path| - 1])
    decreases Remaining(s)
  {
    hide Inv, Remaining, Onward, AllAppended, Continues, Settled;
    if forall t | 0 <= t < |s.places| :: s.places[t] == Idle || Sleeping(s.places[t]) {
      AllAtRest(s);
      path := [s];
      assert AllAppended(s, s) by { NoneBrings(s); }
    } else {
      var s' := SomeoneMoves(s);
      var rest := PathToRest(s');
      AppendedAfter(s, s', rest[|rest| - 1]);
      path := [s] + rest;
    }
  }

  lemma NoneBrings(s: State)
    requires Settled(s)
    ensures AllAppended(s, s)
  {
  }

  /**
   From every reachable state the calls that have begun can go on until all have returned, but for
   removers that sleep beside an empty list; every item on its way has been appended by then, and all
   that was appended and is not on the list has been removed, in order.
   */
  lemma CallsReturn(run: seq<State>, i: nat) returns (cont: seq<State>)
    requires IsRun(run) && i < |run|
    ensures IsPath(cont) && cont[0] == run[i]
    ensures var last := cont[|cont| - 1];
      Settled(last) && AllAppended(run[i], last) && last.appended == last.removed + last.list
  {
    RunKeeps(run, i);
    cont := PathToRest(run[i]);
  }
}
