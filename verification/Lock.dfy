/**
 Lock: a semaphore of one unit and a record of the holder. The record is written outside the
 semaphore's atomic segments, so a thread can be preempted between getting the unit and the record.
 */
module Locks {
  import opened Counting
  import opened Semaphores

  datatype Place =
    | Outside
    | Acquiring(phase: Phase)
    | Entered     // has the unit, threadHoldLock not yet set
    | Holding
    | Exiting     // threadHoldLock cleared, V not yet called

  datatype Holder = None | By(t: Tid)

  /** The source leaves threadHoldLock uninitialised: initially it may be anything. */
  datatype State = State(sema: Sema, holder: Holder, places: seq<Place>, acquisitions: nat)

  function PhaseOf(p: Place): Phase {
    if p.Acquiring? then p.phase else Away
  }

  ghost function Phases(places: seq<Place>): (ph: seq<Phase>)
    ensures |ph| == |places|
  {
    seq(|places|, t requires 0 <= t < |places| => PhaseOf(places[t]))
  }

  predicate Inside(p: Place) {
    p.Entered? || p.Holding? || p.Exiting?
  }

  ghost function Holders(places: seq<Place>): nat {
    Count(places, (p: Place) => Inside(p))
  }

  ghost predicate Init(s: State) {
    s.sema == Sema(1, []) && s.acquisitions == 0 && forall t | 0 <= t < |s.places| :: s.places[t] == Outside
  }

  /** The thread that V wakes goes on to test again. */
  function Wake(sema: Sema, places: seq<Place>): seq<Place>
    requires sema.queue != [] ==> sema.queue[0] < |places|
  {
    if sema.queue == [] then places else places[sema.queue[0] := Acquiring(Woken)]
  }

  ghost predicate Step(s: State, t: Tid, s': State) {
    t < |s.places| &&
    match s.places[t]
    case Outside => s' == s.(places := s.places[t := Acquiring(Away)])
    case Acquiring(phase) =>
      phase != Asleep &&
      var (sema, got) := TryP(s.sema, t);
      s' == s.(sema := sema, places := s.places[t := if got then Entered else Acquiring(Asleep)])
    case Entered => s' == s.(holder := By(t), places := s.places[t := Holding], acquisitions := s.acquisitions + 1)
    case Holding => s' == s.(holder := None, places := s.places[t := Exiting])
    case Exiting =>
      && (s.sema.queue != [] ==> s.sema.queue[0] < |s.places|)
      && s' == s.(sema := AfterV(s.sema), places := Wake(s.sema, s.places[t := Outside]))
  }

  /** The unit is either in the semaphore or with exactly one thread, which the record names while it is holding. */
  ghost predicate Inv(s: State) {
    && SemaInv(s.sema, Phases(s.places))
    && s.sema.value + Holders(s.places) == 1
    && (forall t | 0 <= t < |s.places| && s.places[t] == Holding :: s.holder == By(t))
    && (s.acquisitions > 0 && s.holder.By? ==> s.holder.t < |s.places| && s.places[s.holder.t] == Holding)
  }

  lemma StepKeepsQueue(s: State, t: Tid, s': State)
    requires Inv(s) && Step(s, t, s')
    ensures SemaInv(s'.sema, Phases(s'.places))
  {
    if s.places[t].Acquiring? {
      TryPKeeps(s.sema, Phases(s.places), t);
      assert Phases(s'.places) == Phases(s.places)[t := PhaseOf(s'.places[t])];
    } else if s.places[t] == Exiting {
      VKeeps(s.sema, Phases(s.places));
      assert s.sema.queue != [] ==> Phases(s.places)[s.sema.queue[0]] == Asleep;
      assert Phases(s'.places) == PhasesAfterV(s.sema, Phases(s.places));
    } else {
      assert Phases(s'.places) == Phases(s.places);
    }
  }

  lemma WakeKeepsHolders(sema: Sema, places: seq<Place>)
    requires sema.queue != [] ==> sema.queue[0] < |places| && !Inside(places[sema.queue[0]])
    ensures Holders(Wake(sema, places)) == Holders(places)
  {
    if sema.queue != [] {
      CountUpdate(places, sema.queue[0], Acquiring(Woken), (p: Place) => Inside(p));
    }
  }

  lemma StepKeepsUnit(s: State, t: Tid, s': State)
    requires Inv(s) && Step(s, t, s')
    ensures s'.sema.value + Holders(s'.places) == 1
  {
    var inside := (p: Place) => Inside(p);
    if s.places[t] == Exiting {
      CountUpdate(s.places, t, Outside, inside);
      assert s.sema.queue != [] ==> Phases(s.places)[s.sema.queue[0]] == Asleep;
      WakeKeepsHolders(s.sema, s.places[t := Outside]);
    } else {
      CountUpdate(s.places, t, s'.places[t], inside);
    }
  }

  lemma StepKeepsRecord(s: State, t: Tid, s': State)
    requires Inv(s) && Step(s, t, s')
    ensures forall u | 0 <= u < |s'.places| && s'.places[u] == Holding :: s'.holder == By(u)
    ensures s'.acquisitions > 0 && s'.holder.By? ==>
      s'.holder.t < |s'.places| && s'.places[s'.holder.t] == Holding
  {
    if Inside(s.places[t]) { CountUnique(s.places, t, (p: Place) => Inside(p)); }
    if s.places[t] == Exiting && s.sema.queue != [] {
      assert Phases(s.places)[s.sema.queue[0]] == Asleep;
    }
  }

  lemma StepKeeps(s: State, t: Tid, s': State)
    requires Inv(s) && Step(s, t, s')
    ensures Inv(s')
  {
    StepKeepsQueue(s, t, s');
    StepKeepsUnit(s, t, s');
    StepKeepsRecord(s, t, s');
  }

  ghost predicate Next(s: State, s': State) {
    exists t :: Step(s, t, s')
  }

  ghost predicate IsRun(run: seq<State>) {
    && |run| > 0 && Init(run[0])
    && forall i | 0 <= i < |run| - 1 :: Next(run[i], run[i + 1])
  }

  lemma {:induction false} RunKeeps(run: seq<State>, i: nat)
    requires IsRun(run) && i < |run|
    ensures Inv(run[i])
  {
    if i == 0 {
      var s := run[0];
      CountNone(s.places, (p: Place) => Inside(p));
      assert forall t | 0 <= t < |s.places| :: Phases(s.places)[t] == Away;
    } else {
      RunKeeps(run, i - 1);
      assert Next(run[i - 1], run[i]);
      var t :| Step(run[i - 1], t, run[i]);
      StepKeeps(run[i - 1], t, run[i]);
    }
  }

  /**
   In every state of every run: value plus holders is one, two threads are never both inside, a
   holding thread finds itself on record, and from the first acquisition on no other thread does.
   */
  lemma LockRuns(run: seq<State>, i: nat, t: Tid, u: Tid)
    requires IsRun(run) && i < |run| && t < |run[i].places| && u < |run[i].places|
    ensures run[i].sema.value + Holders(run[i].places) == 1
    ensures Inside(run[i].places[t]) && Inside(run[i].places[u]) ==> t == u
    ensures run[i].places[t] == Holding ==> run[i].holder == By(t)
    ensures run[i].acquisitions > 0 && run[i].holder == By(t) ==> run[i].places[t] == Holding
  {
    RunKeeps(run, i);
    if Inside(run[i].places[t]) { CountUnique(run[i].places, t, (p: Place) => Inside(p)); }
  }

  /** Before the first acquisition the record is what the constructor left there, and nobody has held the lock. */
  lemma {:induction false} RecordUntouched(run: seq<State>, i: nat)
    requires IsRun(run) && i < |run| && run[i].acquisitions == 0
    ensures run[i].holder == run[0].holder
    ensures forall t | 0 <= t < |run[i].places| :: !run[i].places[t].Holding? && !run[i].places[t].Exiting?
  {
    if i > 0 {
      assert Next(run[i - 1], run[i]);
      RecordUntouched(run, i - 1);
    }
  }

  /**
   isHeldByCurrentThread is wrong for thread t, which does not hold the lock, exactly when nobody has
   acquired it yet and the unset record happens to name t.
   */
  lemma RecordWrongExactly(run: seq<State>, i: nat, t: Tid)
    requires IsRun(run) && i < |run| && t < |run[i].places|
    ensures run[i].holder == By(t) && run[i].places[t] != Holding
      <==> run[i].acquisitions == 0 && run[0].holder == By(t)
  {
    LockRuns(run, i, t, t);
    if run[i].acquisitions == 0 { RecordUntouched(run, i); }
  }

  /** It can be: a new lock whose memory held the address of a thread. */
  lemma RecordWrongOnce() returns (run: seq<State>)
    ensures IsRun(run) && run[0].holder == By(0) && run[0].places == [Outside]
  {
    run := [State(Sema(1, []), By(0), [Outside], 0)];
  }

  /** Whenever a thread sleeps on the lock, some thread is inside or has been woken to test: the lock is never lost. */
  lemma NoLostUnit(s: State)
    requires Inv(s) && s.sema.queue != []
    ensures exists t | 0 <= t < |s.places| :: Inside(s.places[t]) || s.places[t] == Acquiring(Woken)
  {
    if s.sema.value == 0 {
      var t := CountWitness(s.places, (p: Place) => Inside(p));
    } else {
      var t := CountWitness(Phases(s.places), (p: Phase) => p == Woken);
    }
  }

  /*** Everyone who calls Acquire gets the lock ***/

  /** A step that begins no call. */
  ghost predicate Continues(s: State, s': State) {
    exists t: Tid :: t < |s.places| && s.places[t] != Outside && Step(s, t, s')
  }

  ghost predicate IsPath(path: seq<State>) {
    |path| > 0 && forall k | 0 <= k < |path| - 1 :: Continues(path[k], path[k + 1])
  }

  /** In Acquire. */
  predicate Wanting(p: Place) {
    p.Acquiring? || p.Entered?
  }

  ghost function Wanters(places: seq<Place>): nat {
    Count(places, (p: Place) => Wanting(p))
  }

  function Distance(p: Place): nat {
    match p
    case Outside => 0
    case Exiting => 1
    case Holding => 2
    case Entered => 3
    case Acquiring(_) => 4
  }

  ghost function Remaining(places: seq<Place>): nat {
    Total(places, (p: Place) => Distance(p))
  }

  lemma Moved(places: seq<Place>, t: Tid, p: Place)
    requires t < |places|
    ensures Remaining(places[t := p]) == Remaining(places) - Distance(places[t]) + Distance(p)
    ensures Wanters(places[t := p]) ==
      Wanters(places) - (if Wanting(places[t]) then 1 else 0) + if Wanting(p) then 1 else 0
  {
    TotalUpdate(places, t, p, (p: Place) => Distance(p));
    CountUpdate(places, t, p, (p: Place) => Wanting(p));
  }

  /** A step on the way: each acquisition is by one of those in Acquire. */
  ghost predicate Onward(s: State, s': State) {
    && Continues(s, s') && Remaining(s'.places) < Remaining(s.places)
    && s'.acquisitions + Wanters(s'.places) == s.acquisitions + Wanters(s.places)
  }

  lemma InsideMoves(s: State, t: Tid) returns (s': State)
    requires Inv(s) && t < |s.places| && Inside(s.places[t])
    ensures Onward(s, s')
  {
    match s.places[t] {
      case Entered =>
        s' := s.(holder := By(t), places := s.places[t := Holding], acquisitions := s.acquisitions + 1);
        Moved(s.places, t, Holding);
      case Holding =>
        s' := s.(holder := None, places := s.places[t := Exiting]);
        Moved(s.places, t, Exiting);
      case Exiting =>
        var places := s.places[t := Outside];
        assert s.sema.queue != [] ==> Phases(s.places)[s.sema.queue[0]] == Asleep;
        s' := s.(sema := AfterV(s.sema), places := Wake(s.sema, places));
        Moved(s.places, t, Outside);
        if s.sema.queue != [] { Moved(places, s.sema.queue[0], Acquiring(Woken)); }
    }
    assert Step(s, t, s');
  }

  /** When the unit is in the semaphore, somebody who wants it can take it. */
  lemma SomeoneEnters(s: State) returns (s': State)
    requires Inv(s) && Holders(s.places) == 0 && exists t | 0 <= t < |s.places| :: s.places[t] != Outside
    ensures Onward(s, s')
  {
    forall t | 0 <= t < |s.places| ensures !Inside(s.places[t]) {
      if Inside(s.places[t]) { CountSome(s.places, t, (p: Place) => Inside(p)); }
    }
    var u :| 0 <= u < |s.places| && s.places[u] != Outside;
    if forall t | 0 <= t < |s.places| :: Phases(s.places)[t] != Woken {
      assert Phases(s.places)[u] == Asleep ==> s.sema.queue != [];
      if s.sema.queue != [] { NoIdleUnit(s.sema, Phases(s.places)); }
    }
    var t :| 0 <= t < |s.places| && s.places[t].Acquiring? && s.places[t].phase != Asleep;
    s' := s.(sema := TryP(s.sema, t).0, places := s.places[t := Entered]);
    Moved(s.places, t, Entered);
    assert Step(s, t, s');
  }

  lemma SomeoneMoves(s: State) returns (s': State)
    requires Inv(s) && exists t | 0 <= t < |s.places| :: s.places[t] != Outside
    ensures Onward(s, s') && Inv(s')
  {
    hide Inv, Step;
    if Holders(s.places) == 0 {
      s' := SomeoneEnters(s);
    } else {
      var t := CountWitness(s.places, (p: Place) => Inside(p));
      s' := InsideMoves(s, t);
    }
    var t: Tid :| t < |s.places| && s.places[t] != Outside && Step(s, t, s');
    StepKeeps(s, t, s');
  }

  lemma {:induction false} PathToFree(s: State) returns (path: seq<State>)
    requires Inv(s)
    ensures IsPath(path) && path[0] == s
    ensures var last := path[|path| - 1];
      && last.acquisitions == s.acquisitions + Wanters(s.places)
      && forall t | 0 <= t < |last.places| :: last.places[t] == Outside
    decreases Remaining(s.places)
  {
    hide Inv, Remaining, Continues;
    if forall t | 0 <= t < |s.places| :: s.places[t] == Outside {
      CountNone(s.places, (p: Place) => Wanting(p));
      path := [s];
    } else {
      var s' := SomeoneMoves(s);
      var rest := PathToFree(s');
      path := [s] + rest;
    }
  }

  /**
   From every reachable state the threads that have called Acquire can go on, with no new call, until all
   have released the lock; each of them has then held it once.
   */
  lemma EveryoneServed(run: seq<State>, i: nat) returns (cont: seq<State>)
    requires IsRun(run) && i < |run|
    ensures IsPath(cont) && cont[0] == run[i]
    ensures var last := cont[|cont| - 1];
      && last.acquisitions == run[i].acquisitions + Wanters(run[i].places)
      && forall t | 0 <= t < |last.places| :: last.places[t] == Outside
  {
    RunKeeps(run, i);
    cont := PathToFree(run[i]);
  }
}
