/**
 Condition::Wait, Signal and Broadcast with their counter. A thread in Wait is counted once it has
 passed P, and uncounted by Signal, so the counter is the units left over, negated: Broadcast,
 which is to wake all who wait, stops just when nothing has been signalled in vain.
 */
module Conditions {
  import opened Counting
  import opened Semaphores

  datatype Place =
    | Outside
    | Waiting(phase: Phase)  // in the P of Wait
    | Passed                 // has passed P, and has not yet counted
    | Signalled              // in Signal, after V
    | Testing                // in Broadcast, about to test the counter
    | Raised                 // in Broadcast, after V

  datatype State = State(sema: Sema, blockNum: int, places: seq<Place>)

  /** In Signal or Broadcast, for which a thread must hold the lock. */
  predicate Inside(p: Place) {
    p.Signalled? || p.Testing? || p.Raised?
  }

  /** After V, and before the counter is lowered. */
  predicate Pending(p: Place) {
    p.Signalled? || p.Raised?
  }

  function PhaseOf(p: Place): Phase {
    if p.Waiting? then p.phase else Away
  }

  ghost function Phases(places: seq<Place>): (ph: seq<Phase>)
    ensures |ph| == |places| && forall t | 0 <= t < |ph| :: ph[t] == PhaseOf(places[t])
  {
    seq(|places|, t requires 0 <= t < |places| => PhaseOf(places[t]))
  }

  ghost function Holders(places: seq<Place>): nat {
    Count(places, (p: Place) => Inside(p))
  }

  /** The V's that have not yet lowered the counter, less the threads past P that have not yet raised it. */
  ghost function Balance(places: seq<Place>): int {
    Count(places, (p: Place) => Pending(p)) - Count(places, (p: Place) => p == Passed)
  }

  function Wake(queue: seq<Tid>, places: seq<Place>): seq<Place> {
    if queue == [] || queue[0] >= |places| then places else places[queue[0] := Waiting(Woken)]
  }

  /** V by thread t, which goes on to p. */
  function Raise(s: State, t: Tid, p: Place): State
    requires t < |s.places|
  {
    State(AfterV(s.sema), s.blockNum, Wake(s.sema.queue, s.places[t := p]))
  }

  ghost predicate Init(s: State) {
    s.sema == Sema(0, []) && s.blockNum == 0 && forall t | 0 <= t < |s.places| :: s.places[t] == Outside
  }

  /** A call of Wait, which has released the lock, or of Signal or Broadcast by a thread that holds it. */
  ghost predicate Begin(s: State, t: Tid, s': State)
    requires t < |s.places|
  {
    || s' == s.(places := s.places[t := Waiting(Away)])
    || ((forall u | 0 <= u < |s.places| :: !Inside(s.places[u]))
        && (s' == s.(places := s.places[t := Testing]) || s' == Raise(s, t, Signalled)))
  }

  ghost predicate Step(s: State, t: Tid, s': State) {
    t < |s.places| &&
    match s.places[t]
    case Outside => Begin(s, t, s')
    case Waiting(phase) =>
      phase != Asleep &&
      var (sema, got) := TryP(s.sema, t);
      s' == s.(sema := sema, places := s.places[t := if got then Passed else Waiting(Asleep)])
    case Passed => s' == s.(blockNum := s.blockNum + 1, places := s.places[t := Outside])
    case Signalled => s' == s.(blockNum := s.blockNum - 1, places := s.places[t := Outside])
    case Testing =>
      s' == if s.blockNum == 0 then s.(places := s.places[t := Outside]) else Raise(s, t, Raised)
    case Raised => s' == s.(blockNum := s.blockNum - 1, places := s.places[t := Testing])
  }

  ghost predicate Next(s: State, s': State) {
    exists t :: Step(s, t, s')
  }

  ghost predicate IsRun(run: seq<State>) {
    && |run| > 0 && Init(run[0])
    && forall i | 0 <= i < |run| - 1 :: Next(run[i], run[i + 1])
  }

  /** Counter and units cancel out, but for the threads between P or V and the counter. */
  ghost predicate Inv(s: State) {
    SemaInv(s.sema, Phases(s.places)) && Holders(s.places) <= 1 && s.blockNum + s.sema.value == Balance(s.places)
  }

  lemma Moved(places: seq<Place>, t: Tid, p: Place)
    requires t < |places|
    ensures Phases(places[t := p]) == Phases(places)[t := PhaseOf(p)]
    ensures PhaseOf(p) == PhaseOf(places[t]) ==> Phases(places[t := p]) == Phases(places)
    ensures Holders(places[t := p]) ==
      Holders(places) - (if Inside(places[t]) then 1 else 0) + if Inside(p) then 1 else 0
    ensures Balance(places[t := p]) ==
      Balance(places) - (if Pending(places[t]) then 1 else 0) + (if Pending(p) then 1 else 0)
      + (if places[t] == Passed then 1 else 0) - if p == Passed then 1 else 0
  {
    CountUpdate(places, t, p, (p: Place) => Inside(p));
    CountUpdate(places, t, p, (p: Place) => Pending(p));
    CountUpdate(places, t, p, (p: Place) => p == Passed);
  }

  /** V by a thread that is not in Wait. */
  lemma RaiseKeeps(s: State, t: Tid, p: Place)
    requires SemaInv(s.sema, Phases(s.places)) && t < |s.places| && PhaseOf(s.places[t]) == Away && PhaseOf(p) == Away
    ensures var s' := Raise(s, t, p);
      && SemaInv(s'.sema, Phases(s'.places)) && s'.sema.value == s.sema.value + 1
      && Holders(s'.places) == Holders(s.places[t := p]) && Balance(s'.places) == Balance(s.places[t := p])
  {
    VKeeps(s.sema, Phases(s.places));
    Moved(s.places, t, p);
    if s.sema.queue != [] {
      var w := s.sema.queue[0];
      assert Phases(s.places)[w] == Asleep;
      Moved(s.places[t := p], w, Waiting(Woken));
    }
  }

  /** A step that touches no more than the counter. */
  lemma CountedKeeps(s: State, t: Tid, p: Place, change: int)
    requires Inv(s) && t < |s.places| && PhaseOf(s.places[t]) == PhaseOf(p) == Away
    requires Holders(s.places[t := p]) <= 1
    requires change == (if s.places[t] == Passed then 1 else 0) - if Pending(s.places[t]) then 1 else 0
    requires p != Passed && !Pending(p)
    ensures Inv(s.(blockNum := s.blockNum + change, places := s.places[t := p]))
  {
    Moved(s.places, t, p);
    hide Holders, Balance;
  }

  /** V with the lock held. */
  lemma SignalKeeps(s: State, t: Tid, p: Place)
    requires Inv(s) && t < |s.places| && (s.places[t] == Outside || s.places[t] == Testing) && Pending(p)
    requires Inside(s.places[t]) || Holders(s.places) == 0
    ensures Inv(Raise(s, t, p))
  {
    Moved(s.places, t, p);
    hide Holders, Balance;
    RaiseKeeps(s, t, p);
  }

  lemma WaitKeeps(s: State, t: Tid, s': State)
    requires Inv(s) && Step(s, t, s') && s.places[t].Waiting?
    ensures Inv(s')
  {
    TryPKeeps(s.sema, Phases(s.places), t);
    Moved(s.places, t, s'.places[t]);
    hide Holders, Balance;
  }

  lemma BeginKeeps(s: State, t: Tid, s': State)
    requires Inv(s) && Step(s, t, s') && s.places[t].Outside?
    ensures Inv(s')
  {
    Moved(s.places, t, s'.places[t]);
    if forall u | 0 <= u < |s.places| :: !Inside(s.places[u]) {
      CountNone(s.places, (p: Place) => Inside(p));
      SignalKeeps(s, t, Signalled);
    }
  }

  lemma StepKeeps(s: State, t: Tid, s': State)
    requires Inv(s) && Step(s, t, s')
    ensures Inv(s')
  {
    Moved(s.places, t, s'.places[t]);
    hide Inv, SemaInv, Holders, Balance;
    match s.places[t] {
      case Outside => BeginKeeps(s, t, s');
      case Waiting(_) => WaitKeeps(s, t, s');
      case Passed => CountedKeeps(s, t, Outside, 1);
      case Signalled => CountedKeeps(s, t, Outside, -1);
      case Raised => CountedKeeps(s, t, Testing, -1);
      case Testing =>
        if s.blockNum == 0 { CountedKeeps(s, t, Outside, 0); } else { SignalKeeps(s, t, Raised); }
    }
  }

  lemma {:induction false} RunKeeps(run: seq<State>, i: nat)
    requires IsRun(run) && i < |run|
    ensures Inv(run[i])
  {
    if i == 0 {
      CountNone(run[0].places, (p: Place) => Inside(p));
      CountNone(run[0].places, (p: Place) => Pending(p));
      CountNone(run[0].places, (p: Place) => p == Passed);
    } else {
      RunKeeps(run, i - 1);
      assert Next(run[i - 1], run[i]);
      var t :| Step(run[i - 1], t, run[i]);
      StepKeeps(run[i - 1], t, run[i]);
    }
  }

  ghost predicate NobodyPassed(s: State) {
    forall u | 0 <= u < |s.places| :: s.places[u] != Passed
  }

  lemma CounterMeans(s: State, t: Tid)
    requires Inv(s) && t < |s.places| && s.places[t] == Testing
    ensures s.blockNum <= 0
    ensures s.blockNum == 0 <==> s.sema.value == 0 && NobodyPassed(s)
    ensures forall u | 0 <= u < |s.places| && u != t :: !Inside(s.places[u])
  {
    CountUnique(s.places, t, (p: Place) => Inside(p));
    CountNone(s.places, (p: Place) => Pending(p));
    if NobodyPassed(s) {
      CountNone(s.places, (p: Place) => p == Passed);
    } else {
      var u: nat :| u < |s.places| && s.places[u] == Passed;
      CountSome(s.places, u, (p: Place) => p == Passed);
    }
  }

  /** Whenever Broadcast tests the counter, it is not positive, and is 0 only if no unit is left over. */
  lemma CounterAtTest(run: seq<State>, i: nat, t: Tid)
    requires IsRun(run) && i < |run| && t < |run[i].places| && run[i].places[t] == Testing
    ensures run[i].blockNum <= 0
    ensures run[i].blockNum == 0 <==> run[i].sema.value == 0 && NobodyPassed(run[i])
  {
    RunKeeps(run, i);
    CounterMeans(run[i], t);
  }

  /**
   One test of Broadcast's loop: it ends the loop exactly when no unit is left over and nobody is just
   past P, and then changes nothing else.
   */
  lemma BroadcastReturns(run: seq<State>, i: nat, t: Tid)
    requires IsRun(run) && i + 1 < |run| && Step(run[i], t, run[i + 1]) && run[i].places[t] == Testing
    ensures |run[i + 1].places| == |run[i].places|
    ensures run[i + 1].places[t] == Outside <==> run[i].sema.value == 0 && NobodyPassed(run[i])
    ensures run[i + 1].places[t] == Outside ==> run[i + 1] == run[i].(places := run[i].places[t := Outside])
  {
    CounterAtTest(run, i, t);
    RunKeeps(run, i);
    if run[i].sema.queue != [] { assert Phases(run[i].places)[run[i].sema.queue[0]] == Asleep; }
  }

  predicate InBroadcast(p: Place) {
    p.Testing? || p.Raised?
  }

  /** No other thread's step takes one out of Broadcast, and its own only when the counter is 0. */
  lemma StaysInBroadcast(s: State, u: Tid, s': State, t: Tid)
    requires SemaInv(s.sema, Phases(s.places)) && Step(s, u, s') && t < |s.places| && InBroadcast(s.places[t])
    requires s.places[t].Testing? ==> s.blockNum != 0
    ensures t < |s'.places| && InBroadcast(s'.places[t])
  {
    if s.sema.queue != [] { assert Phases(s.places)[s.sema.queue[0]] == Asleep; }
  }

  lemma StaysWithUnit(run: seq<State>, i: nat, t: Tid)
    requires IsRun(run) && i + 1 < |run| && t < |run[i].places| && InBroadcast(run[i].places[t])
    requires run[i].sema.value > 0
    ensures t < |run[i + 1].places| && InBroadcast(run[i + 1].places[t])
  {
    RunKeeps(run, i);
    assert Next(run[i], run[i + 1]);
    var u :| Step(run[i], u, run[i + 1]);
    if run[i].places[t].Testing? { CounterAtTest(run, i, t); }
    hide Step, SemaInv;
    StaysInBroadcast(run[i], u, run[i + 1], t);
  }

  /** While a unit is left over, it does not return, until somebody passes P. */
  lemma {:induction false} BroadcastGoesOn(run: seq<State>, i: nat, j: nat, t: Tid)
    requires IsRun(run) && i <= j < |run| && t < |run[i].places| && InBroadcast(run[i].places[t])
    requires run[i].sema.value > 0 && forall k | i <= k < j :: run[k + 1].sema.value >= run[k].sema.value
    ensures run[j].sema.value > 0 && t < |run[j].places| && InBroadcast(run[j].places[t])
  {
    hide *;
    if i < j {
      BroadcastGoesOn(run, i, j - 1, t);
      StaysWithUnit(run, j - 1, t);
      assert run[(j - 1) + 1].sema.value >= run[j - 1].sema.value;
    }
  }

  /*** What a call of Broadcast may come to ***/

  /** What may happen from a state on. */
  ghost predicate Continues(s: State, cont: seq<State>) {
    && |cont| > 0 && cont[0] == s
    && forall i | 0 <= i < |cont| - 1 :: Next(cont[i], cont[i + 1])
  }

  /** The Broadcast that t is in returns, in the last state and not before. */
  ghost predicate Returns(cont: seq<State>, t: Tid)
    requires |cont| > 0
  {
    && (forall i | 0 <= i < |cont| :: t < |cont[i].places|)
    && (forall i | 0 <= i < |cont| - 1 :: InBroadcast(cont[i].places[t]))
    && cont[|cont| - 1].places[t] == Outside
  }

  predicate Sleeps(s: State, u: Tid) {
    u < |s.places| && s.places[u] == Waiting(Asleep)
  }

  /** u sleeps throughout. */
  ghost predicate SleepsOn(cont: seq<State>, u: Tid) {
    forall i | 0 <= i < |cont| :: Sleeps(cont[i], u)
  }

  /** Everybody who sleeps in s is woken at some time before the call returns. */
  ghost predicate WakesAll(s: State, cont: seq<State>) {
    forall u | Sleeps(s, u) :: !SleepsOn(cont, u)
  }

  ghost predicate SureToWake(s: State, t: Tid) {
    forall cont | Continues(s, cont) && Returns(cont, t) :: WakesAll(s, cont)
  }

  ghost predicate MayWake(s: State, t: Tid) {
    exists cont :: Continues(s, cont) && Returns(cont, t) && WakesAll(s, cont)
  }

  ghost predicate MayWakeNobody(s: State, t: Tid) {
    exists cont :: Continues(s, cont) && Returns(cont, t) && forall u | Sleeps(s, u) :: SleepsOn(cont, u)
  }

  /** A step before what may happen from where it leads. */
  lemma Before(s: State, u: Tid, s': State, rest: seq<State>, t: Tid)
    requires Step(s, u, s') && Continues(s', rest) && Returns(rest, t)
    requires t < |s.places| && InBroadcast(s.places[t])
    ensures Continues(s, [s] + rest) && Returns([s] + rest, t)
    ensures forall v :: SleepsOn([s] + rest, v) <==> Sleeps(s, v) && SleepsOn(rest, v)
  {
    hide Step, InBroadcast, Sleeps;
    var cont := [s] + rest;
    assert Next(s, s');
    assert forall i | 0 < i < |cont| :: cont[i] == rest[i - 1];
    forall v ensures SleepsOn(cont, v) <==> Sleeps(s, v) && SleepsOn(rest, v) {
      if SleepsOn(cont, v) {
        assert Sleeps(cont[0], v);
        forall i | 0 <= i < |rest| ensures Sleeps(rest[i], v) {
          assert Sleeps(cont[i + 1], v);
        }
      }
    }
  }

  ghost function WokenNow(s: State): nat {
    WokenCount(Phases(s.places))
  }

  /** A thread past P counts itself, as long as there is one. */
  lemma CountStep(s: State, t: Tid) returns (u: Tid, s': State)
    requires Inv(s) && t < |s.places| && s.places[t] == Testing && !NobodyPassed(s)
    ensures Step(s, u, s') && Inv(s') && |s'.places| == |s.places| && s'.places[t] == Testing
    ensures s'.sema == s.sema && WokenNow(s') == WokenNow(s) && s'.blockNum == s.blockNum + 1
    ensures forall v :: Sleeps(s', v) <==> Sleeps(s, v)
  {
    u :| u < |s.places| && s.places[u] == Passed;
    s' := s.(blockNum := s.blockNum + 1, places := s.places[u := Outside]);
    StepKeeps(s, u, s');
    Moved(s.places, u, Outside);
  }

  /** A woken thread takes a unit, as long as there are both. */
  lemma TakeStep(s: State, t: Tid) returns (u: Tid, s': State)
    requires Inv(s) && t < |s.places| && s.places[t] == Testing && 0 < s.sema.value <= WokenNow(s)
    ensures Step(s, u, s') && Inv(s') && |s'.places| == |s.places| && s'.places[t] == Testing
    ensures s'.sema == Sema(s.sema.value - 1, s.sema.queue) && WokenNow(s') == WokenNow(s) - 1
    ensures s'.blockNum == s.blockNum
    ensures forall v :: Sleeps(s', v) <==> Sleeps(s, v)
  {
    u := CountWitness(Phases(s.places), (p: Phase) => p == Woken);
    s' := s.(sema := TryP(s.sema, u).0, places := s.places[u := Passed]);
    StepKeeps(s, u, s');
    Moved(s.places, u, Passed);
    CountUpdate(Phases(s.places), u, Away, (p: Phase) => p == Woken);
  }

  /** Those who have been woken use up the units, and Broadcast returns; nobody else is woken. */
  lemma {:induction false} Drain(s: State, t: Tid) returns (cont: seq<State>)
    requires Inv(s) && t < |s.places| && s.places[t] == Testing && s.sema.value <= WokenNow(s)
    ensures Continues(s, cont) && Returns(cont, t) && forall u | Sleeps(s, u) :: SleepsOn(cont, u)
    decreases -s.blockNum, s.sema.value
  {
    CounterMeans(s, t);
    hide *;
    if !NobodyPassed(s) || s.sema.value > 0 {
      var u, s';
      if !NobodyPassed(s) { u, s' := CountStep(s, t); } else { u, s' := TakeStep(s, t); }
      CounterMeans(s', t);
      var rest := Drain(s', t);
      InTest(s.places[t]);
      Before(s, u, s', rest, t);
      cont := [s] + rest;
    } else {
      cont := ReturnsAtOnce(s, t);
    }
  }

  lemma InTest(p: Place)
    ensures InBroadcast(Testing) && InBroadcast(Raised)
  {
  }

  lemma ReturnsAtOnce(s: State, t: Tid) returns (cont: seq<State>)
    requires t < |s.places| && s.places[t] == Testing && s.blockNum == 0
    ensures Continues(s, cont) && Returns(cont, t) && forall u | Sleeps(s, u) :: SleepsOn(cont, u)
  {
    var s' := s.(places := s.places[t := Outside]);
    assert Step(s, t, s');
    cont := [s, s'];
  }

  /** V by Broadcast: the first of the queue is woken. */
  lemma RaiseStep(s: State, t: Tid)
    requires Inv(s) && t < |s.places| && s.places[t] == Testing && s.blockNum != 0
    requires s.sema.queue != [] && s.sema.value <= WokenNow(s)
    ensures var r := Raise(s, t, Raised);
      && Step(s, t, r) && Inv(r) && |r.places| == |s.places| && r.places[t] == Raised && r.blockNum == s.blockNum
      && r.sema.queue == s.sema.queue[1..] && r.sema.value <= WokenNow(r) && !Sleeps(r, s.sema.queue[0])
      && forall v | v != s.sema.queue[0] && Sleeps(s, v) :: Sleeps(r, v)
  {
    var w := s.sema.queue[0];
    assert Phases(s.places)[w] == Asleep;
    StepKeeps(s, t, Raise(s, t, Raised));
    Moved(s.places, t, Raised);
    Moved(s.places[t := Raised], w, Waiting(Woken));
    CountUpdate(Phases(s.places), w, Woken, (p: Phase) => p == Woken);
    hide Inv, SemaInv;
  }

  /** The counter goes down after it. */
  lemma LowerStep(r: State, t: Tid) returns (s': State)
    requires Inv(r) && t < |r.places| && r.places[t] == Raised
    ensures Step(r, t, s') && Inv(s') && s'.places == r.places[t := Testing] && s'.blockNum == r.blockNum - 1
    ensures s'.sema == r.sema && WokenNow(s') == WokenNow(r) && forall v :: Sleeps(s', v) <==> Sleeps(r, v)
  {
    s' := r.(blockNum := r.blockNum - 1, places := r.places[t := Testing]);
    StepKeeps(r, t, s');
    Moved(r.places, t, Testing);
  }

  /** One round of the loop: V wakes the first of the queue, and the counter goes down. */
  lemma RoundSteps(s: State, t: Tid) returns (r: State, s': State)
    requires Inv(s) && t < |s.places| && s.places[t] == Testing && s.blockNum != 0
    requires s.sema.queue != [] && s.sema.value <= WokenNow(s)
    ensures Step(s, t, r) && |r.places| == |s.places| && r.places[t] == Raised && !Sleeps(r, s.sema.queue[0])
    ensures Step(r, t, s') && Inv(s') && |s'.places| == |s.places| && s'.places[t] == Testing
    ensures s'.blockNum == s.blockNum - 1 && s'.sema.queue == s.sema.queue[1..] && s'.sema.value <= WokenNow(s')
    ensures forall v | v != s.sema.queue[0] :: Sleeps(s, v) ==> Sleeps(r, v) && Sleeps(s', v)
  {
    hide *;
    RaiseStep(s, t);
    r := Raise(s, t, Raised);
    s' := LowerStep(r, t);
  }

  lemma AsleepQueued(s: State, u: Tid)
    requires Inv(s) && Sleeps(s, u)
    ensures u in s.sema.queue
  {
    assert Phases(s.places)[u] == Asleep;
  }

  lemma UnitsAreWoken(s: State)
    requires Inv(s) && s.sema.queue != []
    ensures s.sema.value <= WokenNow(s)
  {
  }

  /** Once past its first test, the loop can go on until everybody is woken, and then return. */
  lemma {:induction false} Rounds(s: State, t: Tid) returns (cont: seq<State>)
    requires Inv(s) && t < |s.places| && s.places[t] == Testing && s.blockNum != 0 && s.sema.value <= WokenNow(s)
    ensures Continues(s, cont) && Returns(cont, t) && WakesAll(s, cont)
    decreases |s.sema.queue|
  {
    CounterMeans(s, t);
    if s.sema.queue == [] {
      cont := Drain(s, t);
      forall u | Sleeps(s, u) ensures false {
        AsleepQueued(s, u);
      }
    } else {
      var r, s' := RoundSteps(s, t);
      hide Inv, Step, Continues, Returns, SleepsOn, Sleeps;
      var rest := Rounds(s', t);
      Before(r, t, s', rest, t);
      Before(s, t, r, [r] + rest, t);
      cont := [s] + ([r] + rest);
    }
  }

  /** When the first test ends the loop, nobody else can do anything about it meanwhile. */
  lemma QuietStep(s: State, u: Tid, s': State, t: Tid)
    requires Inv(s) && Step(s, u, s') && t < |s.places| && s.places[t] == Testing && s.blockNum == 0
    ensures t < |s'.places| && s'.blockNum == 0 && (s'.places[t] == Testing || s'.places[t] == Outside)
    ensures forall v | Sleeps(s, v) :: Sleeps(s', v)
  {
    CounterMeans(s, t);
  }

  lemma {:induction false} QuietUntil(s: State, cont: seq<State>, t: Tid, i: nat)
    requires Inv(s) && t < |s.places| && s.places[t] == Testing && s.blockNum == 0
    requires Continues(s, cont) && Returns(cont, t) && i < |cont|
    ensures Inv(cont[i]) && cont[i].blockNum == 0 && (i < |cont| - 1 ==> cont[i].places[t] == Testing)
    ensures forall v | Sleeps(s, v) :: Sleeps(cont[i], v)
  {
    if i > 0 {
      QuietUntil(s, cont, t, i - 1);
      assert Next(cont[i - 1], cont[i]);
      var u :| Step(cont[i - 1], u, cont[i]);
      StepKeeps(cont[i - 1], u, cont[i]);
      QuietStep(cont[i - 1], u, cont[i], t);
    }
  }

  /**
   Broadcast is to wake all who wait. Whenever somebody waits, it may return without having woken
   anybody: it is sure to wake all who sleep if and only if nobody sleeps. And it may wake them all
   if and only if its first test does not end the loop.
   */
  lemma BroadcastWakes(run: seq<State>, i: nat, t: Tid)
    requires IsRun(run) && i < |run| && t < |run[i].places| && run[i].places[t] == Testing
    ensures MayWakeNobody(run[i], t) || forall u :: !Sleeps(run[i], u)
    ensures SureToWake(run[i], t) <==> forall u :: !Sleeps(run[i], u)
    ensures (exists u :: Sleeps(run[i], u)) ==> (MayWake(run[i], t) <==> run[i].blockNum != 0)
  {
    RunKeeps(run, i);
    var s := run[i];
    if u :| Sleeps(s, u) {
      AsleepQueued(s, u);
      UnitsAreWoken(s);
      hide Inv, Continues, Returns, Sleeps, SleepsOn;
      var cont := Drain(s, t);
      assert SleepsOn(cont, u);
      if s.blockNum != 0 {
        var all := Rounds(s, t);
      } else {
        forall all | Continues(s, all) && Returns(all, t) ensures !WakesAll(s, all) {
          QuietSleepers(s, all, t, u);
        }
      }
    }
  }

  lemma QuietSleepers(s: State, cont: seq<State>, t: Tid, u: Tid)
    requires Inv(s) && t < |s.places| && s.places[t] == Testing && s.blockNum == 0
    requires Continues(s, cont) && Returns(cont, t) && Sleeps(s, u)
    ensures SleepsOn(cont, u)
  {
    forall i | 0 <= i < |cont| ensures Sleeps(cont[i], u) {
      QuietUntil(s, cont, t, i);
    }
  }

  /** It happens: one thread waits and falls asleep, another broadcasts and returns. */
  lemma BroadcastWakesNobody() returns (run: seq<State>)
    ensures IsRun(run) && |run| == 5
    ensures run[3] == State(Sema(0, [0]), 0, [Waiting(Asleep), Testing])
    ensures run[4] == State(Sema(0, [0]), 0, [Waiting(Asleep), Outside])
    ensures MayWakeNobody(run[3], 1) && !SureToWake(run[3], 1) && !MayWake(run[3], 1)
  {
    var s0 := State(Sema(0, []), 0, [Outside, Outside]);
    var s1 := s0.(places := [Waiting(Away), Outside]);
    var s2 := s1.(sema := Sema(0, [0]), places := [Waiting(Asleep), Outside]);
    var s3 := s2.(places := [Waiting(Asleep), Testing]);
    var s4 := s3.(places := [Waiting(Asleep), Outside]);
    assert Step(s0, 0, s1) && Step(s1, 0, s2) && Step(s2, 1, s3) && Step(s3, 1, s4);
    run := [s0, s1, s2, s3, s4];
    BroadcastWakes(run, 3, 1);
    assert Sleeps(run[3], 0);
  }
}
