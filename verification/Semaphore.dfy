/**
 Semaphore::P and Semaphore::V. Each segment that runs with interrupts off is one step: P tests
 the value and either takes a unit or goes to sleep on the queue; V wakes the first sleeper and
 adds a unit, which any thread may take before the woken one has tested again.
 */
module Semaphores {
  import opened Counting
  import opened Sequences

  type Tid = nat

  datatype Sema = Sema(value: nat, queue: seq<Tid>)

  /** Where a thread is with respect to one semaphore. */
  datatype Phase = Away | Asleep | Woken

  /** One test of P's loop by thread t: whether it got a unit, and the semaphore afterwards. */
  function TryP(s: Sema, t: Tid): (Sema, bool) {
    if s.value == 0 then (s.(queue := s.queue + [t]), false)
    else (s.(value := s.value - 1), true)
  }

  function AfterV(s: Sema): Sema {
    Sema(s.value + 1, if s.queue == [] then [] else s.queue[1..])
  }

  ghost function WokenCount(ph: seq<Phase>): nat {
    Count(ph, (p: Phase) => p == Woken)
  }

  /** The queue holds exactly the sleepers; beside a sleeper there are at most as many units as woken threads. */
  ghost predicate SemaInv(s: Sema, ph: seq<Phase>) {
    && Distinct(s.queue)
    && (forall i | 0 <= i < |s.queue| :: s.queue[i] < |ph| && ph[s.queue[i]] == Asleep)
    && (forall t | 0 <= t < |ph| && ph[t] == Asleep :: t in s.queue)
    && (s.queue != [] ==> s.value <= WokenCount(ph))
  }

  /** A test of P keeps the invariant, whether or not it succeeds. */
  lemma TryPKeeps(s: Sema, ph: seq<Phase>, t: Tid)
    requires SemaInv(s, ph) && t < |ph| && ph[t] != Asleep
    ensures SemaInv(TryP(s, t).0, ph[t := if TryP(s, t).1 then Away else Asleep])
  {
    var p := if TryP(s, t).1 then Away else Asleep;
    CountUpdate(ph, t, p, (p: Phase) => p == Woken);
    if s.value == 0 {
      assert (s.queue + [t])[|s.queue|] == t;
    }
  }

  /** The phases after V: the first sleeper, if any, has been woken. */
  function PhasesAfterV(s: Sema, ph: seq<Phase>): seq<Phase>
    requires s.queue != [] ==> s.queue[0] < |ph|
  {
    if s.queue == [] then ph else ph[s.queue[0] := Woken]
  }

  lemma VKeeps(s: Sema, ph: seq<Phase>)
    requires SemaInv(s, ph)
    ensures SemaInv(AfterV(s), PhasesAfterV(s, ph))
  {
    if s.queue != [] {
      var w := s.queue[0];
      CountUpdate(ph, w, Woken, (p: Phase) => p == Woken);
      forall t | 0 <= t < |ph| && t != w && ph[t] == Asleep ensures t in s.queue[1..] {
        var i :| 0 <= i < |s.queue| && s.queue[i] == t;
        assert s.queue[1..][i - 1] == t;
      }
    }
  }

  /** When no woken thread is still to test, a sleeper means that there is no unit to be had. */
  lemma NoIdleUnit(s: Sema, ph: seq<Phase>)
    requires SemaInv(s, ph) && s.queue != []
    requires forall t | 0 <= t < |ph| :: ph[t] != Woken
    ensures s.value == 0
  {
    CountNone(ph, (p: Phase) => p == Woken);
  }
}

/** Any number of threads and interrupt handlers using one semaphore. */
module SemaphoreSystem {
  import opened Semaphores

  datatype State = State(sema: Sema, phases: seq<Phase>, ps: nat, vs: nat)

  ghost predicate Init(s: State, initial: nat) {
    s.sema == Sema(initial, []) && s.ps == s.vs == 0 && forall t | 0 <= t < |s.phases| :: s.phases[t] == Away
  }

  /** A thread begins P or, having been woken, tests again. */
  ghost predicate StepP(s: State, t: Tid, s': State) {
    && t < |s.phases| && s.phases[t] != Asleep
    && var (sema, got) := TryP(s.sema, t);
       s' == State(sema, s.phases[t := if got then Away else Asleep], s.ps + if got then 1 else 0, s.vs)
  }

  /** A thread that is not asleep in P, or an interrupt handler, performs V. */
  ghost predicate StepV(s: State, s': State) {
    && (s.sema.queue != [] ==> s.sema.queue[0] < |s.phases|)
    && s' == State(AfterV(s.sema), PhasesAfterV(s.sema, s.phases), s.ps, s.vs + 1)
  }

  ghost predicate Next(s: State, s': State) {
    StepV(s, s') || exists t :: StepP(s, t, s')
  }

  ghost predicate IsRun(run: seq<State>, initial: nat) {
    && |run| > 0 && Init(run[0], initial)
    && forall i | 0 <= i < |run| - 1 :: Next(run[i], run[i + 1])
  }

  /**
   In every state of every run: units are conserved, the queue holds exactly the sleepers, and no
   unit lies idle beside a sleeper without a woken thread on its way to it.
   */
  lemma {:induction false} SemaphoreRuns(run: seq<State>, initial: nat, i: nat)
    requires IsRun(run, initial) && i < |run|
    ensures run[i].sema.value + run[i].ps == initial + run[i].vs
    ensures SemaInv(run[i].sema, run[i].phases)
  {
    if i > 0 {
      SemaphoreRuns(run, initial, i - 1);
      var s, s' := run[i - 1], run[i];
      assert Next(s, s');
      if StepV(s, s') {
        VKeeps(s.sema, s.phases);
      } else {
        var t :| StepP(s, t, s');
        TryPKeeps(s.sema, s.phases, t);
      }
    }
  }

  /** A V takes the first of the queue, if there is one, and nothing else takes any; who falls asleep comes last. */
  lemma QueueStep(s: State, s': State)
    requires Next(s, s')
    ensures s'.vs == s.vs ==> s.sema.queue <= s'.sema.queue
    ensures s'.vs != s.vs ==>
      s'.vs == s.vs + 1 && s'.sema.queue == if s.sema.queue == [] then [] else s.sema.queue[1..]
    ensures s'.vs != s.vs && s.sema.queue != [] ==>
      s.sema.queue[0] < |s'.phases| && s'.phases[s.sema.queue[0]] == Woken
  {
  }

  lemma {:induction false} QueuePosition(run: seq<State>, initial: nat, i: nat, j: nat, k: nat)
    requires IsRun(run, initial) && i <= j < |run| && k < |run[i].sema.queue|
    requires run[j].vs <= run[i].vs + k
    ensures run[j].vs >= run[i].vs
    ensures var d := run[j].vs - run[i].vs;
      k - d < |run[j].sema.queue| && run[j].sema.queue[k - d] == run[i].sema.queue[k]
  {
    if i < j {
      assert Next(run[j - 1], run[(j - 1) + 1]);
      QueueStep(run[j - 1], run[j]);
      QueuePosition(run, initial, i, j - 1, k);
    }
  }

  /** First come, first served: who sleeps at position k is woken by the V number k + 1. */
  lemma WokenInTurn(run: seq<State>, initial: nat, i: nat, j: nat, k: nat)
    requires IsRun(run, initial) && i <= j && j + 1 < |run| && k < |run[i].sema.queue|
    requires run[j].vs == run[i].vs + k && run[j + 1].vs == run[j].vs + 1
    ensures run[i].sema.queue[k] < |run[j + 1].phases| && run[j + 1].phases[run[i].sema.queue[k]] == Woken
  {
    QueuePosition(run, initial, i, j, k);
    assert Next(run[j], run[j + 1]);
    QueueStep(run[j], run[j + 1]);
  }

  /** The object itself. Its methods are the segments that run with interrupts off, and steps of the system. */
  class Semaphore {
    const initialValue: nat
    var value: nat
    var queue: seq<Tid>
    ghost var phases: seq<Phase>
    ghost var ps: nat
    ghost var vs: nat

    ghost function Abstract(): State
      reads this
    {
      State(Sema(value, queue), phases, ps, vs)
    }

    ghost predicate Valid()
      reads this
    {
      SemaInv(Sema(value, queue), phases) && value + ps == initialValue + vs
    }

    constructor (initialValue: nat, ghost threads: nat)
      ensures Valid() && this.initialValue == initialValue
      ensures Init(Abstract(), initialValue) && |phases| == threads
    {
      this.initialValue, value, queue := initialValue, initialValue, [];
      phases, ps, vs := seq(threads, _ => Away), 0, 0;
    }

    /** One round of P: from the test of the value to the decrement or to falling asleep. */
    method Test(currentThread: Tid) returns (got: bool)
      requires Valid() && currentThread < |phases| && phases[currentThread] != Asleep
      modifies this
      ensures Valid() && StepP(old(Abstract()), currentThread, Abstract())
      ensures phases == old(phases)[currentThread := if got then Away else Asleep]
      ensures got <==> old(value) > 0
      ensures got ==> value == old(value) - 1 && queue == old(queue)
      ensures !got ==> value == 0 && queue == old(queue) + [currentThread]
    {
      TryPKeeps(Sema(value, queue), phases, currentThread);
      if value == 0 {
        queue := queue + [currentThread];
        got := false;
      } else {
        value := value - 1;
        got := true;
      }
      phases := phases[currentThread := if got then Away else Asleep];
      ps := ps + if got then 1 else 0;
    }

    /** Returns whom it has made ready, if anyone was asleep. */
    method V() returns (woken: seq<Tid>)
      requires Valid()
      modifies this
      ensures Valid() && StepV(old(Abstract()), Abstract())
      ensures value == old(value) + 1 && queue == if old(queue) == [] then [] else old(queue)[1..]
      ensures woken == [] ==> forall t | 0 <= t < |old(phases)| :: old(phases)[t] != Asleep
      ensures woken != [] ==> old(queue) != [] && woken == [old(queue)[0]]
      ensures woken != [] ==> woken[0] < |old(phases)| == |phases|
      ensures woken != [] ==> old(phases)[woken[0]] == Asleep && phases[woken[0]] == Woken
    {
      VKeeps(Sema(value, queue), phases);
      woken := [];
      phases := PhasesAfterV(Sema(value, queue), phases);
      if queue != [] {
        woken := [queue[0]];
        queue := queue[1..];
      }
      value := value + 1;
      vs := vs + 1;
    }
  }
}
