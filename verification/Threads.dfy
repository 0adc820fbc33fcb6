/**
 Threads and the scheduler: the ready list, context switches, and the destruction of a finished
 thread by the next thread that resumes inside Run. A thread dispatched for the first time starts
 at its root procedure instead, and does not come by that code.
 */
module Threads {
  import opened Lists
  import Semaphores

  type Tid = Semaphores.Tid

  datatype ThreadStatus = JustCreated | Running | Ready | Blocked

  /**
   The kernel's threads and lists. Sleeping says that the current thread is in the loop of Sleep;
   started are the threads whose next dispatch resumes them inside Run; finished those that have
   called Finish and are not deleted; runs counts the calls to Run.
   */
  datatype State = State(
    status: map<Tid, ThreadStatus>, ready: seq<Tid>, queues: seq<seq<Tid>>,
    current: Tid, sleeping: bool, doomed: Option<Tid>,
    started: set<Tid>, finished: set<Tid>, runs: nat)

  function ReadyToRun(s: State, t: Tid): State {
    s.(status := s.status[t := Ready], ready := s.ready + [t])
  }

  function Deleted(s: State, t: Tid): State {
    s.(status := s.status - {t}, started := s.started - {t}, finished := s.finished - {t}, doomed := None)
  }

  /** The switch to another thread and, if that one resumes inside Run, the deletion of what is to be destroyed. */
  function Run(s: State, next: Tid): State {
    var t := s.(current := next, status := s.status[next := Running], sleeping := false,
                started := s.started + {next}, runs := s.runs + 1);
    if next in s.started && s.doomed.Some? then Deleted(t, s.doomed.value) else t
  }

  datatype Event =
    | New(t: Tid)
    | Fork(t: Tid)
    | Yield
    | Sleep(queue: nat)   // up to the loop that looks for a ready thread
    | Finish              // likewise
    | Wake(queue: nat)    // by the current thread or an interrupt handler
    | Dispatch            // the end of that loop, and Run

  predicate Enabled(s: State, e: Event) {
    match e
    case New(t) => !s.sleeping && t !in s.status
    case Fork(t) => !s.sleeping && t in s.status && s.status[t] == JustCreated
    case Yield => !s.sleeping
    case Sleep(q) => !s.sleeping && q < |s.queues|
    case Finish => !s.sleeping
    case Wake(q) => q < |s.queues|
    case Dispatch => s.sleeping && s.ready != []
  }

  function After(s: State, e: Event): State
    requires Enabled(s, e)
  {
    match e
    case New(t) => s.(status := s.status[t := JustCreated])
    case Fork(t) => ReadyToRun(s, t)
    case Yield => if s.ready == [] then s else Run(ReadyToRun(s.(ready := s.ready[1..]), s.current), s.ready[0])
    case Sleep(q) =>
      s.(queues := s.queues[q := s.queues[q] + [s.current]], status := s.status[s.current := Blocked], sleeping := true)
    case Finish =>
      s.(doomed := Some(s.current), finished := s.finished + {s.current},
         status := s.status[s.current := Blocked], sleeping := true)
    case Wake(q) =>
      if s.queues[q] == [] then s
      else ReadyToRun(s.(queues := s.queues[q := s.queues[q][1..]]), s.queues[q][0])
    case Dispatch => Run(s.(ready := s.ready[1..]), s.ready[0])
  }

  /** The main thread alone, with some number of semaphores. */
  ghost predicate Init(s: State) {
    && s.status == map[s.current := Running] && s.ready == [] && !s.sleeping && s.doomed == None
    && s.started == {s.current} && s.finished == {} && s.runs == 0
    && forall q | 0 <= q < |s.queues| :: s.queues[q] == []
  }

  ghost function Queued(queues: seq<seq<Tid>>): multiset<Tid> {
    if queues == [] then multiset{} else Queued(queues[..|queues| - 1]) + multiset(queues[|queues| - 1])
  }

  lemma {:induction false} QueuedUpdate(queues: seq<seq<Tid>>, q: nat, queue: seq<Tid>, t: Tid)
    requires q < |queues|
    ensures Queued(queues[q := queue])[t] + multiset(queues[q])[t] == Queued(queues)[t] + multiset(queue)[t]
  {
    var n := |queues| - 1;
    if q == n {
      assert queues[q := queue][..n] == queues[..n];
    } else {
      assert queues[q := queue][..n] == queues[..n][q := queue];
      assert queues[q := queue][n] == queues[n];
      QueuedUpdate(queues[..n], q, queue, t);
    }
  }

  /** How often a thread is on the ready list, on semaphore queues, and among the finished. */
  ghost function Places(s: State, t: Tid): (nat, nat, nat) {
    (multiset(s.ready)[t], Queued(s.queues)[t], if t in s.finished then 1 else 0)
  }

  /** A thread is in exactly one place, which its status tells, but for blocked and finished threads. */
  ghost predicate Placed(s: State, t: Tid) {
    if t !in s.status then Places(s, t) == (0, 0, 0)
    else
      match s.status[t]
      case JustCreated => Places(s, t) == (0, 0, 0)
      case Running => Places(s, t) == (0, 0, 0) && t == s.current && !s.sleeping
      case Ready => Places(s, t) == (1, 0, 0)
      case Blocked => Places(s, t) == (0, 1, 0) || Places(s, t) == (0, 0, 1)
  }

  ghost predicate Inv(s: State) {
    && (forall t :: Placed(s, t))
    && s.current in s.status && (!s.sleeping ==> s.status[s.current] == Running)
    && (s.doomed.Some? ==> s.doomed.value in s.finished)
  }

  lemma FirstOff(q: seq<Tid>)
    requires q != []
    ensures multiset(q) == multiset(q[1..]) + multiset{q[0]}
  {
    assert q == [q[0]] + q[1..];
  }

  /** Run keeps the invariant when the next thread has come off the ready list and the old one is taken care of. */
  lemma RunKeeps(s: State, next: Tid)
    requires forall t | t != next :: Placed(s.(sleeping := true), t)
    requires Places(s, next) == (0, 0, 0) && next in s.status && s.status[next] == Ready
    requires s.doomed.Some? ==> s.doomed.value in s.finished
    ensures Inv(Run(s, next))
  {
    var s' := Run(s, next);
    forall t ensures Placed(s', t) {
      if t != next {
        assert Placed(s.(sleeping := true), t);
      }
    }
  }

  lemma YieldKeeps(s: State)
    requires Inv(s) && Enabled(s, Yield)
    ensures Inv(After(s, Yield))
  {
    if s.ready != [] {
      FirstOff(s.ready);
      assert Placed(s, s.ready[0]);
      assert Placed(s, s.current);
      var r := ReadyToRun(s.(ready := s.ready[1..]), s.current);
      forall t | t != s.ready[0] ensures Placed(r.(sleeping := true), t) {
        assert Placed(s, t);
      }
      RunKeeps(r, s.ready[0]);
    }
  }

  lemma DispatchKeeps(s: State)
    requires Inv(s) && Enabled(s, Dispatch)
    ensures Inv(After(s, Dispatch))
  {
    FirstOff(s.ready);
    assert Placed(s, s.ready[0]);
    var r := s.(ready := s.ready[1..]);
    forall t | t != s.ready[0] ensures Placed(r.(sleeping := true), t) {
      assert Placed(s, t);
    }
    RunKeeps(r, s.ready[0]);
  }

  /** How often t is on a list without its first thread, and on one with another thread behind. */
  lemma FirstOffCount(q: seq<Tid>, t: Tid)
    requires q != []
    ensures multiset(q)[t] == multiset(q[1..])[t] + if q[0] == t then 1 else 0
  {
    FirstOff(q);
  }

  lemma LastOnCount(q: seq<Tid>, x: Tid, t: Tid)
    ensures multiset(q + [x])[t] == multiset(q)[t] + if x == t then 1 else 0
  {
  }

  /** Waking takes the first thread of a queue to the ready list, and moves no other. */
  lemma WakePlaces(s: State, q: nat, t: Tid)
    requires Enabled(s, Wake(q)) && s.queues[q] != []
    ensures var (r, n, f) := Places(s, t);
      var moved := if t == s.queues[q][0] then 1 else 0;
      n >= moved && Places(After(s, Wake(q)), t) == (r + moved, n - moved, f)
  {
    var w, rest := s.queues[q][0], s.queues[q][1..];
    FirstOffCount(s.queues[q], t);
    LastOnCount(s.ready, w, t);
    QueuedUpdate(s.queues, q, rest, t);
    var s' := After(s, Wake(q));
    assert s'.ready == s.ready + [w] && s'.queues == s.queues[q := rest] && s'.finished == s.finished;
  }

  lemma WakeKeeps(s: State, q: nat)
    requires Inv(s) && Enabled(s, Wake(q))
    ensures Inv(After(s, Wake(q)))
  {
    if s.queues[q] != [] {
      var s', w := After(s, Wake(q)), s.queues[q][0];
      WakePlaces(s, q, w);
      assert Placed(s, w);
      forall t ensures Placed(s', t) {
        WakePlaces(s, q, t);
        assert Placed(s, t);
      }
    }
  }

  lemma SleepKeeps(s: State, q: nat)
    requires Inv(s) && Enabled(s, Sleep(q))
    ensures Inv(After(s, Sleep(q)))
  {
    var s' := After(s, Sleep(q));
    forall t ensures Placed(s', t) {
      QueuedUpdate(s.queues, q, s.queues[q] + [s.current], t);
      assert Placed(s, t);
    }
  }

  lemma OtherKeeps(s: State, e: Event)
    requires Inv(s) && Enabled(s, e) && (e.New? || e.Fork? || e.Finish?)
    ensures Inv(After(s, e))
  {
    var s' := After(s, e);
    forall t ensures Placed(s', t) {
      assert Placed(s, t);
    }
  }

  lemma StepKeeps(s: State, e: Event)
    requires Inv(s) && Enabled(s, e)
    ensures Inv(After(s, e))
  {
    match e
    case Yield => YieldKeeps(s);
    case Dispatch => DispatchKeeps(s);
    case Wake(q) => WakeKeeps(s, q);
    case Sleep(q) => SleepKeeps(s, q);
    case _ => OtherKeeps(s, e);
  }

  ghost predicate IsRun(run: seq<State>, events: seq<Event>) {
    && |run| == |events| + 1 && Init(run[0])
    && forall i | 0 <= i < |events| :: Enabled(run[i], events[i]) && run[i + 1] == After(run[i], events[i])
  }

  lemma {:induction false} NoneQueued(queues: seq<seq<Tid>>)
    requires forall q | 0 <= q < |queues| :: queues[q] == []
    ensures Queued(queues) == multiset{}
  {
    if queues != [] { NoneQueued(queues[..|queues| - 1]); }
  }

  /** In every state of every run each thread is in exactly one place, and the current one runs or sleeps. */
  lemma {:induction false} ThreadsPlaced(run: seq<State>, events: seq<Event>, i: nat)
    requires IsRun(run, events) && i < |run|
    ensures Inv(run[i])
  {
    if i == 0 {
      NoneQueued(run[0].queues);
    } else {
      ThreadsPlaced(run, events, i - 1);
      StepKeeps(run[i - 1], events[i - 1]);
    }
  }

  lemma DeletedStep(s: State, e: Event, t: Tid)
    requires Enabled(s, e) && t in s.status && t !in After(s, e).status
    ensures s.doomed == Some(t) && After(s, e).runs == s.runs + 1 && After(s, e).current in s.started
  {
  }

  /**
   A step deletes at most the doomed thread, when it resumes one that had run before, and that one
   is neither running nor on any list.
   */
  lemma DeletionIsSafe(run: seq<State>, events: seq<Event>, i: nat, t: Tid)
    requires IsRun(run, events) && i < |events|
    requires t in run[i].status && t !in run[i + 1].status
    ensures run[i].doomed == Some(t) && run[i + 1].runs == run[i].runs + 1 && run[i + 1].current in run[i].started
    ensures t != run[i + 1].current && t !in run[i + 1].ready
    ensures Queued(run[i + 1].queues)[t] == 0
  {
    DeletedStep(run[i], events[i], t);
    ThreadsPlaced(run, events, i + 1);
    assert Placed(run[i + 1], t);
  }

  /** A step adds to the end of the ready list; a call to Run takes its first thread, and no other step takes any. */
  lemma ReadyStep(s: State, e: Event)
    requires Enabled(s, e)
    ensures var s' := After(s, e);
      if s'.runs == s.runs then s.ready <= s'.ready
      else s'.runs == s.runs + 1 && s.ready != [] && s.ready[1..] <= s'.ready && s'.current == s.ready[0]
  {
  }

  /** A thread k places from the front of the ready list moves up with each call to Run until it is dispatched. */
  lemma {:induction false} ReadyPosition(run: seq<State>, events: seq<Event>, i: nat, j: nat, k: nat)
    requires IsRun(run, events) && i <= j < |run| && k < |run[i].ready|
    requires run[j].runs <= run[i].runs + k
    ensures run[j].runs >= run[i].runs
    ensures var d := run[j].runs - run[i].runs; k - d < |run[j].ready| && run[j].ready[k - d] == run[i].ready[k]
  {
    if j > i {
      ReadyStep(run[j - 1], events[j - 1]);
      ReadyPosition(run, events, i, j - 1, k);
    }
  }

  /** So it is the one dispatched by the call to Run number k + 1. */
  lemma DispatchedInTurn(run: seq<State>, events: seq<Event>, i: nat, j: nat, k: nat)
    requires IsRun(run, events) && i <= j < |events| && k < |run[i].ready|
    requires run[j].runs == run[i].runs + k && run[j + 1].runs == run[i].runs + k + 1
    ensures run[j + 1].current == run[i].ready[k]
  {
    ReadyStep(run[j], events[j]);
    ReadyPosition(run, events, i, j, k);
  }

  /** After some Yields in a row the ready list has turned by as many places, with the current thread in it. */
  lemma {:induction false} YieldsTurn(run: seq<State>, events: seq<Event>, i: nat, j: nat)
    requires IsRun(run, events) && i <= j < |run| && j - i <= |run[i].ready|
    requires forall m | i <= m < j :: events[m].Yield?
    ensures var line := [run[i].current] + run[i].ready;
      run[j].current == line[j - i] && run[j].ready == line[j - i + 1..] + line[..j - i]
  {
    if i < j {
      YieldsTurn(run, events, i, j - 1);
      YieldStep(run[j - 1], [run[i].current] + run[i].ready, j - 1 - i);
    }
  }

  lemma YieldStep(s: State, line: seq<Tid>, k: nat)
    requires Enabled(s, Yield) && k + 1 < |line|
    requires s.current == line[k] && s.ready == line[k + 1..] + line[..k]
    ensures var s' := After(s, Yield);
      s'.current == line[k + 1] && s'.ready == line[k + 2..] + line[..k + 1]
  {
    assert s.ready[0] == line[k + 1];
    assert s.ready[1..] == line[k + 2..] + line[..k];
    assert line[..k + 1] == line[..k] + [line[k]];
  }

  /** Round robin: k + 1 Yields in a row make the thread at position k of the ready list the current one. */
  lemma YieldedInTurn(run: seq<State>, events: seq<Event>, i: nat, k: nat)
    requires IsRun(run, events) && i + k + 1 < |run| && k < |run[i].ready|
    requires forall m | i <= m < i + k + 1 :: events[m].Yield?
    ensures run[i + k + 1].current == run[i].ready[k]
  {
    YieldsTurn(run, events, i, i + k + 1);
  }

  /*** Threads that are never deleted ***/

  /** Finished threads that are no longer, or not yet, to be destroyed. */
  function Forgotten(s: State): set<Tid> {
    s.finished - if s.doomed.Some? then {s.doomed.value} else {}
  }

  /** A finished thread is forgotten exactly when another one finishes while it is still to be destroyed. */
  lemma ForgottenAfter(run: seq<State>, events: seq<Event>, i: nat)
    requires IsRun(run, events) && i < |events|
    ensures Forgotten(run[i + 1]) ==
      Forgotten(run[i]) + if events[i].Finish? && run[i].doomed.Some? then {run[i].doomed.value} else {}
  {
    ThreadsPlaced(run, events, i);
    ThreadsPlaced(run, events, i + 1);
    assert Placed(run[i], run[i].current);
  }

  /** Step k is not a call to Run that resumes a thread inside Run. */
  predicate NoneResumed(run: seq<State>, k: nat)
    requires k + 1 < |run|
  {
    run[k + 1].runs > run[k].runs ==> run[k + 1].current !in run[k].started
  }

  lemma DoomedStep(s: State, e: Event)
    requires Enabled(s, e) && !e.Finish?
    ensures After(s, e).doomed ==
      if After(s, e).runs > s.runs && After(s, e).current in s.started then None else s.doomed
  {
  }

  /** Only threads dispatched for the first time run between steps i and j. */
  ghost predicate OnlyFresh(run: seq<State>, i: nat, j: nat)
    requires i <= j < |run|
  {
    forall k | i <= k < j :: NoneResumed(run, k)
  }

  /** Without a Finish, a thread stays to be destroyed as long as only threads dispatched for the first time run. */
  lemma {:induction false} DoomedWhile(run: seq<State>, events: seq<Event>, i: nat, j: nat, t: Tid)
    requires IsRun(run, events) && i <= j < |run| && run[i].doomed == Some(t)
    requires forall k | i <= k < j :: !events[k].Finish?
    ensures run[j].doomed == if OnlyFresh(run, i, j) then Some(t) else None
  {
    if i < j {
      DoomedWhile(run, events, i, j - 1, t);
      DoomedStep(run[j - 1], events[j - 1]);
      assert OnlyFresh(run, i, j) <==> OnlyFresh(run, i, j - 1) && NoneResumed(run, j - 1);
    }
  }

  /**
   So a thread that has finished is forgotten at the next Finish if and only if only threads
   dispatched for the first time have run in between.
   */
  lemma ForgottenExactly(run: seq<State>, events: seq<Event>, i: nat, j: nat, t: Tid)
    requires IsRun(run, events) && i <= j < |events| && run[i].doomed == Some(t)
    requires events[j].Finish? && forall k | i <= k < j :: !events[k].Finish?
    ensures t in Forgotten(run[j + 1]) <==> OnlyFresh(run, i, j)
  {
    DoomedWhile(run, events, i, j, t);
    ForgottenAfter(run, events, j);
    NotForgotten(run, events, i, j, t);
  }

  lemma {:induction false} NotForgotten(run: seq<State>, events: seq<Event>, i: nat, j: nat, t: Tid)
    requires IsRun(run, events) && i <= j < |run| && run[i].doomed == Some(t)
    requires forall k | i <= k < j :: !events[k].Finish?
    ensures t !in Forgotten(run[j])
  {
    if i < j {
      NotForgotten(run, events, i, j - 1, t);
      ForgottenAfter(run, events, j - 1);
    }
  }

  /** A thread once forgotten is never deleted. */
  lemma {:induction false} ForgottenForEver(run: seq<State>, events: seq<Event>, i: nat, j: nat, t: Tid)
    requires IsRun(run, events) && i <= j < |run| && t in Forgotten(run[i])
    ensures t in Forgotten(run[j]) && t in run[j].status
  {
    if j > i {
      ForgottenForEver(run, events, i, j - 1, t);
      ForgottenAfter(run, events, j - 1);
    }
    ThreadsPlaced(run, events, j);
    assert Placed(run[j], t);
  }

  /** Main forks two threads and waits for them; the second is dispatched when the first has finished. */
  lemma TwoForked() returns (run: seq<State>, events: seq<Event>)
    ensures |events| == 4 && IsRun(run, events)
    ensures run[4] ==
      State(map[0 := Running, 1 := Ready, 2 := Ready], [1, 2], [[]], 0, false, None, {0}, {}, 0)
  {
    var s0 := State(map[0 := Running], [], [[]], 0, false, None, {0}, {}, 0);
    var s1 := s0.(status := map[0 := Running, 1 := JustCreated]);
    var s2 := s1.(status := map[0 := Running, 1 := JustCreated, 2 := JustCreated]);
    var s3 := s2.(status := map[0 := Running, 1 := Ready, 2 := JustCreated], ready := [1]);
    var s4 := s3.(status := map[0 := Running, 1 := Ready, 2 := Ready], ready := [1, 2]);
    assert After(s0, New(1)) == s1;
    assert After(s1, New(2)) == s2;
    assert After(s2, Fork(1)) == s3;
    assert After(s3, Fork(2)) == s4;
    run, events := [s0, s1, s2, s3, s4], [New(1), New(2), Fork(1), Fork(2)];
  }

  lemma FirstDispatched() returns (run: seq<State>, events: seq<Event>)
    ensures |events| == 6 && IsRun(run, events)
    ensures run[6] == State(map[0 := Blocked, 1 := Running, 2 := Ready], [2], [[0]], 1, false, None, {0, 1}, {}, 1)
  {
    var before, start := TwoForked();
    var s4 := before[4];
    var s5 := s4.(status := map[0 := Blocked, 1 := Ready, 2 := Ready], queues := [[0]], sleeping := true);
    var s6 := State(map[0 := Blocked, 1 := Running, 2 := Ready], [2], [[0]], 1, false, None, {0, 1}, {}, 1);
    assert s4.queues[0] + [0] == [0];
    assert After(s4, Sleep(0)) == s5;
    assert After(s5, Dispatch) == s6;
    run, events := before + [s5, s6], start + [Sleep(0), Dispatch];
  }

  /** It does happen: the second thread starts afresh after the first has finished, and finishes too. */
  lemma AThreadIsForgotten()
    ensures exists run, events :: IsRun(run, events) && Forgotten(run[|events|]) == {1}
  {
    var before, start := FirstDispatched();
    var s6 := before[6];
    var s7 := s6.(status := map[0 := Blocked, 1 := Blocked, 2 := Ready],
                  doomed := Some(1), finished := {1}, sleeping := true);
    var s8 := State(map[0 := Blocked, 1 := Blocked, 2 := Running], [], [[0]], 2, false, Some(1), {0, 1, 2}, {1}, 2);
    var s9 := s8.(status := map[0 := Blocked, 1 := Blocked, 2 := Blocked],
                  doomed := Some(2), finished := {1, 2}, sleeping := true);
    assert After(s6, Finish) == s7;
    assert After(s7, Dispatch) == s8;
    assert After(s8, Finish) == s9;
    hide After;
    var run, events := before + [s7, s8, s9], start + [Finish, Dispatch, Finish];
    assert IsRun(run, events);
    assert Forgotten(run[|events|]) == {1};
  }

  /*** The objects ***/

  class Kernel {
    var status: map<Tid, ThreadStatus>
    var readyList: seq<Tid>
    var queues: seq<seq<Tid>>
    var currentThread: Tid
    var threadToBeDestroyed: Option<Tid>
    /** Threads whose stack lies inside Run, or will when they next lose the processor. */
    var started: set<Tid>
    ghost var sleeping: bool
    ghost var finished: set<Tid>
    ghost var runs: nat

    ghost function Abstract(): State
      reads this
    {
      State(status, readyList, queues, currentThread, sleeping, threadToBeDestroyed, started, finished, runs)
    }

    /** Each thread is in exactly one place. */
    ghost predicate Valid()
      reads this
    {
      Inv(Abstract())
    }

    /** The main thread is running, and has not been forked. */
    constructor (mainThread: Tid, semaphores: nat)
      ensures Valid() && Init(Abstract()) && currentThread == mainThread && |queues| == semaphores
    {
      status := map[mainThread := Running];
      readyList := [];
      queues := seq(semaphores, _ => []);
      currentThread := mainThread;
      threadToBeDestroyed := None;
      started := {mainThread};
      sleeping, finished, runs := false, {}, 0;
      new;
      NoneQueued(queues);
    }

    method SetReady(t: Tid)
      modifies this
      ensures Abstract() == ReadyToRun(old(Abstract()), t)
    {
      status := status[t := Ready];
      readyList := readyList + [t];
    }

    method FindNextToRun() returns (next: Option<Tid>)
      modifies `readyList
      ensures old(readyList) == [] ==> next == None && readyList == []
      ensures old(readyList) != [] ==> next == Some(old(readyList)[0]) && readyList == old(readyList)[1..]
    {
      if readyList == [] { return None; }
      next := Some(readyList[0]);
      readyList := readyList[1..];
    }

    method SwitchTo(next: Tid)
      modifies this
      ensures Abstract() == Run(old(Abstract()), next)
    {
      var resumes := next in started;
      currentThread := next;
      status := status[next := Running];
      started := started + {next};
      sleeping, runs := false, runs + 1;
      if resumes && threadToBeDestroyed.Some? {
        var t := threadToBeDestroyed.value;
        status, started, finished := status - {t}, started - {t}, finished - {t};
        threadToBeDestroyed := None;
      }
    }

    /** The constructor of Thread. */
    method NewThread(t: Tid)
      requires Valid() && Enabled(Abstract(), New(t))
      modifies this
      ensures Valid() && Abstract() == After(old(Abstract()), New(t))
      ensures status == old(status)[t := JustCreated] && readyList == old(readyList) && queues == old(queues)
      ensures currentThread == old(currentThread)
    {
      StepKeeps(Abstract(), New(t));
      status := status[t := JustCreated];
    }

    /** Fork makes a new thread ready. */
    method ForkThread(t: Tid)
      requires Valid() && Enabled(Abstract(), Fork(t))
      modifies this
      ensures Valid() && Abstract() == After(old(Abstract()), Fork(t))
      ensures readyList == old(readyList) + [t] && status == old(status)[t := Ready]
      ensures queues == old(queues) && currentThread == old(currentThread) && !sleeping
    {
      StepKeeps(Abstract(), Fork(t));
      SetReady(t);
    }

    method YieldCurrent()
      requires Valid() && Enabled(Abstract(), Yield)
      modifies this
      ensures Valid() && Abstract() == After(old(Abstract()), Yield)
      ensures queues == old(queues) && status[currentThread] == Running && !sleeping
      ensures old(readyList) == [] ==> readyList == [] && currentThread == old(currentThread)
      ensures old(readyList) != [] ==>
                && currentThread == old(readyList)[0] && readyList == old(readyList)[1..] + [old(currentThread)]
                && old(currentThread) in status && status[old(currentThread)] == Ready
    {
      StepKeeps(Abstract(), Yield);
      var next := FindNextToRun();
      if next.Some? {
        ghost var c := currentThread;
        SetReady(currentThread);
        SwitchTo(next.value);
        assert readyList[|readyList| - 1] == c;
        assert Placed(Abstract(), c);
      }
    }

    method FinishCurrent()
      requires Valid() && Enabled(Abstract(), Finish)
      modifies this
      ensures Valid() && Abstract() == After(old(Abstract()), Finish)
      ensures threadToBeDestroyed == Some(currentThread) && status == old(status)[currentThread := Blocked]
      ensures readyList == old(readyList) && queues == old(queues) && currentThread == old(currentThread) && sleeping
    {
      StepKeeps(Abstract(), Finish);
      threadToBeDestroyed := Some(currentThread);
      finished := finished + {currentThread};
      BlockCurrent();
    }

    /** Sleep, up to its loop, by a thread that P has put on a semaphore's queue. */
    method SleepOn(queue: nat)
      requires Valid() && Enabled(Abstract(), Sleep(queue))
      modifies this
      ensures Valid() && Abstract() == After(old(Abstract()), Sleep(queue))
      ensures queues == old(queues)[queue := old(queues)[queue] + [currentThread]]
      ensures status == old(status)[currentThread := Blocked] && readyList == old(readyList)
      ensures currentThread == old(currentThread) && sleeping
    {
      StepKeeps(Abstract(), Sleep(queue));
      queues := queues[queue := queues[queue] + [currentThread]];
      BlockCurrent();
    }

    /** V on a semaphore makes the first of its queue ready. */
    method WakeFirst(queue: nat)
      requires Valid() && Enabled(Abstract(), Wake(queue))
      modifies this
      ensures Valid() && Abstract() == After(old(Abstract()), Wake(queue))
      ensures currentThread == old(currentThread) && |queues| == |old(queues)|
      ensures old(queues)[queue] == [] ==> queues == old(queues) && readyList == old(readyList)
      ensures old(queues)[queue] != [] ==>
                var t := old(queues)[queue][0];
                && queues == old(queues)[queue := old(queues)[queue][1..]]
                && readyList == old(readyList) + [t] && status == old(status)[t := Ready]
    {
      StepKeeps(Abstract(), Wake(queue));
      if queues[queue] != [] {
        var t := queues[queue][0];
        queues := queues[queue := queues[queue][1..]];
        SetReady(t);
      }
    }

    method BlockCurrent()
      modifies `status, `sleeping
      ensures status == old(status)[currentThread := Blocked] && sleeping
    {
      status := status[currentThread := Blocked];
      sleeping := true;
    }

    /** One round of the loop in Sleep: dispatches a ready thread, or reports that the machine is to idle. */
    method DispatchNext() returns (idle: bool)
      requires Valid() && sleeping
      modifies this
      ensures Valid() && (idle <==> old(readyList) == [])
      ensures !idle ==> currentThread == old(readyList)[0]
      ensures Abstract() == if idle then old(Abstract()) else After(old(Abstract()), Dispatch)
      ensures !idle ==> readyList == old(readyList)[1..] && status[currentThread] == Running && !sleeping
      ensures queues == old(queues)
      ensures !idle && old(threadToBeDestroyed).Some? && currentThread in old(started) ==>
                old(threadToBeDestroyed).value !in status && threadToBeDestroyed == None
      ensures !idle && currentThread !in old(started) ==> threadToBeDestroyed == old(threadToBeDestroyed)
    {
      if readyList != [] { StepKeeps(Abstract(), Dispatch); }
      var next := FindNextToRun();
      idle := next == None;
      if next.Some? { SwitchTo(next.value); }
    }
  }
}
