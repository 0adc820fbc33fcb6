/**
 The way in which SynchDisk uses the disk and the post office the network: a lock around a device
 that takes a request at once and reports it done by an interrupt, for which the requesting thread
 waits in a semaphore. The interrupt may come at any time while a request is outstanding.
 */
module LockedDevices {
  import opened Counting
  import opened Semaphores

  datatype Place<R> =
    | Idle
    | Acquiring(request: R, phase: Phase)
    | Requesting(request: R)
    | Waiting(ticket: nat, request: R, phase: Phase)  // in the P for the interrupt
    | Leaving(ticket: nat, request: R)                // about to release the lock and return

  /** The device is active from a request to its interrupt; the log of requests and the count are for the proof. */
  datatype State<R> = State(
    lock: Sema, done: Sema, active: bool, places: seq<Place<R>>, log: seq<R>, interrupts: nat)

  predicate Inside<R(!new)>(p: Place<R>) {
    p.Requesting? || p.Waiting? || p.Leaving?
  }

  predicate Sleeping<R(!new)>(p: Place<R>) {
    (p.Acquiring? || p.Waiting?) && p.phase == Asleep
  }

  function LockPhase<R(!new)>(p: Place<R>): Phase {
    if p.Acquiring? then p.phase else Away
  }

  function DonePhase<R(!new)>(p: Place<R>): Phase {
    if p.Waiting? then p.phase else Away
  }

  ghost function LockPhases<R(!new)>(places: seq<Place<R>>): (ph: seq<Phase>)
    ensures |ph| == |places| && forall t | 0 <= t < |ph| :: ph[t] == LockPhase(places[t])
  {
    seq(|places|, t requires 0 <= t < |places| => LockPhase(places[t]))
  }

  ghost function DonePhases<R(!new)>(places: seq<Place<R>>): (ph: seq<Phase>)
    ensures |ph| == |places| && forall t | 0 <= t < |ph| :: ph[t] == DonePhase(places[t])
  {
    seq(|places|, t requires 0 <= t < |places| => DonePhase(places[t]))
  }

  ghost function Holders<R(!new)>(places: seq<Place<R>>): nat {
    Count(places, (p: Place<R>) => Inside(p))
  }

  ghost function Waiters<R(!new)>(places: seq<Place<R>>): nat {
    Count(places, (p: Place<R>) => p.Waiting?)
  }

  function Wake<R>(queue: seq<Tid>, places: seq<Place<R>>): seq<Place<R>> {
    if queue == [] || queue[0] >= |places| then places
    else
      match places[queue[0]]
      case Acquiring(r, _) => places[queue[0] := Acquiring(r, Woken)]
      case Waiting(n, r, _) => places[queue[0] := Waiting(n, r, Woken)]
      case _ => places
  }

  ghost predicate Init<R(!new)>(s: State<R>) {
    && s.lock == Sema(1, []) && s.done == Sema(0, []) && !s.active && s.log == [] && s.interrupts == 0
    && forall t | 0 <= t < |s.places| :: s.places[t] == Idle
  }

  ghost predicate Begin<R>(s: State<R>, t: Tid, r: R, s': State<R>, legal: R -> bool)
    requires t < |s.places|
  {
    legal(r) && s' == s.(places := s.places[t := Acquiring(r, Away)])
  }

  /** A step of thread t, whose requests are legal ones. */
  ghost predicate ThreadStep<R(!new)>(s: State<R>, t: Tid, s': State<R>, legal: R -> bool) {
    t < |s.places| &&
    match s.places[t]
    case Idle => exists r :: Begin(s, t, r, s', legal)
    case Acquiring(r, phase) =>
      phase != Asleep &&
      var (lock, got) := TryP(s.lock, t);
      s' == s.(lock := lock, places := s.places[t := if got then Requesting(r) else Acquiring(r, Asleep)])
    case Requesting(r) =>
      s' == s.(active := true, log := s.log + [r], places := s.places[t := Waiting(|s.log|, r, Away)])
    case Waiting(n, r, phase) =>
      phase != Asleep &&
      var (done, got) := TryP(s.done, t);
      s' == s.(done := done, places := s.places[t := if got then Leaving(n, r) else Waiting(n, r, Asleep)])
    case Leaving(_, _) => s' == s.(lock := AfterV(s.lock), places := Wake(s.lock.queue, s.places[t := Idle]))
  }

  /** The device is done, and its interrupt handler performs V. */
  ghost predicate Interrupt<R>(s: State<R>, s': State<R>) {
    s.active
    && s' == s.(active := false, done := AfterV(s.done), places := Wake(s.done.queue, s.places),
                interrupts := s.interrupts + 1)
  }

  ghost predicate Queues<R(!new)>(s: State<R>) {
    && SemaInv(s.lock, LockPhases(s.places))
    && SemaInv(s.done, DonePhases(s.places))
  }

  /** Who is inside waits for the latest request, whose interrupt is outstanding, or has become a unit. */
  ghost predicate Counted<R(!new)>(s: State<R>) {
    && s.lock.value + Holders(s.places) == 1
    && s.done.value + (if s.active then 1 else 0) == Waiters(s.places)
    && s.interrupts + (if s.active then 1 else 0) == |s.log|
  }

  ghost predicate Ticketed<R(!new)>(s: State<R>, legal: R -> bool) {
    && (forall k | 0 <= k < |s.log| :: legal(s.log[k]))
    && forall t | 0 <= t < |s.places| ::
         match s.places[t]
         case Acquiring(r, _) => legal(r)
         case Requesting(r) => legal(r)
         case Waiting(n, r, _) => n + 1 == |s.log| && s.log[n] == r
         case Leaving(n, r) => n + 1 == |s.log| == s.interrupts && s.log[n] == r
         case Idle => true
  }

  ghost predicate Inv<R(!new)>(s: State<R>, legal: R -> bool) {
    Queues(s) && Counted(s) && Ticketed(s, legal)
  }

  lemma OneInside<R(!new)>(places: seq<Place<R>>, t: Tid)
    requires Holders(places) <= 1
    requires t < |places| && Inside(places[t])
    ensures forall u | 0 <= u < |places| && u != t :: !Inside(places[u])
    ensures Waiters(places) == if places[t].Waiting? then 1 else 0
  {
    CountUnique(places, t, (p: Place<R>) => Inside(p));
    CountUpdate(places, t, Idle, (p: Place<R>) => p.Waiting?);
    CountNone(places[t := Idle], (p: Place<R>) => p.Waiting?);
  }

  lemma Moved<R(!new)>(places: seq<Place<R>>, t: Tid, p: Place<R>)
    requires t < |places|
    ensures LockPhases(places[t := p]) == LockPhases(places)[t := LockPhase(p)]
    ensures DonePhases(places[t := p]) == DonePhases(places)[t := DonePhase(p)]
    ensures LockPhase(p) == LockPhase(places[t]) ==> LockPhases(places[t := p]) == LockPhases(places)
    ensures DonePhase(p) == DonePhase(places[t]) ==> DonePhases(places[t := p]) == DonePhases(places)
    ensures Holders(places[t := p]) ==
      Holders(places) - (if Inside(places[t]) then 1 else 0) + if Inside(p) then 1 else 0
    ensures Waiters(places[t := p]) ==
      Waiters(places) - (if places[t].Waiting? then 1 else 0) + if p.Waiting? then 1 else 0
  {
    CountUpdate(places, t, p, (p: Place<R>) => Inside(p));
    CountUpdate(places, t, p, (p: Place<R>) => p.Waiting?);
  }

  lemma WakeLock<R(!new)>(s: Sema, places: seq<Place<R>>)
    requires s.queue != [] ==> s.queue[0] < |places| && LockPhase(places[s.queue[0]]) == Asleep
    ensures LockPhases(Wake(s.queue, places)) == PhasesAfterV(s, LockPhases(places))
    ensures DonePhases(Wake(s.queue, places)) == DonePhases(places)
    ensures Holders(Wake(s.queue, places)) == Holders(places)
    ensures Waiters(Wake(s.queue, places)) == Waiters(places)
  {
    if s.queue != [] { Moved(places, s.queue[0], Acquiring(places[s.queue[0]].request, Woken)); }
  }

  lemma WakeDone<R(!new)>(s: Sema, places: seq<Place<R>>)
    requires s.queue != [] ==> s.queue[0] < |places| && DonePhase(places[s.queue[0]]) == Asleep
    ensures DonePhases(Wake(s.queue, places)) == PhasesAfterV(s, DonePhases(places))
    ensures LockPhases(Wake(s.queue, places)) == LockPhases(places)
    ensures Holders(Wake(s.queue, places)) == Holders(places)
    ensures Waiters(Wake(s.queue, places)) == Waiters(places)
  {
    if s.queue != [] {
      var p := places[s.queue[0]];
      Moved(places, s.queue[0], Waiting(p.ticket, p.request, Woken));
    }
  }

  lemma BeginKeeps<R(!new)>(s: State<R>, t: Tid, s': State<R>, legal: R -> bool)
    requires Inv(s, legal) && ThreadStep(s, t, s', legal) && s.places[t].Idle?
    ensures Inv(s', legal)
  {
    Moved(s.places, t, s'.places[t]);
  }

  lemma AcquireKeeps<R(!new)>(s: State<R>, t: Tid, s': State<R>, legal: R -> bool)
    requires Inv(s, legal) && ThreadStep(s, t, s', legal) && s.places[t].Acquiring?
    ensures Inv(s', legal)
  {
    TryPKeeps(s.lock, LockPhases(s.places), t);
    Moved(s.places, t, s'.places[t]);
  }

  /** The device is never given a request while it is at work on another. */
  lemma NeverBusy<R(!new)>(s: State<R>, t: Tid, legal: R -> bool)
    requires Inv(s, legal) && t < |s.places| && s.places[t].Requesting?
    ensures !s.active && s.interrupts == |s.log| && legal(s.places[t].request)
  {
    OneInside(s.places, t);
  }

  lemma RequestKeeps<R(!new)>(s: State<R>, t: Tid, s': State<R>, legal: R -> bool)
    requires Inv(s, legal) && ThreadStep(s, t, s', legal) && s.places[t].Requesting?
    ensures Inv(s', legal)
  {
    NeverBusy(s, t, legal);
    OneInside(s.places, t);
    Moved(s.places, t, s'.places[t]);
  }

  lemma WaitKeeps<R(!new)>(s: State<R>, t: Tid, s': State<R>, legal: R -> bool)
    requires Inv(s, legal) && ThreadStep(s, t, s', legal) && s.places[t].Waiting?
    ensures Inv(s', legal)
  {
    TryPKeeps(s.done, DonePhases(s.places), t);
    OneInside(s.places, t);
    Moved(s.places, t, s'.places[t]);
  }

  lemma ReleaseKeeps<R(!new)>(s: State<R>, t: Tid, s': State<R>, legal: R -> bool)
    requires Inv(s, legal) && ThreadStep(s, t, s', legal) && s.places[t].Leaving?
    ensures Inv(s', legal)
  {
    VKeeps(s.lock, LockPhases(s.places));
    Moved(s.places, t, Idle);
    assert s.lock.queue != [] ==> LockPhases(s.places)[s.lock.queue[0]] == Asleep;
    WakeLock(s.lock, s.places[t := Idle]);
  }

  lemma InterruptKeeps<R(!new)>(s: State<R>, s': State<R>, legal: R -> bool)
    requires Inv(s, legal) && Interrupt(s, s')
    ensures Inv(s', legal)
  {
    VKeeps(s.done, DonePhases(s.places));
    assert s.done.queue != [] ==> DonePhases(s.places)[s.done.queue[0]] == Asleep;
    WakeDone(s.done, s.places);
    var w := CountWitness(s.places, (p: Place<R>) => p.Waiting?);
    OneInside(s.places, w);
  }

  ghost predicate Next<R(!new)>(s: State<R>, s': State<R>, legal: R -> bool) {
    Interrupt(s, s') || exists t :: ThreadStep(s, t, s', legal)
  }

  lemma StepKeeps<R(!new)>(s: State<R>, s': State<R>, legal: R -> bool)
    requires Inv(s, legal) && Next(s, s', legal)
    ensures Inv(s', legal)
  {
    if Interrupt(s, s') {
      InterruptKeeps(s, s', legal);
    } else {
      var t: Tid :| ThreadStep(s, t, s', legal);
      match s.places[t]
      case Idle => BeginKeeps(s, t, s', legal);
      case Acquiring(_, _) => AcquireKeeps(s, t, s', legal);
      case Requesting(_) => RequestKeeps(s, t, s', legal);
      case Waiting(_, _, _) => WaitKeeps(s, t, s', legal);
      case Leaving(_, _) => ReleaseKeeps(s, t, s', legal);
    }
  }

  lemma InitHolds<R(!new)>(s: State<R>, legal: R -> bool)
    requires Init(s)
    ensures Inv(s, legal)
  {
    CountNone(s.places, (p: Place<R>) => Inside(p));
    CountNone(s.places, (p: Place<R>) => p.Waiting?);
  }

  /**
   One request at a time, each waited for: a thread about to make a request finds the device idle,
   and one about to return has its own request's interrupt behind it, the count having passed its
   ticket; and only one thread is ever inside.
   */
  lemma OneAtATime<R(!new)>(s: State<R>, t: Tid, legal: R -> bool)
    requires Inv(s, legal) && t < |s.places|
    ensures s.places[t].Requesting? ==> !s.active && legal(s.places[t].request)
    ensures s.places[t].Leaving? ==>
      s.places[t].ticket < |s.log| == s.interrupts && s.log[s.places[t].ticket] == s.places[t].request
    ensures Inside(s.places[t]) ==> forall u | 0 <= u < |s.places| && u != t :: !Inside(s.places[u])
  {
    if Inside(s.places[t]) { OneInside(s.places, t); }
  }

  /** When every thread is idle or asleep, an interrupt is due unless all are idle. */
  lemma NeverStuck<R(!new)>(s: State<R>, legal: R -> bool)
    requires Inv(s, legal)
    requires forall t | 0 <= t < |s.places| :: s.places[t] == Idle || Sleeping(s.places[t])
    ensures s.active || forall t | 0 <= t < |s.places| :: s.places[t] == Idle
  {
    if !s.active {
      if s.done.queue != [] {
        NoIdleUnit(s.done, DonePhases(s.places));
        CountSome(s.places, s.done.queue[0], (p: Place<R>) => p.Waiting?);
      }
      forall t | 0 <= t < |s.places| ensures !Inside(s.places[t]) {
        assert DonePhases(s.places)[t] != Asleep;
      }
      CountNone(s.places, (p: Place<R>) => Inside(p));
      if s.lock.queue != [] { NoIdleUnit(s.lock, LockPhases(s.places)); }
      forall t | 0 <= t < |s.places| ensures s.places[t] == Idle {
        assert LockPhases(s.places)[t] != Asleep;
      }
    }
  }

  /*** Every call returns ***/

  predicate Asks<R(!new)>(p: Place<R>) {
    p.Acquiring? || p.Requesting?
  }

  /** A step that begins no call. */
  ghost predicate Continues<R(!new)>(s: State<R>, s': State<R>, legal: R -> bool) {
    Interrupt(s, s') || exists t: Tid :: t < |s.places| && s.places[t] != Idle && ThreadStep(s, t, s', legal)
  }

  ghost predicate IsPath<R(!new)>(path: seq<State<R>>, legal: R -> bool) {
    |path| > 0 && forall k | 0 <= k < |path| - 1 :: Continues(path[k], path[k + 1], legal)
  }

  /** How far a thread is from its return. */
  function Distance<R(!new)>(p: Place<R>): nat {
    match p
    case Idle => 0
    case Leaving(_, _) => 1
    case Waiting(_, _, _) => 2
    case Requesting(_) => 4
    case Acquiring(_, _) => 5
  }

  ghost function Remaining<R(!new)>(s: State<R>): nat {
    Total(s.places, (p: Place<R>) => Distance(p)) + if s.active then 1 else 0
  }

  lemma RemainingMoved<R(!new)>(places: seq<Place<R>>, t: Tid, p: Place<R>)
    requires t < |places|
    ensures Total(places[t := p], (p: Place<R>) => Distance(p))
      == Total(places, (p: Place<R>) => Distance(p)) - Distance(places[t]) + Distance(p)
  {
    TotalUpdate(places, t, p, (p: Place<R>) => Distance(p));
  }

  lemma RemainingWoken<R(!new)>(queue: seq<Tid>, places: seq<Place<R>>)
    ensures Total(Wake(queue, places), (p: Place<R>) => Distance(p)) == Total(places, (p: Place<R>) => Distance(p))
    ensures |Wake(queue, places)| == |places|
    ensures forall t | 0 <= t < |places| && Asks(places[t]) ::
      Asks(Wake(queue, places)[t]) && Wake(queue, places)[t].request == places[t].request
  {
    var places' := Wake(queue, places);
    if queue != [] && queue[0] < |places| {
      assert places' == places[queue[0] := places'[queue[0]]];
      RemainingMoved(places, queue[0], places'[queue[0]]);
    }
  }

  /** What a step leaves of the requests: those logged stay, and one that is still to be made is made or kept. */
  ghost predicate Onward<R(!new)>(s: State<R>, s': State<R>) {
    && |s'.places| == |s.places| && s.log <= s'.log
    && forall t | 0 <= t < |s.places| && Asks(s.places[t]) ::
         || (Asks(s'.places[t]) && s'.places[t].request == s.places[t].request)
         || (|s'.log| > |s.log| && s'.log[|s.log|] == s.places[t].request)
  }

  /** Who waits for the interrupt can go on after it. */
  lemma WaiterMoves<R(!new)>(s: State<R>, t: Tid, legal: R -> bool) returns (s': State<R>)
    requires Inv(s, legal) && t < |s.places| && s.places[t].Waiting?
    ensures Continues(s, s', legal) && Remaining(s') < Remaining(s) && Onward(s, s')
  {
    OneInside(s.places, t);
    var p := s.places[t];
    if s.active {
      s' := s.(active := false, done := AfterV(s.done), places := Wake(s.done.queue, s.places),
               interrupts := s.interrupts + 1);
      RemainingWoken(s.done.queue, s.places);
    } else {
      if p.phase == Asleep {
        assert DonePhases(s.places)[t] == Asleep;
        NoIdleUnit(s.done, DonePhases(s.places));
      }
      s' := s.(done := TryP(s.done, t).0, places := s.places[t := Leaving(p.ticket, p.request)]);
      RemainingMoved(s.places, t, s'.places[t]);
      assert ThreadStep(s, t, s', legal);
    }
  }

  lemma RequesterMoves<R(!new)>(s: State<R>, t: Tid, legal: R -> bool) returns (s': State<R>)
    requires t < |s.places| && s.places[t].Requesting?
    ensures Continues(s, s', legal) && Remaining(s') < Remaining(s) && Onward(s, s')
  {
    var r := s.places[t].request;
    s' := s.(active := true, log := s.log + [r], places := s.places[t := Waiting(|s.log|, r, Away)]);
    RemainingMoved(s.places, t, s'.places[t]);
    assert ThreadStep(s, t, s', legal);
  }

  lemma LeaverMoves<R(!new)>(s: State<R>, t: Tid, legal: R -> bool) returns (s': State<R>)
    requires t < |s.places| && s.places[t].Leaving?
    ensures Continues(s, s', legal) && Remaining(s') < Remaining(s) && Onward(s, s')
  {
    s' := s.(lock := AfterV(s.lock), places := Wake(s.lock.queue, s.places[t := Idle]));
    RemainingMoved(s.places, t, Idle);
    RemainingWoken(s.lock.queue, s.places[t := Idle]);
    assert ThreadStep(s, t, s', legal);
  }

  /** When nobody is inside, somebody who wants to get in can. */
  lemma SomeoneEnters<R(!new)>(s: State<R>, legal: R -> bool) returns (s': State<R>)
    requires Inv(s, legal) && Holders(s.places) == 0 && exists t | 0 <= t < |s.places| :: s.places[t] != Idle
    ensures Continues(s, s', legal) && Remaining(s') < Remaining(s) && Onward(s, s')
  {
    forall t | 0 <= t < |s.places| ensures !Inside(s.places[t]) {
      if Inside(s.places[t]) { CountSome(s.places, t, (p: Place<R>) => Inside(p)); }
    }
    if forall t | 0 <= t < |s.places| :: LockPhases(s.places)[t] != Woken {
      if s.lock.queue != [] { NoIdleUnit(s.lock, LockPhases(s.places)); }
    }
    var t :| 0 <= t < |s.places| && s.places[t].Acquiring? && s.places[t].phase != Asleep;
    s' := s.(lock := TryP(s.lock, t).0, places := s.places[t := Requesting(s.places[t].request)]);
    RemainingMoved(s.places, t, s'.places[t]);
    assert ThreadStep(s, t, s', legal);
  }

  /** Of a state, and one after it: the log has grown by requests among which are all those still to be made. */
  ghost predicate AllMade<R(!new)>(s: State<R>, last: State<R>) {
    && |last.places| == |s.places| && s.log <= last.log
    && forall t | 0 <= t < |s.places| && Asks(s.places[t]) :: s.places[t].request in last.log[|s.log|..]
  }

  lemma MadeAfter<R(!new)>(s: State<R>, s': State<R>, last: State<R>)
    requires Onward(s, s') && AllMade(s', last)
    ensures AllMade(s, last)
  {
    forall t | 0 <= t < |s.places| && Asks(s.places[t]) ensures s.places[t].request in last.log[|s.log|..] {
      if Asks(s'.places[t]) && s'.places[t].request == s.places[t].request {
        assert last.log[|s'.log|..] == last.log[|s.log|..][|s'.log| - |s.log|..];
      } else {
        assert last.log[|s.log|..][0] == s'.log[|s.log|];
      }
    }
  }

  lemma SomeoneMoves<R(!new)>(s: State<R>, legal: R -> bool) returns (s': State<R>)
    requires Inv(s, legal) && exists t | 0 <= t < |s.places| :: s.places[t] != Idle
    ensures Continues(s, s', legal) && Remaining(s') < Remaining(s) && Onward(s, s') && Inv(s', legal)
  {
    if Holders(s.places) == 0 {
      s' := SomeoneEnters(s, legal);
    } else {
      var t := CountWitness(s.places, (p: Place<R>) => Inside(p));
      match s.places[t] {
        case Waiting(_, _, _) => s' := WaiterMoves(s, t, legal);
        case Requesting(_) => s' := RequesterMoves(s, t, legal);
        case Leaving(_, _) => s' := LeaverMoves(s, t, legal);
      }
    }
    hide Inv, Remaining, Onward, Interrupt, ThreadStep;
    assert Next(s, s', legal);
    StepKeeps(s, s', legal);
  }

  /** With all threads idle the device is too, and every request has had its interrupt. */
  lemma AllIdle<R(!new)>(s: State<R>, legal: R -> bool)
    requires Inv(s, legal) && forall t | 0 <= t < |s.places| :: s.places[t] == Idle
    ensures !s.active && s.interrupts == |s.log| && AllMade(s, s)
  {
    CountNone(s.places, (p: Place<R>) => p.Waiting?);
  }

  /**
   From every state in which the invariant holds, threads and interrupts can go on, with no new call,
   until all calls have returned; every request that was still to be made has then been made, and its
   interrupt has come.
   */
  lemma {:induction false} AllReturn<R(!new)>(s: State<R>, legal: R -> bool) returns (path: seq<State<R>>)
    requires Inv(s, legal)
    ensures IsPath(path, legal) && path[0] == s
    ensures var last := path[|path| - 1];
      && AllMade(s, last) && !last.active && last.interrupts == |last.log|
      && forall t | 0 <= t < |last.places| :: last.places[t] == Idle
    decreases Remaining(s)
  {
    hide Inv, Remaining, Onward, AllMade, Continues;
    if forall t | 0 <= t < |s.places| :: s.places[t] == Idle {
      AllIdle(s, legal);
      path := [s];
    } else {
      var s' := SomeoneMoves(s, legal);
      var rest := AllReturn(s', legal);
      MadeAfter(s, s', rest[|rest| - 1]);
      path := [s] + rest;
    }
  }
}
