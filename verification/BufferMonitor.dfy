/**
 The bounded buffer's monitor: writers and readers of various sizes around one lock and two conditions,
 with the steps of Write and Read preempted anywhere. A signal wakes one waiter, which may find that its
 own request still cannot be met; another waiter's, which could, is then forgotten.
 */
module BufferMonitors {
  import opened Counting
  import opened Semaphores

  /** Readers wait on the condition "empty", writers on "full". */
  datatype Kind = Reading | Writing

  datatype Request = Request(kind: Kind, size: nat)

  /** A credit is a unit of the condition, taken in Wait and not yet used up. */
  datatype Place =
    | Idle
    | Acquiring(request: Request, credited: bool, phase: Phase)
    | Testing(request: Request, credited: bool)
    | Moving(request: Request, credited: bool)  // has seen that the bytes fit, or are there
    | Signalling(kind: Kind)                    // has moved the bytes, and has not yet signalled
    | Leaving
    | Parting(request: Request)                 // in Wait, about to release the lock
    | Waiting(request: Request, phase: Phase)   // in the P of Wait

  datatype State = State(lock: Sema, empty: Sema, full: Sema, used: int, places: seq<Place>)

  /** How many threads there are, the buffer's size, and the sizes in which they read and write. */
  datatype Setting = Setting(threads: nat, maxSize: nat, sizes: iset<nat>)

  function Opposite(k: Kind): Kind {
    if k == Reading then Writing else Reading
  }

  /** What a request of a kind needs as much of as its size: bytes in the buffer, or room. */
  function Level(s: State, k: Kind, maxSize: nat): int {
    if k == Reading then s.used else maxSize - s.used
  }

  function Cond(s: State, k: Kind): Sema {
    if k == Reading then s.empty else s.full
  }

  function WithCond(s: State, k: Kind, cond: Sema): State {
    if k == Reading then s.(empty := cond) else s.(full := cond)
  }

  predicate Inside(p: Place) {
    p.Testing? || p.Moving? || p.Signalling? || p.Leaving? || p.Parting?
  }

  predicate Sleeping(p: Place) {
    (p.Acquiring? || p.Waiting?) && p.phase == Asleep
  }

  predicate InWait(p: Place, k: Kind) {
    (p.Parting? || p.Waiting?) && p.request.kind == k
  }

  /** About to signal those who wait for k, or let through and about to use up what made the signal. */
  predicate Promised(p: Place, k: Kind) {
    || p == Signalling(Opposite(k))
    || ((p.Acquiring? || p.Testing? || p.Moving?) && p.credited && p.request.kind == k)
  }

  function LockPhase(p: Place): Phase {
    if p.Acquiring? then p.phase else Away
  }

  function CondPhase(p: Place, k: Kind): Phase {
    if p.Waiting? && p.request.kind == k then p.phase else Away
  }

  ghost function LockPhases(places: seq<Place>): (ph: seq<Phase>)
    ensures |ph| == |places| && forall t | 0 <= t < |ph| :: ph[t] == LockPhase(places[t])
  {
    seq(|places|, t requires 0 <= t < |places| => LockPhase(places[t]))
  }

  ghost function CondPhases(places: seq<Place>, k: Kind): (ph: seq<Phase>)
    ensures |ph| == |places| && forall t | 0 <= t < |ph| :: ph[t] == CondPhase(places[t], k)
  {
    seq(|places|, t requires 0 <= t < |places| => CondPhase(places[t], k))
  }

  ghost function Holders(places: seq<Place>): nat {
    Count(places, (p: Place) => Inside(p))
  }

  ghost function Promises(places: seq<Place>, k: Kind): nat {
    Count(places, (p: Place) => Promised(p, k))
  }

  function Wake(queue: seq<Tid>, places: seq<Place>): seq<Place> {
    if queue == [] || queue[0] >= |places| then places
    else
      match places[queue[0]]
      case Acquiring(r, c, _) => places[queue[0] := Acquiring(r, c, Woken)]
      case Waiting(r, _) => places[queue[0] := Waiting(r, Woken)]
      case _ => places
  }

  ghost predicate Init(s: State, c: Setting) {
    && s.lock == Sema(1, []) && s.empty == s.full == Sema(0, []) && s.used == 0
    && |s.places| == c.threads && forall t | 0 <= t < |s.places| :: s.places[t] == Idle
  }

  /** A call; Write insists on a size that the buffer can hold. */
  ghost predicate Legal(r: Request, c: Setting) {
    r.size in c.sizes && (r.kind.Writing? ==> r.size <= c.maxSize)
  }

  ghost predicate Begin(s: State, t: Tid, r: Request, s': State, c: Setting)
    requires t < |s.places|
  {
    Legal(r, c) && s' == s.(places := s.places[t := Acquiring(r, false, Away)])
  }

  ghost predicate Step(s: State, t: Tid, s': State, c: Setting) {
    t < |s.places| &&
    match s.places[t]
    case Idle => exists r :: Begin(s, t, r, s', c)
    case Acquiring(r, credited, phase) =>
      phase != Asleep &&
      var (lock, got) := TryP(s.lock, t);
      s' == s.(lock := lock,
               places := s.places[t := if got then Testing(r, credited) else Acquiring(r, credited, Asleep)])
    case Testing(r, credited) =>
      var place := if Level(s, r.kind, c.maxSize) < r.size then Parting(r) else Moving(r, credited);
      s' == s.(places := s.places[t := place])
    case Moving(r, _) =>
      s' == s.(used := if r.kind == Writing then s.used + r.size else s.used - r.size,
               places := s.places[t := Signalling(r.kind)])
    case Signalling(k) =>
      var cond := Cond(s, Opposite(k));
      s' == WithCond(s, Opposite(k), AfterV(cond)).(places := Wake(cond.queue, s.places[t := Leaving]))
    case Leaving => s' == s.(lock := AfterV(s.lock), places := Wake(s.lock.queue, s.places[t := Idle]))
    case Parting(r) => s' == s.(lock := AfterV(s.lock), places := Wake(s.lock.queue, s.places[t := Waiting(r, Away)]))
    case Waiting(r, phase) =>
      phase != Asleep &&
      var (cond, got) := TryP(Cond(s, r.kind), t);
      s' == WithCond(s, r.kind, cond)
            .(places := s.places[t := if got then Acquiring(r, true, Away) else Waiting(r, Asleep)])
  }

  ghost predicate Next(s: State, s': State, c: Setting) {
    exists t :: Step(s, t, s', c)
  }

  ghost predicate IsRun(run: seq<State>, c: Setting) {
    && |run| > 0 && Init(run[0], c)
    && forall i | 0 <= i < |run| - 1 :: Next(run[i], run[i + 1], c)
  }

  /** Every thread is idle or asleep, and one sleeps for what is there. */
  ghost predicate Stranded(s: State, maxSize: nat) {
    && (forall t | 0 <= t < |s.places| :: s.places[t] == Idle || Sleeping(s.places[t]))
    && exists t | 0 <= t < |s.places| ::
         s.places[t].Waiting? && s.places[t].request.size <= Level(s, s.places[t].request.kind, maxSize)
  }

  ghost predicate MayStrand(c: Setting) {
    exists run: seq<State>, i: nat :: i < |run| && IsRun(run, c) && Stranded(run[i], c.maxSize)
  }

  /*** One size only: nobody is stranded ***/

  /** Every size that ever moves is 0 or p, unless p is too large to move at all. */
  ghost predicate Unit(c: Setting, p: nat) {
    p > 0 && forall z | z in c.sizes :: z == 0 || z == p || (p > c.maxSize && z >= p)
  }

  function Room(p: nat, n: nat): nat {
    p * (n + 1)
  }

  lemma RoomGrows(p: nat, n: nat)
    ensures Room(p, n) >= p && Room(p, n + 1) == Room(p, n) + p
  {
    assert p * (n + 2) == p * (n + 1) + p;
    assert p * (n + 1) == p * n + p;
  }

  /** The units of a condition and the promises made to those who wait for it. */
  ghost function Coming(s: State, k: Kind): nat {
    Cond(s, k).value + Promises(s.places, k)
  }

  /** While somebody waits, what is there is not more than the units, credits and signals still to come will use. */
  ghost predicate Enough(s: State, k: Kind, c: Setting, p: nat) {
    (exists t | 0 <= t < |s.places| :: InWait(s.places[t], k)) ==>
      Level(s, k, c.maxSize) < Room(p, Coming(s, k))
  }

  ghost predicate Queues(s: State) {
    && SemaInv(s.lock, LockPhases(s.places))
    && SemaInv(s.empty, CondPhases(s.places, Reading))
    && SemaInv(s.full, CondPhases(s.places, Writing))
  }

  predicate HasRequest(p: Place) {
    p.Acquiring? || p.Testing? || p.Moving? || p.Parting? || p.Waiting?
  }

  /** Requests are legal ones; one that waits or has waited is not for nothing; one that moves can be met. */
  ghost predicate Proper(s: State, p: Place, c: Setting) {
    && (HasRequest(p) ==> Legal(p.request, c))
    && (p.Parting? || p.Waiting? ==> p.request.size > 0)
    && ((p.Acquiring? || p.Testing? || p.Moving?) && p.credited ==> p.request.size > 0)
    && (p.Moving? ==> p.request.size <= Level(s, p.request.kind, c.maxSize))
  }

  ghost predicate Bytes(s: State, c: Setting) {
    && 0 <= s.used <= c.maxSize
    && forall t | 0 <= t < |s.places| :: Proper(s, s.places[t], c)
  }

  ghost predicate Inv(s: State, c: Setting) {
    |s.places| == c.threads && Queues(s) && s.lock.value + Holders(s.places) == 1 && Bytes(s, c)
  }

  lemma Moved(places: seq<Place>, t: Tid, p: Place)
    requires t < |places|
    ensures LockPhases(places[t := p]) == LockPhases(places)[t := LockPhase(p)]
    ensures LockPhase(p) == LockPhase(places[t]) ==> LockPhases(places[t := p]) == LockPhases(places)
    ensures Holders(places[t := p]) ==
      Holders(places) - (if Inside(places[t]) then 1 else 0) + if Inside(p) then 1 else 0
  {
    CountUpdate(places, t, p, (p: Place) => Inside(p));
  }

  lemma MovedKind(places: seq<Place>, t: Tid, p: Place, k: Kind)
    requires t < |places|
    ensures CondPhases(places[t := p], k) == CondPhases(places, k)[t := CondPhase(p, k)]
    ensures CondPhase(p, k) == CondPhase(places[t], k) ==> CondPhases(places[t := p], k) == CondPhases(places, k)
    ensures Promises(places[t := p], k) ==
      Promises(places, k) - (if Promised(places[t], k) then 1 else 0) + if Promised(p, k) then 1 else 0
  {
    CountUpdate(places, t, p, (p: Place) => Promised(p, k));
  }

  /** The first sleeper of the lock is woken. */
  lemma WakeLock(s: Sema, places: seq<Place>, k: Kind)
    requires s.queue != [] ==> s.queue[0] < |places| && LockPhase(places[s.queue[0]]) == Asleep
    ensures LockPhases(Wake(s.queue, places)) == PhasesAfterV(s, LockPhases(places))
    ensures CondPhases(Wake(s.queue, places), k) == CondPhases(places, k)
    ensures Holders(Wake(s.queue, places)) == Holders(places)
    ensures Promises(Wake(s.queue, places), k) == Promises(places, k)
  {
    if s.queue != [] {
      var w := s.queue[0];
      Moved(places, w, Acquiring(places[w].request, places[w].credited, Woken));
      MovedKind(places, w, Acquiring(places[w].request, places[w].credited, Woken), k);
    }
  }

  /** The first sleeper of the condition for j is woken; k is either kind. */
  lemma WakeCond(s: Sema, places: seq<Place>, j: Kind, k: Kind)
    requires s.queue != [] ==> s.queue[0] < |places| && CondPhase(places[s.queue[0]], j) == Asleep
    ensures LockPhases(Wake(s.queue, places)) == LockPhases(places)
    ensures CondPhases(Wake(s.queue, places), k) ==
      if k == j then PhasesAfterV(s, CondPhases(places, k)) else CondPhases(places, k)
    ensures Holders(Wake(s.queue, places)) == Holders(places)
    ensures Promises(Wake(s.queue, places), k) == Promises(places, k)
  {
    if s.queue != [] {
      var w := s.queue[0];
      Moved(places, w, Waiting(places[w].request, Woken));
      MovedKind(places, w, Waiting(places[w].request, Woken), k);
    }
  }

  /** Waking leaves a thread's request and its way. */
  lemma WakeProper(queue: seq<Tid>, places: seq<Place>, t: Tid)
    requires t < |places|
    ensures |Wake(queue, places)| == |places|
    ensures Wake(queue, places)[t] == places[t]
      || (places[t].Acquiring? && Wake(queue, places)[t] == Acquiring(places[t].request, places[t].credited, Woken))
      || (places[t].Waiting? && Wake(queue, places)[t] == Waiting(places[t].request, Woken))
  {
  }

  /** A step leaves another thread where it is, or wakes it. */
  lemma StepOthers(s: State, t: Tid, s': State, c: Setting, u: Tid)
    requires Step(s, t, s', c) && u < |s.places| && u != t
    ensures |s'.places| == |s.places|
    ensures s'.places[u] == s.places[u]
      || (s.places[u].Acquiring? && s'.places[u] == Acquiring(s.places[u].request, s.places[u].credited, Woken))
      || (s.places[u].Waiting? && s'.places[u] == Waiting(s.places[u].request, Woken))
  {
    match s.places[t]
    case Signalling(k) => WakeProper(Cond(s, Opposite(k)).queue, s.places[t := Leaving], u);
    case Leaving => WakeProper(s.lock.queue, s.places[t := Idle], u);
    case Parting(r) => WakeProper(s.lock.queue, s.places[t := Waiting(r, Away)], u);
    case _ =>
  }

  /** A step takes its own thread on, with the same request. */
  lemma StepOwn(s: State, t: Tid, s': State, c: Setting)
    requires Step(s, t, s', c) && Proper(s, s.places[t], c) && 0 <= s.used <= c.maxSize
    ensures |s'.places| == |s.places| && Proper(s', s'.places[t], c) && 0 <= s'.used <= c.maxSize
    ensures !s.places[t].Moving? ==> s'.used == s.used
  {
    match s.places[t]
    case Idle => var r :| Begin(s, t, r, s', c);
    case Signalling(k) => WakeProper(Cond(s, Opposite(k)).queue, s.places[t := Leaving], t);
    case Leaving => WakeProper(s.lock.queue, s.places[t := Idle], t);
    case Parting(r) => WakeProper(s.lock.queue, s.places[t := Waiting(r, Away)], t);
    case _ =>
  }

  lemma StepBytes(s: State, t: Tid, s': State, c: Setting)
    requires Inv(s, c) && Step(s, t, s', c)
    ensures |s'.places| == |s.places| && Bytes(s', c)
  {
    if s.places[t].Moving? { CountUnique(s.places, t, (p: Place) => Inside(p)); }
    assert Proper(s, s.places[t], c);
    StepOwn(s, t, s', c);
    forall u | 0 <= u < |s.places| && u != t ensures Proper(s', s'.places[u], c) {
      assert Proper(s, s.places[u], c);
      StepOthers(s, t, s', c, u);
    }
  }

  /** P on the lock. */
  lemma AcquireKeeps(s: State, t: Tid, s': State, c: Setting)
    requires Queues(s) && s.lock.value + Holders(s.places) == 1 && Step(s, t, s', c) && s.places[t].Acquiring?
    ensures Queues(s') && s'.lock.value + Holders(s'.places) == 1
  {
    TryPKeeps(s.lock, LockPhases(s.places), t);
    Moved(s.places, t, s'.places[t]);
    MovedKind(s.places, t, s'.places[t], Reading);
    MovedKind(s.places, t, s'.places[t], Writing);
  }

  /** P on a condition. */
  lemma WaitKeeps(s: State, t: Tid, s': State, c: Setting)
    requires Queues(s) && s.lock.value + Holders(s.places) == 1 && Step(s, t, s', c) && s.places[t].Waiting?
    ensures Queues(s') && s'.lock.value + Holders(s'.places) == 1
  {
    var k := s.places[t].request.kind;
    TryPKeeps(Cond(s, k), CondPhases(s.places, k), t);
    Moved(s.places, t, s'.places[t]);
    MovedKind(s.places, t, s'.places[t], k);
    MovedKind(s.places, t, s'.places[t], Opposite(k));
  }

  /** V on the lock, at the end of a call or in Wait. */
  lemma ReleaseKeeps(s: State, t: Tid, p: Place, s': State)
    requires Queues(s) && s.lock.value + Holders(s.places) == 1
    requires t < |s.places| && (s.places[t].Leaving? || s.places[t].Parting?)
    requires p == Idle || (p.Waiting? && p.phase == Away)
    requires s' == s.(lock := AfterV(s.lock), places := Wake(s.lock.queue, s.places[t := p]))
    ensures Queues(s') && s'.lock.value + Holders(s'.places) == 1
  {
    VKeeps(s.lock, LockPhases(s.places));
    Moved(s.places, t, p);
    assert s.lock.queue != [] ==> LockPhases(s.places)[s.lock.queue[0]] == Asleep;
    MovedKind(s.places, t, p, Reading);
    WakeLock(s.lock, s.places[t := p], Reading);
    MovedKind(s.places, t, p, Writing);
    WakeLock(s.lock, s.places[t := p], Writing);
  }

  /** V on a condition. */
  lemma SignalKeeps(s: State, t: Tid, s': State, c: Setting)
    requires Queues(s) && s.lock.value + Holders(s.places) == 1 && Step(s, t, s', c) && s.places[t].Signalling?
    ensures Queues(s') && s'.lock.value + Holders(s'.places) == 1
  {
    var j := Opposite(s.places[t].kind);
    var cond := Cond(s, j);
    VKeeps(cond, CondPhases(s.places, j));
    Moved(s.places, t, Leaving);
    assert cond.queue != [] ==> CondPhases(s.places, j)[cond.queue[0]] == Asleep;
    MovedKind(s.places, t, Leaving, Reading);
    WakeCond(cond, s.places[t := Leaving], j, Reading);
    MovedKind(s.places, t, Leaving, Writing);
    WakeCond(cond, s.places[t := Leaving], j, Writing);
  }

  /** The steps that touch no semaphore. */
  lemma OtherKeeps(s: State, t: Tid, s': State, c: Setting)
    requires Queues(s) && s.lock.value + Holders(s.places) == 1 && Step(s, t, s', c)
    requires s.places[t].Idle? || s.places[t].Testing? || s.places[t].Moving?
    ensures Queues(s') && s'.lock.value + Holders(s'.places) == 1
  {
    Moved(s.places, t, s'.places[t]);
    MovedKind(s.places, t, s'.places[t], Reading);
    MovedKind(s.places, t, s'.places[t], Writing);
  }

  lemma StepKeeps(s: State, t: Tid, s': State, c: Setting)
    requires Inv(s, c) && Step(s, t, s', c)
    ensures Inv(s', c)
  {
    StepBytes(s, t, s', c);
    match s.places[t]
    case Acquiring(_, _, _) => AcquireKeeps(s, t, s', c);
    case Waiting(_, _) => WaitKeeps(s, t, s', c);
    case Leaving => ReleaseKeeps(s, t, Idle, s');
    case Parting(r) => ReleaseKeeps(s, t, Waiting(r, Away), s');
    case Signalling(_) => SignalKeeps(s, t, s', c);
    case _ => OtherKeeps(s, t, s', c);
  }

  /** V turns the promise of a thread about to signal into a unit. */
  lemma SignalComing(s: State, t: Tid, s': State, c: Setting, k: Kind)
    requires Queues(s) && Step(s, t, s', c) && s.places[t].Signalling?
    ensures Coming(s', k) == Coming(s, k) && s'.used == s.used
  {
    var j := Opposite(s.places[t].kind);
    assert Cond(s, j).queue != [] ==> CondPhases(s.places, j)[Cond(s, j).queue[0]] == Asleep;
    hide SemaInv, Queues, Promises, CondPhases, LockPhases;
    MovedKind(s.places, t, Leaving, k);
    WakeCond(Cond(s, j), s.places[t := Leaving], j, k);
  }

  lemma ReleaseComing(s: State, t: Tid, p: Place, s': State, k: Kind)
    requires SemaInv(s.lock, LockPhases(s.places)) && t < |s.places| && (s.places[t].Leaving? || s.places[t].Parting?)
    requires p == Idle || (p.Waiting? && p.phase == Away)
    requires s' == s.(lock := AfterV(s.lock), places := Wake(s.lock.queue, s.places[t := p]))
    ensures Coming(s', k) == Coming(s, k)
  {
    assert s.lock.queue != [] ==> LockPhases(s.places)[s.lock.queue[0]] == Asleep;
    MovedKind(s.places, t, p, k);
    WakeLock(s.lock, s.places[t := p], k);
  }

  /** Moving bytes uses up what one kind of request needs, and a credit with it; the other kind is promised a signal. */
  lemma MoveCounts(s: State, t: Tid, s': State, c: Setting, k: Kind)
    requires Step(s, t, s', c) && s.places[t].Moving?
    ensures var p := s.places[t];
      if p.request.kind == k then
        Level(s', k, c.maxSize) == Level(s, k, c.maxSize) - p.request.size
        && Coming(s', k) == Coming(s, k) - if p.credited then 1 else 0
      else
        Level(s', k, c.maxSize) == Level(s, k, c.maxSize) + p.request.size && Coming(s', k) == Coming(s, k) + 1
  {
    MovedKind(s.places, t, s'.places[t], k);
  }

  /** A thread that wakes nobody may turn a unit into a credit, and a failed test takes the credit away. */
  lemma StayComing(s: State, t: Tid, s': State, c: Setting, k: Kind)
    requires Step(s, t, s', c)
    requires s.places[t].Idle? || s.places[t].Acquiring? || s.places[t].Testing? || s.places[t].Waiting?
    ensures Coming(s', k) == Coming(s, k)
      || (s.places[t].Testing? && s.places[t].request.kind == k
          && Level(s, k, c.maxSize) < s.places[t].request.size)
  {
    MovedKind(s.places, t, s'.places[t], k);
  }

  /** No other step moves bytes, and only a failed test takes away a credit. */
  lemma StepCounts(s: State, t: Tid, s': State, c: Setting, k: Kind)
    requires Queues(s) && Step(s, t, s', c) && !s.places[t].Moving?
    ensures Level(s', k, c.maxSize) == Level(s, k, c.maxSize)
    ensures Coming(s', k) == Coming(s, k)
      || (s.places[t].Testing? && s.places[t].request.kind == k
          && Level(s, k, c.maxSize) < s.places[t].request.size)
  {
    hide SemaInv;
    if s.places[t].Signalling? {
      SignalComing(s, t, s', c, k);
    } else if s.places[t].Leaving? {
      ReleaseComing(s, t, Idle, s', k);
    } else if s.places[t].Parting? {
      ReleaseComing(s, t, Waiting(s.places[t].request, Away), s', k);
    } else {
      StayComing(s, t, s', c, k);
    }
  }

  /** Only a failed test puts a thread among those who wait. */
  lemma StepWaiters(s: State, t: Tid, s': State, c: Setting, k: Kind, u: Tid)
    requires Step(s, t, s', c) && u < |s.places| && |s'.places| == |s.places|
    requires InWait(s'.places[u], k) && !InWait(s.places[u], k)
    ensures u == t && s.places[t].Testing? && s.places[t].request.kind == k
    ensures Level(s, k, c.maxSize) < s.places[t].request.size
  {
    if u != t {
      StepOthers(s, t, s', c, u);
    } else if s.places[t].Signalling? {
      WakeProper(Cond(s, Opposite(s.places[t].kind)).queue, s.places[t := Leaving], t);
    } else if s.places[t].Leaving? {
      WakeProper(s.lock.queue, s.places[t := Idle], t);
    }
  }

  /** A failed test leaves less than a unit's worth. */
  lemma LessThanUnit(s: State, t: Tid, c: Setting, k: Kind, p: nat)
    requires Inv(s, c) && Unit(c, p) && t < |s.places| && s.places[t].Testing? && s.places[t].request.kind == k
    requires Level(s, k, c.maxSize) < s.places[t].request.size
    ensures Level(s, k, c.maxSize) < p
  {
    assert Proper(s, s.places[t], c);
  }

  lemma MoveEnough(s: State, t: Tid, s': State, c: Setting, k: Kind, p: nat)
    requires Inv(s, c) && Step(s, t, s', c) && s.places[t].Moving? && Unit(c, p)
    requires Level(s, k, c.maxSize) < Room(p, Coming(s, k))
    ensures Level(s', k, c.maxSize) < Room(p, Coming(s', k))
  {
    MoveCounts(s, t, s', c, k);
    assert Proper(s, s.places[t], c);
    RoomGrows(p, Coming(s, k));
    RoomGrows(p, Coming(s', k));
  }

  lemma StepEnough(s: State, t: Tid, s': State, c: Setting, k: Kind, p: nat)
    requires Inv(s, c) && |s'.places| == |s.places| && Step(s, t, s', c) && Unit(c, p) && Enough(s, k, c, p)
    ensures Enough(s', k, c, p)
  {
    if u: nat :| u < |s'.places| && InWait(s'.places[u], k) {
      if !InWait(s.places[u], k) { StepWaiters(s, t, s', c, k, u); }
      if s.places[t].Moving? {
        MoveEnough(s, t, s', c, k, p);
      } else {
        StepCounts(s, t, s', c, k);
        RoomGrows(p, Coming(s', k));
        if Coming(s', k) != Coming(s, k) || !InWait(s.places[u], k) { LessThanUnit(s, t, c, k, p); }
      }
    }
  }

  lemma {:induction false} RunKeeps(run: seq<State>, c: Setting, i: nat)
    requires IsRun(run, c) && i < |run|
    ensures Inv(run[i], c)
  {
    if i == 0 {
      CountNone(run[0].places, (p: Place) => Inside(p));
    } else {
      RunKeeps(run, c, i - 1);
      assert Next(run[i - 1], run[i], c);
      var t: Tid :| Step(run[i - 1], t, run[i], c);
      StepKeeps(run[i - 1], t, run[i], c);
    }
  }

  lemma InitEnough(s: State, c: Setting, k: Kind, p: nat)
    requires Init(s, c)
    ensures Enough(s, k, c, p)
  {
  }

  lemma EnoughNext(run: seq<State>, c: Setting, i: nat, k: Kind, p: nat)
    requires IsRun(run, c) && i + 1 < |run| && Unit(c, p) && Enough(run[i], k, c, p)
    ensures Enough(run[i + 1], k, c, p)
  {
    hide Enough, Unit;
    RunKeeps(run, c, i);
    RunKeeps(run, c, i + 1);
    assert Next(run[i], run[i + 1], c);
    var t: Tid :| Step(run[i], t, run[i + 1], c);
    assert |run[i].places| == |run[i + 1].places|;
    hide Step, Inv;
    StepEnough(run[i], t, run[i + 1], c, k, p);
  }

  lemma {:induction false} RunEnough(run: seq<State>, c: Setting, i: nat, k: Kind, p: nat)
    requires IsRun(run, c) && i < |run| && Unit(c, p)
    ensures Enough(run[i], k, c, p)
  {
    if i == 0 {
      InitEnough(run[0], c, k, p);
    } else {
      hide *;
      RunEnough(run, c, i - 1, k, p);
      EnoughNext(run, c, i - 1, k, p);
    }
  }

  /** With nobody on the way, neither units nor promises are left for those who sleep. */
  lemma QuietCounts(s: State, c: Setting, k: Kind)
    requires Inv(s, c) && forall t | 0 <= t < |s.places| :: s.places[t] == Idle || Sleeping(s.places[t])
    requires exists t | 0 <= t < |s.places| :: InWait(s.places[t], k)
    ensures Cond(s, k).value == 0 && Promises(s.places, k) == 0
  {
    CountNone(s.places, (p: Place) => Inside(p));
    if s.lock.queue != [] { NoIdleUnit(s.lock, LockPhases(s.places)); }
    forall t | 0 <= t < |s.places| ensures !s.places[t].Acquiring? {
      assert LockPhases(s.places)[t] != Asleep;
    }
    CountNone(s.places, (p: Place) => Promised(p, k));
    var t :| 0 <= t < |s.places| && InWait(s.places[t], k);
    assert CondPhases(s.places, k)[t] == Asleep;
    NoIdleUnit(Cond(s, k), CondPhases(s.places, k));
  }

  lemma SleeperUnmet(run: seq<State>, c: Setting, i: nat, p: nat, t: Tid)
    requires IsRun(run, c) && i < |run| && Unit(c, p)
    requires forall u | 0 <= u < |run[i].places| :: run[i].places[u] == Idle || Sleeping(run[i].places[u])
    requires t < |run[i].places| && run[i].places[t].Waiting?
    ensures run[i].places[t].request.size > Level(run[i], run[i].places[t].request.kind, c.maxSize)
  {
    RunKeeps(run, c, i);
    var s := run[i];
    var k := s.places[t].request.kind;
    assert InWait(s.places[t], k) && Proper(s, s.places[t], c);
    QuietCounts(s, c, k);
    RunEnough(run, c, i, k, p);
    assert Room(p, 0) == p;
  }

  lemma UnitNeverStrands(run: seq<State>, c: Setting, i: nat, p: nat)
    requires IsRun(run, c) && i < |run| && Unit(c, p)
    ensures !Stranded(run[i], c.maxSize)
  {
    if forall u | 0 <= u < |run[i].places| :: run[i].places[u] == Idle || Sleeping(run[i].places[u]) {
      forall t | 0 <= t < |run[i].places| && run[i].places[t].Waiting?
        ensures run[i].places[t].request.size > Level(run[i], run[i].places[t].request.kind, c.maxSize)
      {
        SleeperUnmet(run, c, i, p, t);
      }
    }
  }

  /*** One thread only: it waits for nothing that is there ***/

  ghost predicate WaitsRightly(s: State, c: Setting) {
    forall t | 0 <= t < |s.places| && (s.places[t].Parting? || s.places[t].Waiting?) ::
      Level(s, s.places[t].request.kind, c.maxSize) < s.places[t].request.size
  }

  lemma AloneStep(s: State, t: Tid, s': State, c: Setting)
    requires |s.places| == |s'.places| == 1 && Step(s, t, s', c) && WaitsRightly(s, c)
    ensures WaitsRightly(s', c)
  {
    if s'.places[0].Parting? || s'.places[0].Waiting? {
      var k := s'.places[0].request.kind;
      if !InWait(s.places[0], k) { StepWaiters(s, 0, s', c, k, 0); }
    }
  }

  lemma {:induction false} AloneWaitsRightly(run: seq<State>, c: Setting, i: nat)
    requires IsRun(run, c) && i < |run| && c.threads <= 1
    ensures WaitsRightly(run[i], c)
  {
    if i > 0 {
      AloneWaitsRightly(run, c, i - 1);
      RunKeeps(run, c, i - 1);
      RunKeeps(run, c, i);
      assert Next(run[i - 1], run[i], c);
      var t: Tid :| Step(run[i - 1], t, run[i], c);
      AloneStep(run[i - 1], t, run[i], c);
    }
  }

  /*** Two threads and two sizes: a barger takes the unit meant for a smaller request ***/

  /** A state in which threads 0 and 1 are at a and b, and all others idle. */
  function Two(n: nat, lock: nat, queue: seq<Tid>, units: nat, used: nat, a: Place, b: Place): State
    requires n >= 2
  {
    State(Sema(lock, []), Sema(units, queue), Sema(0, []), used, [a, b] + seq(n - 2, _ => Idle))
  }

  /** The states of the run: thread 0 reads z, thread 1 writes z and then reads the larger y. */
  function Barging(n: nat, z: nat, y: nat): seq<State>
    requires n >= 2
  {
    var small, large, put := Request(Reading, z), Request(Reading, y), Request(Writing, z);
    var slept, woken := Waiting(small, Asleep), Waiting(small, Woken);
    [ Two(n, 1, [], 0, 0, Idle, Idle),
      Two(n, 1, [], 0, 0, Acquiring(small, false, Away), Idle),
      Two(n, 0, [], 0, 0, Testing(small, false), Idle),
      Two(n, 0, [], 0, 0, Parting(small), Idle),
      Two(n, 1, [], 0, 0, Waiting(small, Away), Idle),
      Two(n, 1, [0], 0, 0, slept, Idle),
      Two(n, 1, [0], 0, 0, slept, Acquiring(put, false, Away)),
      Two(n, 0, [0], 0, 0, slept, Testing(put, false)),
      Two(n, 0, [0], 0, 0, slept, Moving(put, false)),
      Two(n, 0, [0], 0, z, slept, Signalling(Writing)),
      Two(n, 0, [], 1, z, woken, Leaving),
      Two(n, 1, [], 1, z, woken, Idle),
      Two(n, 1, [], 1, z, woken, Acquiring(large, false, Away)),
      Two(n, 0, [], 1, z, woken, Testing(large, false)),
      Two(n, 0, [], 1, z, woken, Parting(large)),
      Two(n, 1, [], 1, z, woken, Waiting(large, Away)),
      Two(n, 1, [], 0, z, woken, Acquiring(large, true, Away)),
      Two(n, 0, [], 0, z, woken, Testing(large, true)),
      Two(n, 0, [], 0, z, woken, Parting(large)),
      Two(n, 1, [], 0, z, woken, Waiting(large, Away)),
      Two(n, 1, [1], 0, z, woken, Waiting(large, Asleep)),
      Two(n, 1, [1, 0], 0, z, slept, Waiting(large, Asleep)) ]
  }

  function Stepper(i: nat): Tid {
    if i < 5 || i == 20 then 0 else 1
  }

  /** Thread 0 goes to sleep. */
  lemma BargingBegins(c: Setting, z: nat, y: nat, i: nat)
    requires c.threads >= 2 && z in c.sizes && 0 < z && i < 5
    ensures Step(Barging(c.threads, z, y)[i], Stepper(i), Barging(c.threads, z, y)[i + 1], c)
  {
    if i == 0 {
      assert Begin(Barging(c.threads, z, y)[0], 0, Request(Reading, z), Barging(c.threads, z, y)[1], c);
    }
  }

  /** Thread 1 writes what thread 0 wants. */
  lemma BargingWrites(c: Setting, z: nat, y: nat, i: nat)
    requires c.threads >= 2 && z in c.sizes && 0 < z <= c.maxSize && 5 <= i < 11
    ensures Step(Barging(c.threads, z, y)[i], Stepper(i), Barging(c.threads, z, y)[i + 1], c)
  {
    if i == 5 {
      assert Begin(Barging(c.threads, z, y)[5], 1, Request(Writing, z), Barging(c.threads, z, y)[6], c);
    }
  }

  /** Thread 1 takes the unit first, and both sleep. */
  lemma BargingEnds(c: Setting, z: nat, y: nat, i: nat)
    requires c.threads >= 2 && y in c.sizes && z < y && 11 <= i < 21
    ensures Step(Barging(c.threads, z, y)[i], Stepper(i), Barging(c.threads, z, y)[i + 1], c)
  {
    if i == 11 {
      assert Begin(Barging(c.threads, z, y)[11], 1, Request(Reading, y), Barging(c.threads, z, y)[12], c);
    }
  }

  lemma Strands(c: Setting, z: nat, y: nat)
    requires c.threads >= 2 && z in c.sizes && y in c.sizes && 0 < z <= c.maxSize && z < y
    ensures MayStrand(c)
  {
    var run := Barging(c.threads, z, y);
    forall i | 0 <= i < |run| - 1 ensures Next(run[i], run[i + 1], c) {
      if i < 5 {
        BargingBegins(c, z, y, i);
      } else if i < 11 {
        BargingWrites(c, z, y, i);
      } else {
        BargingEnds(c, z, y, i);
      }
    }
    assert run[21].places[0] == Waiting(Request(Reading, z), Asleep);
    assert Stranded(run[21], c.maxSize);
  }

  /**
   Some run leaves a reader or writer asleep for ever beside what it waits for if and only if there
   are two threads, and two sizes of which the smaller is positive and fits the buffer.
   */
  lemma StrandedExactly(c: Setting)
    ensures MayStrand(c) <==>
      c.threads >= 2 && exists z, y :: z in c.sizes && y in c.sizes && 0 < z <= c.maxSize && z < y
  {
    if c.threads >= 2 && exists z, y :: z in c.sizes && y in c.sizes && 0 < z <= c.maxSize && z < y {
      var z, y :| z in c.sizes && y in c.sizes && 0 < z <= c.maxSize && z < y;
      Strands(c, z, y);
    } else {
      forall run: seq<State>, i: nat | i < |run| && IsRun(run, c) ensures !Stranded(run[i], c.maxSize) {
        if c.threads < 2 {
          AloneWaitsRightly(run, c, i);
        } else if z :| z in c.sizes && 0 < z <= c.maxSize {
          UnitNeverStrands(run, c, i, z);
        } else {
          UnitNeverStrands(run, c, i, c.maxSize + 1);
        }
      }
    }
  }
}
