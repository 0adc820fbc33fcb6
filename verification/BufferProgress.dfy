/**
 The bounded buffer's monitor comes to rest: the calls that have begun can go on until each has returned
 or sleeps, and the bytes in the buffer are then what those who have returned have left there.
 */
module BufferProgress {
  import opened Counting
  import opened Semaphores
  import opened BufferMonitors

  /** A step that begins no call. */
  ghost predicate Continues(s: State, s': State, c: Setting) {
    exists t: Tid :: t < |s.places| && s.places[t] != Idle && Step(s, t, s', c)
  }

  ghost predicate IsPath(path: seq<State>, c: Setting) {
    |path| > 0 && forall k | 0 <= k < |path| - 1 :: Continues(path[k], path[k + 1], c)
  }

  /** How far a thread is from its return; a unit of a condition may bring four more steps. */
  function Distance(p: Place): nat {
    match p
    case Idle => 0
    case Leaving => 1
    case Signalling(_) => 7
    case Moving(_, _) => 8
    case Waiting(_, phase) => if phase == Asleep then 9 else 10
    case Parting(_) => 11
    case Testing(_, _) => 12
    case Acquiring(_, _, _) => 13
  }

  ghost function Remaining(s: State): nat {
    Total(s.places, (p: Place) => Distance(p)) + 4 * (s.empty.value + s.full.value)
  }

  /** The bytes that a thread in a call of a kind has still to move. */
  function Unmoved(p: Place, k: Kind): nat {
    if HasRequest(p) && p.request.kind == k then p.request.size else 0
  }

  ghost function Bringing(places: seq<Place>, k: Kind): nat {
    Total(places, (p: Place) => Unmoved(p, k))
  }

  /** The bytes in the buffer, were all the calls that have begun completed. */
  ghost function Due(s: State): int {
    s.used + Bringing(s.places, Writing) - Bringing(s.places, Reading)
  }

  lemma Moved(places: seq<Place>, t: Tid, p: Place)
    requires t < |places|
    ensures Total(places[t := p], (p: Place) => Distance(p))
      == Total(places, (p: Place) => Distance(p)) - Distance(places[t]) + Distance(p)
    ensures Bringing(places[t := p], Writing)
      == Bringing(places, Writing) - Unmoved(places[t], Writing) + Unmoved(p, Writing)
    ensures Bringing(places[t := p], Reading)
      == Bringing(places, Reading) - Unmoved(places[t], Reading) + Unmoved(p, Reading)
  {
    TotalUpdate(places, t, p, (p: Place) => Distance(p));
    TotalUpdate(places, t, p, (p: Place) => Unmoved(p, Writing));
    TotalUpdate(places, t, p, (p: Place) => Unmoved(p, Reading));
  }

  lemma WokenOne(queue: seq<Tid>, places: seq<Place>)
    ensures var d := (p: Place) => Distance(p);
      Total(Wake(queue, places), d)
        <= Total(places, d) + if queue != [] && queue[0] < |places| && places[queue[0]].Waiting? then 1 else 0
    ensures Bringing(Wake(queue, places), Writing) == Bringing(places, Writing)
    ensures Bringing(Wake(queue, places), Reading) == Bringing(places, Reading)
  {
    var places' := Wake(queue, places);
    if queue != [] && queue[0] < |places| {
      assert places' == places[queue[0] := places'[queue[0]]];
      Moved(places, queue[0], places'[queue[0]]);
    }
  }

  ghost predicate Onward(s: State, s': State, c: Setting) {
    Continues(s, s', c) && Remaining(s') < Remaining(s) && Due(s') == Due(s)
  }

  lemma FirstAcquires(s: State, c: Setting)
    requires Inv(s, c)
    ensures s.lock.queue != [] ==> s.lock.queue[0] < |s.places| && s.places[s.lock.queue[0]].Acquiring?
  {
    assert s.lock.queue != [] ==> LockPhases(s.places)[s.lock.queue[0]] == Asleep;
  }

  lemma LeaverMoves(s: State, t: Tid, p: Place, c: Setting) returns (s': State)
    requires t < |s.places|
    requires s.lock.queue != [] ==> s.lock.queue[0] < |s.places| && s.places[s.lock.queue[0]].Acquiring?
    requires (s.places[t].Leaving? && p == Idle) || (s.places[t].Parting? && p == Waiting(s.places[t].request, Away))
    ensures Onward(s, s', c)
  {
    var places := s.places[t := p];
    s' := s.(lock := AfterV(s.lock), places := Wake(s.lock.queue, places));
    Moved(s.places, t, p);
    WokenOne(s.lock.queue, places);
    assert Step(s, t, s', c);
  }

  lemma SignallerMoves(s: State, t: Tid, c: Setting) returns (s': State)
    requires t < |s.places| && s.places[t].Signalling?
    ensures Onward(s, s', c)
  {
    var k := Opposite(s.places[t].kind);
    var places := s.places[t := Leaving];
    s' := WithCond(s, k, AfterV(Cond(s, k))).(places := Wake(Cond(s, k).queue, places));
    Moved(s.places, t, Leaving);
    WokenOne(Cond(s, k).queue, places);
    assert Step(s, t, s', c);
  }

  lemma TesterMoves(s: State, t: Tid, c: Setting) returns (s': State)
    requires t < |s.places| && (s.places[t].Testing? || s.places[t].Moving?)
    ensures Onward(s, s', c)
  {
    var r := s.places[t].request;
    if s.places[t].Testing? {
      var place := if Level(s, r.kind, c.maxSize) < r.size then Parting(r) else Moving(r, s.places[t].credited);
      s' := s.(places := s.places[t := place]);
    } else {
      s' := s.(used := if r.kind == Writing then s.used + r.size else s.used - r.size,
               places := s.places[t := Signalling(r.kind)]);
    }
    Moved(s.places, t, s'.places[t]);
    assert Step(s, t, s', c);
  }

  lemma InsideMoves(s: State, t: Tid, c: Setting) returns (s': State)
    requires Inv(s, c) && t < |s.places| && Inside(s.places[t])
    ensures Onward(s, s', c)
  {
    FirstAcquires(s, c);
    hide Inv, Onward;
    match s.places[t] {
      case Leaving => s' := LeaverMoves(s, t, Idle, c);
      case Parting(r) => s' := LeaverMoves(s, t, Waiting(r, Away), c);
      case Signalling(_) => s' := SignallerMoves(s, t, c);
      case _ => s' := TesterMoves(s, t, c);
    }
  }

  lemma SomeoneEnters(s: State, t: Tid, c: Setting) returns (s': State)
    requires s.lock.value > 0 && t < |s.places| && s.places[t].Acquiring? && s.places[t].phase != Asleep
    ensures Onward(s, s', c)
  {
    var p := s.places[t];
    s' := s.(lock := TryP(s.lock, t).0, places := s.places[t := Testing(p.request, p.credited)]);
    Moved(s.places, t, s'.places[t]);
    assert Step(s, t, s', c);
  }

  lemma WaiterMoves(s: State, t: Tid, c: Setting) returns (s': State)
    requires t < |s.places| && s.places[t].Waiting? && s.places[t].phase != Asleep
    ensures Onward(s, s', c)
  {
    var r := s.places[t].request;
    var (cond, got) := TryP(Cond(s, r.kind), t);
    s' := WithCond(s, r.kind, cond)
          .(places := s.places[t := if got then Acquiring(r, true, Away) else Waiting(r, Asleep)]);
    Moved(s.places, t, s'.places[t]);
    assert Step(s, t, s', c);
  }

  lemma OutsideMoves(s: State, t: Tid, c: Setting) returns (s': State)
    requires Inv(s, c) && Holders(s.places) == 0
    requires t < |s.places| && s.places[t] != Idle && !Sleeping(s.places[t])
    ensures Onward(s, s', c)
  {
    if Inside(s.places[t]) { CountSome(s.places, t, (p: Place) => Inside(p)); }
    hide Onward;
    if s.places[t].Acquiring? {
      s' := SomeoneEnters(s, t, c);
    } else {
      s' := WaiterMoves(s, t, c);
    }
  }

  ghost predicate AtRest(s: State) {
    forall t | 0 <= t < |s.places| :: s.places[t] == Idle || Sleeping(s.places[t])
  }

  lemma SomeoneMoves(s: State, c: Setting) returns (s': State)
    requires Inv(s, c) && !AtRest(s)
    ensures Onward(s, s', c) && Inv(s', c)
  {
    hide Inv, Step, Sleeping, Remaining, Due;
    if Holders(s.places) > 0 {
      var t := CountWitness(s.places, (p: Place) => Inside(p));
      s' := InsideMoves(s, t, c);
    } else {
      var t :| 0 <= t < |s.places| && s.places[t] != Idle && !Sleeping(s.places[t]);
      s' := OutsideMoves(s, t, c);
    }
    var t: Tid :| t < |s.places| && s.places[t] != Idle && Step(s, t, s', c);
    StepKeeps(s, t, s', c);
  }

  lemma {:induction false} PathToRest(s: State, c: Setting) returns (path: seq<State>)
    requires Inv(s, c)
    ensures IsPath(path, c) && path[0] == s
    ensures AtRest(path[|path| - 1]) && Due(path[|path| - 1]) == Due(s)
    decreases Remaining(s)
  {
    hide Inv, Remaining, AtRest, Continues, Due;
    if AtRest(s) {
      path := [s];
    } else {
      var s' := SomeoneMoves(s, c);
      var rest := PathToRest(s', c);
      path := [s] + rest;
    }
  }

  lemma RunContinued(run: seq<State>, path: seq<State>, c: Setting)
    requires IsRun(run, c) && IsPath(path, c) && path[0] == run[|run| - 1]
    ensures IsRun(run + path[1..], c)
  {
    var whole := run + path[1..];
    forall i | 0 <= i < |whole| - 1 ensures Next(whole[i], whole[i + 1], c) {
      if i + 1 < |run| {
        assert Next(run[i], run[i + 1], c);
      } else {
        var k := i - (|run| - 1);
        assert Continues(path[k], path[k + 1], c);
        assert whole[i] == path[k] && whole[i + 1] == path[k + 1];
      }
    }
  }

  /**
   From every reachable state the calls that have begun can go on until each has returned or sleeps; the
   buffer then holds the bytes that it held, with those of the writers who have returned since and
   without those of the readers. With one size in use, whoever sleeps waits for what is not there.
   */
  lemma ComesToRest(run: seq<State>, c: Setting, p: nat) returns (cont: seq<State>)
    requires IsRun(run, c)
    ensures IsPath(cont, c) && cont[0] == run[|run| - 1]
    ensures var s, last := cont[0], cont[|cont| - 1];
      && AtRest(last)
      && last.used + Bringing(last.places, Writing) - Bringing(last.places, Reading)
         == s.used + Bringing(s.places, Writing) - Bringing(s.places, Reading)
      && (Unit(c, p) ==> !Stranded(last, c.maxSize))
  {
    RunKeeps(run, c, |run| - 1);
    cont := PathToRest(run[|run| - 1], c);
    RunContinued(run, cont, c);
    var whole := run + cont[1..];
    assert whole[|whole| - 1] == cont[|cont| - 1];
    if Unit(c, p) { UnitNeverStrands(whole, c, |whole| - 1, p); }
  }
}
