/**
 The interrupt simulator: a clock, the pending interrupts sorted by time, and the loop that fires
 those that are due. A handler may schedule any number of later interrupts and ask for a context
 switch; what the n-th firing does is an arbitrary function, so every behaviour is covered.
 */
module Interrupts {
  import opened Lists

  const USER_TICK: nat := 1
  const SYSTEM_TICK: nat := 10

  datatype IntStatus = IntOff | IntOn
  datatype MachineStatus = IdleMode | SystemMode | UserMode
  datatype IntType = TimerInt | DiskInt | ConsoleWriteInt | ConsoleReadInt | NetworkSendInt | NetworkRecvInt

  datatype PendingInterrupt = PendingInterrupt(handler: nat, kind: IntType)
  type Due = Entry<PendingInterrupt>

  /** A call of Schedule, which insists on a time in the future. */
  datatype Call = Call(what: PendingInterrupt, fromNow: nat)
  type Request = c: Call | c.fromNow > 0 witness Call(PendingInterrupt(0, TimerInt), 1)

  datatype Effect = Effect(requests: seq<Request>, askYield: bool)
  type Handlers = (nat, PendingInterrupt) -> Effect

  /** An interrupt that was fired, and the tick at which it was. */
  datatype Firing = Firing(due: Due, at: int)

  /** What a call of Schedule asked for, and the tick at which it did. */
  datatype Asked = Asked(what: PendingInterrupt, at: int, fromNow: nat)

  /** The fields of Interrupt and Statistics; the histories of what was fired and asked for are for the proof. */
  datatype State = State(
    status: MachineStatus, yieldOnReturn: bool,
    total: nat, idle: nat, system: nat, user: nat,
    pending: seq<Due>, fired: seq<Firing>, asked: seq<Asked>)

  ghost function AfterSchedule(s: State, r: Request): State {
    var e := Entry(r.what, s.total + r.fromNow);
    s.(pending := Inserted(s.pending, e), asked := s.asked + [Asked(r.what, s.total, r.fromNow)])
  }

  /** The first n calls of a handler. */
  ghost function AfterCalls(s: State, rs: seq<Request>, n: nat): State
    requires n <= |rs|
  {
    if n == 0 then s else AfterSchedule(AfterCalls(s, rs, n - 1), rs[n - 1])
  }

  /** Taking off the first pending interrupt as fired, and entering the kernel for its handler. */
  ghost function TakeOff(s: State): State
    requires s.pending != []
  {
    s.(status := SystemMode, pending := s.pending[1..], fired := s.fired + [Firing(s.pending[0], s.total)])
  }

  /** What a handler does: it calls Schedule some number of times, and may call YieldOnReturn. */
  ghost function AfterHandler(s: State, effect: Effect): State {
    var t := AfterCalls(s, effect.requests, |effect.requests|);
    t.(yieldOnReturn := t.yieldOnReturn || effect.askYield)
  }

  /** Calling the handler of the first pending interrupt, which has been taken off the list. */
  ghost function Fire(s: State, h: Handlers): State
    requires s.pending != []
  {
    AfterHandler(TakeOff(s), h(|s.fired|, s.pending[0].item)).(status := s.status)
  }

  /** The clock moved on to the first pending interrupt, if that is later. */
  ghost function Advanced(s: State): State
    requires s.pending != []
  {
    var when := s.pending[0].key;
    if when > s.total then s.(total := when, idle := s.idle + (when - s.total)) else s
  }

  /** The first pending interrupt taken off and put back, behind any of the same time. */
  ghost function PutBack(s: State): State
    requires s.pending != []
  {
    s.(pending := Inserted(s.pending[1..], s.pending[0]))
  }

  /** When idle, a timer interrupt that is the only one pending is not fired. */
  ghost predicate OnlyTimer(s: State) {
    s.status == IdleMode && |s.pending| == 1 && s.pending[0].item.kind == TimerInt
  }

  ghost function AfterCheck(s: State, advanceClock: bool, h: Handlers): (State, bool) {
    if s.pending == [] then (s, false)
    else
      var t := if advanceClock then Advanced(s) else s;
      if t.pending[0].key > t.total || OnlyTimer(t) then (PutBack(t), false) else (Fire(t, h), true)
  }

  ghost function DueCount(s: seq<Due>, now: int): nat {
    if s == [] then 0 else (if s[0].key <= now then 1 else 0) + DueCount(s[1..], now)
  }

  lemma {:induction false} DueInserted(s: seq<Due>, e: Due, now: int)
    ensures DueCount(Inserted(s, e), now) == DueCount(s, now) + if e.key <= now then 1 else 0
  {
    if s == [] || e.key < s[0].key {
      assert ([e] + s)[1..] == s;
    } else {
      DueInserted(s[1..], e, now);
      assert ([s[0]] + Inserted(s[1..], e))[1..] == Inserted(s[1..], e);
    }
  }

  lemma ScheduleDue(s: State, r: Request)
    ensures DueCount(AfterSchedule(s, r).pending, s.total) == DueCount(s.pending, s.total)
    ensures AfterSchedule(s, r).total == s.total && AfterSchedule(s, r).status == s.status
  {
    DueInserted(s.pending, Entry(r.what, s.total + r.fromNow), s.total);
  }

  lemma {:induction false} CallsDue(s: State, rs: seq<Request>, n: nat)
    requires n <= |rs|
    ensures DueCount(AfterCalls(s, rs, n).pending, s.total) == DueCount(s.pending, s.total)
    ensures AfterCalls(s, rs, n).total == s.total && AfterCalls(s, rs, n).status == s.status
  {
    hide DueCount, AfterSchedule;
    if n > 0 {
      CallsDue(s, rs, n - 1);
      ScheduleDue(AfterCalls(s, rs, n - 1), rs[n - 1]);
    }
  }

  /** Each firing leaves one interrupt fewer due: what handlers schedule lies in the future. */
  lemma FireLeavesFewer(s: State, h: Handlers)
    requires s.pending != [] && s.pending[0].key <= s.total
    ensures DueCount(Fire(s, h).pending, s.total) == DueCount(s.pending, s.total) - 1
    ensures Fire(s, h).total == s.total && Fire(s, h).status == s.status
  {
    var rs := h(|s.fired|, s.pending[0].item).requests;
    CallsDue(TakeOff(s), rs, |rs|);
  }

  /** The loop that fires whatever is due. */
  ghost function Drain(s: State, h: Handlers): State
    decreases DueCount(s.pending, s.total)
  {
    var (t, again) := AfterCheck(s, false, h);
    if again then FireLeavesFewer(s, h); Drain(t, h) else t
  }

  /** The clock's advance in OneTick. */
  ghost function Ticked(s: State): State {
    if s.status == SystemMode then s.(total := s.total + SYSTEM_TICK, system := s.system + SYSTEM_TICK)
    else s.(total := s.total + USER_TICK, user := s.user + USER_TICK)
  }

  ghost function AfterTick(s: State, h: Handlers): State {
    Drain(Ticked(s), h).(yieldOnReturn := false)
  }

  /** What Idle leaves, and whether it halted the machine for want of anything to wait for. */
  ghost function AfterIdle(s: State, h: Handlers): (State, bool) {
    var (t, found) := AfterCheck(s.(status := IdleMode), true, h);
    if found then (Drain(t, h).(yieldOnReturn := false, status := SystemMode), false) else (t, true)
  }

  /*** What every state keeps ***/

  ghost function FiredEntries(f: seq<Firing>): multiset<Due> {
    if f == [] then multiset{} else FiredEntries(f[..|f| - 1]) + multiset{f[|f| - 1].due}
  }

  /** What was asked for, each at the time it was asked for. */
  ghost function Dues(asked: seq<Asked>): multiset<Due> {
    if asked == [] then multiset{}
    else
      var q := asked[|asked| - 1];
      Dues(asked[..|asked| - 1]) + multiset{Entry(q.what, q.at + q.fromNow)}
  }

  /** Interrupts were fired in order of time, and none early. */
  ghost predicate InOrder(f: seq<Firing>, now: int) {
    && (forall i | 0 <= i < |f| :: f[i].due.key <= f[i].at <= now)
    && (forall i, j | 0 <= i < j < |f| :: f[i].due.key <= f[j].due.key && f[i].at <= f[j].at)
  }

  /** Nothing pending is earlier than what was fired. */
  ghost predicate NotBefore(pending: seq<Due>, f: seq<Firing>) {
    f == [] || forall j | 0 <= j < |pending| :: f[|f| - 1].due.key <= pending[j].key
  }

  ghost predicate Accounted(s: State) {
    && s.total == s.idle + s.system + s.user
    && Dues(s.asked) == FiredEntries(s.fired) + multiset(s.pending)
  }

  /** Every tick is accounted for, and every interrupt scheduled is fired once or still pending. */
  ghost predicate Inv(s: State) {
    Sorted(s.pending) && InOrder(s.fired, s.total) && NotBefore(s.pending, s.fired) && Accounted(s)
  }

  lemma InsertedKeeps(pending: seq<Due>, e: Due, f: seq<Firing>)
    requires Sorted(pending) && NotBefore(pending, f) && NotBefore([e], f)
    ensures Sorted(Inserted(pending, e)) && NotBefore(Inserted(pending, e), f)
    ensures multiset(Inserted(pending, e)) == multiset(pending) + multiset{e}
  {
    InsertedSorted(pending, e);
    InsertedMultiset(pending, e);
    assert [e][0] == e;
    var p := InsertedPlace(pending, e);
  }

  lemma DuesAppend(asked: seq<Asked>, q: Asked)
    ensures Dues(asked + [q]) == Dues(asked) + multiset{Entry(q.what, q.at + q.fromNow)}
  {
    assert (asked + [q])[..|asked|] == asked;
  }

  lemma ScheduleKeeps(s: State, r: Request)
    requires Inv(s)
    ensures Inv(AfterSchedule(s, r))
    ensures AfterSchedule(s, r).fired == s.fired && AfterSchedule(s, r).total == s.total
  {
    DuesAppend(s.asked, Asked(r.what, s.total, r.fromNow));
    hide Dues, FiredEntries, Inserted;
    InsertedKeeps(s.pending, Entry(r.what, s.total + r.fromNow), s.fired);
  }

  lemma {:induction false} CallsKeep(s: State, rs: seq<Request>, n: nat)
    requires Inv(s) && n <= |rs|
    ensures Inv(AfterCalls(s, rs, n))
    ensures AfterCalls(s, rs, n).fired == s.fired && AfterCalls(s, rs, n).total == s.total
  {
    hide Inv, AfterSchedule;
    if n > 0 {
      CallsKeep(s, rs, n - 1);
      ScheduleKeeps(AfterCalls(s, rs, n - 1), rs[n - 1]);
    }
  }

  lemma FiredInOrder(pending: seq<Due>, f: seq<Firing>, now: int)
    requires Sorted(pending) && InOrder(f, now) && NotBefore(pending, f)
    requires pending != [] && pending[0].key <= now
    ensures InOrder(f + [Firing(pending[0], now)], now) && NotBefore(pending[1..], f + [Firing(pending[0], now)])
  {
  }

  lemma TakeOffKeeps(s: State)
    requires Inv(s) && s.pending != [] && s.pending[0].key <= s.total
    ensures Inv(TakeOff(s))
  {
    FiredInOrder(s.pending, s.fired, s.total);
    assert TakeOff(s).fired[..|s.fired|] == s.fired;
    assert s.pending == [s.pending[0]] + s.pending[1..];
  }

  lemma FireKeeps(s: State, h: Handlers)
    requires Inv(s) && s.pending != [] && s.pending[0].key <= s.total
    ensures Inv(Fire(s, h))
    ensures Fire(s, h).fired == s.fired + [Firing(s.pending[0], s.total)] && Fire(s, h).total == s.total
  {
    TakeOffKeeps(s);
    var rs := h(|s.fired|, s.pending[0].item).requests;
    CallsKeep(TakeOff(s), rs, |rs|);
  }

  lemma SplitFirst(pending: seq<Due>, f: seq<Firing>)
    requires Sorted(pending) && NotBefore(pending, f) && pending != []
    ensures Sorted(pending[1..]) && NotBefore(pending[1..], f) && NotBefore([pending[0]], f)
    ensures multiset(pending) == multiset(pending[1..]) + multiset{pending[0]}
  {
    assert pending == [pending[0]] + pending[1..];
  }

  lemma PutBackKeeps(s: State)
    requires Inv(s) && s.pending != []
    ensures Inv(PutBack(s))
    ensures multiset(PutBack(s).pending) == multiset(s.pending)
  {
    hide Sorted, NotBefore, Dues, FiredEntries, Inserted, InOrder;
    SplitFirst(s.pending, s.fired);
    InsertedKeeps(s.pending[1..], s.pending[0], s.fired);
  }

  lemma AdvancedKeeps(s: State)
    requires Inv(s) && s.pending != []
    ensures Inv(Advanced(s))
  {
  }

  lemma CheckKeeps(s: State, advanceClock: bool, h: Handlers)
    requires Inv(s)
    ensures Inv(AfterCheck(s, advanceClock, h).0)
  {
    hide Inv, Fire;
    if s.pending != [] {
      if advanceClock { AdvancedKeeps(s); }
      var t := if advanceClock then Advanced(s) else s;
      if t.pending[0].key > t.total || OnlyTimer(t) {
        PutBackKeeps(t);
      } else {
        FireKeeps(t, h);
      }
    }
  }

  ghost predicate AllFuture(s: State) {
    forall i | 0 <= i < |s.pending| :: s.pending[i].key > s.total
  }

  /** What is put back because it is not due leaves nothing due. */
  lemma PutBackFuture(s: State)
    requires Sorted(s.pending) && s.pending != [] && s.pending[0].key > s.total
    ensures AllFuture(PutBack(s))
  {
    var p := InsertedPlace(s.pending[1..], s.pending[0]);
  }

  /** A check that fires nothing leaves nothing due, but for a timer interrupt that is all that an idle machine has. */
  lemma CheckSettles(s: State, h: Handlers)
    requires Inv(s) && !AfterCheck(s, false, h).1
    ensures var t := AfterCheck(s, false, h).0;
      t.total == s.total && t.status == s.status && (AllFuture(t) || OnlyTimer(t))
  {
    if s.pending != [] && s.pending[0].key > s.total { PutBackFuture(s); }
  }

  /** So the firing loop ends. */
  lemma {:induction false} DrainKeeps(s: State, h: Handlers)
    requires Inv(s)
    ensures Inv(Drain(s, h)) && Drain(s, h).total == s.total && Drain(s, h).status == s.status
    ensures AllFuture(Drain(s, h)) || OnlyTimer(Drain(s, h))
    decreases DueCount(s.pending, s.total)
  {
    CheckKeeps(s, false, h);
    if AfterCheck(s, false, h).1 {
      FireLeavesFewer(s, h);
      hide Inv, Fire, AllFuture, OnlyTimer;
      DrainKeeps(Fire(s, h), h);
    } else {
      CheckSettles(s, h);
      hide Inv, AfterCheck, AllFuture, OnlyTimer;
    }
  }

  /** Of what is pending, only a timer interrupt may be as early as lo. */
  ghost predicate Later(pending: seq<Due>, lo: int) {
    forall j | 0 <= j < |pending| :: pending[j].key > lo || pending[j].item.kind == TimerInt
  }

  ghost predicate Prompt(f: seq<Firing>) {
    forall k | 0 <= k < |f| :: f[k].at < f[k].due.key + SYSTEM_TICK || f[k].due.item.kind == TimerInt
  }

  /** No interrupt but a timer's is ever overdue, or was fired a system tick or more after its time. */
  ghost predicate Punctual(s: State) {
    Later(s.pending, s.total) && Prompt(s.fired)
  }

  lemma InsertedLater(pending: seq<Due>, e: Due, lo: int)
    requires Later(pending, lo) && Later([e], lo)
    ensures Later(Inserted(pending, e), lo)
  {
    assert [e][0] == e;
    var p := InsertedPlace(pending, e);
  }

  lemma ScheduleLater(s: State, r: Request, lo: int)
    requires Later(s.pending, lo) && lo <= s.total
    ensures Later(AfterSchedule(s, r).pending, lo)
    ensures AfterSchedule(s, r).total == s.total && AfterSchedule(s, r).fired == s.fired
  {
    InsertedLater(s.pending, Entry(r.what, s.total + r.fromNow), lo);
  }

  lemma {:induction false} CallsLater(s: State, rs: seq<Request>, n: nat, lo: int)
    requires Later(s.pending, lo) && lo <= s.total && n <= |rs|
    ensures Later(AfterCalls(s, rs, n).pending, lo) && AfterCalls(s, rs, n).total == s.total
    ensures AfterCalls(s, rs, n).fired == s.fired
  {
    hide Later, AfterSchedule;
    if n > 0 {
      CallsLater(s, rs, n - 1, lo);
      ScheduleLater(AfterCalls(s, rs, n - 1), rs[n - 1], lo);
    }
  }

  lemma {:induction false} DrainPrompt(s: State, h: Handlers, lo: int)
    requires Later(s.pending, lo) && lo <= s.total < lo + SYSTEM_TICK + 1 && Prompt(s.fired)
    ensures Prompt(Drain(s, h).fired)
    decreases DueCount(s.pending, s.total)
  {
    if AfterCheck(s, false, h).1 {
      FireLeavesFewer(s, h);
      var rs := h(|s.fired|, s.pending[0].item).requests;
      CallsLater(TakeOff(s), rs, |rs|, lo);
      DrainPrompt(Fire(s, h), h, lo);
    }
  }

  lemma TickedKeeps(s: State)
    requires Inv(s)
    ensures Inv(Ticked(s)) && Ticked(s).status == s.status
  {
  }

  lemma ModeAside(s: State, yieldOnReturn: bool, status: MachineStatus)
    ensures Inv(s.(yieldOnReturn := yieldOnReturn, status := status)) <==> Inv(s)
  {
  }

  lemma TickKeeps(s: State, h: Handlers)
    requires Inv(s) && s.status != IdleMode
    ensures Inv(AfterTick(s, h)) && AllFuture(AfterTick(s, h)) && AfterTick(s, h).status == s.status
  {
    TickedKeeps(s);
    DrainKeeps(Ticked(s), h);
    ModeAside(Drain(Ticked(s), h), false, s.status);
    hide Inv, Ticked, Drain;
  }

  lemma TickPunctual(s: State, h: Handlers)
    requires Inv(s) && Punctual(s) && s.status != IdleMode
    ensures Punctual(AfterTick(s, h))
  {
    TickKeeps(s, h);
    DrainPrompt(Ticked(s), h, s.total);
  }

  lemma IdleKeeps(s: State, h: Handlers)
    requires Inv(s)
    ensures Inv(AfterIdle(s, h).0)
  {
    var i := s.(status := IdleMode);
    CheckKeeps(i, true, h);
    if AfterCheck(i, true, h).1 { DrainKeeps(AfterCheck(i, true, h).0, h); }
  }

  /** Advancing to the first pending interrupt overtakes none but timers. */
  lemma AdvancedLater(s: State)
    requires Sorted(s.pending) && Punctual(s) && s.pending != []
    ensures Later(Advanced(s).pending, Advanced(s).total - 1)
  {
  }

  lemma FirePrompt(s: State, h: Handlers)
    requires s.pending != [] && s.pending[0].key <= s.total && Later(s.pending, s.total - 1) && Prompt(s.fired)
    ensures Later(Fire(s, h).pending, s.total - 1) && Prompt(Fire(s, h).fired)
  {
    var rs := h(|s.fired|, s.pending[0].item).requests;
    CallsLater(TakeOff(s), rs, |rs|, s.total - 1);
    hide AfterCalls;
  }

  lemma SettledLater(s: State)
    requires AllFuture(s) || OnlyTimer(s)
    ensures Later(s.pending, s.total)
  {
  }

  lemma DrainPunctual(s: State, h: Handlers)
    requires Inv(s) && Later(s.pending, s.total - 1) && Prompt(s.fired)
    ensures Punctual(Drain(s, h))
  {
    hide Inv, Later, Prompt, Drain, AllFuture, OnlyTimer;
    DrainKeeps(s, h);
    DrainPrompt(s, h, s.total - 1);
    SettledLater(Drain(s, h));
  }

  /** Firing the first interrupt and then whatever else is due. */
  lemma FireAndDrainPunctual(s: State, h: Handlers)
    requires Inv(s) && s.pending != [] && s.pending[0].key <= s.total
    requires Later(s.pending, s.total - 1) && Prompt(s.fired)
    ensures Punctual(Drain(Fire(s, h), h))
  {
    hide Inv, Later, Prompt, Drain, Punctual, Fire;
    FireKeeps(s, h);
    FirePrompt(s, h);
    DrainPunctual(Fire(s, h), h);
  }

  /** When only the timer's interrupt is found, the clock has moved on to it at most. */
  lemma OnlyTimerPunctual(s: State)
    requires Punctual(s) && OnlyTimer(s)
    ensures Punctual(PutBack(Advanced(s)))
  {
    InsertedLater(s.pending[1..], s.pending[0], Advanced(s).total);
  }

  /** What Idle comes to when something is pending. */
  lemma IdleCases(s: State, h: Handlers)
    requires s.pending != []
    ensures var i := s.(status := IdleMode);
      AfterIdle(s, h).0 ==
        if OnlyTimer(i) then PutBack(Advanced(i))
        else Drain(Fire(Advanced(i), h), h).(yieldOnReturn := false, status := SystemMode)
  {
  }

  lemma IdlePunctual(s: State, h: Handlers)
    requires Inv(s) && Punctual(s)
    ensures Punctual(AfterIdle(s, h).0)
  {
    var i := s.(status := IdleMode);
    if i.pending == [] {
    } else if OnlyTimer(i) {
      IdleCases(s, h);
      OnlyTimerPunctual(i);
    } else {
      IdleCases(s, h);
      IdleFiresPunctual(i, h);
      assert Punctual(Drain(Fire(Advanced(i), h), h));
    }
  }

  lemma IdleFiresPunctual(s: State, h: Handlers)
    requires Inv(s) && Punctual(s) && s.pending != []
    ensures Punctual(Drain(Fire(Advanced(s), h), h))
  {
    AdvancedLater(s);
    AdvancedKeeps(s);
    FireAndDrainPunctual(Advanced(s), h);
  }

  /*** Whole runs ***/

  /** What happens to the machine: a tick, a device scheduling, an idle spell, a change between kernel and user code. */
  datatype Event = Tick | Scheduling(request: Request) | Idling | Mode(user: bool)

  ghost function After(s: State, e: Event, h: Handlers): State {
    match e
    case Tick => AfterTick(s, h)
    case Scheduling(r) => AfterSchedule(s, r)
    case Idling => AfterIdle(s, h).0
    case Mode(user) => s.(status := if user then UserMode else SystemMode)
  }

  ghost predicate Init(s: State) {
    && s.status == SystemMode && s.total == s.idle == s.system == s.user == 0
    && s.pending == [] && s.fired == [] && s.asked == []
  }

  /** Every interrupt is fired once, in order, none early, and none but a timer's late; every tick is accounted for. */
  ghost predicate Sound(s: State) {
    Inv(s) && Punctual(s)
  }

  lemma InitSound(s: State)
    requires Init(s)
    ensures Sound(s)
  {
  }

  lemma AfterSound(s: State, e: Event, h: Handlers)
    requires Sound(s) && s.status != IdleMode
    ensures Sound(After(s, e, h)) && (e.Tick? ==> AllFuture(After(s, e, h)))
  {
    hide Later, Prompt, Drain;
    match e
    case Tick =>
      TickKeeps(s, h);
      TickPunctual(s, h);
    case Scheduling(r) => ScheduleSound(s, r);
    case Idling => IdleSound(s, h);
    case Mode(user) => StatusSound(s, if user then UserMode else SystemMode);
  }

  lemma StatusSound(s: State, status: MachineStatus)
    requires Sound(s)
    ensures Sound(s.(status := status))
  {
  }

  lemma ScheduleSound(s: State, r: Request)
    requires Sound(s)
    ensures Sound(AfterSchedule(s, r))
  {
    ScheduleKeeps(s, r);
    ScheduleLater(s, r, s.total);
  }

  lemma IdleSound(s: State, h: Handlers)
    requires Sound(s)
    ensures Sound(AfterIdle(s, h).0)
  {
    IdleKeeps(s, h);
    IdlePunctual(s, h);
  }

  /** A run of states, which ends when the idle machine has halted. */
  ghost predicate IsRun(run: seq<State>, events: seq<Event>, h: Handlers) {
    && |run| == |events| + 1 && Init(run[0])
    && forall i | 0 <= i < |events| :: run[i].status != IdleMode && run[i + 1] == After(run[i], events[i], h)
  }

  /**
   In every state of every run, whatever the handlers do: pending interrupts are sorted, none fires
   before its time or out of order, none is lost or fired twice, the ticks add up, and none but a
   timer's is a system tick late.
   */
  lemma {:induction false} InterruptRuns(run: seq<State>, events: seq<Event>, h: Handlers, i: nat)
    requires IsRun(run, events, h) && i < |run|
    ensures Inv(run[i]) && Punctual(run[i])
  {
    if i == 0 {
      InitSound(run[0]);
    } else {
      InterruptRuns(run, events, h, i - 1);
      AfterSound(run[i - 1], events[i - 1], h);
    }
  }

  /*** What becomes of a request ***/

  /** The calls of Schedule that an effect makes at a tick. */
  function AskedAt(rs: seq<Request>, at: int): seq<Asked> {
    seq(|rs|, m requires 0 <= m < |rs| => Asked(rs[m].what, at, rs[m].fromNow))
  }

  lemma {:induction false} CallsAsk(s: State, rs: seq<Request>, n: nat)
    requires n <= |rs|
    ensures AfterCalls(s, rs, n).asked == s.asked + AskedAt(rs, s.total)[..n]
    ensures AfterCalls(s, rs, n).total == s.total && AfterCalls(s, rs, n).fired == s.fired
  {
    if n > 0 { CallsAsk(s, rs, n - 1); }
  }

  /** Firing calls the handler with the number of the firing, and its requests are made at that tick. */
  lemma FireAsks(s: State, h: Handlers)
    requires s.pending != []
    ensures var f := Fire(s, h);
      && f.asked == s.asked + AskedAt(h(|s.fired|, s.pending[0].item).requests, s.total)
      && f.fired == s.fired + [Firing(s.pending[0], s.total)] && f.total == s.total
  {
    var rs := h(|s.fired|, s.pending[0].item).requests;
    CallsAsk(TakeOff(s), rs, |rs|);
  }

  /** Every handler's requests have been made, each at the tick of the firing. */
  ghost predicate HandlersAsked(s: State, h: Handlers) {
    forall n, m | 0 <= n < |s.fired| && 0 <= m < |h(n, s.fired[n].due.item).requests| ::
      AskedAt(h(n, s.fired[n].due.item).requests, s.fired[n].at)[m] in s.asked
  }

  /** What was asked for and what was fired stays on record, and the handlers' requests come on it. */
  ghost predicate Grows(s: State, t: State, h: Handlers) {
    s.asked <= t.asked && s.fired <= t.fired && (HandlersAsked(s, h) ==> HandlersAsked(t, h))
  }

  lemma FireGrows(s: State, h: Handlers)
    requires s.pending != []
    ensures Grows(s, Fire(s, h), h)
  {
    FireAsks(s, h);
    hide Fire;
  }

  lemma CheckGrows(s: State, advanceClock: bool, h: Handlers)
    ensures Grows(s, AfterCheck(s, advanceClock, h).0, h)
  {
    if s.pending != [] {
      var t := if advanceClock then Advanced(s) else s;
      FireGrows(t, h);
    }
  }

  lemma {:induction false} DrainGrows(s: State, h: Handlers)
    ensures Grows(s, Drain(s, h), h)
    decreases DueCount(s.pending, s.total)
  {
    CheckGrows(s, false, h);
    if AfterCheck(s, false, h).1 {
      FireLeavesFewer(s, h);
      DrainGrows(AfterCheck(s, false, h).0, h);
    }
  }

  lemma AfterGrows(s: State, e: Event, h: Handlers)
    ensures Grows(s, After(s, e, h), h)
    ensures e.Scheduling? ==>
      After(s, e, h).asked == s.asked + [Asked(e.request.what, s.total, e.request.fromNow)]
  {
    match e
    case Tick => DrainGrows(Ticked(s), h);
    case Scheduling(r) =>
    case Idling =>
      var (t, found) := AfterCheck(s.(status := IdleMode), true, h);
      CheckGrows(s.(status := IdleMode), true, h);
      if found { DrainGrows(t, h); }
    case Mode(_) =>
  }

  lemma StepGrows(run: seq<State>, events: seq<Event>, h: Handlers, i: nat)
    requires IsRun(run, events, h) && i + 1 < |run|
    ensures Grows(run[i], run[i + 1], h)
  {
    AfterGrows(run[i], events[i], h);
    hide After, Grows;
  }

  lemma {:induction false} AskedGrows(run: seq<State>, events: seq<Event>, h: Handlers, i: nat, j: nat)
    requires IsRun(run, events, h) && i <= j < |run|
    ensures run[i].asked <= run[j].asked
  {
    hide IsRun, HandlersAsked;
    if i < j {
      AskedGrows(run, events, h, i, j - 1);
      StepGrows(run, events, h, j - 1);
    }
  }

  lemma {:induction false} AllHandlersAsked(run: seq<State>, events: seq<Event>, h: Handlers, j: nat)
    requires IsRun(run, events, h) && j < |run|
    ensures HandlersAsked(run[j], h)
  {
    if j > 0 {
      hide IsRun, HandlersAsked;
      AllHandlersAsked(run, events, h, j - 1);
      StepGrows(run, events, h, j - 1);
    }
  }

  lemma {:induction false} DueAsked(asked: seq<Asked>, q: Asked)
    requires q in asked
    ensures Entry(q.what, q.at + q.fromNow) in Dues(asked)
  {
    if q != asked[|asked| - 1] { DueAsked(asked[..|asked| - 1], q); }
  }

  lemma {:induction false} FiredAt(f: seq<Firing>, e: Due) returns (k: nat)
    requires e in FiredEntries(f)
    ensures k < |f| && f[k].due == e
  {
    if f[|f| - 1].due == e { k := |f| - 1; } else { k := FiredAt(f[..|f| - 1], e); }
  }

  /** Pending at its time, or fired: no earlier, and unless it is a timer's, less than a system tick later. */
  ghost predicate Served(s: State, q: Asked) {
    || Entry(q.what, q.at + q.fromNow) in s.pending
    || exists k | 0 <= k < |s.fired| ::
         && s.fired[k].due.item == q.what && q.at + q.fromNow <= s.fired[k].at
         && (q.what.kind == TimerInt || s.fired[k].at < q.at + q.fromNow + SYSTEM_TICK)
  }

  lemma AskedServed(s: State, q: Asked)
    requires Sound(s) && q in s.asked
    ensures Served(s, q)
  {
    var e := Entry(q.what, q.at + q.fromNow);
    DueAsked(s.asked, q);
    assert e in FiredEntries(s.fired) + multiset(s.pending);
    if e !in s.pending {
      var k := FiredAt(s.fired, e);
      assert s.fired[k].due == e;
    }
  }

  /** What is requested at some tick, fromNow later, is served: in every later state of the run. */
  lemma RequestServed(run: seq<State>, events: seq<Event>, h: Handlers, i: nat, j: nat)
    requires IsRun(run, events, h) && i < j < |run| && events[i].Scheduling?
    ensures Served(run[j], Asked(events[i].request.what, run[i].total, events[i].request.fromNow))
  {
    var q := Asked(events[i].request.what, run[i].total, events[i].request.fromNow);
    AfterGrows(run[i], events[i], h);
    assert run[i + 1].asked[|run[i].asked|] == q;
    AskedGrows(run, events, h, i + 1, j);
    InterruptRuns(run, events, h, j);
    hide Served, Inv, Punctual;
    AskedServed(run[j], q);
  }

  /** And so is what a handler requests at the tick at which it is called. */
  lemma HandlerServed(run: seq<State>, events: seq<Event>, h: Handlers, j: nat, n: nat, m: nat)
    requires IsRun(run, events, h) && j < |run| && n < |run[j].fired|
    requires m < |h(n, run[j].fired[n].due.item).requests|
    ensures var r := h(n, run[j].fired[n].due.item).requests[m];
      Served(run[j], Asked(r.what, run[j].fired[n].at, r.fromNow))
  {
    AllHandlersAsked(run, events, h, j);
    InterruptRuns(run, events, h, j);
    var q := AskedAt(h(n, run[j].fired[n].due.item).requests, run[j].fired[n].at)[m];
    hide Served, Inv, Punctual;
    AskedServed(run[j], q);
  }

  /** Nothing else is ever fired: each firing serves a request of its own. */
  lemma FiredAsked(run: seq<State>, events: seq<Event>, h: Handlers, j: nat)
    requires IsRun(run, events, h) && j < |run|
    ensures FiredEntries(run[j].fired) + multiset(run[j].pending) == Dues(run[j].asked)
  {
    InterruptRuns(run, events, h, j);
  }

  /** Idle halts when nothing but perhaps the timer is pending; else the clock goes on to the first, which is fired. */
  lemma IdleMeans(s: State, h: Handlers)
    ensures var (t, halted) := AfterIdle(s, h);
      && (halted <==> s.pending == [] || (|s.pending| == 1 && s.pending[0].item.kind == TimerInt))
      && (!halted ==>
            && t.total == (if s.pending[0].key > s.total then s.pending[0].key else s.total)
            && t.idle == s.idle + (t.total - s.total) && t.system == s.system && t.user == s.user
            && |t.fired| > |s.fired| && t.fired[|s.fired|] == Firing(s.pending[0], t.total)
            && t.status == SystemMode && !t.yieldOnReturn)
  {
    if s.pending != [] {
      var i := s.(status := IdleMode);
      FireClock(Advanced(i), h);
      DrainClock(Fire(Advanced(i), h), h);
      hide Fire, Drain, YieldAsked;
    }
  }

  /** One of the handlers called in between asks for a yield. */
  ghost predicate YieldAsked(f: seq<Firing>, f': seq<Firing>, h: Handlers) {
    exists n | |f| <= n < |f'| :: h(n, f'[n].due.item).askYield
  }

  /** The loop of firings leaves the clock and the statistics alone, and a yield is asked for by a handler it called. */
  lemma {:induction false} DrainClock(s: State, h: Handlers)
    ensures var t := Drain(s, h);
      && t.total == s.total && t.idle == s.idle && t.system == s.system && t.user == s.user && t.status == s.status
      && s.fired <= t.fired
      && (t.yieldOnReturn <==> s.yieldOnReturn || YieldAsked(s.fired, t.fired, h))
    decreases DueCount(s.pending, s.total)
  {
    var (t, again) := AfterCheck(s, false, h);
    if again {
      FireLeavesFewer(s, h);
      FireClock(s, h);
      DrainClock(t, h);
      assert Drain(s, h) == Drain(t, h);
      assert t.fired[|s.fired|].due == s.pending[0];
    }
  }

  lemma FireClock(s: State, h: Handlers)
    requires s.pending != []
    ensures var f := Fire(s, h);
      && f.total == s.total && f.idle == s.idle && f.system == s.system && f.user == s.user && f.status == s.status
      && f.fired == s.fired + [Firing(s.pending[0], s.total)]
      && (f.yieldOnReturn <==> s.yieldOnReturn || h(|s.fired|, s.pending[0].item).askYield)
  {
    var rs := h(|s.fired|, s.pending[0].item).requests;
    CallsClock(TakeOff(s), rs, |rs|);
  }

  lemma {:induction false} CallsClock(s: State, rs: seq<Request>, n: nat)
    requires n <= |rs|
    ensures var t := AfterCalls(s, rs, n);
      && t.total == s.total && t.idle == s.idle && t.system == s.system && t.user == s.user
      && t.fired == s.fired && t.yieldOnReturn == s.yieldOnReturn
  {
    if n > 0 { CallsClock(s, rs, n - 1); }
  }

  ghost function WithFirst(s: State, e: Due): State {
    s.(pending := [e] + s.pending)
  }

  datatype Statistics = Statistics(totalTicks: nat, idleTicks: nat, systemTicks: nat, userTicks: nat)

  class Interrupt {
    const handlers: Handlers
    const pending: List<PendingInterrupt>
    var level: IntStatus
    var inHandler: bool
    var yieldOnReturn: bool
    var status: MachineStatus
    var stats: Statistics
    /** The log of firings, whose length stands for all that a handler's doings may depend on. */
    var fired: seq<Firing>
    ghost var asked: seq<Asked>

    ghost predicate Linked()
      reads this, pending, pending.repr
    {
      pending.Valid() && this !in pending.repr
    }

    ghost predicate Valid()
      reads this, pending, pending.repr
    {
      Linked() && Sound(Abstract())
    }

    ghost function Abstract(): State
      reads this, pending
    {
      State(status, yieldOnReturn, stats.totalTicks, stats.idleTicks, stats.systemTicks, stats.userTicks,
            pending.contents, fired, asked)
    }

    constructor (handlers: Handlers)
      ensures Valid() && fresh(pending.repr) && this.handlers == handlers
      ensures Init(Abstract()) && level == IntOff && !inHandler && !yieldOnReturn
    {
      this.handlers := handlers;
      pending := new List<PendingInterrupt>();
      level, inHandler, yieldOnReturn, status := IntOff, false, false, SystemMode;
      stats := Statistics(0, 0, 0, 0);
      fired, asked := [], [];
      new;
      hide Sound;
      InitSound(Abstract());
    }

    method Schedule(what: PendingInterrupt, fromNow: int)
      requires Linked() && fromNow > 0
      modifies this, pending.repr
      ensures Linked() && fresh(pending.repr - old(pending.repr))
      ensures Abstract() == AfterSchedule(old(Abstract()), Call(what, fromNow))
      ensures old(Valid()) ==> Valid()
      ensures multiset(pending.contents) ==
        multiset(old(pending.contents)) + multiset{Entry(what, old(stats.totalTicks) + fromNow)}
      ensures asked == old(asked) + [Asked(what, old(stats.totalTicks), fromNow)] && stats == old(stats)
      ensures level == old(level) && inHandler == old(inHandler)
    {
      hide Sound;
      ghost var s := Abstract();
      if Sound(s) { ScheduleSound(s, Call(what, fromNow)); }
      var when := stats.totalTicks + fromNow;
      pending.SortedInsert(what, when);
      asked := asked + [Asked(what, stats.totalTicks, fromNow)];
      InsertedMultiset(s.pending, Entry(what, when));
    }

    /** The first n calls of a handler, in order. */
    method CallSome(requests: seq<Request>, n: nat)
      requires Linked() && n <= |requests|
      modifies this, pending.repr
      ensures Linked() && fresh(pending.repr - old(pending.repr))
      ensures Abstract() == AfterCalls(old(Abstract()), requests, n)
      ensures level == old(level) && inHandler == old(inHandler)
    {
      hide Sound, AfterSchedule;
      if n > 0 {
        CallSome(requests, n - 1);
        Schedule(requests[n - 1].what, requests[n - 1].fromNow);
      }
    }

    /** What the handler of a fired interrupt does. */
    method CallHandler(effect: Effect)
      requires Linked() && inHandler && level == IntOff
      modifies this, pending.repr
      ensures Linked() && fresh(pending.repr - old(pending.repr))
      ensures Abstract() == AfterHandler(old(Abstract()), effect)
      ensures level == IntOff && inHandler
    {
      CallSome(effect.requests, |effect.requests|);
      if effect.askYield { YieldOnReturn(); }
    }

    method YieldOnReturn()
      requires inHandler
      modifies `yieldOnReturn
      ensures yieldOnReturn
    {
      yieldOnReturn := true;
    }

    method EnterKernel(e: Due)
      requires Linked()
      modifies `fired, `inHandler, `status
      ensures Abstract() == TakeOff(WithFirst(old(Abstract()), e)) && inHandler
    {
      fired := fired + [Firing(e, stats.totalTicks)];
      inHandler := true;
      status := SystemMode;
    }

    /** Runs the handler of an interrupt just taken off the list. */
    method Invoke(toOccur: PendingInterrupt, when: int)
      requires Linked() && level == IntOff && !inHandler
      modifies this, pending.repr
      ensures Linked() && fresh(pending.repr - old(pending.repr))
      ensures Abstract() == Fire(WithFirst(old(Abstract()), Entry(toOccur, when)), handlers)
      ensures level == IntOff && !inHandler
    {
      var was, n := status, |fired|;
      EnterKernel(Entry(toOccur, when));
      CallHandler(handlers(n, toOccur));
      status := was;
      inHandler := false;
    }

    /** Puts back an interrupt just taken off the list. */
    method PutOff(toOccur: PendingInterrupt, when: int)
      requires Linked()
      modifies pending.repr
      ensures Linked() && fresh(pending.repr - old(pending.repr))
      ensures Abstract() == old(Abstract()).(pending := Inserted(old(pending.contents), Entry(toOccur, when)))
    {
      pending.SortedInsert(toOccur, when);
    }

    /** Fires an interrupt that is due, unless it is the timer's and the idle machine has no other. */
    method FireUnlessLast(toOccur: PendingInterrupt, when: int) returns (found: bool)
      requires Linked() && level == IntOff && !inHandler
      modifies this, pending.repr
      ensures Linked() && fresh(pending.repr - old(pending.repr))
      ensures var s := WithFirst(old(Abstract()), Entry(toOccur, when));
        && found == !OnlyTimer(s)
        && Abstract() == if found then Fire(s, handlers) else PutBack(s)
      ensures level == IntOff && !inHandler
    {
      if status == IdleMode && toOccur.kind == TimerInt && pending.IsEmpty() {
        PutOff(toOccur, when);
        return false;
      }
      Invoke(toOccur, when);
      found := true;
    }

    /** Fires an interrupt just taken off the list, or puts it back. */
    method Consider(toOccur: PendingInterrupt, when: int, advanceClock: bool) returns (found: bool)
      requires Linked() && level == IntOff && !inHandler
      modifies this, pending.repr
      ensures Linked() && fresh(pending.repr - old(pending.repr))
      ensures (Abstract(), found) ==
        AfterCheck(WithFirst(old(Abstract()), Entry(toOccur, when)), advanceClock, handlers)
      ensures level == IntOff && !inHandler
    {
      hide Fire, Inserted;
      if advanceClock && when > stats.totalTicks {
        stats := stats.(idleTicks := stats.idleTicks + (when - stats.totalTicks), totalTicks := when);
      } else if when > stats.totalTicks {
        PutOff(toOccur, when);
        return false;
      }
      found := FireUnlessLast(toOccur, when);
    }

    method CheckIfDue(advanceClock: bool) returns (found: bool)
      requires Linked() && level == IntOff && !inHandler
      modifies this, pending.repr
      ensures Linked() && fresh(pending.repr - old(pending.repr))
      ensures (Abstract(), found) == AfterCheck(old(Abstract()), advanceClock, handlers)
      ensures level == IntOff && !inHandler
    {
      ghost var s := Abstract();
      var first := pending.SortedRemove();
      if first == None { return false; }
      assert s == WithFirst(Abstract(), first.value);
      found := Consider(first.value.item, first.value.key, advanceClock);
    }

    /** The loop that fires whatever is due. */
    method FireDue()
      requires Linked() && level == IntOff && !inHandler
      modifies this, pending.repr
      ensures Linked() && fresh(pending.repr - old(pending.repr))
      ensures Abstract() == Drain(old(Abstract()), handlers)
      ensures level == IntOff && !inHandler
    {
      ghost var start := Abstract();
      var more := CheckIfDue(false);
      while more
        invariant Linked() && fresh(pending.repr - old(pending.repr))
        invariant level == IntOff && !inHandler
        invariant Drain(start, handlers) == if more then Drain(Abstract(), handlers) else Abstract()
        decreases more, DueCount(Abstract().pending, stats.totalTicks)
      {
        ghost var before := Abstract();
        more := CheckIfDue(false);
        if more { FireLeavesFewer(before, handlers); }
      }
    }

    method FireMasked()
      requires Linked() && !inHandler
      modifies this, pending.repr
      ensures Linked() && fresh(pending.repr - old(pending.repr))
      ensures Abstract() == Drain(old(Abstract()), handlers)
      ensures level == IntOn && !inHandler
    {
      level := IntOff;
      FireDue();
      level := IntOn;
    }

    method AdvanceClock()
      requires Linked()
      modifies `stats
      ensures Abstract() == Ticked(old(Abstract()))
    {
      if status == SystemMode {
        stats := stats.(totalTicks := stats.totalTicks + SYSTEM_TICK, systemTicks := stats.systemTicks + SYSTEM_TICK);
      } else {
        stats := stats.(totalTicks := stats.totalTicks + USER_TICK, userTicks := stats.userTicks + USER_TICK);
      }
    }

    /** Advances the clock and fires what is due; says whether the interrupted thread is then to yield. */
    method OneTick() returns (preempted: bool)
      requires Valid() && !inHandler
      modifies this, pending.repr
      ensures Linked() && fresh(pending.repr - old(pending.repr))
      ensures old(status) != IdleMode ==> Valid() && AllFuture(Abstract())
      ensures Abstract() == AfterTick(old(Abstract()), handlers)
      ensures preempted == Drain(Ticked(old(Abstract())), handlers).yieldOnReturn
      ensures level == IntOn && !inHandler && status == old(status) && !yieldOnReturn
      ensures old(status) == SystemMode ==>
        stats == old(stats).(totalTicks := old(stats.totalTicks) + 10, systemTicks := old(stats.systemTicks) + 10)
      ensures old(status) != SystemMode ==>
        stats == old(stats).(totalTicks := old(stats.totalTicks) + 1, userTicks := old(stats.userTicks) + 1)
      ensures preempted <==> old(yieldOnReturn) || YieldAsked(old(fired), fired, handlers)
    {
      DrainClock(Ticked(Abstract()), handlers);
      hide Sound, AllFuture, Drain, YieldAsked;
      if status != IdleMode { AfterSound(Abstract(), Tick, handlers); }
      AdvanceClock();
      FireMasked();
      preempted := yieldOnReturn;
      yieldOnReturn := false;
    }

    /** Interrupts may be enabled only outside handlers; enabling them takes a tick. */
    method SetLevel(now: IntStatus) returns (before: IntStatus, preempted: bool)
      requires Valid() && (now == IntOff || !inHandler)
      modifies this, pending.repr
      ensures Linked() && fresh(pending.repr - old(pending.repr))
      ensures old(status) != IdleMode ==> Valid()
      ensures before == old(level) && level == now && inHandler == old(inHandler)
      ensures Abstract() ==
        if now == IntOn && old(level) == IntOff then AfterTick(old(Abstract()), handlers) else old(Abstract())
      ensures preempted <==>
        now == IntOn && old(level) == IntOff && Drain(Ticked(old(Abstract())), handlers).yieldOnReturn
    {
      hide Sound, AllFuture, AfterTick, Drain;
      before, preempted := level, false;
      level := now;
      if now == IntOn && before == IntOff { preempted := OneTick(); }
    }

    method SetStatus(now: MachineStatus)
      requires Valid()
      modifies `status
      ensures Valid() && Abstract() == old(Abstract()).(status := now)
    {
      hide Sound;
      StatusSound(Abstract(), now);
      status := now;
    }

    /** The body of Idle, whose pending list may be unsound in between. */
    method IdleUntilDue() returns (halted: bool)
      requires Linked() && level == IntOff && !inHandler
      modifies this, pending.repr
      ensures Linked() && fresh(pending.repr - old(pending.repr))
      ensures (Abstract(), halted) == AfterIdle(old(Abstract()), handlers)
      ensures level == IntOff && !inHandler
    {
      hide AfterCheck, Drain;
      status := IdleMode;
      var found := CheckIfDue(true);
      if !found { return true; }
      FireDue();
      yieldOnReturn := false;
      status := SystemMode;
      halted := false;
    }

    /** Nothing is runnable: waits for an interrupt, or halts if none is to come. */
    method Idle() returns (halted: bool)
      requires Valid() && level == IntOff && !inHandler
      modifies this, pending.repr
      ensures Valid() && fresh(pending.repr - old(pending.repr))
      ensures (Abstract(), halted) == AfterIdle(old(Abstract()), handlers)
      ensures level == IntOff && !inHandler
      ensures halted <==> old(pending.contents) == []
                          || (|old(pending.contents)| == 1 && old(pending.contents)[0].item.kind == TimerInt)
      ensures !halted ==>
        var now, due := old(stats.totalTicks), old(pending.contents)[0].key;
        && stats.totalTicks == (if due > now then due else now)
        && stats.idleTicks == old(stats.idleTicks) + (stats.totalTicks - now)
        && stats.systemTicks == old(stats.systemTicks) && stats.userTicks == old(stats.userTicks)
        && |fired| > |old(fired)| && fired[|old(fired)|] == Firing(old(pending.contents)[0], stats.totalTicks)
        && status == SystemMode && !yieldOnReturn
    {
      hide Sound, AfterCheck, Drain, AfterIdle;
      IdleSound(Abstract(), handlers);
      IdleMeans(Abstract(), handlers);
      halted := IdleUntilDue();
    }
  }
}
