/**
 The post office on every machine of a network that may lose packets but keeps their order. On each
 machine any number of threads send, one at a time, and a postal worker takes what arrives from the
 one-packet buffer of the device, which the polling interrupt fills, to the mailboxes.

 Interrupts are taken only in Interrupt::OneTick, when interrupts are re-enabled or a user instruction
 has been executed. Network::Receive does neither, so although it runs with interrupts on, no poll can
 come between its clearing of the header's length and its copying of the packet: it is one step.
 */
module PostOffices {
  import opened Counting
  import opened Lists
  import opened MailFormat
  import opened Semaphores
  import opened Subsequences
  import LockedDevices

  datatype Worker =
    | Waiting(phase: Phase)  // in the P for a message
    | Receiving              // has the unit, about to take the packet from the device
    | Putting(mail: Mail)    // about to put it into its mailbox

  /** The inbox is None when the device's header has length 0. All Puts so far, in order, are for the proof. */
  datatype Machine = Machine(
    sending: LockedDevices.State<Mail>, socket: seq<Wire>, inbox: Option<Packet>,
    available: Sema, worker: Worker, put: seq<Mail>)

  /** All that was handed to the network so far, lost or not, is for the proof. */
  datatype State = State(machines: seq<Machine>, sent: seq<Mail>)

  /** Mail that passes the checks of Send on machine i of n, for some machine of the network. */
  function Legal(i: nat, n: nat, boxes: nat): Mail -> bool {
    (m: Mail) => Fits(m) && m.pktHdr.from == i && 0 <= m.pktHdr.to < n && 0 <= m.mailHdr.to < boxes
  }

  ghost predicate Init(s: State) {
    s.sent == [] && forall i | 0 <= i < |s.machines| ::
      var m := s.machines[i];
      && LockedDevices.Init(m.sending) && m.socket == [] && m.inbox == None
      && m.available == Sema(0, []) && m.worker == Waiting(Away) && m.put == []
  }

  /** What becomes of a packet: random loss, or its way, padded, to the socket of its destination. */
  datatype Fate = Lost | Carried(wire: Wire)

  function Deposited(machines: seq<Machine>, to: nat, w: Wire): seq<Machine>
    requires to < |machines|
  {
    machines[to := machines[to].(socket := machines[to].socket + [w])]
  }

  predicate Sends(m: Machine, t: Tid) {
    t < |m.sending.places| && m.sending.places[t].Requesting?
  }

  /** A step of thread t on machine i in Send. */
  ghost predicate SenderStep(s: State, i: nat, t: Tid, fate: Fate, s': State, boxes: nat) {
    && i < |s.machines| == |s'.machines|
    && var m, n, next := s.machines[i], |s.machines|, s'.machines[i].sending;
       var machines := s.machines[i := m.(sending := next)];
       && LockedDevices.ThreadStep(m.sending, t, next, Legal(i, n, boxes))
       && if !Sends(m, t) then s' == s.(machines := machines)
          else
            var r := m.sending.places[t].request;
            && s'.sent == s.sent + [r]
            && match fate
               case Lost => s'.machines == machines
               case Carried(w) =>
                 OnWire(w, r) && 0 <= r.pktHdr.to < n && s'.machines == Deposited(machines, r.pktHdr.to, w)
  }

  /** SendDone, the interrupt that allows the next message to be sent. */
  ghost predicate SentStep(s: State, i: nat, s': State) {
    && i < |s.machines| == |s'.machines|
    && LockedDevices.Interrupt(s.machines[i].sending, s'.machines[i].sending)
    && s' == s.(machines := s.machines[i := s.machines[i].(sending := s'.machines[i].sending)])
  }

  /** CheckPktAvail, the polling interrupt: fills the buffer if it is empty and a packet is there. */
  function Polled(m: Machine): Machine {
    if m.inbox.Some? || m.socket == [] then m
    else
      m.(inbox := Some(Received(m.socket[0])), socket := m.socket[1..], available := AfterV(m.available),
         worker := if m.available.queue == [] then m.worker else Waiting(Woken))
  }

  /** What Receive returns when it finds the buffer empty. */
  const NOTHING: Packet := Packet(Header(0, 0, 0), [])

  /** A step of the postal worker. */
  function Worked(m: Machine): Machine {
    match m.worker
    case Waiting(_) =>
      var (available, got) := TryP(m.available, 0);
      m.(available := available, worker := if got then Receiving else Waiting(Asleep))
    case Receiving =>
      m.(inbox := None, worker := Putting(Unpacked(if m.inbox.Some? then m.inbox.value else NOTHING)))
    case Putting(mail) => m.(put := m.put + [mail], worker := Waiting(Away))
  }

  ghost predicate PollStep(s: State, i: nat, s': State) {
    i < |s.machines| && s' == s.(machines := s.machines[i := Polled(s.machines[i])])
  }

  ghost predicate WorkerStep(s: State, i: nat, s': State) {
    && i < |s.machines| && s.machines[i].worker != Waiting(Asleep)
    && s' == s.(machines := s.machines[i := Worked(s.machines[i])])
  }

  ghost predicate Next(s: State, s': State, boxes: nat) {
    || (exists i, t, fate :: SenderStep(s, i, t, fate, s', boxes))
    || (exists i :: SentStep(s, i, s'))
    || (exists i :: PollStep(s, i, s'))
    || (exists i :: WorkerStep(s, i, s'))
  }

  /*** What every machine keeps ***/

  /** The mail on its way through a machine, first come first: put, held by the worker, buffered, in the socket. */
  ghost function Pipeline(m: Machine): seq<Mail> {
    m.put
    + (if m.worker.Putting? then [m.worker.mail] else [])
    + (if m.inbox.Some? then [Unpacked(m.inbox.value)] else [])
    + Opened(m.socket)
  }

  ghost function Opened(ws: seq<Wire>): seq<Mail> {
    seq(|ws|, k requires 0 <= k < |ws| => Unpacked(Received(ws[k])))
  }

  function WorkerPhase(w: Worker): Phase {
    if w.Waiting? then w.phase else Away
  }

  /** The unit of the semaphore, or the worker about to use it, stands for the packet in the buffer. */
  ghost predicate Handshake(m: Machine) {
    && SemaInv(m.available, [WorkerPhase(m.worker)])
    && m.available.value + (if m.worker.Receiving? then 1 else 0) == if m.inbox.Some? then 1 else 0
  }

  function AddressedTo(i: nat): Mail -> bool {
    (m: Mail) => m.pktHdr.to == i
  }

  ghost predicate MachineInv(s: State, i: nat, boxes: nat)
    requires i < |s.machines|
  {
    && LockedDevices.Inv(s.machines[i].sending, Legal(i, |s.machines|, boxes))
    && Handshake(s.machines[i])
    && Subsequence(Pipeline(s.machines[i]), Filter(s.sent, AddressedTo(i)))
  }

  ghost predicate SentLegally(s: State, boxes: nat) {
    forall r | r in s.sent :: 0 <= r.pktHdr.from < |s.machines| && Legal(r.pktHdr.from, |s.machines|, boxes)(r)
  }

  ghost predicate Inv(s: State, boxes: nat) {
    SentLegally(s, boxes) && forall i | 0 <= i < |s.machines| :: MachineInv(s, i, boxes)
  }

  lemma PolledHandshake(m: Machine)
    requires Handshake(m)
    ensures Handshake(Polled(m)) && (m.available.queue != [] ==> m.worker == Waiting(Asleep))
  {
    if m.available.queue != [] { assert [WorkerPhase(m.worker)][m.available.queue[0]] == Asleep; }
    if m.inbox.None? && m.socket != [] {
      var ph := [WorkerPhase(m.worker)];
      VKeeps(m.available, ph);
      assert m.available.queue != [] ==> ph[0 := Woken] == [Woken];
    }
  }

  lemma OpenedFirst(ws: seq<Wire>)
    requires ws != []
    ensures Opened(ws) == [Unpacked(Received(ws[0]))] + Opened(ws[1..])
  {
  }

  lemma Regrouped<T>(a: seq<T>, b: seq<T>, c: seq<T>)
    ensures a + [] + (b + c) == a + b + c
  {
  }

  /** Polling moves a packet within the pipeline, and never over another: the buffer is empty when it is filled. */
  lemma PolledKeeps(m: Machine)
    requires Handshake(m)
    ensures Handshake(Polled(m)) && Pipeline(Polled(m)) == Pipeline(m)
  {
    PolledHandshake(m);
    hide Handshake, SemaInv, Unpacked, Received;
    if m.inbox.None? && m.socket != [] {
      OpenedFirst(m.socket);
      hide Opened;
      var left := m.put + if m.worker.Putting? then [m.worker.mail] else [];
      Regrouped(left, [Unpacked(Received(m.socket[0]))], Opened(m.socket[1..]));
    }
  }

  /** Nor does the worker's step lose or reorder mail; when it receives, the buffer is full. */
  lemma WorkedKeeps(m: Machine)
    requires Handshake(m) && m.worker != Waiting(Asleep)
    ensures Handshake(Worked(m)) && Pipeline(Worked(m)) == Pipeline(m)
    ensures m.worker.Receiving? ==> m.inbox.Some?
  {
    var ph := [WorkerPhase(m.worker)];
    if m.worker.Waiting? {
      TryPKeeps(m.available, ph, 0);
      var (_, got) := TryP(m.available, 0);
      assert ph[0 := if got then Away else Asleep] == [if got then Away else Asleep];
    }
  }

  lemma DepositedLast(m: Machine, w: Wire, r: Mail)
    requires OnWire(w, r)
    ensures Pipeline(m.(socket := m.socket + [w])) == Pipeline(m) + [r]
  {
    WireRoundTrip(w, r);
    assert Opened(m.socket + [w]) == Opened(m.socket) + [r];
  }

  /** A step in Send changes the sending side of its own machine, and otherwise sockets only. */
  lemma SenderFrame(s: State, i: nat, t: Tid, fate: Fate, s': State, boxes: nat, d: nat)
    requires SenderStep(s, i, t, fate, s', boxes) && d < |s.machines|
    ensures s'.machines[d] == s.machines[d].(sending := s'.machines[d].sending, socket := s'.machines[d].socket)
    ensures d != i ==> s'.machines[d].sending == s.machines[d].sending
    ensures s'.machines[d].socket ==
      if Sends(s.machines[i], t) && fate.Carried? && s.machines[i].sending.places[t].request.pktHdr.to == d
      then s.machines[d].socket + [fate.wire] else s.machines[d].socket
    ensures s'.sent ==
      if Sends(s.machines[i], t) then s.sent + [s.machines[i].sending.places[t].request] else s.sent
    ensures Handshake(s'.machines[d]) == Handshake(s.machines[d])
  {
  }

  lemma SenderSide(s: State, i: nat, t: Tid, fate: Fate, s': State, boxes: nat)
    requires SenderStep(s, i, t, fate, s', boxes)
    requires LockedDevices.Inv(s.machines[i].sending, Legal(i, |s.machines|, boxes))
    ensures LockedDevices.Inv(s'.machines[i].sending, Legal(i, |s.machines|, boxes))
    ensures Sends(s.machines[i], t) ==> Legal(i, |s.machines|, boxes)(s.machines[i].sending.places[t].request)
  {
    var legal := Legal(i, |s.machines|, boxes);
    assert LockedDevices.Next(s.machines[i].sending, s'.machines[i].sending, legal);
    LockedDevices.StepKeeps(s.machines[i].sending, s'.machines[i].sending, legal);
    if Sends(s.machines[i], t) {
      LockedDevices.NeverBusy(s.machines[i].sending, t, legal);
    }
  }

  /** A message handed to the network comes last in its destination's pipeline, or is lost. */
  lemma SentInOrder(m: Machine, m': Machine, sent: seq<Mail>, d: nat, r: Mail)
    requires Subsequence(Pipeline(m), Filter(sent, AddressedTo(d)))
    requires Pipeline(m') == Pipeline(m) || (r.pktHdr.to == d && Pipeline(m') == Pipeline(m) + [r])
    ensures Subsequence(Pipeline(m'), Filter(sent + [r], AddressedTo(d)))
  {
    FilterAppend(sent, r, AddressedTo(d));
    SubsequenceAppend(Pipeline(m), Filter(sent, AddressedTo(d)), r);
  }

  lemma SenderOrder(s: State, i: nat, t: Tid, fate: Fate, s': State, boxes: nat, d: nat)
    requires SenderStep(s, i, t, fate, s', boxes) && d < |s.machines|
    requires Subsequence(Pipeline(s.machines[d]), Filter(s.sent, AddressedTo(d)))
    ensures Subsequence(Pipeline(s'.machines[d]), Filter(s'.sent, AddressedTo(d)))
  {
    SenderFrame(s, i, t, fate, s', boxes, d);
    var m, m' := s.machines[d], s'.machines[d];
    if Sends(s.machines[i], t) {
      var r := s.machines[i].sending.places[t].request;
      if fate.Carried? && r.pktHdr.to == d {
        DepositedLast(m, fate.wire, r);
        assert Pipeline(m') == Pipeline(m.(socket := m.socket + [fate.wire]));
      } else {
        assert Pipeline(m') == Pipeline(m);
      }
      SentInOrder(m, m', s.sent, d, r);
    } else {
      assert Pipeline(m') == Pipeline(m);
    }
  }

  lemma SenderKeepsOne(s: State, i: nat, t: Tid, fate: Fate, s': State, boxes: nat, d: nat)
    requires SenderStep(s, i, t, fate, s', boxes) && d < |s.machines| && MachineInv(s, d, boxes)
    requires LockedDevices.Inv(s'.machines[i].sending, Legal(i, |s.machines|, boxes))
    ensures MachineInv(s', d, boxes)
  {
    SenderFrame(s, i, t, fate, s', boxes, d);
    SenderOrder(s, i, t, fate, s', boxes, d);
    hide LockedDevices.Inv, LockedDevices.ThreadStep, Handshake, Pipeline, Subsequence, Filter, Deposited;
  }

  lemma SenderKeeps(s: State, i: nat, t: Tid, fate: Fate, s': State, boxes: nat)
    requires Inv(s, boxes) && SenderStep(s, i, t, fate, s', boxes)
    ensures Inv(s', boxes)
  {
    assert MachineInv(s, i, boxes);
    SenderSide(s, i, t, fate, s', boxes);
    SenderFrame(s, i, t, fate, s', boxes, i);
    forall d | 0 <= d < |s.machines| ensures MachineInv(s', d, boxes) {
      assert MachineInv(s, d, boxes);
      SenderKeepsOne(s, i, t, fate, s', boxes, d);
    }
    hide MachineInv;
  }

  lemma SendingAside(m: Machine, next: LockedDevices.State<Mail>)
    ensures Handshake(m.(sending := next)) == Handshake(m) && Pipeline(m.(sending := next)) == Pipeline(m)
  {
  }

  lemma SentKeeps(s: State, i: nat, s': State, boxes: nat)
    requires Inv(s, boxes) && SentStep(s, i, s')
    ensures Inv(s', boxes)
  {
    assert MachineInv(s, i, boxes);
    LockedDevices.StepKeeps(s.machines[i].sending, s'.machines[i].sending, Legal(i, |s.machines|, boxes));
    SendingAside(s.machines[i], s'.machines[i].sending);
    hide LockedDevices.Inv, Handshake, Pipeline, Subsequence, Filter;
    forall d | 0 <= d < |s.machines| ensures MachineInv(s', d, boxes) {
      assert MachineInv(s, d, boxes);
    }
  }

  lemma LocalKeeps(s: State, i: nat, s': State, boxes: nat)
    requires Inv(s, boxes) && (PollStep(s, i, s') || WorkerStep(s, i, s'))
    ensures Inv(s', boxes)
  {
    assert MachineInv(s, i, boxes);
    PolledKeeps(s.machines[i]);
    if s.machines[i].worker != Waiting(Asleep) { WorkedKeeps(s.machines[i]); }
    hide LockedDevices.Inv, Handshake, Pipeline, Subsequence, Filter;
    forall d | 0 <= d < |s.machines| ensures MachineInv(s', d, boxes) {
      assert MachineInv(s, d, boxes);
    }
  }

  /** A poll that finds the buffer empty and a packet there: the bytes, the socket, the semaphore and the worker. */
  lemma PollTakes(m: Machine)
    requires Handshake(m) && m.inbox.None? && m.socket != []
    ensures var m' := Polled(m);
      && m'.inbox.Some? && m'.socket == m.socket[1..] && m'.put == m.put && m'.sending == m.sending
      && m'.inbox.value.hdr == ParseHeader(m.socket[0][0..12])
      && (m'.inbox.value.hdr.length <= MAX_PACKET_SIZE ==>
            m'.inbox.value.bytes == m.socket[0][12..12 + m'.inbox.value.hdr.length])
      && m.available.value == 0 && m'.available.value == 1
      && m'.worker == if m.worker == Waiting(Asleep) then Waiting(Woken) else m.worker
  {
    PolledHandshake(m);
    if m.worker == Waiting(Asleep) { assert [WorkerPhase(m.worker)][0] == Asleep; }
    assert m.socket[0][0..12] == m.socket[0][..12];
  }

  /** What the worker does in each of its places. */
  lemma WorkerDoes(m: Machine)
    requires Handshake(m) && m.worker != Waiting(Asleep)
    ensures var m' := Worked(m);
      && m'.socket == m.socket && m'.sending == m.sending
      && (m.worker.Waiting? ==> m'.put == m.put && m'.inbox == m.inbox)
      && (m.worker.Waiting? ==> m'.worker == if m.inbox.Some? then Receiving else Waiting(Asleep))
      && (m.worker.Receiving? ==>
            m.inbox.Some? && m'.inbox == None && m'.put == m.put && m'.worker == Putting(Unpacked(m.inbox.value)))
      && (m.worker.Putting? ==> m'.put == m.put + [m.worker.mail] && m'.inbox == m.inbox && m'.worker == Waiting(Away))
  {
    WorkedKeeps(m);
  }

  ghost predicate IsPath(path: seq<Machine>) {
    forall k | 0 <= k < |path| - 1 ::
      path[k + 1] == Polled(path[k]) || (path[k].worker != Waiting(Asleep) && path[k + 1] == Worked(path[k]))
  }

  /** How far what has arrived is from its mailbox. */
  ghost function Distance(m: Machine): nat {
    5 * |m.socket| + (if m.inbox.Some? then 4 else 0)
    - (if m.worker.Receiving? && m.inbox.Some? then 1 else 0) + if m.worker.Putting? then 1 else 0
  }

  lemma AsleepMeansEmpty(m: Machine)
    requires Handshake(m)
    ensures m.worker.Receiving? ==> m.inbox.Some?
    ensures m.worker == Waiting(Asleep) ==> m.inbox.None?
  {
    if m.worker == Waiting(Asleep) {
      assert [WorkerPhase(m.worker)][0] == Asleep;
      CountNone([WorkerPhase(m.worker)], (p: Phase) => p == Woken);
    }
  }

  /**
   Polls and steps of the worker bring all that has arrived to the mailboxes, and in particular the
   worker does not sleep for ever beside a packet.
   */
  lemma {:induction false} Delivered(m: Machine) returns (path: seq<Machine>)
    requires Handshake(m)
    ensures |path| > 0 && path[0] == m && IsPath(path)
    ensures path[|path| - 1].put == Pipeline(m)
    decreases Distance(m)
  {
    AsleepMeansEmpty(m);
    if m.worker.Putting? || m.inbox.Some? {
      WorkerDoes(m);
      WorkedKeeps(m);
      var rest := Delivered(Worked(m));
      path := [m] + rest;
    } else if m.socket != [] {
      PollTakes(m);
      PolledKeeps(m);
      var rest := Delivered(Polled(m));
      path := [m] + rest;
    } else {
      path := [m];
    }
  }

  ghost predicate IsRun(run: seq<State>, boxes: nat) {
    && |run| > 0 && Init(run[0])
    && forall k | 0 <= k < |run| - 1 :: Next(run[k], run[k + 1], boxes)
  }

  lemma {:induction false} RunKeeps(run: seq<State>, boxes: nat, k: nat)
    requires IsRun(run, boxes) && k < |run|
    ensures Inv(run[k], boxes)
  {
    if k == 0 {
      forall i | 0 <= i < |run[0].machines| ensures MachineInv(run[0], i, boxes) {
        LockedDevices.InitHolds(run[0].machines[i].sending, Legal(i, |run[0].machines|, boxes));
        assert Pipeline(run[0].machines[i]) == [];
      }
    } else {
      RunKeeps(run, boxes, k - 1);
      var s, s' := run[k - 1], run[k];
      assert Next(s, s', boxes);
      if i: nat, t: Tid, fate :| SenderStep(s, i, t, fate, s', boxes) {
        SenderKeeps(s, i, t, fate, s', boxes);
      } else if i: nat :| SentStep(s, i, s') {
        SentKeeps(s, i, s', boxes);
      } else {
        var i: nat :| PollStep(s, i, s') || WorkerStep(s, i, s');
        LocalKeeps(s, i, s', boxes);
      }
    }
  }

  /*** What comes of what has arrived ***/

  function WithMachine(s: State, i: nat, m: Machine): State
    requires i < |s.machines|
  {
    s.(machines := s.machines[i := m])
  }

  /** A path of one machine is a continuation of the whole network. */
  lemma PathSteps(s: State, i: nat, path: seq<Machine>, boxes: nat)
    requires i < |s.machines| && |path| > 0 && path[0] == s.machines[i] && IsPath(path)
    ensures WithMachine(s, i, path[0]) == s
    ensures forall k | 0 <= k < |path| - 1 :: Next(WithMachine(s, i, path[k]), WithMachine(s, i, path[k + 1]), boxes)
  {
    assert s.machines[i := path[0]] == s.machines;
    forall k | 0 <= k < |path| - 1
      ensures Next(WithMachine(s, i, path[k]), WithMachine(s, i, path[k + 1]), boxes)
    {
      var a, b := WithMachine(s, i, path[k]), WithMachine(s, i, path[k + 1]);
      assert a.machines[i := path[k + 1]] == b.machines;
      if path[k + 1] == Polled(path[k]) {
        assert PollStep(a, i, b);
      } else {
        assert WorkerStep(a, i, b);
      }
    }
  }

  /**
   From every reachable state polls and worker's steps of one machine lead to a state in which
   everything that had arrived there is in the mailboxes, in order, and nothing else has changed.
   */
  lemma DeliversAll(run: seq<State>, boxes: nat, k: nat, i: nat) returns (cont: seq<State>)
    requires IsRun(run, boxes) && k < |run| && i < |run[k].machines|
    ensures |cont| > 0 && cont[0] == run[k] && forall j | 0 <= j < |cont| - 1 :: Next(cont[j], cont[j + 1], boxes)
    ensures var s := cont[|cont| - 1];
      && s.sent == run[k].sent && |s.machines| == |run[k].machines|
      && s.machines[i].put == Pipeline(run[k].machines[i])
      && forall d | 0 <= d < |s.machines| && d != i :: s.machines[d] == run[k].machines[d]
  {
    RunKeeps(run, boxes, k);
    assert MachineInv(run[k], i, boxes);
    var path := Delivered(run[k].machines[i]);
    PathSteps(run[k], i, path, boxes);
    hide Next, Pipeline, IsPath;
    cont := seq(|path|, j requires 0 <= j < |path| => WithMachine(run[k], i, path[j]));
  }

  /** A message that the network carries arrives last, and so can be brought to its mailbox. */
  lemma CarriedArrives(s: State, i: nat, t: Tid, w: Wire, s': State, boxes: nat) returns (path: seq<Machine>)
    requires Inv(s, boxes) && SenderStep(s, i, t, Carried(w), s', boxes) && Sends(s.machines[i], t)
    ensures var r := s.machines[i].sending.places[t].request;
      && s'.sent == s.sent + [r] && 0 <= r.pktHdr.to < |s.machines| == |s'.machines|
      && |path| > 0 && path[0] == s'.machines[r.pktHdr.to] && IsPath(path)
      && path[|path| - 1].put == Pipeline(s.machines[r.pktHdr.to]) + [r]
  {
    var r := s.machines[i].sending.places[t].request;
    var d := r.pktHdr.to;
    SenderKeeps(s, i, t, Carried(w), s', boxes);
    assert MachineInv(s', d, boxes);
    SenderFrame(s, i, t, Carried(w), s', boxes, d);
    DepositedLast(s.machines[d], w, r);
    assert Pipeline(s'.machines[d]) == Pipeline(s.machines[d].(socket := s.machines[d].socket + [w]));
    hide Pipeline, SenderStep;
    path := Delivered(s'.machines[d]);
  }

  /*** What the post office promises ***/

  function From(sender: nat, box: nat): Mail -> bool {
    (m: Mail) => m.pktHdr.from == sender && m.mailHdr.to == box
  }

  function FromTo(sender: nat, i: nat, box: nat): Mail -> bool {
    (m: Mail) => m.pktHdr.to == i && m.pktHdr.from == sender && m.mailHdr.to == box
  }

  lemma PutFirst(m: Machine, s: seq<Mail>)
    requires Subsequence(Pipeline(m), s)
    ensures Subsequence(m.put, s)
  {
    hide Subsequence, Opened, Unpacked;
    var rest := Pipeline(m)[|m.put|..];
    assert Pipeline(m) == m.put + rest;
    SubsequencePrefix(m.put, rest, s);
  }

  /**
   What a mailbox has got from a sender is a subsequence of what that sender addressed to it: in
   order, without duplicates, and byte for byte the same, though some may be missing.
   */
  lemma MailInOrder(run: seq<State>, boxes: nat, k: nat, i: nat, sender: nat, box: nat)
    requires IsRun(run, boxes) && k < |run| && i < |run[k].machines|
    ensures Subsequence(Filter(run[k].machines[i].put, From(sender, box)), Filter(run[k].sent, FromTo(sender, i, box)))
  {
    RunKeeps(run, boxes, k);
    var s, m := run[k], run[k].machines[i];
    assert MachineInv(s, i, boxes);
    PutFirst(m, Filter(s.sent, AddressedTo(i)));
    FilterKeepsSubsequence(m.put, Filter(s.sent, AddressedTo(i)), From(sender, box));
    FilterTwice(s.sent, AddressedTo(i), From(sender, box), FromTo(sender, i, box));
  }

  /**
   The assertions on arrival hold: a packet in the buffer is addressed to the machine and fits, and
   what the worker is about to put has a mailbox and fits; the worker never finds the buffer empty.
   */
  lemma ArrivalsLegal(run: seq<State>, boxes: nat, k: nat, i: nat)
    requires IsRun(run, boxes) && k < |run| && i < |run[k].machines|
    ensures var m := run[k].machines[i];
      && (m.worker.Receiving? ==> m.inbox.Some?)
      && (m.inbox.Some? ==> m.inbox.value.hdr.to == i && 0 < m.inbox.value.hdr.length <= MAX_PACKET_SIZE)
      && (m.worker.Putting? ==> 0 <= m.worker.mail.mailHdr.to < boxes && m.worker.mail.mailHdr.length <= MAX_MAIL_SIZE)
  {
    RunKeeps(run, boxes, k);
    var s, m := run[k], run[k].machines[i];
    assert MachineInv(s, i, boxes);
    SubsequenceMembers(Pipeline(m), Filter(s.sent, AddressedTo(i)));
    if m.inbox.Some? { assert Unpacked(m.inbox.value) in Pipeline(m); }
    if m.worker.Putting? { assert m.worker.mail in Pipeline(m); }
  }

  /** A packet stays in the buffer until the worker takes it: no other step changes a full buffer. */
  lemma BufferNotOverwritten(run: seq<State>, boxes: nat, k: nat, i: nat)
    requires IsRun(run, boxes) && k + 1 < |run| && i < |run[k].machines| == |run[k + 1].machines|
    requires run[k].machines[i].inbox.Some? && run[k + 1].machines[i].inbox != run[k].machines[i].inbox
    ensures run[k].machines[i].worker.Receiving?
    ensures run[k + 1].machines[i].worker == Putting(Unpacked(run[k].machines[i].inbox.value))
    ensures run[k + 1].machines[i].inbox == None
  {
    assert Next(run[k], run[k + 1], boxes);
  }
}
