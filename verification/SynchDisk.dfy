/**
 SynchDisk: the disk behind a lock, read and written by any number of threads. The device moves the
 bytes when it is given the request, and the caller returns after the interrupt.
 */
module SynchDiskProtocol {
  import opened Semaphores
  import opened Sectors
  import LockedDevices

  datatype Request = Read(sector: nat) | Write(sector: nat, data: Sector)

  /** A request together with the bytes it carried: those read, or those written. */
  datatype Entry = Entry(request: Request, bytes: Sector)

  predicate ValidRequest(r: Request) {
    r.sector < NUM_SECTORS
  }

  /** The protocol's state, the platter, and what the requests so far have carried, in lock order. */
  datatype State = State(protocol: LockedDevices.State<Request>, platter: Image, carried: seq<Entry>)

  function Carried(platter: Image, r: Request): Entry
    requires ValidRequest(r)
  {
    Entry(r, if r.Read? then platter[r.sector] else r.data)
  }

  function Stored(platter: Image, r: Request): Image
    requires ValidRequest(r)
  {
    if r.Read? then platter else platter[r.sector := r.data]
  }

  ghost predicate Init(s: State, platter: Image) {
    LockedDevices.Init(s.protocol) && s.platter == platter && s.carried == []
  }

  /** The thread is about to hand its request to the disk. */
  predicate Requests(s: State, t: Tid) {
    t < |s.protocol.places| && s.protocol.places[t].Requesting?
  }

  ghost predicate ThreadStep(s: State, t: Tid, s': State) {
    && LockedDevices.ThreadStep(s.protocol, t, s'.protocol, ValidRequest)
    && if Requests(s, t) then
         var r := s.protocol.places[t].request;
         ValidRequest(r) && s'.platter == Stored(s.platter, r) && s'.carried == s.carried + [Carried(s.platter, r)]
       else s'.platter == s.platter && s'.carried == s.carried
  }

  ghost predicate Interrupt(s: State, s': State) {
    LockedDevices.Interrupt(s.protocol, s'.protocol) && s'.platter == s.platter && s'.carried == s.carried
  }

  ghost predicate Next(s: State, s': State) {
    Interrupt(s, s') || exists t :: ThreadStep(s, t, s')
  }

  ghost predicate IsRun(run: seq<State>, platter: Image) {
    && |run| > 0 && Init(run[0], platter)
    && forall i | 0 <= i < |run| - 1 :: Next(run[i], run[i + 1])
  }

  /** The last bytes written to a sector by the requests of a log, or those there initially. */
  ghost function LastWritten(platter: Image, log: seq<Entry>, sector: nat): Sector
    requires sector < NUM_SECTORS
  {
    if log == [] then platter[sector]
    else
      var last := log[|log| - 1].request;
      if last.Write? && last.sector == sector then last.data else LastWritten(platter, log[..|log| - 1], sector)
  }

  /** Entry k of the log carries what its request should. */
  ghost predicate Answered(platter: Image, log: seq<Entry>, k: nat)
    requires k < |log|
  {
    && ValidRequest(log[k].request)
    && log[k].bytes ==
       match log[k].request
       case Read(sector) => LastWritten(platter, log[..k], sector)
       case Write(_, data) => data
  }

  /** The disk as an atomic one: reads carry what was last written, and so does the platter. */
  ghost predicate Atomic(s: State, platter: Image) {
    && |s.carried| == |s.protocol.log|
    && (forall k | 0 <= k < |s.carried| :: s.carried[k].request == s.protocol.log[k])
    && (forall n | 0 <= n < NUM_SECTORS :: s.platter[n] == LastWritten(platter, s.carried, n))
    && (forall k | 0 <= k < |s.carried| :: Answered(platter, s.carried, k))
  }

  lemma RequestAtomic(s: State, t: Tid, s': State, platter: Image)
    requires Atomic(s, platter) && ThreadStep(s, t, s') && Requests(s, t)
    ensures Atomic(s', platter)
  {
    assert s'.carried[..|s.carried|] == s.carried;
    forall k | 0 <= k < |s'.carried| ensures Answered(platter, s'.carried, k) {
      if k < |s.carried| {
        assert Answered(platter, s.carried, k);
        assert s'.carried[..k] == s.carried[..k];
      }
    }
  }

  /**
   The asynchronous disk behind the lock is an atomic one: in every run each read carries what was
   last written to its sector in lock order, and the platter holds what was last written everywhere.
   The device is never busy when it is given a request.
   */
  lemma {:induction false} SynchDiskRuns(run: seq<State>, platter: Image, i: nat)
    requires IsRun(run, platter) && i < |run|
    ensures LockedDevices.Inv(run[i].protocol, ValidRequest) && Atomic(run[i], platter)
    ensures forall t | Requests(run[i], t) :: !run[i].protocol.active
  {
    if i == 0 {
      LockedDevices.InitHolds(run[0].protocol, ValidRequest);
    } else {
      SynchDiskRuns(run, platter, i - 1);
      var s, s' := run[i - 1], run[i];
      assert Next(s, s');
      LockedDevices.StepKeeps(s.protocol, s'.protocol, ValidRequest);
      if !Interrupt(s, s') {
        var t: Tid :| ThreadStep(s, t, s');
        if Requests(s, t) { RequestAtomic(s, t, s', platter); }
      }
    }
    forall t | Requests(run[i], t) ensures !run[i].protocol.active {
      LockedDevices.NeverBusy(run[i].protocol, t, ValidRequest);
    }
  }

  /** A call returns only after the interrupt of its own request, with what the log says that one carried. */
  lemma ReturnsAfterInterrupt(run: seq<State>, platter: Image, i: nat, t: Tid)
    requires IsRun(run, platter) && i < |run|
    requires t < |run[i].protocol.places| && run[i].protocol.places[t].Leaving?
    ensures var n := run[i].protocol.places[t].ticket;
      && n < |run[i].carried| && n < run[i].protocol.interrupts && Answered(platter, run[i].carried, n)
      && run[i].carried[n].request == run[i].protocol.places[t].request
  {
    SynchDiskRuns(run, platter, i);
    LockedDevices.OneAtATime(run[i].protocol, t, ValidRequest);
  }

  /** No write to the sector from entry k of the log up to entry j. */
  ghost predicate Unwritten(log: seq<Entry>, sector: nat, k: nat, j: nat)
    requires j <= |log|
  {
    forall m | k <= m < j :: log[m].request.Write? ==> log[m].request.sector != sector
  }

  lemma {:induction false} LastWrittenIs(platter: Image, log: seq<Entry>, sector: nat, k: nat)
    requires sector < NUM_SECTORS && k <= |log| && Unwritten(log, sector, k, |log|)
    ensures LastWritten(platter, log, sector) == LastWritten(platter, log[..k], sector)
  {
    if k == |log| {
      assert log[..k] == log;
    } else {
      LastWrittenIs(platter, log[..|log| - 1], sector, k);
      assert log[..|log| - 1][..k] == log[..k];
    }
  }

  /**
   A read returns the bytes of the latest write to its sector before it in lock order; if there is none,
   those that the disk held at first.
   */
  lemma ReadsWhatWasWritten(run: seq<State>, platter: Image, i: nat, j: nat, k: nat)
    requires IsRun(run, platter) && i < |run| && k <= j < |run[i].carried| && run[i].carried[j].request.Read?
    requires Unwritten(run[i].carried, run[i].carried[j].request.sector, k, j)
    ensures var log := run[i].carried;
      var sector := log[j].request.sector;
      && (k == 0 ==> sector < NUM_SECTORS && log[j].bytes == platter[sector])
      && (k > 0 && log[k - 1].request.Write? && log[k - 1].request.sector == sector
          ==> log[j].bytes == log[k - 1].request.data)
  {
    SynchDiskRuns(run, platter, i);
    var log := run[i].carried;
    assert Answered(platter, log, j);
    LastWrittenIs(platter, log[..j], log[j].request.sector, k);
    assert log[..j][..k] == log[..k];
    if k > 0 { assert log[..k][k - 1] == log[k - 1]; }
  }

  /*** Every call returns ***/

  /** What the protocol can do next, the disk can. */
  lemma Lifted(s: State, next: LockedDevices.State<Request>) returns (s': State)
    requires LockedDevices.Inv(s.protocol, ValidRequest) && LockedDevices.Continues(s.protocol, next, ValidRequest)
    ensures Next(s, s') && s'.protocol == next && LockedDevices.Inv(next, ValidRequest)
  {
    LockedDevices.StepKeeps(s.protocol, next, ValidRequest) by {
      assert LockedDevices.Next(s.protocol, next, ValidRequest);
    }
    s' := State(next, s.platter, s.carried);
    if LockedDevices.Interrupt(s.protocol, next) {
      assert Interrupt(s, s');
    } else {
      var t: Tid :| LockedDevices.ThreadStep(s.protocol, t, next, ValidRequest);
      if Requests(s, t) {
        LockedDevices.NeverBusy(s.protocol, t, ValidRequest);
        var r := s.protocol.places[t].request;
        s' := State(next, Stored(s.platter, r), s.carried + [Carried(s.platter, r)]);
      }
      assert ThreadStep(s, t, s');
    }
  }

  lemma {:induction false} LiftedPath(s: State, path: seq<LockedDevices.State<Request>>) returns (cont: seq<State>)
    requires LockedDevices.Inv(s.protocol, ValidRequest)
    requires LockedDevices.IsPath(path, ValidRequest) && path[0] == s.protocol
    ensures |cont| == |path| && cont[0] == s && cont[|cont| - 1].protocol == path[|path| - 1]
    ensures forall k | 0 <= k < |cont| - 1 :: Next(cont[k], cont[k + 1])
    decreases |path|
  {
    hide LockedDevices.Inv, LockedDevices.Continues, Next;
    cont := [s];
    if |path| > 1 {
      assert LockedDevices.Continues(path[0], path[0 + 1], ValidRequest);
      var s' := Lifted(s, path[1]);
      forall k | 0 <= k < |path| - 2
        ensures LockedDevices.Continues(path[1..][k], path[1..][k + 1], ValidRequest)
      {
        assert LockedDevices.Continues(path[k + 1], path[(k + 1) + 1], ValidRequest);
      }
      var rest := LiftedPath(s', path[1..]);
      cont := cont + rest;
    }
  }

  /**
   From every state of every run, threads and interrupts can go on, with no new call, until all calls
   have returned; every request that was still to be made has been made by then.
   */
  lemma CallsReturn(run: seq<State>, platter: Image, i: nat) returns (cont: seq<State>)
    requires IsRun(run, platter) && i < |run|
    ensures |cont| > 0 && cont[0] == run[i] && forall k | 0 <= k < |cont| - 1 :: Next(cont[k], cont[k + 1])
    ensures var last := cont[|cont| - 1].protocol;
      && LockedDevices.AllMade(run[i].protocol, last) && last.interrupts == |last.log|
      && forall t | 0 <= t < |last.places| :: last.places[t] == LockedDevices.Idle
  {
    SynchDiskRuns(run, platter, i);
    hide LockedDevices.Inv, LockedDevices.AllMade, Next;
    var path := LockedDevices.AllReturn(run[i].protocol, ValidRequest);
    cont := LiftedPath(run[i], path);
  }
}
