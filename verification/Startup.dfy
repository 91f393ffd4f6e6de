/** The start-up handshake of the daemon: master and worker processes around one semaphore, in every interleaving. */
module Startup {

  datatype Signal = Term | Interrupt | HangUp | Other

  datatype Master =
    | SavingPid | InstallingHandlers | StartingProxy | Posting | HandlingFailure
    | AwaitingWorker | StoppingProxy | RemovingPid | CheckingLoop
    | LoopsAgain | LoopEnded | Died

  /** An admitted worker creates its service server, then its responder, and serves once both are settled. */
  datatype Worker =
    | Forked | AwaitingMaster | Admitted | HalfUp | Serving
    | Leaving(status: int) | Exited(code: int) | Killed(signal: Signal)

  /**
   * One round of the main loop after the fork. The fields from `proxyUp` on remember what has happened; the processes
   * do not read them: whether the proxy came up or start-up threw, how often the semaphore was posted, how many
   * servers were started, whether the worker has served with all of them, whether a server could not be created, and
   * whether the worker's loop has returned.
   */
  datatype State = State(
    master: Master, worker: Worker, semaphore: nat, signaledExit: bool,
    proxyUp: bool, startupThrew: bool, posts: nat,
    started: nat, served: bool, creationFailed: bool, loopReturned: bool)

  const AFTER_FORK := State(SavingPid, Forked, 0, false, false, false, 0, 0, false, false, false)

  /** What either process may do next, and what may happen to them. */
  datatype Event =
    | PidSaved | PidFailed | HandlersInstalled | ProxyStarted | ProxyThrew | Post | HandleFailure
    | Reap | WaitInterrupted | StopProxy | RemovePid | CheckLoop
    | MasterSignaled(signal: Signal)
    | WorkerHandlersInstalled | Acquire | WaitTimedOut | WaitThrew
    | ServiceStarted | ServiceUnwanted | ServiceFailed | ResponderStarted | ResponderUnwanted | ResponderFailed
    | LoopReturned | ServingAborted | Exit
    | WorkerKilled

  predicate MasterHandlesSignals(m: Master) {
    !m.SavingPid? && !m.InstallingHandlers? && !m.Died? && !m.LoopsAgain? && !m.LoopEnded?
  }

  predicate Gone(w: Worker) {
    w.Exited? || w.Killed?
  }

  /** kill(worker, SIGTERM): it ends a worker whose handler is not installed yet, and otherwise sets its stop flag. */
  function Stopped(w: Worker): Worker {
    if w.Forked? then Killed(Term) else w
  }

  predicate IsMasterEvent(e: Event) {
    || e.PidSaved? || e.PidFailed? || e.HandlersInstalled? || e.ProxyStarted? || e.ProxyThrew? || e.Post?
    || e.HandleFailure? || e.Reap? || e.WaitInterrupted? || e.StopProxy? || e.RemovePid? || e.CheckLoop?
  }

  predicate IsGateEvent(e: Event) {
    e.WorkerHandlersInstalled? || e.Acquire? || e.WaitTimedOut? || e.WaitThrew?
  }

  predicate IsServingEvent(e: Event) {
    !IsMasterEvent(e) && !IsGateEvent(e) && !e.MasterSignaled?
  }

  predicate MasterEnabled(s: State, e: Event)
    requires IsMasterEvent(e)
  {
    match e
    case PidSaved => s.master.SavingPid?
    case PidFailed => s.master.SavingPid?
    case HandlersInstalled => s.master.InstallingHandlers?
    case ProxyStarted => s.master.StartingProxy?
    case ProxyThrew => s.master.StartingProxy?
    case Post => s.master.Posting?
    case HandleFailure => s.master.HandlingFailure?
    case Reap => s.master.AwaitingWorker? && Gone(s.worker)
    case WaitInterrupted => s.master.AwaitingWorker?
    case StopProxy => s.master.StoppingProxy?
    case RemovePid => s.master.RemovingPid?
    case CheckLoop => s.master.CheckingLoop?
  }

  predicate GateEnabled(s: State, e: Event)
    requires IsGateEvent(e)
  {
    match e
    case WorkerHandlersInstalled => s.worker.Forked?
    case Acquire => s.worker.AwaitingMaster? && s.semaphore > 0
    case WaitTimedOut => s.worker.AwaitingMaster?
    case WaitThrew => s.worker.AwaitingMaster?
  }

  predicate ServingEnabled(s: State, e: Event)
    requires IsServingEvent(e)
  {
    match e
    case ServiceStarted => s.worker.Admitted?
    case ServiceUnwanted => s.worker.Admitted?
    case ServiceFailed => s.worker.Admitted?
    case ResponderStarted => s.worker.HalfUp?
    case ResponderUnwanted => s.worker.HalfUp?
    case ResponderFailed => s.worker.HalfUp?
    case LoopReturned => s.worker.Serving?
    case ServingAborted => s.worker.Serving?
    case Exit => s.worker.Leaving?
    case WorkerKilled => !Gone(s.worker)
  }

  predicate Enabled(s: State, e: Event) {
    if IsMasterEvent(e) then MasterEnabled(s, e)
    else if IsGateEvent(e) then GateEnabled(s, e)
    else if e.MasterSignaled? then MasterHandlesSignals(s.master)
    else ServingEnabled(s, e)
  }

  /** A worker that died of a signal other than SIGTERM and SIGINT disables the reload. */
  predicate Crashed(w: Worker) {
    w.Killed? && w.signal != Term && w.signal != Interrupt
  }

  function MasterStep(s: State, e: Event): (after: State)
    requires IsMasterEvent(e) && MasterEnabled(s, e)
    ensures after.signaledExit <==> s.signaledExit || e.HandleFailure? || (e.Reap? && Crashed(s.worker))
  {
    match e
    case PidSaved => s.(master := InstallingHandlers)
    case PidFailed => s.(master := Died)
    case HandlersInstalled => s.(master := StartingProxy)
    case ProxyStarted => s.(master := Posting, proxyUp := true)
    case ProxyThrew => s.(master := HandlingFailure, startupThrew := true)
    case Post => s.(master := AwaitingWorker, semaphore := s.semaphore + 1, posts := s.posts + 1)
    case HandleFailure => s.(master := AwaitingWorker, signaledExit := true, worker := Stopped(s.worker))
    case Reap => s.(master := StoppingProxy, signaledExit := s.signaledExit || Crashed(s.worker))
    case WaitInterrupted => s.(master := StoppingProxy)
    case StopProxy => s.(master := RemovingPid)
    case RemovePid => s.(master := CheckingLoop)
    case CheckLoop => s.(master := if s.signaledExit then LoopEnded else LoopsAgain)
  }

  function SignalStep(s: State, signal: Signal): State {
    if signal == Term || signal == Interrupt then s.(signaledExit := true, worker := Stopped(s.worker))
    else if signal == HangUp then s.(worker := Stopped(s.worker))
    else s
  }

  /** The worker at the semaphore. */
  function GateStep(s: State, e: Event): (after: State)
    requires IsGateEvent(e) && GateEnabled(s, e)
    ensures after.master == s.master && after.signaledExit == s.signaledExit
  {
    match e
    case WorkerHandlersInstalled => s.(worker := AwaitingMaster)
    case Acquire => s.(worker := Admitted, semaphore := s.semaphore - 1)
    case WaitTimedOut => s.(worker := Leaving(1))
    case WaitThrew => s.(worker := Leaving(1))
  }

  /** The worker behind the semaphore, and its end. */
  function ServingStep(s: State, e: Event): (after: State)
    requires IsServingEvent(e) && ServingEnabled(s, e)
    ensures after.master == s.master && after.signaledExit == s.signaledExit
    ensures after.semaphore == s.semaphore && after.posts == s.posts
    ensures after.started == s.started + if e.ServiceStarted? || e.ResponderStarted? then 1 else 0
    ensures after.served <==> s.served || e.ResponderStarted? || e.ResponderUnwanted?
    ensures after.creationFailed <==> s.creationFailed || e.ServiceFailed? || e.ResponderFailed?
    ensures after.loopReturned <==> s.loopReturned || e.LoopReturned?
  {
    match e
    case ServiceStarted => s.(worker := HalfUp, started := s.started + 1)
    case ServiceUnwanted => s.(worker := HalfUp)
    case ServiceFailed => s.(worker := Exited(0), creationFailed := true)
    case ResponderStarted => s.(worker := Serving, started := s.started + 1, served := true)
    case ResponderUnwanted => s.(worker := Serving, served := true)
    case ResponderFailed => s.(worker := Exited(0), creationFailed := true)
    case LoopReturned => s.(worker := Leaving(0), loopReturned := true)
    case ServingAborted => s.(worker := Killed(Other))
    case Exit => s.(worker := Exited(s.worker.status))
    case WorkerKilled => s.(worker := Killed(Other))
  }

  /** An event that is not enabled changes nothing, so every sequence of events is a run. */
  function Next(s: State, e: Event): State {
    if !Enabled(s, e) then s
    else if IsMasterEvent(e) then MasterStep(s, e)
    else if IsGateEvent(e) then GateStep(s, e)
    else if e.MasterSignaled? then SignalStep(s, e.signal)
    else ServingStep(s, e)
  }

  function Run(s: State, events: seq<Event>): State {
    if |events| == 0 then s else Next(Run(s, events[..|events| - 1]), events[|events| - 1])
  }

  // ---------------------------------------------------------------- the invariant

  predicate BeforePost(m: Master) {
    m.SavingPid? || m.InstallingHandlers? || m.StartingProxy? || m.Posting? || m.HandlingFailure? || m.Died?
  }

  predicate PastSemaphore(w: Worker) {
    w.Admitted? || w.HalfUp? || w.Serving?
  }

  /** The worker is the only one to take the semaphore, so it has been admitted exactly when a post is missing. */
  predicate Taken(s: State) {
    s.semaphore < s.posts
  }

  ghost predicate Invariant(s: State) {
    // the semaphore counts the one post, until the worker has taken it
    && s.posts <= 1 && s.semaphore <= s.posts
    && (PastSemaphore(s.worker) || s.started > 0 || s.served || s.creationFailed || s.loopReturned ==> Taken(s))
    && (s.worker.AwaitingMaster? || s.worker.Forked? ==> s.semaphore == s.posts)
    // the post comes after a normal return of start_dns_proxy, and never after a throw
    && (s.posts == 1 ==> s.proxyUp && !s.startupThrew && !BeforePost(s.master))
    && (s.posts == 0 && !BeforePost(s.master) ==> s.startupThrew)
    && (s.master.Posting? ==> s.proxyUp && !s.startupThrew)
    && (s.master.HandlingFailure? ==> s.startupThrew)
    && (s.master.SavingPid? || s.master.InstallingHandlers? || s.master.StartingProxy? || s.master.Died? ==>
          !s.startupThrew && !s.proxyUp)
    // the flag
    && (s.startupThrew && !s.master.HandlingFailure? ==> s.signaledExit)
    // the worker's status
    && (s.worker.Forked? || s.worker.AwaitingMaster? || s.worker.Admitted? ==> s.started == 0)
    && (s.worker.HalfUp? || s.worker.Admitted? || s.worker.Serving? ==> !s.creationFailed && !s.loopReturned)
    && (s.worker.Forked? || s.worker.AwaitingMaster? || s.worker.Admitted? || s.worker.HalfUp? ==> !s.served)
    && (s.worker.Serving? || s.loopReturned ==> s.served)
    && (s.creationFailed ==> !s.served && !s.loopReturned && s.worker == Exited(0))
    && (s.worker.Leaving? ==> s.worker.status == 0 || s.worker.status == 1)
    && (s.worker.Exited? ==> s.worker.code == 0 || s.worker.code == 1)
    && (s.worker == Leaving(1) || s.worker == Exited(1) ==> !Taken(s))
    && (s.worker == Leaving(0) ==> s.loopReturned)
    && (s.worker == Exited(0) ==> s.loopReturned || s.creationFailed)
    // the main loop
    && (s.master.LoopsAgain? ==> !s.signaledExit) && (s.master.LoopEnded? ==> s.signaledExit)
  }

  /** Up to the post, or to the failure in its place. */
  predicate IsStartEvent(e: Event) {
    e.PidSaved? || e.PidFailed? || e.HandlersInstalled? || e.ProxyStarted? || e.ProxyThrew?
  }

  lemma StartKeepsInvariant(s: State, e: Event)
    requires Invariant(s) && IsStartEvent(e) && MasterEnabled(s, e)
    ensures Invariant(MasterStep(s, e))
  {}

  lemma PostKeepsInvariant(s: State, e: Event)
    requires Invariant(s) && (e.Post? || e.HandleFailure?) && MasterEnabled(s, e)
    ensures Invariant(MasterStep(s, e))
  {}

  lemma WaitKeepsInvariant(s: State, e: Event)
    requires Invariant(s) && (e.Reap? || e.WaitInterrupted?) && MasterEnabled(s, e)
    ensures Invariant(MasterStep(s, e))
  {}

  lemma RoundKeepsInvariant(s: State, e: Event)
    requires Invariant(s) && (e.StopProxy? || e.RemovePid? || e.CheckLoop?) && MasterEnabled(s, e)
    ensures Invariant(MasterStep(s, e))
  {}

  lemma MasterKeepsInvariant(s: State, e: Event)
    requires Invariant(s) && IsMasterEvent(e) && MasterEnabled(s, e)
    ensures Invariant(MasterStep(s, e))
  {
    if IsStartEvent(e) {
      StartKeepsInvariant(s, e);
    } else if e.Post? || e.HandleFailure? {
      PostKeepsInvariant(s, e);
    } else if e.Reap? || e.WaitInterrupted? {
      WaitKeepsInvariant(s, e);
    } else {
      RoundKeepsInvariant(s, e);
    }
  }

  lemma SignalKeepsInvariant(s: State, signal: Signal)
    requires Invariant(s) && MasterHandlesSignals(s.master)
    ensures Invariant(SignalStep(s, signal))
  {}

  lemma GateKeepsInvariant(s: State, e: Event)
    requires Invariant(s) && IsGateEvent(e) && GateEnabled(s, e)
    ensures Invariant(GateStep(s, e))
  {}

  lemma ServingKeepsInvariant(s: State, e: Event)
    requires Invariant(s) && IsServingEvent(e) && ServingEnabled(s, e)
    ensures Invariant(ServingStep(s, e))
  {}

  lemma NextKeepsInvariant(s: State, e: Event)
    requires Invariant(s)
    ensures Invariant(Next(s, e))
  {
    if Enabled(s, e) {
      if IsMasterEvent(e) {
        MasterKeepsInvariant(s, e);
      } else if IsGateEvent(e) {
        GateKeepsInvariant(s, e);
      } else if e.MasterSignaled? {
        SignalKeepsInvariant(s, e.signal);
      } else {
        ServingKeepsInvariant(s, e);
      }
    }
  }

  lemma {:induction false} ReachableInvariant(events: seq<Event>)
    ensures Invariant(Run(AFTER_FORK, events))
  {
    if |events| > 0 {
      ReachableInvariant(events[..|events| - 1]);
      NextKeepsInvariant(Run(AFTER_FORK, events[..|events| - 1]), events[|events| - 1]);
    }
  }

  /** In every interleaving, a server is started only after start_dns_proxy has returned normally and the post. */
  lemma ServesOnlyWhenReady(events: seq<Event>)
    ensures var s := Run(AFTER_FORK, events);
            s.started > 0 || s.served ==> s.proxyUp && s.posts == 1 && s.semaphore == 0 && !s.startupThrew
  {
    ReachableInvariant(events);
  }

  /**
   * If start-up throws, no server is ever started, the worker can only exit with status 1 (or be killed), and the
   * main loop does not run again.
   */
  lemma FailedStartupEndsService(events: seq<Event>)
    ensures var s := Run(AFTER_FORK, events);
            s.startupThrew ==>
              && s.started == 0 && !s.served && s.posts == 0
              && (Gone(s.worker) ==> s.worker.Killed? || s.worker == Exited(1))
              && (s.signaledExit || s.master.HandlingFailure?)
              && !s.master.LoopsAgain?
  {
    ReachableInvariant(events);
  }

  /**
   * What an exit status says. Status 1: the semaphore was never taken. Status 0: the worker was admitted, and either
   * its loop returned or a server could not be created; it has served exactly when none failed.
   */
  lemma StatusTellsService(events: seq<Event>)
    ensures var s := Run(AFTER_FORK, events);
            s.worker.Exited? ==>
              && (s.worker.code == 1 <==> !Taken(s))
              && (s.worker.code == 0 <==> Taken(s) && (s.loopReturned || s.creationFailed))
              && (s.worker.code == 0 ==> (s.served <==> !s.creationFailed) && (s.loopReturned <==> !s.creationFailed))
  {
    ReachableInvariant(events);
  }

  /** A server that cannot be created, as with a port in use, ends an admitted worker with status 0 and no service. */
  lemma FailedServerExitsZero(events: seq<Event>)
    requires Run(AFTER_FORK, events).worker.Admitted?
    ensures var s := Run(AFTER_FORK, events + [ServiceFailed]);
            s.worker == Exited(0) && !s.served && s.started == 0
  {
    ReachableInvariant(events);
    assert (events + [ServiceFailed])[..|events|] == events;
  }

  /** Such a run exists: here it is in full, from the fork to the exit. */
  lemma FailedServerRun()
    ensures var gate := Next(Next(Next(Next(AFTER_FORK, PidSaved), HandlersInstalled), ProxyStarted), Post);
            var admitted := Next(Next(gate, WorkerHandlersInstalled), Acquire);
            && admitted.worker.Admitted?
            && Next(admitted, ServiceFailed).worker == Exited(0) && !Next(admitted, ServiceFailed).served
  {
    var gate := Next(Next(Next(Next(AFTER_FORK, PidSaved), HandlersInstalled), ProxyStarted), Post);
    assert gate == AFTER_FORK.(master := AwaitingWorker, semaphore := 1, posts := 1, proxyUp := true);
    var admitted := Next(Next(gate, WorkerHandlersInstalled), Acquire);
    assert admitted == gate.(worker := Admitted, semaphore := 0);
  }

  // ---------------------------------------------------------------- a worker whose start-up failed leaves

  /** What the worker does of its own accord. */
  predicate IsWorkerStep(e: Event) {
    !IsMasterEvent(e) && !e.MasterSignaled? && !e.WorkerKilled?
  }

  /** How many steps a worker that is never admitted can still take. */
  function Rank(w: Worker): nat {
    match w
    case Forked => 3
    case AwaitingMaster => 2
    case Leaving(_) => 1
    case _ => 0
  }

  /** The steps the worker really takes in a schedule. */
  ghost function StepsTaken(s: State, events: seq<Event>): nat {
    if |events| == 0 then 0
    else
      var before, e := Run(s, events[..|events| - 1]), events[|events| - 1];
      StepsTaken(s, events[..|events| - 1]) + if IsWorkerStep(e) && Enabled(before, e) then 1 else 0
  }

  lemma FailedMasterStep(s: State, e: Event)
    requires IsMasterEvent(e) && MasterEnabled(s, e)
    ensures MasterStep(s, e).worker == s.worker || MasterStep(s, e).worker == Stopped(s.worker)
    ensures s.startupThrew ==> MasterStep(s, e).startupThrew
  {}

  lemma FailedGateStep(s: State, e: Event)
    requires Invariant(s) && s.startupThrew && IsGateEvent(e) && GateEnabled(s, e)
    ensures GateStep(s, e).startupThrew && Rank(GateStep(s, e).worker) < Rank(s.worker)
  {}

  lemma FailedServingStep(s: State, e: Event)
    requires Invariant(s) && s.startupThrew && IsServingEvent(e) && ServingEnabled(s, e)
    ensures ServingStep(s, e).startupThrew && Rank(ServingStep(s, e).worker) <= Rank(s.worker)
    ensures !e.WorkerKilled? ==> Rank(ServingStep(s, e).worker) < Rank(s.worker)
  {}

  lemma FailedStep(s: State, e: Event)
    requires Invariant(s) && s.startupThrew
    ensures Invariant(Next(s, e)) && Next(s, e).startupThrew
    ensures Rank(Next(s, e).worker) <= Rank(s.worker)
    ensures IsWorkerStep(e) && Enabled(s, e) ==> Rank(Next(s, e).worker) < Rank(s.worker)
  {
    NextKeepsInvariant(s, e);
    if Enabled(s, e) {
      if IsMasterEvent(e) {
        FailedMasterStep(s, e);
      } else if IsGateEvent(e) {
        FailedGateStep(s, e);
      } else if IsServingEvent(e) {
        FailedServingStep(s, e);
      }
    }
  }

  /**
   * After a throw every schedule brings the worker to its end: each of its steps uses up one of at most three, it has
   * a step to take until it is gone, and then it has exited with status 1 or was killed.
   */
  lemma {:induction false} FailedWorkerLeaves(s: State, events: seq<Event>)
    requires Invariant(s) && s.startupThrew
    ensures var after := Run(s, events);
            && StepsTaken(s, events) + Rank(after.worker) <= Rank(s.worker) <= 3
            && (Gone(after.worker) <==> forall e :: IsWorkerStep(e) ==> !Enabled(after, e))
            && (Gone(after.worker) ==> after.worker.Killed? || after.worker == Exited(1))
            && Invariant(after) && after.startupThrew
  {
    if |events| > 0 {
      FailedWorkerLeaves(s, events[..|events| - 1]);
      FailedStep(Run(s, events[..|events| - 1]), events[|events| - 1]);
    }
    WorkerHasStep(Run(s, events));
  }

  lemma WorkerHasStep(s: State)
    ensures Gone(s.worker) <==> forall e :: IsWorkerStep(e) ==> !Enabled(s, e)
  {
    match s.worker {
      case Forked => assert Enabled(s, WorkerHandlersInstalled);
      case AwaitingMaster => assert Enabled(s, WaitTimedOut);
      case Admitted => assert Enabled(s, ServiceStarted);
      case HalfUp => assert Enabled(s, ResponderStarted);
      case Serving => assert Enabled(s, LoopReturned);
      case Leaving(_) => assert Enabled(s, Exit);
      case Exited(_) =>
      case Killed(_) =>
    }
  }

  /** The flag is never taken back. */
  lemma {:induction false} SignaledExitStays(s: State, events: seq<Event>)
    requires s.signaledExit
    ensures Run(s, events).signaledExit
  {
    if |events| > 0 {
      SignaledExitStays(s, events[..|events| - 1]);
      ExitStep(Run(s, events[..|events| - 1]), events[|events| - 1]);
    }
  }

  /** The events that disable the reload: handling a failed start, SIGTERM or SIGINT, and reaping a crashed worker. */
  predicate DisablesReload(s: State, e: Event) {
    Enabled(s, e) &&
    match e
    case HandleFailure => true
    case MasterSignaled(sig) => sig == Term || sig == Interrupt
    case Reap => s.worker == Killed(HangUp) || s.worker == Killed(Other)
    case _ => false
  }

  /**
   * The requests to stop, whether from a failed start or from a signal to the master: the first three signals reach the
   * worker, and end it if it has not installed its handler; any other leaves it alone. A signal counts only from the
   * start of the proxy to the test of the loop.
   */
  lemma StopReachesWorker(s: State, e: Event)
    requires e.MasterSignaled? || (e.HandleFailure? && s.master.HandlingFailure?)
    ensures var heard := e.HandleFailure? || s.master.StartingProxy? || s.master.Posting? || s.master.HandlingFailure?
                      || s.master.AwaitingWorker? || s.master.StoppingProxy? || s.master.RemovingPid?
                      || s.master.CheckingLoop?;
            && (!heard ==> Next(s, e) == s)
            && (heard ==>
                  Next(s, e).worker ==
                  if s.worker.Forked? && !(e.MasterSignaled? && e.signal.Other?) then Killed(Term) else s.worker)
  {}

  /** If the pid file cannot be written, nothing is started, on any schedule. */
  lemma {:induction false} PidFailureStartsNothing(events: seq<Event>)
    ensures var s := Run(Next(AFTER_FORK, PidFailed), events);
            s.master.Died? && !s.proxyUp && s.posts == 0 && s.semaphore == 0 && s.started == 0 && !s.served
            && !PastSemaphore(s.worker)
  {
    if |events| > 0 {
      PidFailureStartsNothing(events[..|events| - 1]);
    }
  }

  /** How many steps the master still has before it. */
  function MasterRank(m: Master): nat {
    match m
    case SavingPid => 8
    case InstallingHandlers => 7
    case StartingProxy => 6
    case Posting => 5
    case HandlingFailure => 5
    case AwaitingWorker => 4
    case StoppingProxy => 3
    case RemovingPid => 2
    case CheckingLoop => 1
    case _ => 0
  }

  lemma StartAdvances(s: State, e: Event)
    requires IsStartEvent(e) && MasterEnabled(s, e)
    ensures var after := MasterStep(s, e).master;
            MasterRank(after) < MasterRank(s.master) && (after.Died? || MasterRank(after) == MasterRank(s.master) - 1)
  {}

  lemma WaitAdvances(s: State, e: Event)
    requires (e.Post? || e.HandleFailure? || e.Reap? || e.WaitInterrupted?) && MasterEnabled(s, e)
    ensures var after := MasterStep(s, e).master;
            MasterRank(after) < MasterRank(s.master) && (after.Died? || MasterRank(after) == MasterRank(s.master) - 1)
  {}

  lemma EndAdvances(s: State, e: Event)
    requires (e.StopProxy? || e.RemovePid? || e.CheckLoop?) && MasterEnabled(s, e)
    ensures var after := MasterStep(s, e).master;
            MasterRank(after) < MasterRank(s.master) && (after.Died? || MasterRank(after) == MasterRank(s.master) - 1)
  {}

  /** The steps the master really takes in a schedule. */
  ghost function MasterSteps(s: State, events: seq<Event>): nat {
    if |events| == 0 then 0
    else
      var before, e := Run(s, events[..|events| - 1]), events[|events| - 1];
      MasterSteps(s, events[..|events| - 1]) + if IsMasterEvent(e) && Enabled(before, e) then 1 else 0
  }

  lemma {:induction false} RoundIsBounded(s: State, events: seq<Event>)
    ensures MasterSteps(s, events) + MasterRank(Run(s, events).master) <= MasterRank(s.master)
    ensures Run(s, events).master.Died? ||
            MasterSteps(s, events) + MasterRank(Run(s, events).master) == MasterRank(s.master)
  {
    if |events| > 0 {
      RoundIsBounded(s, events[..|events| - 1]);
      var before, e := Run(s, events[..|events| - 1]), events[|events| - 1];
      if IsMasterEvent(e) && MasterEnabled(before, e) {
        if IsStartEvent(e) {
          StartAdvances(before, e);
        } else if e.StopProxy? || e.RemovePid? || e.CheckLoop? {
          EndAdvances(before, e);
        } else {
          WaitAdvances(before, e);
        }
      }
    }
  }

  /**
   * On every schedule a round takes at most eight steps of the master, and as long as it is not over there is one to
   * take. A round that comes to its end has taken all eight: stopping the proxy and removing the pid file are not
   * skipped, whatever happened before.
   */
  lemma RoundEnds(s: State, events: seq<Event>)
    ensures var after := Run(s, events);
            && MasterSteps(s, events) + MasterRank(after.master) <= MasterRank(s.master) <= 8
            && (s == AFTER_FORK && (after.master.LoopsAgain? || after.master.LoopEnded?) ==>
                  MasterSteps(s, events) == 8)
            && (after.master.Died? || after.master.LoopsAgain? || after.master.LoopEnded? <==>
                forall e :: IsMasterEvent(e) ==> !Enabled(after, e))
            && (after.master.AwaitingWorker? ==> (Enabled(after, Reap) <==> Gone(after.worker)))
  {
    RoundIsBounded(s, events);
    MasterHasStep(Run(s, events));
  }

  lemma MasterHasStep(s: State)
    ensures s.master.Died? || s.master.LoopsAgain? || s.master.LoopEnded? <==>
            forall e :: IsMasterEvent(e) ==> !Enabled(s, e)
  {
    match s.master {
      case SavingPid => assert Enabled(s, PidSaved);
      case InstallingHandlers => assert Enabled(s, HandlersInstalled);
      case StartingProxy => assert Enabled(s, ProxyStarted);
      case Posting => assert Enabled(s, Post);
      case HandlingFailure => assert Enabled(s, HandleFailure);
      case AwaitingWorker => assert Enabled(s, WaitInterrupted);
      case StoppingProxy => assert Enabled(s, StopProxy);
      case RemovingPid => assert Enabled(s, RemovePid);
      case CheckingLoop => assert Enabled(s, CheckLoop);
      case _ =>
    }
  }

  /** A worker that aborts while it serves disables the reload once it is reaped. */
  lemma AbortDisablesReload(s: State)
    requires s.worker.Serving? && s.master.AwaitingWorker?
    ensures var after := Next(Next(s, ServingAborted), Reap);
            Gone(after.worker) && after.master.StoppingProxy? && after.signaledExit
  {}

  ghost predicate DisabledAt(events: seq<Event>, k: nat)
    requires k < |events|
  {
    DisablesReload(Run(AFTER_FORK, events[..k]), events[k])
  }

  lemma ExitStep(s: State, e: Event)
    ensures Next(s, e).signaledExit <==> s.signaledExit || DisablesReload(s, e)
  {
  }

  /** The flag is set exactly when one of those events has happened. */
  lemma {:induction false} ExitReasons(events: seq<Event>)
    ensures Run(AFTER_FORK, events).signaledExit <==> exists k: nat :: k < |events| && DisabledAt(events, k)
  {
    if |events| > 0 {
      var init, last := events[..|events| - 1], events[|events| - 1];
      ExitReasons(init);
      ExitStep(Run(AFTER_FORK, init), last);
      assert DisabledAt(events, |init|) <==> DisablesReload(Run(AFTER_FORK, init), last);
      forall k: nat | k < |init| ensures DisabledAt(events, k) <==> DisabledAt(init, k) {
        assert init[..k] == events[..k];
      }
    }
  }

  /** The main loop runs again exactly in those rounds that come to its test without any such event. */
  lemma ReloadsUnlessDisabled(events: seq<Event>)
    ensures var s := Run(AFTER_FORK, events);
            s.master.LoopsAgain? || s.master.LoopEnded? ==>
              (s.master.LoopsAgain? <==> forall k: nat :: k < |events| ==> !DisabledAt(events, k))
  {
    ReachableInvariant(events);
    ExitReasons(events);
  }

  // ---------------------------------------------------------------- starting the system proxy

  /** Thirty readings a tenth of a second apart: three seconds. */
  const RETRIES := 3000 / 100

  /**
   * start_dns_proxy for the system service. The k-th look at the process table sees pidAt(k): a positive pid, or
   * something below one when there is none.
   */
  method StartSystemProxy(pidAt: nat -> int, restarted: bool) returns (ok: bool, wasRunning: bool, looks: nat)
    ensures wasRunning <==> pidAt(0) > 0
    ensures !restarted ==> !ok && looks == 1
    ensures restarted ==> 2 <= looks <= 32
    ensures restarted ==> forall k: nat :: 1 <= k < looks - 1 ==> pidAt(k) < 1
    ensures restarted ==> pidAt(looks - 1) >= 1 || looks == 32
    ensures restarted ==> (ok <==> pidAt(looks - 1) >= 0 && pidAt(looks - 1) != pidAt(0))
  {
    var current := pidAt(0);
    looks := 1;
    wasRunning := current > 0;
    if !restarted {
      return false, wasRunning, looks;
    }
    var newPid := pidAt(1);
    looks := 2;
    var counter := RETRIES;
    while newPid < 1 && counter > 0
      invariant 0 <= counter <= RETRIES && looks == 2 + RETRIES - counter
      invariant newPid == pidAt(looks - 1)
      invariant forall k: nat :: 1 <= k < looks - 1 ==> pidAt(k) < 1
      decreases counter
    {
      newPid := pidAt(looks);
      looks := looks + 1;
      counter := counter - 1;
    }
    ok := !(newPid == current || newPid < 0);
  }
}
