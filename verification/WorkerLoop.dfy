/** The worker: its servers, and the timed wait loop under any schedule of wakeups, time-outs and stop requests. */
module WorkerLoop {

  // ---------------------------------------------------------------- servers and their threads

  /** A server's event loop runs until it is stopped. */
  class Server {
    var running: bool

    constructor ()
      ensures running
    {
      running := true;
    }

    method Stop()
      modifies this
      ensures !running
    {
      if running {
        running := false;
      }
    }
  }

  /** A thread that runs one server; it can be joined once that server has stopped, and would block for ever before. */
  class ServerThread {
    const server: Server
    var joined: bool

    constructor (server: Server)
      ensures this.server == server && !joined
    {
      this.server, joined := server, false;
    }

    method Join()
      requires !server.running
      modifies this
      ensures joined
    {
      joined := true;
    }
  }

  class Worker {
    var server: Server?
    var responder: Server?
    var threads: seq<ServerThread>
    var stopFlag: bool

    constructor ()
      ensures Valid() && threads == [] && server == null && responder == null && !stopFlag
    {
      server, responder, threads, stopFlag := null, null, [], false;
    }

    /** Every thread runs one of the two servers, each by at most one thread. */
    ghost predicate Valid()
      reads this
    {
      && (forall t :: t in threads ==> t.server == server || t.server == responder)
      && (forall i, j :: 0 <= i < j < |threads| ==> threads[i] != threads[j] && threads[i].server != threads[j].server)
    }

    /** Creates the configured servers and their threads. One that cannot be created ends the process with status 0. */
    method RunServers(servicePort: int, responderEnabled: bool, serviceOk: bool, responderOk: bool)
      returns (exited: bool)
      requires Valid() && threads == [] && server == null && responder == null
      modifies this
      ensures Valid() && fresh(threads)
      ensures (server != null ==> fresh(server)) && (responder != null ==> fresh(responder))
      ensures stopFlag == old(stopFlag)
      ensures exited <==> (servicePort > 0 && !serviceOk) || (responderEnabled && !responderOk)
      ensures !exited ==> |threads| == (if servicePort > 0 then 1 else 0) + (if responderEnabled then 1 else 0)
      ensures server != null <==> servicePort > 0 && serviceOk
      ensures !exited ==> (responder != null <==> responderEnabled)
      ensures forall t :: t in threads ==> fresh(t.server) && t.server.running && !t.joined
      ensures (server != null ==> exists t :: t in threads && t.server == server)
           && (responder != null ==> exists t :: t in threads && t.server == responder)
    {
      if servicePort > 0 {
        if !serviceOk {
          return true;
        }
        var s := new Server();
        var t := new ServerThread(s);
        server := s;
        threads := threads + [t];
        assert t in threads;
      }
      if responderEnabled {
        if !responderOk {
          return true;
        }
        var s := new Server();
        var t := new ServerThread(s);
        responder := s;
        ghost var before := threads;
        threads := threads + [t];
        assert t in threads;
        assert server != null ==> before[0] in threads;
      }
      exited := false;
    }

    ghost function Footprint(): set<object>
      reads this
    {
      {this as object} + (set t | t in threads :: t as object) + (set t | t in threads :: t.server as object)
    }

    /** Stops both servers, joins every thread and lets both servers go. */
    method StopServers()
      requires Valid()
      requires (server != null ==> server in Footprint()) && (responder != null ==> responder in Footprint())
      modifies Footprint()
      ensures server == null && responder == null && threads == old(threads) && stopFlag == old(stopFlag)
      ensures forall t :: t in threads ==> t.joined && !t.server.running
    {
      if server != null {
        server.Stop();
      }
      if responder != null {
        responder.Stop();
      }
      for i := 0 to |threads|
        invariant threads == old(threads) && server == old(server) && responder == old(responder)
        invariant stopFlag == old(stopFlag)
        invariant server != null ==> !server.running
        invariant responder != null ==> !responder.running
        invariant forall j :: 0 <= j < i ==> threads[j].joined
      {
        assert threads[i] in threads;
        threads[i].Join();
      }
      server, responder := null, null;
    }

    /** All configured servers are up and their threads run. */
    ghost predicate Serving(service: bool, responding: bool)
      reads this, Footprint()
    {
      && Valid() && (server != null <==> service) && (responder != null <==> responding)
      && (forall t :: t in threads ==> !t.joined && t.server.running)
      && (server != null ==> server in Footprint()) && (responder != null ==> responder in Footprint())
    }

    /** All servers are stopped and released, and all threads are joined. */
    ghost predicate ShutDown()
      reads this, Footprint()
    {
      server == null && responder == null && forall t :: t in threads ==> t.joined && !t.server.running
    }

    /** One event of the schedule, with what it does to flag and servers. */
    method TakeStep(interval: nat, state: State, e: Event, ghost service: bool, ghost responding: bool)
      returns (next: State)
      requires stopFlag == state.stop
      requires if state.pc.Finished? then ShutDown() else Serving(service, responding)
      modifies Footprint()
      ensures next == Next(interval, state, e) && stopFlag == next.stop
      ensures threads == old(threads) && Footprint() == old(Footprint())
      ensures if next.pc.Finished? then ShutDown() else Serving(service, responding)
    {
      if e.SetStop? {
        stopFlag := true;
      } else if e.StopServers? && state.pc.StoppingServers? {
        StopServers();
      }
      next := Next(interval, state, e);
    }

    /**
     * The worker's life on a given schedule: it starts its servers, takes the steps of the loop and stops the servers
     * when it comes to that. The servers run until then, and once the worker has finished they are all stopped,
     * joined and released.
     */
    method Run(updateInterval: int, servicePort: int, responderEnabled: bool, serviceOk: bool, responderOk: bool,
               events: seq<Event>) returns (exited: bool, state: State)
      requires Valid() && threads == [] && server == null && responder == null && !stopFlag
      modifies this
      ensures exited <==> (servicePort > 0 && !serviceOk) || (responderEnabled && !responderOk)
      ensures !exited ==>
                && state == StateAfter(Interval(updateInterval), START, events)
                && stopFlag == state.stop
                && |threads| == (if servicePort > 0 then 1 else 0) + (if responderEnabled then 1 else 0)
                && if state.pc.Finished? then ShutDown() else Serving(servicePort > 0, responderEnabled)
    {
      state := START;
      exited := RunServers(servicePort, responderEnabled, serviceOk, responderOk);
      if exited {
        return;
      }
      ghost var started := threads;
      var interval := Interval(updateInterval);
      for i := 0 to |events|
        invariant state == StateAfter(interval, START, events[..i]) && stopFlag == state.stop && threads == started
        invariant fresh(Footprint() - {this})
        invariant if state.pc.Finished? then ShutDown() else Serving(servicePort > 0, responderEnabled)
      {
        assert events[..i + 1][..i] == events[..i];
        state := TakeStep(interval, state, events[i], servicePort > 0, responderEnabled);
      }
      assert events[..|events|] == events;
    }
  }

  // ---------------------------------------------------------------- the loop as a transition system

  /** A waiting worker has been notified once a notification has reached its wait. */
  datatype Pc =
    | FirstPass
    | Checking
    | AboutToWait
    | Waiting(elapsed: nat, notified: bool)
    | Updating
    | StoppingServers
    | Finished

  /**
   * The worker between two atomic steps. `changed` is the result of the last update pass. The remaining fields only
   * count what the worker has begun, and how long it has waited, since the flag was set.
   */
  datatype State = State(
    pc: Pc, stop: bool, changed: bool,
    waitsBegun: nat, secondsWaited: nat, passesBegun: nat)

  const START := State(FirstPass, false, false, 0, 0, 0)

  /** Steps of the worker, and of whoever asks it to stop. */
  datatype Event =
    | PassDone(changes: bool)
    | CheckStop
    | BeginWait
    | Tick
    | TimeOut
    | Wake
    | StopServers
    | SetStop
    | Notify

  /** Waits last at least an hour. */
  function Interval(updateInterval: int): nat {
    if updateInterval > 3600 then updateInterval else 3600
  }

  predicate IsWorkerStep(e: Event) {
    !e.SetStop? && !e.Notify?
  }

  /**
   * A wait can end early at any moment, notified or not. It goes on, and times out when its interval is over, only
   * while it has not been notified.
   */
  predicate Enabled(interval: nat, s: State, e: Event) {
    match e
    case PassDone(_) => s.pc.FirstPass? || s.pc.Updating?
    case CheckStop => s.pc.Checking?
    case BeginWait => s.pc.AboutToWait?
    case Tick => s.pc.Waiting? && !s.pc.notified && s.pc.elapsed < interval
    case TimeOut => s.pc.Waiting? && !s.pc.notified && s.pc.elapsed == interval
    case Wake => s.pc.Waiting?
    case StopServers => s.pc.StoppingServers?
    case SetStop => !s.stop
    case Notify => true
  }

  /** A notification reaches a worker that waits, unless its interval is already over; elsewhere it leaves no trace. */
  function Notified(interval: nat, pc: Pc): Pc {
    if pc.Waiting? && pc.elapsed < interval then Waiting(pc.elapsed, true) else pc
  }

  /** An event that is not enabled changes nothing, so every sequence of events is a schedule. */
  function Next(interval: nat, s: State, e: Event): State {
    if !Enabled(interval, s, e) then s
    else
      var since := if s.stop then 1 else 0;
      match e
      case PassDone(changes) => s.(pc := if changes then StoppingServers else Checking, changed := changes)
      case CheckStop => s.(pc := if s.stop then StoppingServers else AboutToWait)
      case BeginWait => s.(pc := Waiting(0, false), waitsBegun := s.waitsBegun + since)
      case Tick => s.(pc := Waiting(s.pc.elapsed + 1, false), secondsWaited := s.secondsWaited + since)
      case TimeOut => s.(pc := Updating, passesBegun := s.passesBegun + since)
      case Wake => s.(pc := Checking)
      case StopServers => s.(pc := Finished)
      case SetStop => s.(stop := true)
      case Notify => s.(pc := Notified(interval, s.pc))
  }

  function StateAfter(interval: nat, s: State, events: seq<Event>): State {
    if |events| == 0 then s else Next(interval, StateAfter(interval, s, events[..|events| - 1]), events[|events| - 1])
  }

  // ---------------------------------------------------------------- what every schedule keeps

  ghost predicate Invariant(interval: nat, s: State) {
    && (s.pc.Waiting? ==> s.pc.elapsed <= interval)
    && (s.pc.Checking? || s.pc.AboutToWait? || s.pc.Waiting? ==> !s.changed)
    && (s.pc.StoppingServers? || s.pc.Finished? ==> s.stop || s.changed)
    // after the flag is set: at most the wait that was about to begin, and the pass that follows it
    && s.waitsBegun <= 1 && s.passesBegun <= 1 && s.secondsWaited <= interval
    && (!s.stop || s.pc.AboutToWait? ==> s.waitsBegun == 0 && s.secondsWaited == 0 && s.passesBegun == 0)
    && (s.pc.Waiting? ==> s.passesBegun == 0 && s.secondsWaited <= s.pc.elapsed)
  }

  lemma NextKeepsInvariant(interval: nat, s: State, e: Event)
    requires Invariant(interval, s)
    ensures Invariant(interval, Next(interval, s, e))
  {}

  lemma {:induction false} RunKeepsInvariant(interval: nat, s: State, events: seq<Event>)
    requires Invariant(interval, s)
    ensures Invariant(interval, StateAfter(interval, s, events))
  {
    if |events| > 0 {
      RunKeepsInvariant(interval, s, events[..|events| - 1]);
      NextKeepsInvariant(interval, StateAfter(interval, s, events[..|events| - 1]), events[|events| - 1]);
    }
  }

  /** On every schedule the loop ends only because stop was set or an update pass reported a change. */
  lemma EndsForAReason(updateInterval: int, events: seq<Event>)
    ensures var s := StateAfter(Interval(updateInterval), START, events);
            s.pc.StoppingServers? || s.pc.Finished? ==> s.stop || s.changed
  {
    RunKeepsInvariant(Interval(updateInterval), START, events);
  }

  /**
   * Once stop is set at most one more wait and one more update pass begin, and the time spent waiting is at most one
   * interval, notified or not.
   */
  lemma StopIsBounded(updateInterval: int, events: seq<Event>)
    ensures var s := StateAfter(Interval(updateInterval), START, events);
            s.stop ==> s.waitsBegun <= 1 && s.passesBegun <= 1 && s.secondsWaited <= Interval(updateInterval)
  {
    RunKeepsInvariant(Interval(updateInterval), START, events);
  }

  // ---------------------------------------------------------------- exactly what follows a stop

  /** Some wakeup of the schedule ends a wait. */
  ghost predicate Woken(interval: nat, s: State, events: seq<Event>) {
    exists k: nat :: k < |events| && WokenAt(interval, s, events, k)
  }

  ghost predicate WokenAt(interval: nat, s: State, events: seq<Event>, k: nat)
    requires k < |events|
  {
    events[k].Wake? && StateAfter(interval, s, events[..k]).pc.Waiting?
  }

  lemma WokenStep(interval: nat, s: State, events: seq<Event>)
    requires |events| > 0
    ensures var init, last := events[..|events| - 1], events[|events| - 1];
            Woken(interval, s, events) <==>
            Woken(interval, s, init) || (last.Wake? && StateAfter(interval, s, init).pc.Waiting?)
  {
    var init := events[..|events| - 1];
    forall k: nat | k < |init| ensures WokenAt(interval, s, init, k) <==> WokenAt(interval, s, events, k) {
      assert init[..k] == events[..k];
    }
    assert WokenAt(interval, s, events, |init|) <==>
           events[|init|].Wake? && StateAfter(interval, s, init).pc.Waiting?;
  }

  /** What a stopped worker has begun since s, wherever it is now. */
  ghost predicate Follows(s: State, now: State, woken: bool) {
    var pending := s.pc.AboutToWait? || s.pc.Waiting?;
    && now.stop
    && now.waitsBegun == s.waitsBegun + (if s.pc.AboutToWait? && !now.pc.AboutToWait? then 1 else 0)
    && (now.pc.AboutToWait? ==> s.pc.AboutToWait?)
    && (now.pc.AboutToWait? || now.pc.Waiting? ==> pending && !woken)
    && now.passesBegun ==
         s.passesBegun + (if pending && !woken && !now.pc.AboutToWait? && !now.pc.Waiting? then 1 else 0)
  }

  lemma {:induction false} StoppedRun(interval: nat, s: State, events: seq<Event>)
    requires s.stop
    ensures Follows(s, StateAfter(interval, s, events), Woken(interval, s, events))
  {
    if |events| > 0 {
      StoppedRun(interval, s, events[..|events| - 1]);
      WokenStep(interval, s, events);
    }
  }

  /**
   * Exactly when a further wait and a further pass follow. By the end a wait has begun after the flag was set if and
   * only if it was set between the test of the flag and the wait, and a pass if and only if it was set there or during
   * a wait and no wakeup, spurious or not, ended that wait.
   */
  lemma StopIsPromptIff(updateInterval: int, before: seq<Event>, events: seq<Event>)
    ensures var interval := Interval(updateInterval);
            var s := StateAfter(interval, START, before);
            var flagged := Next(interval, s, SetStop);
            var end := StateAfter(interval, flagged, events);
            !s.stop && end.pc.Finished? ==>
              && (end.waitsBegun == 1 <==> s.pc.AboutToWait?)
              && (end.passesBegun == 1 <==> (s.pc.AboutToWait? || s.pc.Waiting?) && !Woken(interval, flagged, events))
  {
    var interval := Interval(updateInterval);
    RunKeepsInvariant(interval, START, before);
    StoppedRun(interval, Next(interval, StateAfter(interval, START, before), SetStop), events);
  }

  // ---------------------------------------------------------------- the worker does finish

  /** How many steps the worker can still take once stop is set. */
  ghost function Rank(interval: nat, pc: Pc): int {
    match pc
    case AboutToWait => interval + 5
    case Waiting(elapsed, notified) => if notified then 3 else interval - elapsed + 4
    case Updating => 3
    case FirstPass => 3
    case Checking => 2
    case StoppingServers => 1
    case Finished => 0
  }

  /** The steps the worker really takes in a schedule. */
  ghost function StepsTaken(interval: nat, s: State, events: seq<Event>): nat {
    if |events| == 0 then 0
    else
      var before, e := StateAfter(interval, s, events[..|events| - 1]), events[|events| - 1];
      StepsTaken(interval, s, events[..|events| - 1]) + if IsWorkerStep(e) && Enabled(interval, before, e) then 1 else 0
  }

  /** From a stopped state every step of the worker brings it nearer to the end. */
  lemma {:induction false} StopTerminates(interval: nat, s: State, events: seq<Event>)
    requires s.stop && Invariant(interval, s)
    ensures StepsTaken(interval, s, events) + Rank(interval, StateAfter(interval, s, events).pc) <= Rank(interval, s.pc)
    ensures Rank(interval, s.pc) <= interval + 5
    ensures StateAfter(interval, s, events).stop
  {
    if |events| > 0 {
      StopTerminates(interval, s, events[..|events| - 1]);
      RunKeepsInvariant(interval, s, events[..|events| - 1]);
    }
  }

  /** And until it has finished there is always a step it can take. */
  lemma NeverStuck(interval: nat, s: State)
    ensures s.pc.Finished? <==> forall e :: IsWorkerStep(e) ==> !Enabled(interval, s, e)
  {
    match s.pc {
      case FirstPass => assert Enabled(interval, s, PassDone(false));
      case Checking => assert Enabled(interval, s, CheckStop);
      case AboutToWait => assert Enabled(interval, s, BeginWait);
      case Waiting(_, _) => assert Enabled(interval, s, Wake);
      case Updating => assert Enabled(interval, s, PassDone(false));
      case StoppingServers => assert Enabled(interval, s, StopServers);
      case Finished =>
    }
  }

  // ---------------------------------------------------------------- what the notification is worth

  /** A stopped worker that neither is about to wait nor waits without having been notified. */
  ghost predicate Heard(s: State) {
    s.stop && !s.pc.AboutToWait? && (s.pc.Waiting? ==> s.pc.notified)
  }

  lemma {:induction false} HeardStays(interval: nat, s: State, events: seq<Event>)
    requires Heard(s)
    ensures var now := StateAfter(interval, s, events);
            && Heard(now) && now.waitsBegun == s.waitsBegun
            && now.secondsWaited == s.secondsWaited && now.passesBegun == s.passesBegun
  {
    if |events| > 0 {
      HeardStays(interval, s, events[..|events| - 1]);
    }
  }

  /**
   * A notification is lost before the wait has begun, and in a wait whose interval is already over. A stop request
   * whose notification is not lost takes effect at once: on every schedule no further wait or pass
   * begins, not one second more is waited, and the worker has at most three steps left.
   */
  lemma HeardStopIsImmediate(interval: nat, s: State, events: seq<Event>)
    requires s.stop && Invariant(interval, s)
    requires !s.pc.AboutToWait? && (s.pc.Waiting? && !s.pc.notified ==> s.pc.elapsed < interval)
    ensures var told := Next(interval, s, Notify);
            var now := StateAfter(interval, told, events);
            && now.waitsBegun == s.waitsBegun && now.passesBegun == s.passesBegun
            && now.secondsWaited == s.secondsWaited && StepsTaken(interval, told, events) <= 3
  {
    var told := Next(interval, s, Notify);
    NextKeepsInvariant(interval, s, Notify);
    RunKeepsInvariant(interval, told, events);
    HeardStays(interval, told, events);
    StopTerminates(interval, told, events);
  }

  /**
   * After the notification, too, the exact case: by the end a further pass has begun if and only if the notification
   * was lost and no wakeup ended that wait.
   */
  lemma PassFollowsIff(interval: nat, s: State, events: seq<Event>)
    requires s.stop && Invariant(interval, s)
    ensures var told := Next(interval, s, Notify);
            var end := StateAfter(interval, told, events);
            end.pc.Finished? ==>
              (end.passesBegun > s.passesBegun <==>
                && (s.pc.AboutToWait? || (s.pc.Waiting? && !s.pc.notified && s.pc.elapsed == interval))
                && !Woken(interval, told, events))
  {
    if !s.pc.AboutToWait? && (s.pc.Waiting? && !s.pc.notified ==> s.pc.elapsed < interval) {
      HeardStopIsImmediate(interval, s, events);
    }
    StoppedRun(interval, Next(interval, s, Notify), events);
  }

  function Ticks(n: nat): seq<Event> {
    if n == 0 then [] else Ticks(n - 1) + [Tick]
  }

  lemma {:induction false} TicksPass(interval: nat, s: State, n: nat)
    requires s.pc == Waiting(0, false) && s.stop && n <= interval
    ensures StateAfter(interval, s, Ticks(n)) == s.(pc := Waiting(n, false), secondsWaited := s.secondsWaited + n)
  {
    if n > 0 {
      assert Ticks(n)[..|Ticks(n)| - 1] == Ticks(n - 1);
      TicksPass(interval, s, n - 1);
    }
  }

  lemma {:induction false} RunsConcat(interval: nat, s: State, a: seq<Event>, b: seq<Event>)
    ensures StateAfter(interval, s, a + b) == StateAfter(interval, StateAfter(interval, s, a), b)
  {
    if |b| == 0 {
      assert a + b == a;
    } else {
      assert (a + b)[..|a + b| - 1] == a + b[..|b| - 1];
      RunsConcat(interval, s, a, b[..|b| - 1]);
    }
  }

  lemma OneEvent(interval: nat, s: State, e: Event)
    ensures StateAfter(interval, s, [e]) == Next(interval, s, e)
  {
    assert [e][..0] == [];
    assert StateAfter(interval, s, []) == s;
  }

  // ---------------------------------------------------------------- how long a wait lasts

  /** On every schedule a wait that can time out has lasted the configured interval, or an hour if that is longer. */
  lemma WaitsAsConfigured(updateInterval: int, events: seq<Event>)
    ensures var s := StateAfter(Interval(updateInterval), START, events);
            Enabled(Interval(updateInterval), s, TimeOut) ==>
              && s.pc.elapsed >= 3600 && s.pc.elapsed >= updateInterval
              && (s.pc.elapsed == 3600 || s.pc.elapsed == updateInterval)
  {}

  lemma {:induction false} TicksWait(interval: nat, s: State, n: nat)
    requires s.pc == Waiting(0, false)
    ensures StateAfter(interval, s, Ticks(n)).pc == Waiting(if n < interval then n else interval, false)
  {
    if n > 0 {
      assert Ticks(n)[..|Ticks(n)| - 1] == Ticks(n - 1);
      TicksWait(interval, s, n - 1);
    }
  }

  /** From a started wait, n seconds without a notification or a wakeup lead to a pass exactly when they are enough. */
  lemma WaitTimesOutIff(updateInterval: int, s: State, n: nat)
    requires s.pc.AboutToWait?
    ensures StateAfter(Interval(updateInterval), s, [BeginWait] + Ticks(n) + [TimeOut]).pc == Updating <==>
            n >= 3600 && n >= updateInterval
  {
    var interval := Interval(updateInterval);
    OneEvent(interval, s, BeginWait);
    RunsConcat(interval, s, [BeginWait], Ticks(n));
    TicksWait(interval, Next(interval, s, BeginWait), n);
    RunsConcat(interval, s, [BeginWait] + Ticks(n), [TimeOut]);
    OneEvent(interval, StateAfter(interval, s, [BeginWait] + Ticks(n)), TimeOut);
  }

  /** Such a wait is reached: a first pass that reports nothing, and a test of the flag. */
  lemma FirstWaitTimesOutIff(updateInterval: int, n: nat)
    ensures var opening := [PassDone(false), CheckStop];
            var waited := [BeginWait] + Ticks(n) + [TimeOut];
            StateAfter(Interval(updateInterval), START, opening + waited).pc == Updating <==>
            n >= 3600 && n >= updateInterval
  {
    var interval, opening := Interval(updateInterval), [PassDone(false), CheckStop];
    assert opening[..1] == [PassDone(false)];
    OneEvent(interval, START, PassDone(false));
    RunsConcat(interval, START, opening, [BeginWait] + Ticks(n) + [TimeOut]);
    WaitTimesOutIff(updateInterval, StateAfter(interval, START, opening), n);
  }

  /**
   * A worker about to wait although it was told to stop waits a whole interval and runs one more update pass: this
   * schedule reaches the bound.
   */
  lemma LostNotifyCostsAnInterval(interval: nat, s: State)
    requires s.stop && s.pc.AboutToWait?
    ensures var told := Next(interval, s, Notify);
            var late := StateAfter(interval, told, [BeginWait] + Ticks(interval) + [TimeOut]);
            && late.pc == Updating && late.waitsBegun == s.waitsBegun + 1
            && late.secondsWaited == s.secondsWaited + interval && late.passesBegun == s.passesBegun + 1
  {
    var told := Next(interval, s, Notify);
    OneEvent(interval, told, BeginWait);
    var waiting := Next(interval, told, BeginWait);
    RunsConcat(interval, told, [BeginWait], Ticks(interval));
    TicksPass(interval, waiting, interval);
    RunsConcat(interval, told, [BeginWait] + Ticks(interval), [TimeOut]);
    OneEvent(interval, StateAfter(interval, waiting, Ticks(interval)), TimeOut);
  }

  /** So a notification is lost, in the sense that some schedule still begins a pass, in exactly those two places. */
  lemma NotifyIsLostIff(interval: nat, s: State)
    requires s.stop && Invariant(interval, s)
    ensures var told := Next(interval, s, Notify);
            (exists events :: StateAfter(interval, told, events).passesBegun > s.passesBegun) <==>
            s.pc.AboutToWait? || (s.pc.Waiting? && !s.pc.notified && s.pc.elapsed == interval)
  {
    var told := Next(interval, s, Notify);
    if !s.pc.AboutToWait? && (s.pc.Waiting? && !s.pc.notified ==> s.pc.elapsed < interval) {
      forall events ensures StateAfter(interval, told, events).passesBegun == s.passesBegun {
        HeardStopIsImmediate(interval, s, events);
      }
    } else if s.pc.AboutToWait? {
      LostNotifyCostsAnInterval(interval, s);
    } else {
      OneEvent(interval, told, TimeOut);
      assert StateAfter(interval, told, [TimeOut]).passesBegun > s.passesBegun;
    }
  }

  /** And a run does come to the first of them: the first pass reports nothing, the flag is tested, and then set. */
  lemma LossIsReached(updateInterval: int)
    ensures var interval := Interval(updateInterval);
            var s := StateAfter(interval, START, [PassDone(false), CheckStop, SetStop]);
            s.stop && s.pc.AboutToWait? && Invariant(interval, s)
  {
    var interval := Interval(updateInterval);
    var events := [PassDone(false), CheckStop, SetStop];
    assert events[..2][..1] == events[..1] == [PassDone(false)];
    OneEvent(interval, START, PassDone(false));
    RunKeepsInvariant(interval, START, events);
  }
}
