/** One launch of a service: the goroutines Start leaves behind, the process, and whoever calls Stop, all
    acting on one state cell. Each step is what one of them does between two points where another may run.
    Begins where a successful Start has released the service's lock. */
module ServiceProtocol {

  datatype Kind = Daemon | OneShot

  datatype Status = Stopped | Starting | Started | Stopping | Error

  datatype Config = Config(kind: Kind, verifyCmds: nat, httpChecks: nat) {
    /** The pollers a launch starts: a task's HTTP checks are never polled. */
    function Checks(): nat {
      if kind.Daemon? then verifyCmds + httpChecks else verifyCmds
    }
  }

  datatype Process = Alive | Exited(ok: bool)

  datatype Poller = Unborn | Looking | Checking | Passed | GaveUp

  /** `waitTillHealthyAndMark`. */
  datatype Waiter =
    | Entering
    | AwaitingExit
    | ClosingChannel
    | Failing
    | Spawning(next: nat)
    | AwaitingChecks
    | Marking
    | Finished

  /** The goroutine of a daemon that waits for the process. */
  datatype Watcher = Absent | AwaitsExit | Closes | Reports | Gone

  /** `locked`: some Stop call holds the service's lock. `wg`: the wait group's counter. `history`: every
      status set since the launch, latest last. */
  datatype Service = Service(
    locked: bool,
    process: Process,
    channelClosed: bool,
    wg: int,
    pollers: seq<Poller>,
    waiter: Waiter,
    watcher: Watcher,
    history: seq<Status>)
  {
    function Status(): Status
    {
      if history == [] then Stopped else history[|history| - 1]
    }

    function Set(to: Status): Service {
      this.(history := history + [to])
    }
  }

  datatype Step =
    | WaiterStep
    | WatcherStep
    | Look(poller: nat)
    | Result(poller: nat, passed: bool)
    | ProcessExit(ok: bool)
    | StopBegin
    | StopEnd(killFailed: bool)

  function Launched(cfg: Config): Service {
    Service(false, Alive, false, 0, seq(cfg.Checks(), _ => Unborn), Entering, Absent, [Starting])
  }

  predicate Enabled(cfg: Config, s: Service, step: Step) {
    match step
    case WaiterStep =>
      (match s.waiter
       case Entering => !s.locked
       case AwaitingExit => s.process.Exited?
       case ClosingChannel => true
       case Failing => !s.locked
       case Spawning(_) => true
       case AwaitingChecks => s.wg == 0
       case Marking => !s.locked
       case Finished => false)
    case WatcherStep =>
      (match s.watcher
       case AwaitsExit => s.process.Exited?
       case Closes => true
       case Reports => !s.locked
       case _ => false)
    case Look(i) => i < |s.pollers| && s.pollers[i].Looking?
    case Result(i, _) => i < |s.pollers| && s.pollers[i].Checking?
    case ProcessExit(_) => s.process.Alive?
    case StopBegin => !s.locked && s.Status() != Stopped
    case StopEnd(killFailed) => s.locked && (cfg.kind.OneShot? || killFailed || s.channelClosed)
  }

  function WaiterNext(cfg: Config, s: Service): Service
    requires Enabled(cfg, s, WaiterStep)
  {
    match s.waiter
    case Entering => s.(waiter := if cfg.kind.Daemon? then Spawning(0) else AwaitingExit)
    case AwaitingExit => s.(waiter := ClosingChannel)
    case ClosingChannel =>
      s.(channelClosed := true, waiter := if s.process == Exited(false) then Failing else Spawning(0))
    case Failing =>
      (if s.Status() in {Starting, Started} then s.Set(Error) else s).(waiter := Finished)
    case Spawning(i) =>
      if i < |s.pollers| then
        s.(wg := s.wg + 1, pollers := s.pollers[i := Looking], waiter := Spawning(i + 1))
      else
        s.(waiter := AwaitingChecks, watcher := if cfg.kind.Daemon? then AwaitsExit else s.watcher)
    case AwaitingChecks => s.(waiter := Marking)
    case Marking => (if s.Status() == Starting then s.Set(Started) else s).(waiter := Finished)
    case Finished => s
  }

  function WatcherNext(s: Service): Service {
    match s.watcher
    case AwaitsExit => s.(watcher := Closes)
    case Closes => s.(channelClosed := true, watcher := Reports)
    case Reports => (if s.Status() in {Starting, Started} then s.Set(Error) else s).(watcher := Gone)
    case _ => s
  }

  function Next(cfg: Config, s: Service, step: Step): Service
    requires Enabled(cfg, s, step)
  {
    match step
    case WaiterStep => WaiterNext(cfg, s)
    case WatcherStep => WatcherNext(s)
    case Look(i) => s.(pollers := s.pollers[i := if s.Status() == Starting then Checking else GaveUp])
    case Result(i, passed) =>
      if passed then s.(wg := s.wg - 1, pollers := s.pollers[i := Passed])
      else s.(pollers := s.pollers[i := Looking])
    case ProcessExit(ok) => s.(process := Exited(ok))
    case StopBegin => s.Set(Stopping).(locked := true)
    case StopEnd(killFailed) =>
      (if cfg.kind.Daemon? && killFailed && !s.channelClosed then s else s.Set(Stopped)).(locked := false)
  }

  ghost predicate Execution(cfg: Config, steps: seq<Step>, states: seq<Service>) {
    && |states| == |steps| + 1
    && states[0] == Launched(cfg)
    && forall i {:trigger steps[i]} :: 0 <= i < |steps| ==>
         Enabled(cfg, states[i], steps[i]) && states[i + 1] == Next(cfg, states[i], steps[i])
  }

  // ----- the invariant -----

  function Owes(p: Poller): nat {
    if p.Looking? || p.Checking? || p.GaveUp? then 1 else 0
  }

  /** How many pollers have been added to the wait group and not taken off it. */
  function Pending(ps: seq<Poller>): nat {
    if ps == [] then 0 else Owes(ps[0]) + Pending(ps[1..])
  }

  lemma {:induction false} PendingUpdate(ps: seq<Poller>, i: nat, x: Poller)
    requires i < |ps|
    ensures Pending(ps[i := x]) == Pending(ps) - Owes(ps[i]) + Owes(x)
  {
    if i == 0 {
      assert ps[0 := x][1..] == ps[1..];
    } else {
      assert ps[i := x][0] == ps[0] && ps[i := x][1..] == ps[1..][i - 1 := x];
      PendingUpdate(ps[1..], i - 1, x);
    }
  }

  /** The counter is zero exactly when no poller owes it anything. */
  lemma {:induction false} NonePending(ps: seq<Poller>)
    ensures Pending(ps) == 0 <==> forall i :: 0 <= i < |ps| ==> Owes(ps[i]) == 0
  {
    if ps != [] {
      NonePending(ps[1..]);
      assert forall i :: 0 <= i < |ps[1..]| ==> ps[1..][i] == ps[i + 1];
      assert forall i :: 0 < i < |ps| ==> ps[i] == ps[1..][i - 1];
    }
  }

  ghost predicate AllPassed(s: Service) {
    forall i :: 0 <= i < |s.pollers| ==> s.pollers[i].Passed?
  }

  /** Every check has passed once, and a task's process has exited with success. */
  ghost predicate Earned(cfg: Config, s: Service) {
    AllPassed(s) && (cfg.kind.OneShot? ==> s.process == Exited(true))
  }

  function Rank(st: Status): nat {
    match st
    case Starting => 0
    case Started => 1
    case Error => 2
    case Stopping => 3
    case Stopped => 4
  }

  /** The status only moves forward: STARTING, STARTED, ERROR, STOPPING, STOPPED; and STARTED is entered
      at most once, from STARTING. */
  ghost predicate Forward(h: seq<Status>) {
    && h != []
    && (forall i, j :: 0 <= i < j < |h| ==> Rank(h[i]) <= Rank(h[j]))
    && (forall i, j :: 0 <= i < j < |h| && h[j] == Started ==> h[i] == Starting)
  }

  predicate PastExit(w: Waiter) {
    w.Spawning? || w.AwaitingChecks? || w.Marking?
  }

  /** How far the waiter has got with the pollers. */
  ghost predicate Spawned(cfg: Config, s: Service) {
    && |s.pollers| == cfg.Checks()
    && s.wg == Pending(s.pollers)
    && (match s.waiter
        case Spawning(next) =>
          next <= |s.pollers| && forall i :: 0 <= i < |s.pollers| ==> (s.pollers[i].Unborn? <==> next <= i)
        case AwaitingChecks => forall i :: 0 <= i < |s.pollers| ==> !s.pollers[i].Unborn?
        case Marking => AllPassed(s)
        case Finished => true
        case _ => forall i :: 0 <= i < |s.pollers| ==> s.pollers[i].Unborn?)
    && (s.waiter.AwaitingExit? || s.waiter.ClosingChannel? || s.waiter.Failing? ==> cfg.kind.OneShot?)
    && (s.waiter.ClosingChannel? ==> s.process.Exited?)
    && (cfg.kind.OneShot? && PastExit(s.waiter) ==> s.process == Exited(true))
  }

  ghost predicate StatusSound(cfg: Config, s: Service) {
    && Forward(s.history)
    && (Started in s.history ==> s.waiter.Finished? && Earned(cfg, s))
    && (s.locked ==> s.Status() == Stopping)
    && (s.waiter.Finished? ==> s.Status() != Starting)
    && (s.Status() == Starting ==> forall i :: 0 <= i < |s.pollers| ==> !s.pollers[i].GaveUp?)
  }

  ghost predicate Invariant(cfg: Config, s: Service) {
    Spawned(cfg, s) && StatusSound(cfg, s)
  }

  lemma InvariantInit(cfg: Config)
    ensures Invariant(cfg, Launched(cfg))
  {
    NonePending(Launched(cfg).pollers);
  }

  lemma ForwardGrows(h: seq<Status>, to: Status)
    requires Forward(h) && Rank(h[|h| - 1]) <= Rank(to)
    requires to == Started ==> h[|h| - 1] == Starting
    ensures Forward(h + [to])
  {
    var g := h + [to];
    forall i, j | 0 <= i < j < |g|
      ensures Rank(g[i]) <= Rank(g[j])
      ensures g[j] == Started ==> g[i] == Starting
    {
      if j == |h| && i < |h| - 1 {
        assert Rank(h[i]) <= Rank(h[|h| - 1]);
      }
    }
  }

  lemma InvariantSpawn(cfg: Config, s: Service)
    requires Invariant(cfg, s) && s.waiter.Spawning? && s.waiter.next < |s.pollers|
    ensures Invariant(cfg, WaiterNext(cfg, s))
  {
    PendingUpdate(s.pollers, s.waiter.next, Looking);
    assert Started !in s.history;
  }

  lemma InvariantChecked(cfg: Config, s: Service)
    requires Invariant(cfg, s) && s.waiter.AwaitingChecks? && s.wg == 0
    ensures Invariant(cfg, WaiterNext(cfg, s))
  {
    NonePending(s.pollers);
    assert Started !in s.history;
  }

  /** The waiter moves on; the status stays. */
  lemma InvariantWaiterMoves(cfg: Config, s: Service)
    requires Invariant(cfg, s) && Enabled(cfg, s, WaiterStep)
    requires !s.waiter.Failing? && !s.waiter.Marking?
    ensures Invariant(cfg, WaiterNext(cfg, s))
  {
    if s.waiter.Spawning? && s.waiter.next < |s.pollers| {
      InvariantSpawn(cfg, s);
    } else if s.waiter.AwaitingChecks? {
      InvariantChecked(cfg, s);
    }
  }

  /** A status is set, forward. */
  lemma StatusSoundSet(cfg: Config, s: Service, s': Service, to: Status)
    requires StatusSound(cfg, s) && s'.history == s.history + [to]
    requires Rank(s.Status()) <= Rank(to) && to != Starting
    requires s'.pollers == s.pollers && s'.process == s.process
    requires s'.locked ==> to == Stopping
    requires s.waiter.Finished? ==> s'.waiter.Finished?
    requires to == Started ==> s.Status() == Starting && s'.waiter.Finished? && Earned(cfg, s)
    ensures StatusSound(cfg, s')
  {
    ForwardGrows(s.history, to);
    assert Started in s'.history ==> Started in s.history || to == Started;
  }

  lemma InvariantWaiterSettles(cfg: Config, s: Service)
    requires Invariant(cfg, s) && Enabled(cfg, s, WaiterStep)
    requires s.waiter.Failing? || s.waiter.Marking?
    ensures Invariant(cfg, WaiterNext(cfg, s))
  {
    var s' := WaiterNext(cfg, s);
    if s'.history != s.history {
      StatusSoundSet(cfg, s, s', s'.Status());
    }
  }

  lemma InvariantWatcher(cfg: Config, s: Service)
    requires Invariant(cfg, s) && Enabled(cfg, s, WatcherStep)
    ensures Invariant(cfg, WatcherNext(s))
  {
    if WatcherNext(s).history != s.history {
      StatusSoundSet(cfg, s, WatcherNext(s), Error);
    }
  }

  lemma InvariantPoller(cfg: Config, s: Service, i: nat, x: Poller, s': Service)
    requires Invariant(cfg, s) && i < |s.pollers| && Owes(s.pollers[i]) == 1
    requires x.GaveUp? ==> s.Status() != Starting
    requires x != Unborn
    requires s' == s.(pollers := s.pollers[i := x], wg := s.wg - 1 + Owes(x))
    ensures Invariant(cfg, s')
  {
    PendingUpdate(s.pollers, i, x);
    assert !s.pollers[i].Passed? && !s.pollers[i].Unborn?;
    assert Started !in s.history;
  }

  lemma InvariantStopEnd(cfg: Config, s: Service, step: Step, s': Service)
    requires Invariant(cfg, s) && step.StopEnd? && Enabled(cfg, s, step) && s' == Next(cfg, s, step)
    ensures Invariant(cfg, s')
  {
    if s'.history != s.history {
      StatusSoundSet(cfg, s, s', Stopped);
    }
  }

  lemma InvariantNext(cfg: Config, s: Service, step: Step, s': Service)
    requires Invariant(cfg, s) && Enabled(cfg, s, step) && s' == Next(cfg, s, step)
    ensures Invariant(cfg, s')
  {
    match step
    case WaiterStep =>
      if s.waiter.Failing? || s.waiter.Marking? {
        InvariantWaiterSettles(cfg, s);
      } else {
        InvariantWaiterMoves(cfg, s);
      }
    case WatcherStep => InvariantWatcher(cfg, s);
    case Look(i) => InvariantPoller(cfg, s, i, s'.pollers[i], s');
    case Result(i, passed) => InvariantPoller(cfg, s, i, s'.pollers[i], s');
    case ProcessExit(_) =>
    case StopBegin => StatusSoundSet(cfg, s, s', Stopping);
    case StopEnd(_) => InvariantStopEnd(cfg, s, step, s');
  }

  lemma {:induction false} InvariantAlways(cfg: Config, steps: seq<Step>, states: seq<Service>, i: nat)
    requires Execution(cfg, steps, states) && i < |states|
    ensures Invariant(cfg, states[i])
  {
    if i == 0 {
      InvariantInit(cfg);
    } else {
      InvariantAlways(cfg, steps, states, i - 1);
      var step := steps[i - 1];
      InvariantNext(cfg, states[i - 1], step, states[i]);
    }
  }

  // ----- what a launch guarantees -----

  /** Whoever sees STARTED, now or in the history, in any interleaving: every check of the launch has passed
      once, and a task's process has exited with success. */
  lemma StartedIsEarned(cfg: Config, steps: seq<Step>, states: seq<Service>, i: nat)
    requires Execution(cfg, steps, states) && i < |states|
    requires Started in states[i].history
    ensures |states[i].pollers| == cfg.Checks() && Earned(cfg, states[i])
  {
    InvariantAlways(cfg, steps, states, i);
  }

  /** Once ERROR, STOPPING or STOPPED was entered, STARTED is not entered again in the launch, and STARTED is
      entered at most once. */
  lemma StartedNeverAgain(cfg: Config, steps: seq<Step>, states: seq<Service>, i: nat, j: nat, k: nat)
    requires Execution(cfg, steps, states) && i < |states|
    requires j < k < |states[i].history| && states[i].history[j] != Starting
    ensures states[i].history[k] != Started
  {
    InvariantAlways(cfg, steps, states, i);
  }

  lemma {:induction false} HistoryOnlyGrows(cfg: Config, steps: seq<Step>, states: seq<Service>, i: nat, j: nat)
    requires Execution(cfg, steps, states) && i <= j < |states|
    ensures states[i].history <= states[j].history
    decreases j
  {
    if i < j {
      HistoryOnlyGrows(cfg, steps, states, i, j - 1);
      var step := steps[j - 1];
      assert states[j] == Next(cfg, states[j - 1], step);
    }
  }

  /** A step of the launch's own goroutines, not of the process or of a caller of Stop. */
  predicate OwnStep(step: Step) {
    step.WaiterStep? || step.WatcherStep? || step.Look? || step.Result?
  }

  /** As long as the status is STARTING the launch cannot hang: one of its own goroutines can step, unless it
      is a task whose process is still running. */
  lemma StartingCanStep(cfg: Config, s: Service)
    requires Invariant(cfg, s) && s.Status() == Starting
    ensures (exists step :: OwnStep(step) && Enabled(cfg, s, step)) || (cfg.kind.OneShot? && s.process.Alive?)
  {
    if s.waiter.AwaitingChecks? && s.wg != 0 {
      NonePending(s.pollers);
      var k :| 0 <= k < |s.pollers| && Owes(s.pollers[k]) != 0;
      var step := if s.pollers[k].Looking? then Look(k) else Result(k, true);
      assert OwnStep(step) && Enabled(cfg, s, step);
    } else if cfg.kind.Daemon? || s.process.Exited? {
      assert OwnStep(WaiterStep) && Enabled(cfg, s, WaiterStep);
    }
  }

  lemma StartingNeverHangs(cfg: Config, steps: seq<Step>, states: seq<Service>, i: nat)
    requires Execution(cfg, steps, states) && i < |states| && states[i].Status() == Starting
    ensures (exists step :: OwnStep(step) && Enabled(cfg, states[i], step))
            || (cfg.kind.OneShot? && states[i].process.Alive?)
  {
    InvariantAlways(cfg, steps, states, i);
    StartingCanStep(cfg, states[i]);
  }

  // ----- the exit channel and the wait group -----

  /** The one goroutine that closes the exit channel has not got past doing so exactly while it is open. */
  ghost predicate ClosedOnce(cfg: Config, s: Service) {
    match cfg.kind
    case Daemon =>
      && (s.channelClosed <==> s.watcher.Reports? || s.watcher.Gone?)
      && (s.waiter.Entering? || s.waiter.Spawning? ==> s.watcher.Absent?)
    case OneShot =>
      && s.watcher.Absent?
      && (s.channelClosed <==> !(s.waiter.Entering? || s.waiter.AwaitingExit? || s.waiter.ClosingChannel?))
  }

  lemma ClosedOnceNext(cfg: Config, s: Service, step: Step, s': Service)
    requires Invariant(cfg, s) && ClosedOnce(cfg, s) && Enabled(cfg, s, step) && s' == Next(cfg, s, step)
    ensures ClosedOnce(cfg, s')
  {
  }

  /** The step closes the exit channel. */
  predicate ClosesChannel(s: Service, step: Step) {
    (step.WaiterStep? && s.waiter.ClosingChannel?) || (step.WatcherStep? && s.watcher.Closes?)
  }

  lemma {:induction false} ClosedOnceAlways(cfg: Config, steps: seq<Step>, states: seq<Service>, i: nat)
    requires Execution(cfg, steps, states) && i < |states|
    ensures Invariant(cfg, states[i]) && ClosedOnce(cfg, states[i])
  {
    InvariantAlways(cfg, steps, states, i);
    if i > 0 {
      ClosedOnceAlways(cfg, steps, states, i - 1);
      var step := steps[i - 1];
      ClosedOnceNext(cfg, states[i - 1], step, states[i]);
    }
  }

  /** No run of a launch closes the exit channel twice or takes more off the wait group than was added to it:
      either would be a panic. */
  lemma NoPanic(cfg: Config, steps: seq<Step>, states: seq<Service>, i: nat)
    requires Execution(cfg, steps, states) && i < |steps|
    ensures ClosesChannel(states[i], steps[i]) ==> !states[i].channelClosed
    ensures states[i].wg >= 0 && states[i + 1].wg >= 0
  {
    ClosedOnceAlways(cfg, steps, states, i);
    ClosedOnceAlways(cfg, steps, states, i + 1);
  }
}
