/** The service object, its state cell and its process: the fields, and the regions that the goroutines of a
    launch and the callers of Start and Stop execute on them between two points where another may run. */
module ServiceObject {
  import opened Options
  import P = Pool
  import V = ServiceProtocol
  import O = StartOrder
  import L = ServiceLife

  /** The state cell with its condition variable: who sleeps in WaitTillNotState, and on which state. */
  class StateMachine {
    var state: V.Status
    var asleep: map<nat, V.Status>

    /** No wake-up is lost: a goroutine sleeps only while the state is the one it waits to see gone. */
    ghost predicate Valid()
      reads this
    {
      forall g :: g in asleep ==> asleep[g] == state
    }

    constructor (initial: V.Status)
      ensures Valid() && state == initial && asleep == map[]
    {
      state, asleep := initial, map[];
    }

    method SetState(newState: V.Status)
      modifies this
      ensures Valid() && state == newState && asleep == map[]
    {
      state := newState;
      asleep := map[];
    }

    /** One look of goroutine `g`, on entry or after a wake-up: the state, or None when it goes to sleep. */
    method WaitTillNotState(g: nat, notState: V.Status) returns (seen: Option<V.Status>)
      requires Valid() && g !in asleep
      modifies this`asleep
      ensures Valid()
      ensures seen == if state == notState then None else Some(state)
      ensures asleep == if state == notState then old(asleep)[g := notState] else old(asleep)
    {
      if state == notState {
        asleep := asleep[g := notState];
        return None;
      }
      return Some(state);
    }
  }

  datatype ProcState = Initial | Running | Exited

  /** The process wrapper. */
  class Pcmd {
    var state: ProcState
    var exitOk: bool

    constructor ()
      ensures state == Initial && !exitOk
    {
      state, exitOk := Initial, false;
    }

    ghost function View(): V.Process
      reads this
    {
      if state.Exited? then V.Exited(exitOk) else V.Alive
    }

    method Start(launches: bool)
      requires state.Initial?
      modifies this
      ensures state == (if launches then Running else Initial) && View() == V.Alive
    {
      if launches {
        state := Running;
      }
    }

    /** The goroutine that waits for the operating system's process. */
    method Exit(ok: bool)
      requires state.Running?
      modifies this
      ensures state.Exited? && View() == V.Exited(ok)
    {
      state, exitOk := Exited, ok;
    }
  }

  datatype StopResult = AlreadyStopped | Waiting | Crashed

  class ServiceDef {
    const cfg: V.Config
    const machine: StateMachine

    var process: Pcmd?
    var locked: bool
    var waitChClosed: bool
    var wg: int
    var pollers: seq<V.Poller>
    var waiter: V.Waiter
    var watcher: V.Watcher

    /** The process that the goroutines of the launch hold on to. */
    var launched: Pcmd

    ghost var history: seq<V.Status>
    ghost var cell: O.Cell

    ghost function View(): V.Service
      reads this, launched
    {
      V.Service(locked, launched.View(), waitChClosed, wg, pollers, waiter, watcher, history)
    }

    /** What Start and Stop go by. */
    ghost function Life(): L.Life
      reads this, machine, process
    {
      L.Life(machine.state,
             if process == null then L.NoProcess else if process.state.Initial? then L.NotStarted else L.HasStarted,
             false)
    }

    /** Whatever the object has been through: `process` is nil only when the service is STOPPED, and while a Stop
        holds the lock it has a started process to wait for, if it is a daemon. */
    ghost predicate Valid()
      reads this, machine, launched, process
    {
      && machine.Valid() && cell.Status() == machine.state && cell.Locked() == locked
      && (process == null ==> machine.state == V.Stopped)
      && (locked ==> machine.state == V.Stopping && !L.StopCrashes(cfg.kind, Life()))
      && (cell.InLaunch? ==> cell.svc == View() && Launched())
      && (cell.Fresh? ==> Life() == L.CREATED)
    }

    /** In a launch: the protocol's invariants, and whoever needs `process` finds it. */
    ghost predicate Launched()
      reads this, launched
    {
      && V.Invariant(cfg, View()) && V.ClosedOnce(cfg, View())
      && !launched.state.Initial?
      && (process != null ==> process == launched)
      && (process == null ==> waitChClosed)
    }

    constructor (cfg: V.Config)
      ensures Valid() && cell == O.Fresh && this.cfg == cfg
      ensures fresh(machine) && fresh(launched)
    {
      var stopped := new StateMachine(V.Stopped);
      var none := new Pcmd();
      this.cfg, machine := cfg, stopped;
      process, locked, waitChClosed, wg, pollers := null, false, false, 0, [];
      waiter, watcher, launched := V.Finished, V.Absent, none;
      history, cell := [], O.Fresh;
    }

    /** `Start`: only a STOPPED service is launched. `launch` says what the log file and the process do. */
    method Start(launch: O.Launch) returns (err: Option<P.Error>)
      requires Valid() && !locked
      modifies this, machine
      ensures Valid() && !locked && (cell, err) == O.Start(cfg, old(cell), launch)
      ensures Life() == L.Next(cfg.kind, old(Life()), L.StartCall(launch))
      ensures old(machine.state) != V.Stopped ==> err.None? && machine.state == old(machine.state)
      ensures old(machine.state) == V.Stopped ==>
                match launch
                case Succeeds => err.None? && machine.state == V.Starting
                case LogFileFails(e) => err == Some(e) && machine.state == V.Stopped
                case ProcessFails(e) => err == Some(e) && machine.state == V.Error
    {
      if machine.state != V.Stopped {
        return None;
      }
      match launch {
        case LogFileFails(e) =>
          waitChClosed := false;
          cell := O.Start(cfg, cell, launch).0;
          return Some(e);
        case ProcessFails(e) =>
          waitChClosed := false;
          var failed := new Pcmd();
          failed.Start(false);
          process := failed;
          machine.SetState(V.Error);
          cell := O.Untracked(V.Error, false);
          return Some(e);
        case Succeeds =>
          Launch();
          return None;
      }
    }

    /** The process is running: STARTING, and the goroutines of the launch about to begin. */
    method Launch()
      requires Valid() && !locked && machine.state == V.Stopped
      modifies this, machine
      ensures Valid() && !locked && Life() == L.Life(V.Starting, L.HasStarted, false)
      ensures cell == if old(cell).Fresh? then O.InLaunch(V.Launched(cfg)) else O.Untracked(V.Starting, false)
    {
      var started := new Pcmd();
      started.Start(true);
      machine.SetState(V.Starting);
      BeginGoroutines(started);
      V.InvariantInit(cfg);
      cell := if cell.Fresh? then O.InLaunch(View()) else O.Untracked(V.Starting, false);
    }

    method BeginGoroutines(started: Pcmd)
      requires !locked && started.View() == V.Alive
      modifies this
      ensures View() == V.Launched(cfg) && process == launched == started
      ensures cell == old(cell)
    {
      process, launched, history, waitChClosed := started, started, [V.Starting], false;
      wg, pollers, waiter, watcher := 0, seq(cfg.Checks(), _ => V.Unborn), V.Entering, V.Absent;
    }

    /** What a goroutine of an earlier launch may still do to the state. */
    method StaleGoroutine(to: V.Status)
      requires Valid() && !locked && cell.Untracked? && L.Enabled(Life(), L.Background(to))
      modifies this`cell, machine
      ensures Valid() && !locked && cell == O.Untracked(to, false)
      ensures Life() == L.Next(cfg.kind, old(Life()), L.Background(to))
    {
      machine.SetState(to);
      cell := O.Untracked(to, false);
    }

    /** In a launch, and the step is one that can be taken. */
    ghost predicate CanTake(step: V.Step)
      reads this, machine, launched, process
    {
      Valid() && cell.InLaunch? && V.Enabled(cfg, cell.svc, step)
    }

    /** The step was taken on `before`, and nothing else has happened. */
    ghost predicate Took(step: V.Step, before: O.Cell)
      requires before.InLaunch? && V.Enabled(cfg, before.svc, step)
      reads this, machine, launched, process
    {
      Valid() && cell == O.InLaunch(V.Next(cfg, before.svc, step))
    }

    ghost method Record(step: V.Step)
      requires cell.InLaunch? && V.Enabled(cfg, cell.svc, step)
      requires V.Invariant(cfg, cell.svc) && V.ClosedOnce(cfg, cell.svc)
      requires View() == V.Next(cfg, cell.svc, step)
      requires machine.Valid() && machine.state == View().Status() && !launched.state.Initial?
      requires process != null ==> process == launched
      requires process == null ==> waitChClosed && machine.state == V.Stopped
      modifies this`cell
      ensures Took(step, old(cell))
    {
      V.InvariantNext(cfg, cell.svc, step, View());
      V.ClosedOnceNext(cfg, cell.svc, step, View());
      cell := O.InLaunch(View());
    }

    /** Nothing has happened to what Start and Stop go by, or just a change of state by a goroutine. */
    ghost predicate InBackground(before: L.Life)
      reads this, machine, process
    {
      Life() == before
      || (L.Enabled(before, L.Background(machine.state))
          && Life() == L.Next(cfg.kind, before, L.Background(machine.state)))
    }

    method SetState(to: V.Status)
      modifies machine, this`history
      ensures machine.Valid() && machine.state == to && history == old(history) + [to]
    {
      machine.SetState(to);
      history := history + [to];
    }

    /** `close(svc.waitCh)`, after the process's sanitizer errors were read: the process is there, and the channel
        still open. */
    method CollectAndClose()
      requires process != null && !waitChClosed
      modifies this`waitChClosed
      ensures waitChClosed
    {
      waitChClosed := true;
    }

    method MarkStarted()
      requires CanTake(V.WaiterStep) && waiter.Marking?
      modifies this, machine
      ensures Took(V.WaiterStep, old(cell)) && InBackground(old(Life()))
      ensures machine.state == if old(machine.state) == V.Starting then V.Started else old(machine.state)
    {
      if machine.state == V.Starting {
        SetState(V.Started);
      }
      waiter := V.Finished;
      Record(V.WaiterStep);
    }

    /** The unexpected end of the process, noted by whoever waited for it. */
    method NoteFailure()
      modifies this`history, machine
      requires machine.Valid()
      ensures machine.Valid()
      ensures if old(machine.state) in {V.Starting, V.Started}
              then machine.state == V.Error && history == old(history) + [V.Error]
              else machine.state == old(machine.state) && history == old(history)
    {
      if machine.state == V.Starting || machine.state == V.Started {
        SetState(V.Error);
      }
    }

    /** `waitTillHealthyAndMark`, from where it stands up to where another goroutine may run. */
    method WaitTillHealthyAndMark()
      requires CanTake(V.WaiterStep)
      modifies this, machine
      ensures Took(V.WaiterStep, old(cell)) && InBackground(old(Life()))
    {
      if waiter.Marking? {
        MarkStarted();
      } else if waiter.Spawning? {
        Spawn(waiter.next);
      } else if waiter.AwaitingChecks? {
        waiter := V.Marking;
        Record(V.WaiterStep);
      } else {
        WaitForTask();
      }
    }

    /** The beginning, and for a task the wait for its process. */
    method WaitForTask()
      requires CanTake(V.WaiterStep)
      requires waiter.Entering? || waiter.AwaitingExit? || waiter.ClosingChannel? || waiter.Failing?
      modifies this, machine
      ensures Took(V.WaiterStep, old(cell)) && InBackground(old(Life()))
    {
      match waiter {
        case Entering => waiter := if cfg.kind.Daemon? then V.Spawning(0) else V.AwaitingExit;
        case AwaitingExit => waiter := V.ClosingChannel;
        case ClosingChannel =>
          CollectAndClose();
          waiter := if launched.exitOk then V.Spawning(0) else V.Failing;
        case Failing =>
          NoteFailure();
          waiter := V.Finished;
      }
      Record(V.WaiterStep);
    }

    /** One more poller, or when there are enough of them the watcher of a daemon. */
    method Spawn(next: nat)
      requires CanTake(V.WaiterStep) && waiter == V.Spawning(next)
      modifies this
      ensures Took(V.WaiterStep, old(cell)) && Life() == old(Life())
    {
      if next < |pollers| {
        wg := wg + 1;
        pollers := pollers[next := V.Looking];
        waiter := V.Spawning(next + 1);
      } else {
        if cfg.kind.Daemon? {
          watcher := V.AwaitsExit;
        }
        waiter := V.AwaitingChecks;
      }
      Record(V.WaiterStep);
    }

    /** The goroutine of a daemon that waits for its process. */
    method WatchExit()
      requires CanTake(V.WatcherStep)
      modifies this, machine
      ensures Took(V.WatcherStep, old(cell)) && InBackground(old(Life()))
      ensures machine.state == if old(watcher).Reports? && old(machine.state) in {V.Starting, V.Started} then V.Error
                               else old(machine.state)
    {
      match watcher {
        case AwaitsExit => watcher := V.Closes;
        case Closes =>
          CollectAndClose();
          watcher := V.Reports;
        case Reports =>
          NoteFailure();
          watcher := V.Gone;
      }
      Record(V.WatcherStep);
    }

    /** A poller at the head of its loop: go on only as long as the service is STARTING. */
    method Poll(i: nat)
      requires CanTake(V.Look(i))
      modifies this
      ensures Took(V.Look(i), old(cell))
    {
      pollers := pollers[i := if machine.state == V.Starting then V.Checking else V.GaveUp];
      Record(V.Look(i));
    }

    /** The check returned: `wg.Done`, or round again after a pause. */
    method CheckReturned(i: nat, passed: bool)
      requires CanTake(V.Result(i, passed))
      modifies this
      ensures Took(V.Result(i, passed), old(cell))
    {
      if passed {
        wg := wg - 1;
      }
      pollers := pollers[i := if passed then V.Passed else V.Looking];
      Record(V.Result(i, passed));
    }

    method ProcessExits(ok: bool)
      requires CanTake(V.ProcessExit(ok))
      modifies this`cell, launched
      ensures Took(V.ProcessExit(ok), old(cell))
    {
      launched.Exit(ok);
      Record(V.ProcessExit(ok));
    }

    /** `stop` with the lock, up to where it waits for a daemon's process: on any service object. It crashes exactly
        when a daemon that is not STOPPED has no started process. */
    method StopBegin() returns (r: StopResult)
      requires Valid() && !locked
      modifies this, machine
      ensures r.AlreadyStopped? <==> old(machine.state) == V.Stopped
      ensures r.AlreadyStopped? ==> Valid() && cell == old(cell) && Life() == old(Life()) && !locked
      ensures r.Crashed? <==> L.StopCrashes(cfg.kind, old(Life()))
      ensures r.Crashed? ==> !old(cell).InLaunch?
      ensures r.Waiting? ==> Valid() && locked && Life() == old(Life()).(status := V.Stopping)
      ensures r.Waiting? && old(cell).InLaunch? ==> Took(V.StopBegin, old(cell))
      ensures r.Waiting? && !old(cell).InLaunch? ==> cell == O.Untracked(V.Stopping, true)
    {
      if machine.state == V.Stopped {
        return AlreadyStopped;
      }
      SetState(V.Stopping);
      if cfg.kind.Daemon? && process.state.Initial? {
        return Crashed;
      }
      locked := true;
      if cell.InLaunch? {
        Record(V.StopBegin);
      } else {
        cell := O.Untracked(V.Stopping, true);
      }
      return Waiting;
    }

    /** The rest of `stop`. `killFailed`: the first signal could not be sent. */
    method StopEnd(killFailed: bool) returns (err: bool)
      requires Valid() && locked && (cfg.kind.OneShot? || killFailed || waitChClosed)
      modifies this, machine
      ensures Valid() && !locked
      ensures old(cell).InLaunch? ==> Took(V.StopEnd(killFailed), old(cell))
      ensures err <==> machine.state != V.Stopped
      ensures err <==> cfg.kind.Daemon? && killFailed && !waitChClosed
      ensures Life() == L.Next(cfg.kind, old(Life()), L.StopCall(err))
    {
      err := cfg.kind.Daemon? && killFailed && !waitChClosed;
      if !err {
        if cfg.kind.Daemon? {
          process := null;
        }
        SetState(V.Stopped);
      }
      locked := false;
      if cell.InLaunch? {
        Record(V.StopEnd(killFailed));
      } else {
        cell := O.Untracked(machine.state, false);
      }
    }
  }
}
