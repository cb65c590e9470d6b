/** Stopping services: the worker pool on the reversed tasks, composed with the services themselves. Other clients may
    start and stop services at any time. */
module StopRun {
  import opened Options
  import opened Tasks
  import opened Reversal
  import P = Pool
  import S = Scheduler
  import V = ServiceProtocol
  import O = StartOrder
  import T = StopOrder

  datatype Event = StopCalled(task: Task) | StopReturned(task: Task, status: V.Status)

  /** Where a worker is inside `stopTask.Run`. While `Stopping` it holds the service's lock. */
  datatype Phase = Idle | ToStop | Stopping | Returned(outcome: Option<P.Error>)

  datatype Sys = Sys(pool: P.Pool, phases: seq<Phase>, cells: map<Task, O.Cell>, log: seq<Event>)

  datatype Step =
    | PoolEnter(worker: nat)
    | CallStop(worker: nat)
    | EndStop(worker: nat, killFailed: bool)
    | PoolFinish(worker: nat)
    | ServiceStep(task: Task, step: V.Step)
    | OtherStart(task: Task, launch: O.Launch)
    | Drift(task: Task, status: V.Status, locked: bool)

  predicate Running(s: Sys, w: nat) {
    w < |s.pool.workers| && w < |s.phases| && s.pool.workers[w].Running?
  }

  function TaskOf(s: Sys, w: nat): Task
    requires Running(s, w)
  {
    s.pool.workers[w].task
  }

  /** A worker of this run is stopping the service. */
  predicate Owned(s: Sys, t: Task) {
    exists w :: 0 <= w < |s.phases| && Running(s, w) && s.phases[w].Stopping? && TaskOf(s, w) == t
  }

  /** `stop` up to where it waits. A daemon whose process never started is not covered: the program ends there. */
  function BeginStop(cfg: V.Config, c: O.Cell): O.Cell
    requires !c.Locked() && c.Status() != V.Stopped
  {
    if c.InLaunch? then O.InLaunch(V.Next(cfg, c.svc, V.StopBegin)) else O.Untracked(V.Stopping, true)
  }

  predicate CanEndStop(cfg: V.Config, c: O.Cell, killFailed: bool) {
    c.Locked() && (c.InLaunch? ==> V.Enabled(cfg, c.svc, V.StopEnd(killFailed)))
  }

  function FinishStop(cfg: V.Config, c: O.Cell, killFailed: bool): O.Cell
    requires CanEndStop(cfg, c, killFailed)
  {
    if c.InLaunch? then O.InLaunch(V.Next(cfg, c.svc, V.StopEnd(killFailed)))
    else O.Untracked(if cfg.kind.Daemon? && killFailed then V.Stopping else V.Stopped, false)
  }

  predicate Enabled(u: Universe, cfgs: map<Task, V.Config>, s: Sys, step: Step) {
    match step
    case PoolEnter(w) => P.Enabled(s.pool, P.Enter(w)) && w < |s.phases|
    case CallStop(w) => Running(s, w) && s.phases[w].ToStop? && !O.CellOf(s.cells, TaskOf(s, w)).Locked()
    case EndStop(w, killFailed) =>
      Running(s, w) && s.phases[w].Stopping?
      && CanEndStop(O.Cfg(cfgs, TaskOf(s, w)), O.CellOf(s.cells, TaskOf(s, w)), killFailed)
    case PoolFinish(w) => Running(s, w) && s.phases[w].Returned?
    case ServiceStep(t, v) =>
      && O.CellOf(s.cells, t).InLaunch? && V.Enabled(O.Cfg(cfgs, t), O.CellOf(s.cells, t).svc, v)
      && (v.StopEnd? ==> !Owned(s, t))
    case OtherStart(t, _) => !O.CellOf(s.cells, t).Locked()
    case Drift(t, _, _) => O.CellOf(s.cells, t).Untracked? && !Owned(s, t)
  }

  /** What a Stop that has returned leaves for the worker: nil exactly when the service is STOPPED. */
  function Outcome(status: V.Status): Phase {
    Returned(if status == V.Stopped then None else Some("no such process"))
  }

  function AfterTurn(pool: P.Pool, phases: seq<Phase>, w: nat): seq<Phase>
    requires w < |pool.workers| && w < |phases|
  {
    phases[w := if pool.workers[w].Running? then ToStop else Idle]
  }

  function AfterPoolStep(u: Universe, s: Sys, step: P.Step): Sys
    requires P.Enabled(s.pool, step) && step.worker < |s.phases|
  {
    var pool := P.Next(u, s.pool, step);
    s.(pool := pool, phases := AfterTurn(pool, s.phases, step.worker))
  }

  function Next(u: Universe, cfgs: map<Task, V.Config>, s: Sys, step: Step): Sys
    requires Enabled(u, cfgs, s, step)
  {
    match step
    case PoolEnter(w) => AfterPoolStep(u, s, P.Enter(w))
    case PoolFinish(w) => AfterPoolStep(u, s, P.Finish(w, s.phases[w].outcome))
    case CallStop(w) =>
      var t := TaskOf(s, w);
      var c := O.CellOf(s.cells, t);
      if c.Status() == V.Stopped then
        s.(phases := s.phases[w := Outcome(V.Stopped)], log := s.log + [StopCalled(t)] + [StopReturned(t, V.Stopped)])
      else
        s.(phases := s.phases[w := Stopping], log := s.log + [StopCalled(t)],
           cells := s.cells[t := BeginStop(O.Cfg(cfgs, t), c)])
    case EndStop(w, killFailed) =>
      var t := TaskOf(s, w);
      var c := FinishStop(O.Cfg(cfgs, t), O.CellOf(s.cells, t), killFailed);
      s.(phases := s.phases[w := Outcome(c.Status())], log := s.log + [StopReturned(t, c.Status())],
         cells := s.cells[t := c])
    case ServiceStep(t, v) =>
      s.(cells := s.cells[t := O.InLaunch(V.Next(O.Cfg(cfgs, t), O.CellOf(s.cells, t).svc, v))])
    case OtherStart(t, launch) =>
      s.(cells := s.cells[t := O.Start(O.Cfg(cfgs, t), O.CellOf(s.cells, t), launch).0])
    case Drift(t, status, locked) => s.(cells := s.cells[t := O.Untracked(status, locked)])
  }

  /** A stopper over the reversed tasks with `n` workers; the services may be anywhere. */
  ghost predicate Init(ts: seq<Task>, n: nat, s: Sys) {
    s.pool == P.Init(ts, n) && s.phases == seq(n, _ => Idle) && s.log == []
  }

  ghost predicate Execution(
    u: Universe, cfgs: map<Task, V.Config>, ts: seq<Task>, n: nat, steps: seq<Step>, states: seq<Sys>)
  {
    && |states| == |steps| + 1
    && Init(ts, n, states[0])
    && forall i {:trigger steps[i]} :: 0 <= i < |steps| ==>
         Enabled(u, cfgs, states[i], steps[i]) && states[i + 1] == Next(u, cfgs, states[i], steps[i])
  }

  // ----- the invariant -----

  ghost predicate PhasesFit(s: Sys) {
    && |s.phases| == |s.pool.workers|
    && forall w :: 0 <= w < |s.phases| ==>
         && (s.pool.workers[w].Running? <==> !s.phases[w].Idle?)
         && (s.phases[w] == Returned(None) ==> StopReturned(s.pool.workers[w].task, V.Stopped) in s.log)
  }

  ghost predicate DoneWasStopped(s: Sys) {
    forall t :: t in P.DoneTasks(s.pool.log) ==> StopReturned(t, V.Stopped) in s.log
  }

  ghost predicate StopsInOrder(u: Universe, log: seq<Event>) {
    forall i {:trigger InOrderAt(u, log[..i], log[i])} :: 0 <= i < |log| ==> InOrderAt(u, log[..i], log[i])
  }

  ghost predicate InOrderAt(u: Universe, before: seq<Event>, e: Event) {
    e.StopCalled? ==> forall k :: k in u.DepKeys(e.task) ==> StoppedBefore(u, before, k)
  }

  /** A listed service of the key was STOPPED when its Stop returned. */
  ghost predicate StoppedBefore(u: Universe, log: seq<Event>, k: string) {
    exists t :: StopReturned(t, V.Stopped) in log && u.Key(t) == k
  }

  ghost predicate OnlyListed(ts: seq<Task>, log: seq<Event>) {
    forall e :: e in log ==> e.task in ts
  }

  ghost predicate Invariant(u: Universe, ts: seq<Task>, s: Sys) {
    && P.Invariant(u, ts, s.pool)
    && PhasesFit(s) && DoneWasStopped(s)
    && StopsInOrder(u, s.log) && OnlyListed(ts, s.log)
  }

  lemma InOrderGrows(u: Universe, log: seq<Event>, e: Event)
    requires StopsInOrder(u, log) && InOrderAt(u, log, e)
    ensures StopsInOrder(u, log + [e])
  {
    var more := log + [e];
    forall i | 0 <= i < |more|
      ensures InOrderAt(u, more[..i], more[i])
    {
      if i < |log| {
        assert more[..i] == log[..i] && more[i] == log[i];
        assert InOrderAt(u, log[..i], log[i]);
      } else {
        assert more[..i] == log;
      }
    }
  }

  lemma InvariantPool(u: Universe, ts: seq<Task>, s: Sys, step: P.Step, s': Sys)
    requires Invariant(u, ts, s) && P.Enabled(s.pool, step) && step.worker < |s.phases|
    requires step.Finish? ==> s.phases[step.worker] == Returned(step.outcome)
    requires s' == AfterPoolStep(u, s, step)
    ensures Invariant(u, ts, s')
  {
    P.InvariantNext(u, ts, s.pool, step, s'.pool);
    S.DoneByStep(u, s.pool, step);
    forall v | 0 <= v < |s.phases|
      ensures s'.pool.workers[v].Running? <==> !s'.phases[v].Idle?
      ensures s'.phases[v] == Returned(None) ==> StopReturned(s'.pool.workers[v].task, V.Stopped) in s'.log
    {
      if v != step.worker {
        O.OthersKeepTheirTasks(u, s.pool, step, v);
      }
    }
  }

  /** A task in a worker's hands is listed, and everything it depends on was STOPPED when its Stop returned. */
  lemma HeldTaskInOrder(u: Universe, ts: seq<Task>, s: Sys, w: nat)
    requires Invariant(u, ts, s) && Running(s, w)
    ensures TaskOf(s, w) in ts && InOrderAt(u, s.log, StopCalled(TaskOf(s, w)))
  {
    var t := TaskOf(s, w);
    P.RunningWasTaken(ts, s.pool, w);
    S.StagesPartition(u, ts, s.pool, t);
    S.TakenHasDependencies(u, ts, s.pool, t);
    forall k | k in u.DepKeys(t)
      ensures StoppedBefore(u, s.log, k)
    {
      var x :| x in P.DoneTasks(s.pool.log) && u.Key(x) == k;
    }
  }

  lemma InvariantCall(u: Universe, cfgs: map<Task, V.Config>, ts: seq<Task>, s: Sys, w: nat, s': Sys)
    requires Invariant(u, ts, s) && Enabled(u, cfgs, s, CallStop(w)) && s' == Next(u, cfgs, s, CallStop(w))
    ensures Invariant(u, ts, s')
  {
    var t := TaskOf(s, w);
    HeldTaskInOrder(u, ts, s, w);
    InOrderGrows(u, s.log, StopCalled(t));
    if s'.phases[w].Returned? {
      InOrderGrows(u, s.log + [StopCalled(t)], StopReturned(t, V.Stopped));
    }
  }

  lemma InvariantEnd(
    u: Universe, cfgs: map<Task, V.Config>, ts: seq<Task>, s: Sys, w: nat, killFailed: bool, s': Sys)
    requires Invariant(u, ts, s) && Enabled(u, cfgs, s, EndStop(w, killFailed))
    requires s' == Next(u, cfgs, s, EndStop(w, killFailed))
    ensures Invariant(u, ts, s')
  {
    HeldTaskInOrder(u, ts, s, w);
    InOrderGrows(u, s.log, s'.log[|s.log|]);
  }

  lemma InvariantNext(u: Universe, cfgs: map<Task, V.Config>, ts: seq<Task>, s: Sys, step: Step, s': Sys)
    requires Invariant(u, ts, s) && Enabled(u, cfgs, s, step) && s' == Next(u, cfgs, s, step)
    ensures Invariant(u, ts, s')
  {
    match step
    case PoolEnter(w) => InvariantPool(u, ts, s, P.Enter(w), s');
    case PoolFinish(w) => InvariantPool(u, ts, s, P.Finish(w, s.phases[w].outcome), s');
    case CallStop(w) => InvariantCall(u, cfgs, ts, s, w, s');
    case EndStop(w, killFailed) => InvariantEnd(u, cfgs, ts, s, w, killFailed, s');
    case _ =>
  }

  lemma {:induction false} InvariantAlways(
    u: Universe, cfgs: map<Task, V.Config>, ts: seq<Task>, n: nat, steps: seq<Step>, states: seq<Sys>, i: nat)
    requires u.Valid() && u.Schedulable(ts)
    requires Execution(u, cfgs, ts, n, steps, states) && i < |states|
    ensures Invariant(u, ts, states[i])
  {
    if i == 0 {
      P.InvariantInit(u, ts, n);
    } else {
      InvariantAlways(u, cfgs, ts, n, steps, states, i - 1);
      var step := steps[i - 1];
      InvariantNext(u, cfgs, ts, states[i - 1], step, states[i]);
    }
  }

  /** In every run of the ordered StopAll, Stop is called on a service only after every service of the closure that
      depends on it was STOPPED when its own Stop returned, earlier in the run. */
  lemma DependersStoppedFirst(
    u: Universe, given: seq<Task>, kept: seq<Task>, r: Universe, rs: seq<Task>, cfgs: map<Task, V.Config>, n: nat,
    steps: seq<Step>, states: seq<Sys>, i: nat, k: nat, b: Task)
    requires IsUniqueDeps(u, given, kept) && IsReversal(u, kept, r, rs)
    requires Execution(r, cfgs, rs, n, steps, states) && i < |states|
    requires k < |states[i].log| && states[i].log[k].StopCalled?
    requires b in kept && u.Key(states[i].log[k].task) in u.DepKeys(b)
    ensures exists j :: 0 <= j < k && states[i].log[j] == StopReturned(b, V.Stopped)
  {
    InvariantAlways(r, cfgs, rs, n, steps, states, i);
    var log := states[i].log;
    var a := log[k].task;
    assert a in rs;
    T.Depends(u, kept, r, rs, a, b);
    assert InOrderAt(r, log[..k], log[k]);
    assert StoppedBefore(r, log[..k], u.Key(b));
    var t :| StopReturned(t, V.Stopped) in log[..k] && r.Key(t) == u.Key(b);
    var j :| 0 <= j < k && log[..k][j] == StopReturned(t, V.Stopped);
    assert log[j] == StopReturned(t, V.Stopped) && log[j] in log;
    assert t in rs;
    SameKeySameTask(u, kept, t, b);
  }
}
