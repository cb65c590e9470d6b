/** Starting services: the worker pool running start tasks, composed with the services themselves.
    Other clients may start and stop services at any time. */
module StartOrder {
  import opened Graphs
  import opened Options
  import opened Tasks
  import P = Pool
  import S = Scheduler
  import V = ServiceProtocol

  /** A service as the starter meets it. `Untracked` is a service on which Start has done anything after its
      first launch, or whose process could not be started: its state cell may hold anything. */
  datatype Cell = Fresh | InLaunch(svc: V.Service) | Untracked(status: V.Status, locked: bool) {
    /** A Stop holds the service's lock. */
    predicate Locked() {
      (InLaunch? && svc.locked) || (Untracked? && locked)
    }

    function Status(): V.Status {
      match this
      case Fresh => V.Stopped
      case InLaunch(svc) => svc.Status()
      case Untracked(status, _) => status
    }
  }

  /** How Start can go for a STOPPED service. */
  datatype Launch = Succeeds | LogFileFails(logError: P.Error) | ProcessFails(processError: P.Error)

  datatype Event = StartCalled(task: Task, error: Option<P.Error>) | Observed(task: Task, status: V.Status)

  /** Where a worker is inside `startTask.Run`. */
  datatype Phase = Idle | ToStart | AwaitHealthy | Returned(outcome: Option<P.Error>)

  /** A start task stands for its service. */
  datatype Sys = Sys(pool: P.Pool, phases: seq<Phase>, cells: map<Task, Cell>, log: seq<Event>)

  datatype Step =
    | PoolEnter(worker: nat)
    | CallStart(worker: nat, launch: Launch)
    | Observe(worker: nat)
    | PoolFinish(worker: nat)
    | ServiceStep(task: Task, step: V.Step)
    | OtherStart(task: Task, launch: Launch)
    | Drift(task: Task, status: V.Status, locked: bool)

  function CellOf(cells: map<Task, Cell>, t: Task): Cell {
    if t in cells then cells[t] else Fresh
  }

  /** `serviceDef.Start`, with the service's lock: does nothing unless the service is STOPPED. */
  function Start(cfg: V.Config, c: Cell, launch: Launch): (Cell, Option<P.Error>) {
    if c.Status() != V.Stopped then (c, None)
    else
      match launch
      case LogFileFails(e) => (if c.Fresh? then c else Untracked(V.Stopped, false), Some(e))
      case ProcessFails(e) => (Untracked(V.Error, false), Some(e))
      case Succeeds => (if c.Fresh? then InLaunch(V.Launched(cfg)) else Untracked(V.Starting, false), None)
  }

  predicate Running(s: Sys, w: nat) {
    w < |s.pool.workers| && w < |s.phases| && s.pool.workers[w].Running?
  }

  predicate Enabled(u: Universe, cfgs: map<Task, V.Config>, s: Sys, step: Step) {
    match step
    case PoolEnter(w) => P.Enabled(s.pool, P.Enter(w)) && w < |s.phases|
    case CallStart(w, _) =>
      Running(s, w) && s.phases[w].ToStart? && !CellOf(s.cells, s.pool.workers[w].task).Locked()
    case Observe(w) =>
      Running(s, w) && s.phases[w].AwaitHealthy?
      && CellOf(s.cells, s.pool.workers[w].task).Status() != V.Starting
    case PoolFinish(w) => Running(s, w) && s.phases[w].Returned?
    case ServiceStep(t, v) =>
      CellOf(s.cells, t).InLaunch? && V.Enabled(Cfg(cfgs, t), CellOf(s.cells, t).svc, v)
    case OtherStart(t, _) => !CellOf(s.cells, t).Locked()
    case Drift(t, _, _) => CellOf(s.cells, t).Untracked?
  }

  function Cfg(cfgs: map<Task, V.Config>, t: Task): V.Config {
    if t in cfgs then cfgs[t] else V.Config(V.Daemon, 0, 0)
  }

  /** A worker that has just let the pool's lock go: with a task in hand or without. */
  function AfterTurn(pool: P.Pool, phases: seq<Phase>, w: nat): seq<Phase>
    requires w < |pool.workers| && w < |phases|
  {
    phases[w := if pool.workers[w].Running? then ToStart else Idle]
  }

  function Next(u: Universe, cfgs: map<Task, V.Config>, s: Sys, step: Step): Sys
    requires Enabled(u, cfgs, s, step)
  {
    match step
    case PoolEnter(w) =>
      var pool := P.Next(u, s.pool, P.Enter(w));
      s.(pool := pool, phases := AfterTurn(pool, s.phases, w))
    case CallStart(w, launch) =>
      var t := s.pool.workers[w].task;
      var (cell, err) := Start(Cfg(cfgs, t), CellOf(s.cells, t), launch);
      s.(cells := s.cells[t := cell],
         log := s.log + [StartCalled(t, err)],
         phases := s.phases[w := if err.Some? then Returned(err) else AwaitHealthy])
    case Observe(w) =>
      var t := s.pool.workers[w].task;
      var status := CellOf(s.cells, t).Status();
      s.(log := s.log + [Observed(t, status)],
         phases := s.phases[w := Returned(if status == V.Started then None else Some("unexpected state"))])
    case PoolFinish(w) =>
      var pool := P.Next(u, s.pool, P.Finish(w, s.phases[w].outcome));
      s.(pool := pool, phases := AfterTurn(pool, s.phases, w))
    case ServiceStep(t, v) =>
      s.(cells := s.cells[t := InLaunch(V.Next(Cfg(cfgs, t), CellOf(s.cells, t).svc, v))])
    case OtherStart(t, launch) =>
      s.(cells := s.cells[t := Start(Cfg(cfgs, t), CellOf(s.cells, t), launch).0])
    case Drift(t, status, locked) => s.(cells := s.cells[t := Untracked(status, locked)])
  }

  /** A starter over the task list with `n` workers. Services not yet launched are Fresh; any other may be
      anywhere. */
  ghost predicate Init(cfgs: map<Task, V.Config>, ts: seq<Task>, n: nat, s: Sys) {
    && s.pool == P.Init(ts, n)
    && s.phases == seq(n, _ => Idle)
    && s.log == []
    && CellsSound(cfgs, s.cells)
  }

  ghost predicate Execution(
    u: Universe, cfgs: map<Task, V.Config>, ts: seq<Task>, n: nat, steps: seq<Step>, states: seq<Sys>)
  {
    && |states| == |steps| + 1
    && Init(cfgs, ts, n, states[0])
    && forall i {:trigger steps[i]} :: 0 <= i < |steps| ==>
         Enabled(u, cfgs, states[i], steps[i]) && states[i + 1] == Next(u, cfgs, states[i], steps[i])
  }

  // ----- the invariant -----

  ghost predicate CellsSound(cfgs: map<Task, V.Config>, cells: map<Task, Cell>) {
    forall t {:trigger CellOf(cells, t)} :: CellOf(cells, t).InLaunch? ==>
      V.Invariant(Cfg(cfgs, t), CellOf(cells, t).svc)
  }

  /** Observing STARTED in a service that is still in its first launch means that launch entered STARTED. */
  ghost predicate ObservedSound(s: Sys) {
    forall t {:trigger CellOf(s.cells, t)} :: Observed(t, V.Started) in s.log ==> WasStarted(CellOf(s.cells, t))
  }

  ghost predicate WasStarted(c: Cell) {
    !c.Fresh? && (c.InLaunch? ==> V.Started in c.svc.history)
  }

  ghost predicate PhasesFit(s: Sys) {
    && |s.phases| == |s.pool.workers|
    && forall w :: 0 <= w < |s.phases| ==>
         && (s.pool.workers[w].Running? <==> !s.phases[w].Idle?)
         && (s.phases[w] == Returned(None) ==> Observed(s.pool.workers[w].task, V.Started) in s.log)
  }

  ghost predicate DoneWasObserved(s: Sys) {
    forall t :: t in P.DoneTasks(s.pool.log) ==> Observed(t, V.Started) in s.log
  }

  /** Start is called on a service only after each dependency was observed in STARTED. */
  ghost predicate StartsInOrder(u: Universe, log: seq<Event>) {
    forall i {:trigger InOrderAt(u, log[..i], log[i])} :: 0 <= i < |log| ==> InOrderAt(u, log[..i], log[i])
  }

  ghost predicate InOrderAt(u: Universe, before: seq<Event>, e: Event) {
    e.StartCalled? ==>
      forall d :: d in u.Dependents(e.task) ==>
        exists t :: Observed(t, V.Started) in before && u.Key(t) == u.Key(d)
  }

  ghost predicate Invariant(u: Universe, cfgs: map<Task, V.Config>, ts: seq<Task>, s: Sys) {
    && P.Invariant(u, ts, s.pool)
    && CellsSound(cfgs, s.cells)
    && ObservedSound(s)
    && PhasesFit(s)
    && DoneWasObserved(s)
    && StartsInOrder(u, s.log)
  }

  lemma InOrderGrows(u: Universe, log: seq<Event>, e: Event)
    requires StartsInOrder(u, log) && InOrderAt(u, log, e)
    ensures StartsInOrder(u, log + [e])
  {
    var more := log + [e];
    forall i | 0 <= i < |more|
      ensures InOrderAt(u, more[..i], more[i])
    {
      if i < |log| {
        assert more[..i] == log[..i] && more[i] == log[i];
        assert InOrderAt(u, log[..i], log[i]);
      } else {
        assert more[..i] == log;
      }
    }
  }

  /** A pool step by one worker leaves the tasks in the other workers' hands. */
  lemma OthersKeepTheirTasks(u: Universe, p: P.Pool, step: P.Step, v: nat)
    requires P.Enabled(p, step) && v < |p.workers| && v != step.worker
    ensures |P.Next(u, p, step).workers| == |p.workers|
    ensures P.Next(u, p, step).workers[v].Running? <==> p.workers[v].Running?
    ensures p.workers[v].Running? ==> P.Next(u, p, step).workers[v] == p.workers[v]
  {
  }

  lemma PhasesAfterPoolStep(u: Universe, s: Sys, step: P.Step, s': Sys)
    requires PhasesFit(s) && DoneWasObserved(s) && P.Enabled(s.pool, step)
    requires step.Finish? ==> s.phases[step.worker] == Returned(step.outcome)
    requires s' == s.(pool := P.Next(u, s.pool, step),
                      phases := AfterTurn(P.Next(u, s.pool, step), s.phases, step.worker))
    ensures PhasesFit(s') && DoneWasObserved(s')
  {
    S.DoneByStep(u, s.pool, step);
    forall v | 0 <= v < |s.phases|
      ensures s'.pool.workers[v].Running? <==> !s'.phases[v].Idle?
      ensures s'.phases[v] == Returned(None) ==> Observed(s'.pool.workers[v].task, V.Started) in s'.log
    {
      if v != step.worker {
        OthersKeepTheirTasks(u, s.pool, step, v);
      }
    }
  }

  lemma InvariantPool(u: Universe, cfgs: map<Task, V.Config>, ts: seq<Task>, s: Sys, step: P.Step, s': Sys)
    requires Invariant(u, cfgs, ts, s) && P.Enabled(s.pool, step)
    requires step.Finish? ==> s.phases[step.worker] == Returned(step.outcome)
    requires s' == s.(pool := P.Next(u, s.pool, step),
                      phases := AfterTurn(P.Next(u, s.pool, step), s.phases, step.worker))
    ensures Invariant(u, cfgs, ts, s')
  {
    P.InvariantNext(u, ts, s.pool, step, s'.pool);
    PhasesAfterPoolStep(u, s, step, s');
  }

  /** A task in a worker's hands has every dependency observed in STARTED. */
  lemma HeldTaskInOrder(u: Universe, cfgs: map<Task, V.Config>, ts: seq<Task>, s: Sys, w: nat)
    requires Invariant(u, cfgs, ts, s) && Running(s, w)
    ensures forall err :: InOrderAt(u, s.log, StartCalled(s.pool.workers[w].task, err))
  {
    var t := s.pool.workers[w].task;
    P.RunningWasTaken(ts, s.pool, w);
    S.TakenHasDependencies(u, ts, s.pool, t);
    forall d | d in u.Dependents(t)
      ensures exists x :: Observed(x, V.Started) in s.log && u.Key(x) == u.Key(d)
    {
      assert u.Key(d) in u.DepKeys(t);
      var x :| x in P.DoneTasks(s.pool.log) && u.Key(x) == u.Key(d);
    }
  }

  /** One cell changes, to something that is sound and has been STARTED if the old one had. */
  lemma CellChanges(cfgs: map<Task, V.Config>, s: Sys, t: Task, c: Cell, s': Sys)
    requires CellsSound(cfgs, s.cells) && ObservedSound(s)
    requires s'.cells == s.cells[t := c]
    requires forall x :: Observed(x, V.Started) in s'.log ==> Observed(x, V.Started) in s.log
    requires c.InLaunch? ==> V.Invariant(Cfg(cfgs, t), c.svc)
    requires WasStarted(CellOf(s.cells, t)) ==> WasStarted(c)
    ensures CellsSound(cfgs, s'.cells) && ObservedSound(s')
  {
    forall x
      ensures CellOf(s'.cells, x) == if x == t then c else CellOf(s.cells, x)
    {
    }
  }

  lemma StartIsSound(cfg: V.Config, c: Cell, launch: Launch)
    requires c.InLaunch? ==> V.Invariant(cfg, c.svc)
    ensures var c' := Start(cfg, c, launch).0;
            (c'.InLaunch? ==> V.Invariant(cfg, c'.svc)) && (WasStarted(c) ==> WasStarted(c'))
  {
    V.InvariantInit(cfg);
  }

  lemma InvariantCallStart(
    u: Universe, cfgs: map<Task, V.Config>, ts: seq<Task>, s: Sys, w: nat, launch: Launch, s': Sys)
    requires Invariant(u, cfgs, ts, s) && Enabled(u, cfgs, s, CallStart(w, launch))
    requires s' == Next(u, cfgs, s, CallStart(w, launch))
    ensures Invariant(u, cfgs, ts, s')
  {
    var t := s.pool.workers[w].task;
    var c := CellOf(s.cells, t);
    StartIsSound(Cfg(cfgs, t), c, launch);
    CellChanges(cfgs, s, t, Start(Cfg(cfgs, t), c, launch).0, s');
    HeldTaskInOrder(u, cfgs, ts, s, w);
    InOrderGrows(u, s.log, StartCalled(t, Start(Cfg(cfgs, t), c, launch).1));
  }

  lemma InvariantObserve(u: Universe, cfgs: map<Task, V.Config>, ts: seq<Task>, s: Sys, w: nat, s': Sys)
    requires Invariant(u, cfgs, ts, s) && Enabled(u, cfgs, s, Observe(w))
    requires s' == Next(u, cfgs, s, Observe(w))
    ensures Invariant(u, cfgs, ts, s')
  {
    var t := s.pool.workers[w].task;
    var e := Observed(t, CellOf(s.cells, t).Status());
    InOrderGrows(u, s.log, e);
    forall x | Observed(x, V.Started) in s'.log
      ensures WasStarted(CellOf(s'.cells, x))
    {
      assert Observed(x, V.Started) in s.log || e == Observed(x, V.Started);
    }
  }

  lemma InvariantCell(u: Universe, cfgs: map<Task, V.Config>, ts: seq<Task>, s: Sys, step: Step, s': Sys)
    requires Invariant(u, cfgs, ts, s) && Enabled(u, cfgs, s, step)
    requires step.ServiceStep? || step.OtherStart? || step.Drift?
    requires s' == Next(u, cfgs, s, step)
    ensures Invariant(u, cfgs, ts, s')
  {
    var c := CellOf(s.cells, step.task);
    var cfg := Cfg(cfgs, step.task);
    match step
    case ServiceStep(t, v) =>
      V.InvariantNext(cfg, c.svc, v, V.Next(cfg, c.svc, v));
      CellChanges(cfgs, s, t, InLaunch(V.Next(cfg, c.svc, v)), s');
    case OtherStart(t, launch) =>
      StartIsSound(cfg, c, launch);
      CellChanges(cfgs, s, t, Start(cfg, c, launch).0, s');
    case Drift(t, status, locked) => CellChanges(cfgs, s, t, Untracked(status, locked), s');
  }

  lemma InvariantNext(u: Universe, cfgs: map<Task, V.Config>, ts: seq<Task>, s: Sys, step: Step, s': Sys)
    requires Invariant(u, cfgs, ts, s) && Enabled(u, cfgs, s, step)
    requires s' == Next(u, cfgs, s, step)
    ensures Invariant(u, cfgs, ts, s')
  {
    match step
    case PoolEnter(w) => InvariantPool(u, cfgs, ts, s, P.Enter(w), s');
    case PoolFinish(w) => InvariantPool(u, cfgs, ts, s, P.Finish(w, s.phases[w].outcome), s');
    case CallStart(w, launch) => InvariantCallStart(u, cfgs, ts, s, w, launch, s');
    case Observe(w) => InvariantObserve(u, cfgs, ts, s, w, s');
    case _ => InvariantCell(u, cfgs, ts, s, step, s');
  }

  lemma {:induction false} InvariantAlways(
    u: Universe, cfgs: map<Task, V.Config>, ts: seq<Task>, n: nat, steps: seq<Step>, states: seq<Sys>, i: nat)
    requires u.Valid() && u.Schedulable(ts)
    requires Execution(u, cfgs, ts, n, steps, states) && i < |states|
    ensures Invariant(u, cfgs, ts, states[i])
  {
    if i == 0 {
      P.InvariantInit(u, ts, n);
    } else {
      InvariantAlways(u, cfgs, ts, n, steps, states, i - 1);
      var step := steps[i - 1];
      InvariantNext(u, cfgs, ts, states[i - 1], step, states[i]);
    }
  }

  // ----- end to end -----

  /** In every run of the starter, Start is called on a service only after, for each service it depends on, the
      listed service of that name was observed in STARTED earlier in the run. That is the very service it depends
      on exactly when this one is listed: it may not be where a removed name was created again. */
  lemma StartOrder(
    u: Universe, cfgs: map<Task, V.Config>, ts: seq<Task>, n: nat,
    steps: seq<Step>, states: seq<Sys>, i: nat, k: nat, d: Task)
    requires u.Valid() && u.Schedulable(ts)
    requires Execution(u, cfgs, ts, n, steps, states) && i < |states|
    requires k < |states[i].log| && states[i].log[k].StartCalled? && d in u.Dependents(states[i].log[k].task)
    ensures exists t :: t in ts && u.Key(t) == u.Key(d) && ObservedBefore(states[i].log, k, t)
    ensures ObservedBefore(states[i].log, k, d) <==> d in ts
  {
    InvariantAlways(u, cfgs, ts, n, steps, states, i);
    var log := states[i].log;
    assert InOrderAt(u, log[..k], log[k]);
    var t :| Observed(t, V.Started) in log[..k] && u.Key(t) == u.Key(d);
    var j :| 0 <= j < k && log[..k][j] == Observed(t, V.Started);
    assert log[j] == Observed(t, V.Started);
    ObservedIsTask(u, cfgs, ts, n, steps, states, i, t);
    if d in ts {
      SameKeySameTask(u, ts, t, d);
    }
    if ObservedBefore(log, k, d) {
      ObservedIsTask(u, cfgs, ts, n, steps, states, i, d);
    }
  }

  ghost predicate ObservedBefore(log: seq<Event>, k: nat, t: Task)
    requires k <= |log|
  {
    exists j :: 0 <= j < k && log[j] == Observed(t, V.Started)
  }

  /** Only tasks of the list are ever observed. */
  lemma {:induction false} ObservedIsTask(
    u: Universe, cfgs: map<Task, V.Config>, ts: seq<Task>, n: nat, steps: seq<Step>, states: seq<Sys>, i: nat, t: Task)
    requires u.Valid() && u.Schedulable(ts)
    requires Execution(u, cfgs, ts, n, steps, states) && i < |states|
    requires Observed(t, V.Started) in states[i].log
    ensures t in ts
  {
    if i > 0 {
      var s, step := states[i - 1], steps[i - 1];
      assert states[i] == Next(u, cfgs, s, step);
      if Observed(t, V.Started) in s.log {
        ObservedIsTask(u, cfgs, ts, n, steps, states, i - 1, t);
      } else {
        InvariantAlways(u, cfgs, ts, n, steps, states, i - 1);
        assert step.Observe?;
        P.RunningWasTaken(ts, s.pool, step.worker);
        S.StagesPartition(u, ts, s.pool, t);
      }
    }
  }

  /** And a dependency observed in STARTED that is still in its first launch has passed every one of its
      checks: for a task service, after its process exited with success. */
  lemma StartedDependenciesAreHealthy(
    u: Universe, cfgs: map<Task, V.Config>, ts: seq<Task>, n: nat, steps: seq<Step>, states: seq<Sys>, i: nat, d: Task)
    requires u.Valid() && u.Schedulable(ts)
    requires Execution(u, cfgs, ts, n, steps, states) && i < |states|
    requires Observed(d, V.Started) in states[i].log && CellOf(states[i].cells, d).InLaunch?
    ensures |CellOf(states[i].cells, d).svc.pollers| == Cfg(cfgs, d).Checks()
    ensures V.Earned(Cfg(cfgs, d), CellOf(states[i].cells, d).svc)
  {
    InvariantAlways(u, cfgs, ts, n, steps, states, i);
    var c := CellOf(states[i].cells, d);
  }

  // ----- no start hangs for want of the starter -----

  /** A step of the starter's workers or of a goroutine of some launch: not of a process, a Stop or another client. */
  predicate OwnStep(step: Step) {
    step.PoolEnter? || step.CallStart? || step.Observe? || step.PoolFinish?
    || (step.ServiceStep? && V.OwnStep(step.step))
  }

  /** What a worker may have to wait for: a Stop that holds the service's lock; the end of a task's process; or a
      service that has been started again. */
  ghost predicate HeldUp(cfgs: map<Task, V.Config>, s: Sys, w: nat)
    requires Running(s, w)
  {
    var t := s.pool.workers[w].task;
    var c := CellOf(s.cells, t);
    match s.phases[w]
    case ToStart => c.Locked()
    case AwaitHealthy =>
      c.Status() == V.Starting
      && (c.Untracked? || (c.InLaunch? && Cfg(cfgs, t).kind.OneShot? && c.svc.process.Alive?))
    case _ => false
  }

  lemma WorkerCanGoOn(u: Universe, cfgs: map<Task, V.Config>, ts: seq<Task>, s: Sys, w: nat)
    requires Invariant(u, cfgs, ts, s) && Running(s, w) && !HeldUp(cfgs, s, w)
    ensures exists step :: OwnStep(step) && Enabled(u, cfgs, s, step)
  {
    var t := s.pool.workers[w].task;
    var c := CellOf(s.cells, t);
    match s.phases[w]
    case ToStart => assert OwnStep(CallStart(w, Succeeds)) && Enabled(u, cfgs, s, CallStart(w, Succeeds));
    case Returned(_) => assert OwnStep(PoolFinish(w)) && Enabled(u, cfgs, s, PoolFinish(w));
    case AwaitHealthy =>
      if c.Status() != V.Starting {
        assert OwnStep(Observe(w)) && Enabled(u, cfgs, s, Observe(w));
      } else {
        V.StartingCanStep(Cfg(cfgs, t), c.svc);
        var v :| V.OwnStep(v) && V.Enabled(Cfg(cfgs, t), c.svc, v);
        assert OwnStep(ServiceStep(t, v)) && Enabled(u, cfgs, s, ServiceStep(t, v));
      }
  }

  /** With acyclic dependencies, in every state of every run of the starter: all workers have exited, or the starter
      or some launch can step of its own accord, or some worker waits for what neither of them decides. */
  lemma StarterNeverHangs(
    u: Universe, cfgs: map<Task, V.Config>, ts: seq<Task>, n: nat, steps: seq<Step>, states: seq<Sys>, i: nat)
    requires u.Valid() && u.Schedulable(ts) && Acyclic(u.KeyGraph(ts))
    requires Execution(u, cfgs, ts, n, steps, states) && i < |states|
    ensures S.AllExited(states[i].pool)
            || (exists step :: OwnStep(step) && Enabled(u, cfgs, states[i], step))
            || (exists w :: Running(states[i], w) && HeldUp(cfgs, states[i], w))
  {
    InvariantAlways(u, cfgs, ts, n, steps, states, i);
    var s := states[i];
    if !S.AllExited(s.pool) {
      S.NoDeadlock(u, ts, s.pool);
      var w :| 0 <= w < |s.pool.workers| && (s.pool.workers[w].Awake? || s.pool.workers[w].Running?);
      if s.pool.workers[w].Awake? {
        assert OwnStep(PoolEnter(w)) && Enabled(u, cfgs, s, PoolEnter(w));
      } else {
        assert Running(s, w);
        if !HeldUp(cfgs, s, w) {
          WorkerCanGoOn(u, cfgs, ts, s, w);
        }
      }
    }
  }
}
