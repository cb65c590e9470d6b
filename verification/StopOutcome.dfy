/** How an ordered StopAll ends: when it reports success, what that means for the processes, and that it can. */
module StopOutcome {
  import opened Graphs
  import opened Options
  import opened Tasks
  import opened Reversal
  import opened StopRun
  import P = Pool
  import S = Scheduler
  import V = ServiceProtocol
  import R = ServiceReach
  import W = ServiceStop
  import F = ServiceFailure
  import O = StartOrder
  import E = StartOutcome

  // ----- the outcome -----

  ghost predicate ReturnedNil(s: Sys, w: nat, t: Task) {
    Running(s, w) && TaskOf(s, w) == t && s.phases[w] == Returned(None)
  }

  /** A service whose Stop left it STOPPED is done, or about to be. */
  ghost predicate NilFits(s: Sys, t: Task) {
    StopReturned(t, V.Stopped) in s.log ==> t in P.DoneTasks(s.pool.log) || exists w: nat :: ReturnedNil(s, w, t)
  }

  /** Its Stop left the service in some other state. */
  ghost predicate NotStopped(log: seq<Event>, t: Task) {
    exists st :: st != V.Stopped && StopReturned(t, st) in log
  }

  ghost predicate ErrorsFit(s: Sys) {
    && |s.phases| == |s.pool.workers|
    && (forall w: nat :: Running(s, w) && s.phases[w].Returned? && s.phases[w].outcome.Some? ==>
          NotStopped(s.log, TaskOf(s, w)))
    && (forall t, e :: P.Failed(t, e) in s.pool.log ==> NotStopped(s.log, t))
  }

  ghost predicate OutcomesFit(s: Sys) {
    ErrorsFit(s) && forall t :: NilFits(s, t)
  }

  lemma ErrorsFitPool(u: Universe, s: Sys, step: P.Step, s': Sys)
    requires ErrorsFit(s) && PhasesFit(s) && P.Enabled(s.pool, step)
    requires step.Finish? ==> s.phases[step.worker] == Returned(step.outcome)
    requires s' == AfterPoolStep(u, s, step)
    ensures ErrorsFit(s')
  {
    E.FailedByStep(u, s.pool, step);
    forall v: nat | v < |s.phases| && v != step.worker
      ensures Running(s', v) ==> Running(s, v) && s'.pool.workers[v] == s.pool.workers[v]
    {
      O.OthersKeepTheirTasks(u, s.pool, step, v);
    }
  }

  lemma NilFitsPool(u: Universe, s: Sys, step: P.Step, s': Sys, t: Task)
    requires NilFits(s, t) && PhasesFit(s) && P.Enabled(s.pool, step)
    requires step.Finish? ==> s.phases[step.worker] == Returned(step.outcome)
    requires s' == AfterPoolStep(u, s, step)
    ensures NilFits(s', t)
  {
    S.DoneByStep(u, s.pool, step);
    if w: nat :| ReturnedNil(s, w, t) {
      if w != step.worker {
        O.OthersKeepTheirTasks(u, s.pool, step, w);
        assert ReturnedNil(s', w, t);
      }
    }
  }

  lemma OutcomesFitPool(u: Universe, s: Sys, step: P.Step, s': Sys)
    requires OutcomesFit(s) && PhasesFit(s) && P.Enabled(s.pool, step)
    requires step.Finish? ==> s.phases[step.worker] == Returned(step.outcome)
    requires s' == AfterPoolStep(u, s, step)
    ensures OutcomesFit(s')
  {
    ErrorsFitPool(u, s, step, s');
    forall t
      ensures NilFits(s', t)
    {
      NilFitsPool(u, s, step, s', t);
    }
  }

  lemma NilFitsStopper(u: Universe, cfgs: map<Task, V.Config>, s: Sys, step: Step, s': Sys, t: Task)
    requires NilFits(s, t) && PhasesFit(s) && Enabled(u, cfgs, s, step) && s' == Next(u, cfgs, s, step)
    requires step.CallStop? || step.EndStop?
    ensures NilFits(s', t)
  {
    if StopReturned(t, V.Stopped) in s.log {
      if w: nat :| ReturnedNil(s, w, t) {
        assert ReturnedNil(s', w, t);
      }
    } else if StopReturned(t, V.Stopped) in s'.log {
      assert ReturnedNil(s', step.worker, t);
    }
  }

  lemma ErrorsFitStopper(u: Universe, cfgs: map<Task, V.Config>, s: Sys, step: Step, s': Sys)
    requires ErrorsFit(s) && Enabled(u, cfgs, s, step) && s' == Next(u, cfgs, s, step)
    requires step.CallStop? || step.EndStop?
    ensures ErrorsFit(s')
  {
    assert s.log <= s'.log;
    forall t | NotStopped(s.log, t)
      ensures NotStopped(s'.log, t)
    {
      var st :| st != V.Stopped && StopReturned(t, st) in s.log;
      assert StopReturned(t, st) in s'.log;
    }
    assert s'.log != [] && s'.log[|s'.log| - 1] in s'.log;
  }

  lemma OutcomesFitNext(u: Universe, cfgs: map<Task, V.Config>, s: Sys, step: Step, s': Sys)
    requires OutcomesFit(s) && PhasesFit(s) && Enabled(u, cfgs, s, step) && s' == Next(u, cfgs, s, step)
    ensures OutcomesFit(s') && |s'.pool.workers| == |s.pool.workers|
  {
    match step
    case PoolEnter(w) => OutcomesFitPool(u, s, P.Enter(w), s');
    case PoolFinish(w) => OutcomesFitPool(u, s, P.Finish(w, s.phases[w].outcome), s');
    case CallStop(_) => OutcomesFitStopper(u, cfgs, s, step, s');
    case EndStop(_, _) => OutcomesFitStopper(u, cfgs, s, step, s');
    case _ =>
      assert s'.pool == s.pool && s'.phases == s.phases && s'.log == s.log;
      OutcomesStay(s, s');
  }

  lemma OutcomesFitStopper(u: Universe, cfgs: map<Task, V.Config>, s: Sys, step: Step, s': Sys)
    requires OutcomesFit(s) && PhasesFit(s) && Enabled(u, cfgs, s, step) && s' == Next(u, cfgs, s, step)
    requires step.CallStop? || step.EndStop?
    ensures OutcomesFit(s')
  {
    ErrorsFitStopper(u, cfgs, s, step, s');
    forall t
      ensures NilFits(s', t)
    {
      NilFitsStopper(u, cfgs, s, step, s', t);
    }
  }

  lemma OutcomesStay(s: Sys, s': Sys)
    requires OutcomesFit(s) && s'.pool == s.pool && s'.phases == s.phases && s'.log == s.log
    ensures OutcomesFit(s')
  {
    forall t
      ensures NilFits(s', t)
    {
      assert NilFits(s, t);
      if w: nat :| ReturnedNil(s, w, t) {
        assert ReturnedNil(s', w, t);
      }
    }
  }

  lemma OutcomesInitially(ts: seq<Task>, n: nat, s: Sys)
    requires Init(ts, n, s)
    ensures OutcomesFit(s) && |s.pool.workers| == n
  {
  }

  lemma {:induction false} OutcomesAlways(
    u: Universe, cfgs: map<Task, V.Config>, ts: seq<Task>, n: nat, steps: seq<Step>, states: seq<Sys>, i: nat)
    requires u.Valid() && u.Schedulable(ts)
    requires Execution(u, cfgs, ts, n, steps, states) && i < |states|
    ensures Invariant(u, ts, states[i]) && OutcomesFit(states[i]) && |states[i].pool.workers| == n
  {
    InvariantAlways(u, cfgs, ts, n, steps, states, i);
    if i > 0 {
      var k := i - 1;
      OutcomesAlways(u, cfgs, ts, n, steps, states, k);
      var s, s' := states[k], states[k + 1];
      assert Enabled(u, cfgs, s, steps[k]) && s' == Next(u, cfgs, s, steps[k]);
      OutcomesFitNext(u, cfgs, s, steps[k], s');
      assert k + 1 == i;
    } else {
      OutcomesInitially(ts, n, states[0]);
    }
  }

  /** A service whose task failed was not left STOPPED by its Stop. */
  lemma FailedIsNotStopped(u: Universe, ts: seq<Task>, s: Sys, f: Task)
    requires P.Invariant(u, ts, s.pool) && NilFits(s, f) && f in P.FailedTasks(s.pool.log)
    ensures StopReturned(f, V.Stopped) !in s.log
  {
    S.StagesPartition(u, ts, s.pool, f);
    P.HoldersCount(s.pool.workers, f);
    assert f in multiset(P.FailedTasks(s.pool.log));
    assert f in multiset(P.DoneTasks(s.pool.log)) <==> f in P.DoneTasks(s.pool.log);
  }

  /** A StopAll that has ended reports success exactly when every service on its list was STOPPED when its Stop
      returned. */
  lemma StopSucceedsIff(
    u: Universe, cfgs: map<Task, V.Config>, ts: seq<Task>, n: nat, steps: seq<Step>, states: seq<Sys>, i: nat)
    requires u.Valid() && u.Schedulable(ts) && n >= 1
    requires Execution(u, cfgs, ts, n, steps, states) && i < |states| && S.AllExited(states[i].pool)
    ensures states[i].pool.err.None? <==> forall t :: t in ts ==> StopReturned(t, V.Stopped) in states[i].log
  {
    OutcomesAlways(u, cfgs, ts, n, steps, states, i);
    var s := states[i];
    if s.pool.err.None? {
      S.SuccessCompletesAll(u, ts, s.pool);
    } else if forall t :: t in ts ==> StopReturned(t, V.Stopped) in s.log {
      FailedIsNotStopped(u, ts, s, P.FailedTasks(s.pool.log)[0]);
      S.StagesPartition(u, ts, s.pool, P.FailedTasks(s.pool.log)[0]);
      assert false;
    }
  }

  /** And if it reports an error some listed service was not STOPPED when its Stop returned. */
  lemma StopFailsBecause(
    u: Universe, cfgs: map<Task, V.Config>, ts: seq<Task>, n: nat, steps: seq<Step>, states: seq<Sys>, i: nat)
    requires u.Valid() && u.Schedulable(ts)
    requires Execution(u, cfgs, ts, n, steps, states) && i < |states| && states[i].pool.err.Some?
    ensures exists t :: t in ts && NotStopped(states[i].log, t)
  {
    OutcomesAlways(u, cfgs, ts, n, steps, states, i);
    var p := states[i].pool;
    var t := E.FirstErrorFailed(p.log);
    S.FailedWhere(p.log, t);
    S.StagesPartition(u, ts, p, t);
  }

  // ----- what it means for the processes -----

  /** A service in its first launch. */
  ghost predicate InFirstLaunch(cfgs: map<Task, V.Config>, t: Task, c: O.Cell) {
    c.InLaunch? && W.Watched(O.Cfg(cfgs, t), c.svc) && F.FailureSound(O.Cfg(cfgs, t), c.svc)
  }

  /** It is in that launch still, or has been started again. */
  ghost predicate WasLaunched(cfgs: map<Task, V.Config>, t: Task, c: O.Cell) {
    c.Untracked? || InFirstLaunch(cfgs, t, c)
  }

  /** A daemon whose Stop left it STOPPED is dead, unless it has been started again. */
  ghost predicate DeadOnceStopped(cfgs: map<Task, V.Config>, t: Task, s: Sys) {
    var c := O.CellOf(s.cells, t);
    StopReturned(t, V.Stopped) in s.log && c.InLaunch? && O.Cfg(cfgs, t).kind.Daemon? ==> c.svc.process.Exited?
  }

  lemma LaunchMoves(cfg: V.Config, svc: V.Service, v: V.Step)
    requires W.Watched(cfg, svc) && F.FailureSound(cfg, svc) && V.Enabled(cfg, svc, v)
    ensures W.Watched(cfg, V.Next(cfg, svc, v)) && F.FailureSound(cfg, V.Next(cfg, svc, v))
    ensures svc.process.Exited? ==> V.Next(cfg, svc, v).process.Exited?
    ensures cfg.kind.Daemon? && V.Next(cfg, svc, v).Status() == V.Stopped ==> V.Next(cfg, svc, v).process.Exited?
  {
    var svc' := V.Next(cfg, svc, v);
    V.InvariantNext(cfg, svc, v, svc');
    V.ClosedOnceNext(cfg, svc, v, svc');
    F.FailureSoundNext(cfg, svc, v, svc');
    assert svc'.Status() in svc'.history;
  }

  lemma DeadNext(u: Universe, cfgs: map<Task, V.Config>, s: Sys, step: Step, s': Sys, t: Task)
    requires Enabled(u, cfgs, s, step) && s' == Next(u, cfgs, s, step)
    requires WasLaunched(cfgs, t, O.CellOf(s.cells, t)) && DeadOnceStopped(cfgs, t, s)
    ensures WasLaunched(cfgs, t, O.CellOf(s'.cells, t)) && DeadOnceStopped(cfgs, t, s')
  {
    var cfg, c, c' := O.Cfg(cfgs, t), O.CellOf(s.cells, t), O.CellOf(s'.cells, t);
    if c.InLaunch? {
      assert c.svc.Status() in c.svc.history;
      match step
      case CallStop(w) =>
        if TaskOf(s, w) == t && c.Status() != V.Stopped {
          LaunchMoves(cfg, c.svc, V.StopBegin);
        }
      case EndStop(w, killFailed) =>
        if TaskOf(s, w) == t {
          LaunchMoves(cfg, c.svc, V.StopEnd(killFailed));
        }
      case ServiceStep(x, v) =>
        if x == t {
          LaunchMoves(cfg, c.svc, v);
        }
      case _ =>
    }
  }

  lemma {:induction false} DeadAlways(
    u: Universe, cfgs: map<Task, V.Config>, ts: seq<Task>, n: nat, steps: seq<Step>, states: seq<Sys>, i: nat, t: Task)
    requires Execution(u, cfgs, ts, n, steps, states) && i < |states|
    requires InFirstLaunch(cfgs, t, O.CellOf(states[0].cells, t))
    ensures WasLaunched(cfgs, t, O.CellOf(states[i].cells, t)) && DeadOnceStopped(cfgs, t, states[i])
  {
    if i > 0 {
      DeadAlways(u, cfgs, ts, n, steps, states, i - 1, t);
      DeadNext(u, cfgs, states[i - 1], steps[i - 1], states[i], t);
    }
  }

  lemma ReachedIsSound(cfgs: map<Task, V.Config>, t: Task, c: O.Cell)
    requires c.InLaunch? && R.CanReach(O.Cfg(cfgs, t), c.svc)
    ensures InFirstLaunch(cfgs, t, c)
  {
    var steps, states :| R.EndsIn(O.Cfg(cfgs, t), steps, states, c.svc);
    F.FailureSoundAlways(O.Cfg(cfgs, t), steps, states, |steps|);
  }

  /** After a StopAll that reported success, each listed daemon that it found anywhere in its first launch has no
      process any more, unless somebody has started it again. */
  lemma SuccessLeavesNoProcess(
    u: Universe, cfgs: map<Task, V.Config>, ts: seq<Task>, n: nat, steps: seq<Step>, states: seq<Sys>, i: nat, t: Task)
    requires u.Valid() && u.Schedulable(ts) && n >= 1
    requires Execution(u, cfgs, ts, n, steps, states) && i < |states|
    requires S.AllExited(states[i].pool) && states[i].pool.err.None?
    requires t in ts && O.Cfg(cfgs, t).kind.Daemon?
    requires O.CellOf(states[0].cells, t).InLaunch? && R.CanReach(O.Cfg(cfgs, t), O.CellOf(states[0].cells, t).svc)
    ensures var c := O.CellOf(states[i].cells, t);
            c.Untracked? || (c.InLaunch? && c.svc.process.Exited?)
  {
    StopSucceedsIff(u, cfgs, ts, n, steps, states, i);
    ReachedIsSound(cfgs, t, O.CellOf(states[0].cells, t));
    DeadAlways(u, cfgs, ts, n, steps, states, i, t);
  }

  /** The Stop of a service that was found in its first launch returns an error exactly when it is a daemon that could
      not be signalled and is not known to have exited. */
  lemma StopFailsIff(
    u: Universe, cfgs: map<Task, V.Config>, ts: seq<Task>, n: nat, steps: seq<Step>, states: seq<Sys>, i: nat, w: nat,
    killFailed: bool)
    requires Execution(u, cfgs, ts, n, steps, states) && i < |steps| && steps[i] == EndStop(w, killFailed)
    requires Running(states[i], w)
    requires var t := TaskOf(states[i], w);
             var c := O.CellOf(states[0].cells, t);
             c.InLaunch? && R.CanReach(O.Cfg(cfgs, t), c.svc)
    ensures w < |states[i + 1].phases|
    ensures var t := TaskOf(states[i], w);
            var c := O.CellOf(states[i].cells, t);
            states[i + 1].phases[w] != Returned(None) <==>
            O.Cfg(cfgs, t).kind.Daemon? && killFailed && !(c.InLaunch? && c.svc.channelClosed)
  {
    var t := TaskOf(states[i], w);
    ReachedIsSound(cfgs, t, O.CellOf(states[0].cells, t));
    DeadAlways(u, cfgs, ts, n, steps, states, i, t);
    assert Enabled(u, cfgs, states[i], steps[i]);
    assert states[i + 1] == Next(u, cfgs, states[i], steps[i]);
  }

  // ----- a StopAll can succeed -----

  /** A service that nobody is stopping; in its first launch it must be one that a Stop can be over with. */
  ghost predicate Stoppable(cfgs: map<Task, V.Config>, t: Task, c: O.Cell) {
    && !c.Locked()
    && (c.InLaunch? ==>
          R.CanReach(O.Cfg(cfgs, t), c.svc) && (O.Cfg(cfgs, t).kind.OneShot? || !c.svc.waiter.Entering?))
  }

  /** A run that begins with these services. */
  ghost predicate EndsIn(u: Universe, cfgs: map<Task, V.Config>, ts: seq<Task>, n: nat, cells: map<Task, O.Cell>,
                         steps: seq<Step>, states: seq<Sys>, s: Sys)
  {
    Execution(u, cfgs, ts, n, steps, states) && states[0].cells == cells && states[|steps|] == s
  }

  ghost predicate CanReach(u: Universe, cfgs: map<Task, V.Config>, ts: seq<Task>, n: nat, cells: map<Task, O.Cell>,
                           s: Sys)
  {
    exists steps, states :: EndsIn(u, cfgs, ts, n, cells, steps, states, s)
  }

  lemma ReachNext(u: Universe, cfgs: map<Task, V.Config>, ts: seq<Task>, n: nat, cells: map<Task, O.Cell>, s: Sys,
                  step: Step)
    requires CanReach(u, cfgs, ts, n, cells, s) && Enabled(u, cfgs, s, step)
    ensures CanReach(u, cfgs, ts, n, cells, Next(u, cfgs, s, step))
  {
    var steps, states :| EndsIn(u, cfgs, ts, n, cells, steps, states, s);
    var t := Next(u, cfgs, s, step);
    assert EndsIn(u, cfgs, ts, n, cells, steps + [step], states + [t], t);
  }

  lemma ReachIsSound(u: Universe, cfgs: map<Task, V.Config>, ts: seq<Task>, n: nat, cells: map<Task, O.Cell>, s: Sys)
    requires u.Valid() && u.Schedulable(ts) && CanReach(u, cfgs, ts, n, cells, s)
    ensures Invariant(u, ts, s) && |s.pool.workers| == n
  {
    var steps, states :| EndsIn(u, cfgs, ts, n, cells, steps, states, s);
    OutcomesAlways(u, cfgs, ts, n, steps, states, |steps|);
  }

  /** Worker 0 does all the work: it has a service to stop or has left, the others have not looked yet, nothing has
      failed, and no service that is left has been touched. */
  ghost predicate OnTrack(u: Universe, cfgs: map<Task, V.Config>, ts: seq<Task>, n: nat, cells: map<Task, O.Cell>,
                          s: Sys)
  {
    && CanReach(u, cfgs, ts, n, cells, s) && n >= 1 && |s.pool.workers| == |s.phases| == n
    && s.pool.err.None? && !s.pool.die
    && (forall w :: 1 <= w < n ==> s.pool.workers[w].Awake?)
    && (forall t :: t in s.pool.tasks ==> Stoppable(cfgs, t, O.CellOf(s.cells, t)))
  }

  ghost predicate AtStop(cfgs: map<Task, V.Config>, s: Sys) {
    Running(s, 0) && s.phases[0].ToStop? && Stoppable(cfgs, TaskOf(s, 0), O.CellOf(s.cells, TaskOf(s, 0)))
  }

  ghost predicate NothingLeft(s: Sys) {
    |s.pool.workers| > 0 && s.pool.workers[0].Exited? && s.pool.tasks == []
  }

  /** After its look worker 0 is about to stop a service or has left. */
  lemma AfterLook(u: Universe, cfgs: map<Task, V.Config>, ts: seq<Task>, n: nat, cells: map<Task, O.Cell>, p: P.Pool,
                  s: Sys, s': Sys)
    requires u.Valid() && u.Schedulable(ts) && Acyclic(u.KeyGraph(ts)) && n >= 1
    requires P.Invariant(u, ts, p) && |p.workers| == n && |s.phases| == n && !p.die && p.err.None?
    requires forall w :: 0 <= w < n ==> p.workers[w].Awake?
    requires forall t :: t in p.tasks ==> Stoppable(cfgs, t, O.CellOf(s.cells, t))
    requires s' == s.(pool := P.Turn(u, p, 0), phases := AfterTurn(P.Turn(u, p, 0), s.phases, 0))
    requires CanReach(u, cfgs, ts, n, cells, s')
    ensures OnTrack(u, cfgs, ts, n, cells, s') && (AtStop(cfgs, s') || NothingLeft(s'))
    ensures AtStop(cfgs, s') ==> |s'.pool.tasks| < |p.tasks|
  {
    E.LookTakes(u, ts, p);
    assert forall w :: 1 <= w < n ==> s'.pool.workers[w] == s'.pool.workers[1..][w - 1] == p.workers[1..][w - 1];
  }

  /** What stays the same while worker 0 is busy with a service `t`, whose cell alone changes. */
  ghost predicate BusyWith(u: Universe, cfgs: map<Task, V.Config>, ts: seq<Task>, n: nat, cells: map<Task, O.Cell>,
                           t: Task, pool: P.Pool, c: O.Cell, s: Sys)
  {
    && OnTrack(u, cfgs, ts, n, cells, s) && s.pool == pool
    && Running(s, 0) && TaskOf(s, 0) == t && t !in s.pool.tasks
    && O.CellOf(s.cells, t) == c
  }

  lemma HeldIsNotLeft(u: Universe, cfgs: map<Task, V.Config>, ts: seq<Task>, n: nat, cells: map<Task, O.Cell>, s: Sys)
    requires u.Valid() && u.Schedulable(ts) && OnTrack(u, cfgs, ts, n, cells, s) && Running(s, 0)
    ensures BusyWith(u, cfgs, ts, n, cells, TaskOf(s, 0), s.pool, O.CellOf(s.cells, TaskOf(s, 0)), s)
  {
    ReachIsSound(u, cfgs, ts, n, cells, s);
    S.StagesPartition(u, ts, s.pool, TaskOf(s, 0));
    P.HoldersCount(s.pool.workers, TaskOf(s, 0));
  }

  /** Once a Stop has the lock of such a service it can end. */
  lemma BegunCanEnd(cfg: V.Config, svc: V.Service)
    requires R.CanReach(cfg, svc) && !svc.locked && svc.Status() != V.Stopped
    requires cfg.kind.OneShot? || !svc.waiter.Entering?
    ensures V.Enabled(cfg, svc, V.StopBegin) && W.CanEnd(cfg, V.Next(cfg, svc, V.StopBegin))
  {
    R.ReachNext(cfg, svc, V.StopBegin);
    var steps, states :| R.EndsIn(cfg, steps, states, V.Next(cfg, svc, V.StopBegin));
    W.StopEndsIff(cfg, steps, states, |steps|);
  }

  /** The Stop waits as long as it must. */
  lemma StopWaits(u: Universe, cfgs: map<Task, V.Config>, ts: seq<Task>, n: nat, cells: map<Task, O.Cell>, t: Task,
                  svc: V.Service, s: Sys) returns (s': Sys, svc': V.Service)
    requires BusyWith(u, cfgs, ts, n, cells, t, s.pool, O.InLaunch(svc), s) && s.phases[0].Stopping?
    requires W.CanEnd(O.Cfg(cfgs, t), svc)
    ensures BusyWith(u, cfgs, ts, n, cells, t, s.pool, O.InLaunch(svc'), s') && s'.phases[0].Stopping?
    ensures V.Enabled(O.Cfg(cfgs, t), svc', V.StopEnd(false))
  {
    var cfg := O.Cfg(cfgs, t);
    var steps: seq<V.Step>, states: seq<V.Service> :| W.LeadsToEnd(cfg, svc, steps, states);
    s' := s;
    for k := 0 to |steps|
      invariant BusyWith(u, cfgs, ts, n, cells, t, s.pool, O.InLaunch(states[k]), s') && s'.phases[0].Stopping?
    {
      assert V.Enabled(cfg, states[k], steps[k]) && !steps[k].StopEnd?;
      var step := ServiceStep(t, steps[k]);
      ReachNext(u, cfgs, ts, n, cells, s', step);
      s' := Next(u, cfgs, s', step);
    }
    svc' := states[|steps|];
  }

  /** Stop is called on the service, and returns nil. */
  lemma StopReturnsNil(u: Universe, cfgs: map<Task, V.Config>, ts: seq<Task>, n: nat, cells: map<Task, O.Cell>, s: Sys)
    returns (s': Sys, c: O.Cell)
    requires u.Valid() && u.Schedulable(ts) && OnTrack(u, cfgs, ts, n, cells, s) && AtStop(cfgs, s)
    ensures BusyWith(u, cfgs, ts, n, cells, TaskOf(s, 0), s.pool, c, s') && s'.phases[0] == Returned(None)
  {
    var t := TaskOf(s, 0);
    c := O.CellOf(s.cells, t);
    HeldIsNotLeft(u, cfgs, ts, n, cells, s);
    ReachNext(u, cfgs, ts, n, cells, s, CallStop(0));
    s' := Next(u, cfgs, s, CallStop(0));
    if c.Status() != V.Stopped {
      var waited := O.CellOf(s'.cells, t);
      if c.InLaunch? {
        BegunCanEnd(O.Cfg(cfgs, t), c.svc);
        var svc;
        s', svc := StopWaits(u, cfgs, ts, n, cells, t, waited.svc, s');
        waited := O.InLaunch(svc);
      }
      s', c := StopEnds(u, cfgs, ts, n, cells, t, waited, s');
    }
  }

  lemma StopEnds(u: Universe, cfgs: map<Task, V.Config>, ts: seq<Task>, n: nat, cells: map<Task, O.Cell>, t: Task,
                 waited: O.Cell, s: Sys) returns (s': Sys, c: O.Cell)
    requires BusyWith(u, cfgs, ts, n, cells, t, s.pool, waited, s) && s.phases[0].Stopping?
    requires CanEndStop(O.Cfg(cfgs, t), waited, false)
    ensures BusyWith(u, cfgs, ts, n, cells, t, s.pool, c, s') && s'.phases[0] == Returned(None)
  {
    ReachNext(u, cfgs, ts, n, cells, s, EndStop(0, false));
    s' := Next(u, cfgs, s, EndStop(0, false));
    c := O.CellOf(s'.cells, t);
  }

  lemma FinishIsLook(u: Universe, cfgs: map<Task, V.Config>, s: Sys)
    requires |s.phases| == |s.pool.workers| && Running(s, 0) && s.phases[0] == Returned(None)
    ensures var p := P.Turn(u, P.Complete(u, s.pool, 0), 0);
            && Enabled(u, cfgs, s, PoolFinish(0)) && |p.workers| == |s.phases|
            && Next(u, cfgs, s, PoolFinish(0)) == s.(pool := p, phases := AfterTurn(p, s.phases, 0))
  {
  }

  /** And worker 0 looks for the next one. */
  lemma StopIsOver(u: Universe, cfgs: map<Task, V.Config>, ts: seq<Task>, n: nat, cells: map<Task, O.Cell>, t: Task,
                   c: O.Cell, s: Sys) returns (s': Sys)
    requires u.Valid() && u.Schedulable(ts) && Acyclic(u.KeyGraph(ts))
    requires BusyWith(u, cfgs, ts, n, cells, t, s.pool, c, s) && s.phases[0] == Returned(None)
    ensures OnTrack(u, cfgs, ts, n, cells, s') && (AtStop(cfgs, s') || NothingLeft(s'))
    ensures AtStop(cfgs, s') ==> |s'.pool.tasks| < |s.pool.tasks|
  {
    ReachIsSound(u, cfgs, ts, n, cells, s);
    ReachNext(u, cfgs, ts, n, cells, s, PoolFinish(0));
    P.InvariantComplete(u, ts, s.pool, 0);
    E.AllAwake(u, s.pool);
    FinishIsLook(u, cfgs, s);
    s' := Next(u, cfgs, s, PoolFinish(0));
    AfterLook(u, cfgs, ts, n, cells, P.Complete(u, s.pool, 0), s, s');
  }

  lemma AllStop(u: Universe, cfgs: map<Task, V.Config>, ts: seq<Task>, n: nat, cells: map<Task, O.Cell>, s: Sys)
    returns (s': Sys)
    requires u.Valid() && u.Schedulable(ts) && Acyclic(u.KeyGraph(ts))
    requires OnTrack(u, cfgs, ts, n, cells, s) && (AtStop(cfgs, s) || NothingLeft(s))
    ensures OnTrack(u, cfgs, ts, n, cells, s') && NothingLeft(s')
  {
    s' := s;
    while AtStop(cfgs, s')
      invariant OnTrack(u, cfgs, ts, n, cells, s') && (AtStop(cfgs, s') || NothingLeft(s'))
      decreases if AtStop(cfgs, s') then |s'.pool.tasks| + 1 else 0
    {
      var t := TaskOf(s', 0);
      var stopped, c := StopReturnsNil(u, cfgs, ts, n, cells, s');
      s' := StopIsOver(u, cfgs, ts, n, cells, t, c, stopped);
    }
  }

  lemma OthersLeave(u: Universe, cfgs: map<Task, V.Config>, ts: seq<Task>, n: nat, cells: map<Task, O.Cell>, s: Sys)
    returns (s': Sys)
    requires OnTrack(u, cfgs, ts, n, cells, s) && NothingLeft(s)
    ensures CanReach(u, cfgs, ts, n, cells, s') && S.AllExited(s'.pool) && s'.pool.err.None?
  {
    s' := s;
    for w := 1 to n
      invariant CanReach(u, cfgs, ts, n, cells, s') && |s'.pool.workers| == |s'.phases| == n
      invariant s'.pool.err.None? && s'.pool.tasks == []
      invariant forall v :: 0 <= v < w ==> s'.pool.workers[v].Exited?
      invariant forall v :: w <= v < n ==> s'.pool.workers[v].Awake?
    {
      ReachNext(u, cfgs, ts, n, cells, s', PoolEnter(w));
      s' := Next(u, cfgs, s', PoolEnter(w));
    }
  }

  lemma FirstLook(u: Universe, cfgs: map<Task, V.Config>, ts: seq<Task>, n: nat, cells: map<Task, O.Cell>)
    returns (s: Sys)
    requires u.Valid() && u.Schedulable(ts) && Acyclic(u.KeyGraph(ts)) && n >= 1
    requires forall t :: t in ts ==> Stoppable(cfgs, t, O.CellOf(cells, t))
    ensures OnTrack(u, cfgs, ts, n, cells, s) && (AtStop(cfgs, s) || NothingLeft(s))
  {
    var first := Sys(P.Init(ts, n), seq(n, _ => Idle), cells, []);
    assert EndsIn(u, cfgs, ts, n, cells, [], [first], first);
    ReachIsSound(u, cfgs, ts, n, cells, first);
    ReachNext(u, cfgs, ts, n, cells, first, PoolEnter(0));
    s := Next(u, cfgs, first, PoolEnter(0));
    AfterLook(u, cfgs, ts, n, cells, first.pool, first, s);
  }

  /** Services without cyclic dependencies, in whatever state: as long as nobody is stopping them, and the waiter of
      each daemon in its first launch has got hold of the lock, any number of workers can stop all of them, and the
      StopAll then reports success. */
  lemma StopCanSucceed(u: Universe, cfgs: map<Task, V.Config>, ts: seq<Task>, n: nat, cells: map<Task, O.Cell>)
    returns (steps: seq<Step>, states: seq<Sys>)
    requires u.Valid() && u.Schedulable(ts) && Acyclic(u.KeyGraph(ts)) && n >= 1
    requires forall t :: t in ts ==> Stoppable(cfgs, t, O.CellOf(cells, t))
    ensures Execution(u, cfgs, ts, n, steps, states) && states[0].cells == cells
    ensures S.AllExited(states[|steps|].pool) && states[|steps|].pool.err.None?
    ensures forall t :: t in ts ==> StopReturned(t, V.Stopped) in states[|steps|].log
  {
    var s := FirstLook(u, cfgs, ts, n, cells);
    s := AllStop(u, cfgs, ts, n, cells, s);
    s := OthersLeave(u, cfgs, ts, n, cells, s);
    steps, states :| EndsIn(u, cfgs, ts, n, cells, steps, states, s);
    StopSucceedsIff(u, cfgs, ts, n, steps, states, |steps|);
  }

  /** So an ordered StopAll can succeed whenever the services' own dependencies have no cycle. */
  lemma StopAllCanSucceed(u: Universe, kept: seq<Task>, r: Universe, rs: seq<Task>, cfgs: map<Task, V.Config>, n: nat,
                          cells: map<Task, O.Cell>)
    returns (steps: seq<Step>, states: seq<Sys>)
    requires IsReversal(u, kept, r, rs) && Acyclic(u.KeyGraph(kept)) && n >= 1
    requires forall t :: t in kept ==> Stoppable(cfgs, t, O.CellOf(cells, t))
    ensures Execution(r, cfgs, rs, n, steps, states) && states[0].cells == cells
    ensures S.AllExited(states[|steps|].pool) && states[|steps|].pool.err.None?
    ensures forall t :: t in kept ==> StopReturned(t, V.Stopped) in states[|steps|].log
  {
    ReversalKeepsAcyclicity(u, kept, r, rs);
    steps, states := StopCanSucceed(r, cfgs, rs, n, cells);
  }
}
