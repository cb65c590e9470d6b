/** How a start ends: when it reports success, what its error says, and that it can succeed. */
module StartOutcome {
  import opened Graphs
  import opened Options
  import opened Tasks
  import opened StartOrder
  import P = Pool
  import S = Scheduler
  import V = ServiceProtocol
  import R = ServiceReach

  // ----- the outcome of a start -----

  ghost predicate ReturnedNil(s: Sys, w: nat, t: Task) {
    Running(s, w) && s.pool.workers[w].task == t && s.phases[w] == Returned(None)
  }

  /** A service observed in STARTED is done, or about to be. */
  ghost predicate NilFits(s: Sys, t: Task) {
    Observed(t, V.Started) in s.log ==> t in P.DoneTasks(s.pool.log) || exists w: nat :: ReturnedNil(s, w, t)
  }

  /** The error is what Start returned, or the service was seen in a state other than STARTED. */
  ghost predicate Reason(log: seq<Event>, t: Task, e: P.Error) {
    || StartCalled(t, Some(e)) in log
    || (StartCalled(t, None) in log && e == "unexpected state"
        && exists st :: st != V.Starting && st != V.Started && Observed(t, st) in log)
  }

  ghost predicate ErrorsFit(s: Sys) {
    && |s.phases| == |s.pool.workers|
    && (forall w: nat :: Running(s, w) && s.phases[w].AwaitHealthy? ==>
          StartCalled(s.pool.workers[w].task, None) in s.log)
    && (forall w: nat :: Running(s, w) && s.phases[w].Returned? && s.phases[w].outcome.Some? ==>
          Reason(s.log, s.pool.workers[w].task, s.phases[w].outcome.value))
    && (forall t, e :: P.Failed(t, e) in s.pool.log ==> Reason(s.log, t, e))
    && (forall t :: Observed(t, V.Starting) !in s.log)
  }

  ghost predicate OutcomesFit(s: Sys) {
    ErrorsFit(s) && forall t :: NilFits(s, t)
  }

  lemma FailedByStep(u: Universe, p: P.Pool, step: P.Step)
    requires P.Enabled(p, step)
    ensures forall t, e :: P.Failed(t, e) in P.Next(u, p, step).log ==>
              P.Failed(t, e) in p.log
              || (step == P.Finish(step.worker, Some(e)) && t == p.workers[step.worker].task)
  {
  }

  lemma ErrorsFitPool(u: Universe, s: Sys, step: P.Step, s': Sys)
    requires ErrorsFit(s) && PhasesFit(s) && P.Enabled(s.pool, step)
    requires step.Finish? ==> s.phases[step.worker] == Returned(step.outcome)
    requires s' == s.(pool := P.Next(u, s.pool, step),
                      phases := AfterTurn(P.Next(u, s.pool, step), s.phases, step.worker))
    ensures ErrorsFit(s')
  {
    FailedByStep(u, s.pool, step);
    forall v: nat | v < |s.phases| && v != step.worker
      ensures Running(s', v) ==> Running(s, v) && s'.pool.workers[v] == s.pool.workers[v]
    {
      OthersKeepTheirTasks(u, s.pool, step, v);
    }
  }

  lemma NilFitsPool(u: Universe, s: Sys, step: P.Step, s': Sys, t: Task)
    requires NilFits(s, t) && PhasesFit(s) && P.Enabled(s.pool, step)
    requires step.Finish? ==> s.phases[step.worker] == Returned(step.outcome)
    requires s' == s.(pool := P.Next(u, s.pool, step),
                      phases := AfterTurn(P.Next(u, s.pool, step), s.phases, step.worker))
    ensures NilFits(s', t)
  {
    S.DoneByStep(u, s.pool, step);
    if w: nat :| ReturnedNil(s, w, t) {
      if w != step.worker {
        OthersKeepTheirTasks(u, s.pool, step, w);
        assert ReturnedNil(s', w, t);
      }
    }
  }

  lemma OutcomesFitStarter(u: Universe, cfgs: map<Task, V.Config>, s: Sys, step: Step, s': Sys)
    requires OutcomesFit(s) && PhasesFit(s) && Enabled(u, cfgs, s, step) && s' == Next(u, cfgs, s, step)
    requires step.CallStart? || step.Observe?
    ensures OutcomesFit(s')
  {
    var e := s'.log[|s.log|];
    assert s'.log == s.log + [e];
    forall t
      ensures NilFits(s', t)
    {
      assert NilFits(s, t);
      if Observed(t, V.Started) in s.log {
        if w: nat :| ReturnedNil(s, w, t) {
          assert ReturnedNil(s', w, t);
        }
      } else if e == Observed(t, V.Started) {
        assert ReturnedNil(s', step.worker, t);
      }
    }
    ErrorsFitStarter(u, cfgs, s, step, s', e);
  }

  lemma ReasonStays(log: seq<Event>, event: Event, t: Task, e: P.Error)
    requires Reason(log, t, e)
    ensures Reason(log + [event], t, e)
  {
  }

  lemma ErrorsFitStarter(u: Universe, cfgs: map<Task, V.Config>, s: Sys, step: Step, s': Sys, event: Event)
    requires ErrorsFit(s) && Enabled(u, cfgs, s, step) && s' == Next(u, cfgs, s, step)
    requires (step.CallStart? || step.Observe?) && s'.log == s.log + [event]
    ensures ErrorsFit(s')
  {
    forall t, e | Reason(s.log, t, e)
      ensures Reason(s'.log, t, e)
    {
      ReasonStays(s.log, event, t, e);
    }
    assert event in s'.log;
  }

  lemma OutcomesFitNext(u: Universe, cfgs: map<Task, V.Config>, s: Sys, step: Step, s': Sys)
    requires OutcomesFit(s) && PhasesFit(s) && Enabled(u, cfgs, s, step) && s' == Next(u, cfgs, s, step)
    ensures OutcomesFit(s') && |s'.pool.workers| == |s.pool.workers|
  {
    match step
    case CallStart(_, _) => OutcomesFitStarter(u, cfgs, s, step, s');
    case Observe(_) => OutcomesFitStarter(u, cfgs, s, step, s');
    case PoolEnter(w) => OutcomesFitPool(u, s, P.Enter(w), s');
    case PoolFinish(w) => OutcomesFitPool(u, s, P.Finish(w, s.phases[w].outcome), s');
    case _ =>
      assert s'.pool == s.pool && s'.phases == s.phases && s'.log == s.log;
      OutcomesStay(s, s');
  }

  lemma OutcomesStay(s: Sys, s': Sys)
    requires OutcomesFit(s) && s'.pool == s.pool && s'.phases == s.phases && s'.log == s.log
    ensures OutcomesFit(s')
  {
    forall t
      ensures NilFits(s', t)
    {
      assert NilFits(s, t);
      if w: nat :| ReturnedNil(s, w, t) {
        assert ReturnedNil(s', w, t);
      }
    }
  }

  lemma OutcomesFitPool(u: Universe, s: Sys, step: P.Step, s': Sys)
    requires OutcomesFit(s) && PhasesFit(s) && P.Enabled(s.pool, step)
    requires step.Finish? ==> s.phases[step.worker] == Returned(step.outcome)
    requires s' == s.(pool := P.Next(u, s.pool, step),
                      phases := AfterTurn(P.Next(u, s.pool, step), s.phases, step.worker))
    ensures OutcomesFit(s')
  {
    ErrorsFitPool(u, s, step, s');
    forall t
      ensures NilFits(s', t)
    {
      NilFitsPool(u, s, step, s', t);
    }
  }

  lemma OutcomesInitially(cfgs: map<Task, V.Config>, ts: seq<Task>, n: nat, s: Sys)
    requires Init(cfgs, ts, n, s)
    ensures OutcomesFit(s) && |s.pool.workers| == n
  {
  }

  lemma {:induction false} OutcomesAlways(
    u: Universe, cfgs: map<Task, V.Config>, ts: seq<Task>, n: nat, steps: seq<Step>, states: seq<Sys>, i: nat)
    requires u.Valid() && u.Schedulable(ts)
    requires Execution(u, cfgs, ts, n, steps, states) && i < |states|
    ensures Invariant(u, cfgs, ts, states[i]) && OutcomesFit(states[i]) && |states[i].pool.workers| == n
  {
    InvariantAlways(u, cfgs, ts, n, steps, states, i);
    if i > 0 {
      var k := i - 1;
      OutcomesAlways(u, cfgs, ts, n, steps, states, k);
      var s, s' := states[k], states[k + 1];
      assert Enabled(u, cfgs, s, steps[k]) && s' == Next(u, cfgs, s, steps[k]);
      OutcomesFitNext(u, cfgs, s, steps[k], s');
      assert k + 1 == i;
    } else {
      OutcomesInitially(cfgs, ts, n, states[0]);
    }
  }

  lemma OneHolder(ws: seq<P.Worker>, v: nat, w: nat, t: Task)
    requires v < |ws| && w < |ws| && ws[v] == ws[w] == P.Running(t) && P.Holders(ws, t) <= 1
    ensures v == w
  {
    P.HoldersUpdate(ws, v, P.Awake, t);
    P.HoldersCount(ws[v := P.Awake], t);
  }

  /** A worker is about to return nil for its service exactly when it saw that in STARTED. */
  lemma ReturnsNilIff(
    u: Universe, cfgs: map<Task, V.Config>, ts: seq<Task>, n: nat, steps: seq<Step>, states: seq<Sys>, i: nat, w: nat)
    requires u.Valid() && u.Schedulable(ts)
    requires Execution(u, cfgs, ts, n, steps, states) && i < |states| && Running(states[i], w)
    ensures states[i].phases[w] == Returned(None) <==>
            Observed(states[i].pool.workers[w].task, V.Started) in states[i].log
  {
    OutcomesAlways(u, cfgs, ts, n, steps, states, i);
    var s, t := states[i], states[i].pool.workers[w].task;
    assert NilFits(s, t);
    S.StagesPartition(u, ts, s.pool, t);
    P.HoldersCount(s.pool.workers, t);
    if v: nat :| ReturnedNil(s, v, t) {
      OneHolder(s.pool.workers, v, w, t);
    }
  }

  /** No service is observed while it is STARTING. */
  lemma ObservedIsSettled(
    u: Universe, cfgs: map<Task, V.Config>, ts: seq<Task>, n: nat, steps: seq<Step>, states: seq<Sys>, i: nat, k: nat)
    requires u.Valid() && u.Schedulable(ts)
    requires Execution(u, cfgs, ts, n, steps, states) && i < |states|
    requires k < |states[i].log| && states[i].log[k].Observed?
    ensures states[i].log[k].status != V.Starting
  {
    OutcomesAlways(u, cfgs, ts, n, steps, states, i);
    assert states[i].log[k] in states[i].log;
  }

  /** A start that has ended reports success exactly when every service on its list was observed in STARTED. */
  lemma StartSucceedsIff(
    u: Universe, cfgs: map<Task, V.Config>, ts: seq<Task>, n: nat, steps: seq<Step>, states: seq<Sys>, i: nat)
    requires u.Valid() && u.Schedulable(ts) && n >= 1
    requires Execution(u, cfgs, ts, n, steps, states) && i < |states| && S.AllExited(states[i].pool)
    ensures states[i].pool.err.None? <==> forall t :: t in ts ==> Observed(t, V.Started) in states[i].log
  {
    OutcomesAlways(u, cfgs, ts, n, steps, states, i);
    var s := states[i];
    if s.pool.err.None? {
      S.SuccessCompletesAll(u, ts, s.pool);
    } else if forall t :: t in ts ==> Observed(t, V.Started) in s.log {
      FailedIsNotObserved(u, ts, s, P.FailedTasks(s.pool.log)[0]);
      S.StagesPartition(u, ts, s.pool, P.FailedTasks(s.pool.log)[0]);
      assert false;
    }
  }

  /** A service whose task failed was not observed in STARTED. */
  lemma FailedIsNotObserved(u: Universe, ts: seq<Task>, s: Sys, f: Task)
    requires P.Invariant(u, ts, s.pool) && NilFits(s, f) && f in P.FailedTasks(s.pool.log)
    ensures Observed(f, V.Started) !in s.log
  {
    S.StagesPartition(u, ts, s.pool, f);
    P.HoldersCount(s.pool.workers, f);
    assert f in multiset(P.FailedTasks(s.pool.log));
    assert f in multiset(P.DoneTasks(s.pool.log)) <==> f in P.DoneTasks(s.pool.log);
  }

  /** And if it reports an error that is what Start returned for one of the services, or one that Start was called on
      without an error was seen in a state other than STARTED once STARTING was over. */
  lemma StartFailsBecause(
    u: Universe, cfgs: map<Task, V.Config>, ts: seq<Task>, n: nat, steps: seq<Step>, states: seq<Sys>, i: nat)
    requires u.Valid() && u.Schedulable(ts)
    requires Execution(u, cfgs, ts, n, steps, states) && i < |states| && states[i].pool.err.Some?
    ensures exists t :: t in ts && Reason(states[i].log, t, states[i].pool.err.value)
  {
    OutcomesAlways(u, cfgs, ts, n, steps, states, i);
    var p := states[i].pool;
    var t := FirstErrorFailed(p.log);
    S.FailedWhere(p.log, t);
    S.StagesPartition(u, ts, p, t);
  }

  lemma {:induction false} FirstErrorFailed(log: seq<P.Event>) returns (t: Task)
    requires P.FirstError(log).Some?
    ensures P.Failed(t, P.FirstError(log).value) in log
  {
    var front := log[..|log| - 1];
    if P.FirstError(front).Some? {
      t := FirstErrorFailed(front);
    } else {
      t := log[|log| - 1].task;
    }
  }

  /** A start task returns without waiting exactly when it found its service STOPPED and that could not be launched, and
      then with the reason. */
  lemma FailedLaunchIsReported(
    u: Universe, cfgs: map<Task, V.Config>, ts: seq<Task>, n: nat, steps: seq<Step>, states: seq<Sys>, i: nat, w: nat,
    launch: Launch, e: P.Error)
    requires Execution(u, cfgs, ts, n, steps, states) && i < |steps| && steps[i] == CallStart(w, launch)
    requires Running(states[i], w)
    ensures w < |states[i + 1].phases|
    ensures states[i + 1].phases[w] == Returned(Some(e)) <==>
            && CellOf(states[i].cells, states[i].pool.workers[w].task).Status() == V.Stopped
            && (launch == LogFileFails(e) || launch == ProcessFails(e))
  {
    assert states[i + 1] == Next(u, cfgs, states[i], steps[i]);
  }

  /** Neither the starter nor another client launches a service again as long as it is not STOPPED. */
  lemma {:induction false} LaunchIsKept(
    u: Universe, cfgs: map<Task, V.Config>, ts: seq<Task>, n: nat, steps: seq<Step>, states: seq<Sys>, i: nat, j: nat,
    t: Task)
    requires Execution(u, cfgs, ts, n, steps, states) && i <= j < |states| && CellOf(states[i].cells, t).InLaunch?
    requires forall k :: i <= k < j ==> CellOf(states[k].cells, t).Status() != V.Stopped
    ensures CellOf(states[j].cells, t).InLaunch?
    ensures CellOf(states[i].cells, t).svc.history <= CellOf(states[j].cells, t).svc.history
    decreases j
  {
    if i < j {
      LaunchIsKept(u, cfgs, ts, n, steps, states, i, j - 1, t);
      var step := steps[j - 1];
      assert CellOf(states[j - 1].cells, t).Status() != V.Stopped;
      assert states[j] == Next(u, cfgs, states[j - 1], step);
    }
  }

  // ----- a start can succeed -----

  /** A run that begins with services that nobody has touched. */
  ghost predicate EndsIn(u: Universe, cfgs: map<Task, V.Config>, ts: seq<Task>, n: nat, steps: seq<Step>,
                         states: seq<Sys>, s: Sys)
  {
    Execution(u, cfgs, ts, n, steps, states) && states[0].cells == map[] && states[|steps|] == s
  }

  ghost predicate CanReach(u: Universe, cfgs: map<Task, V.Config>, ts: seq<Task>, n: nat, s: Sys) {
    exists steps, states :: EndsIn(u, cfgs, ts, n, steps, states, s)
  }

  lemma ReachNext(u: Universe, cfgs: map<Task, V.Config>, ts: seq<Task>, n: nat, s: Sys, step: Step)
    requires CanReach(u, cfgs, ts, n, s) && Enabled(u, cfgs, s, step)
    ensures CanReach(u, cfgs, ts, n, Next(u, cfgs, s, step))
  {
    var steps, states :| EndsIn(u, cfgs, ts, n, steps, states, s);
    var t := Next(u, cfgs, s, step);
    assert EndsIn(u, cfgs, ts, n, steps + [step], states + [t], t);
  }

  lemma ReachIsSound(u: Universe, cfgs: map<Task, V.Config>, ts: seq<Task>, n: nat, s: Sys)
    requires u.Valid() && u.Schedulable(ts) && CanReach(u, cfgs, ts, n, s)
    ensures Invariant(u, cfgs, ts, s) && |s.pool.workers| == n
  {
    var steps, states :| EndsIn(u, cfgs, ts, n, steps, states, s);
    OutcomesAlways(u, cfgs, ts, n, steps, states, |steps|);
  }

  /** Worker 0 does all the work: it has a service to start or has left, the others have not looked yet, nothing has
      failed, and no service that is left has been touched. */
  ghost predicate OnTrack(u: Universe, cfgs: map<Task, V.Config>, ts: seq<Task>, n: nat, s: Sys) {
    && CanReach(u, cfgs, ts, n, s) && n >= 1 && |s.pool.workers| == |s.phases| == n
    && s.pool.err.None? && !s.pool.die
    && (forall w :: 1 <= w < n ==> s.pool.workers[w].Awake?)
    && (forall t :: t in s.pool.tasks ==> CellOf(s.cells, t).Fresh?)
  }

  ghost predicate AtStart(s: Sys) {
    Running(s, 0) && s.phases[0].ToStart? && CellOf(s.cells, s.pool.workers[0].task).Fresh?
  }

  ghost predicate NothingLeft(s: Sys) {
    |s.pool.workers| > 0 && s.pool.workers[0].Exited? && s.pool.tasks == []
  }

  /** A worker that looks while nobody runs gets a task, if there is any. */
  lemma LookFinds(u: Universe, ts: seq<Task>, p: P.Pool)
    requires P.Invariant(u, ts, p) && Acyclic(u.KeyGraph(ts)) && |p.workers| > 0
    requires !P.SomeRunning(p.workers) && !p.die
    ensures p.tasks != [] ==> P.FirstReady(u, p.completed, p.tasks) < |p.tasks|
  {
    if p.tasks != [] {
      var t := S.SomePendingReady(u, ts, p);
      var i :| 0 <= i < |p.tasks| && p.tasks[i] == t;
      assert P.Ready(u, p.completed, p.tasks[i]);
    }
  }

  /** With one task completed and nobody else running, all workers are awake. */
  lemma AllAwake(u: Universe, p: P.Pool)
    requires |p.workers| > 0 && p.workers[0].Running? && p.err.None? && !p.die
    requires forall w :: 1 <= w < |p.workers| ==> p.workers[w].Awake?
    ensures var q := P.Complete(u, p, 0);
            && |q.workers| == |p.workers| && q.tasks == p.tasks && q.err.None? && !q.die
            && forall w :: 0 <= w < |q.workers| ==> q.workers[w].Awake?
  {
  }

  /** Worker 0 takes a task that was left, or leaves with none left. */
  lemma LookTakes(u: Universe, ts: seq<Task>, p: P.Pool)
    requires P.Invariant(u, ts, p) && Acyclic(u.KeyGraph(ts)) && |p.workers| > 0
    requires !P.SomeRunning(p.workers) && !p.die
    ensures var q := P.Turn(u, p, 0);
            && |q.workers| == |p.workers| && q.workers[1..] == p.workers[1..] && q.err == p.err && q.die == p.die
            && (forall t :: t in q.tasks ==> t in p.tasks)
            && if p.tasks == [] then q.workers[0].Exited? && q.tasks == []
               else q.workers[0].Running? && q.workers[0].task in p.tasks && |q.tasks| < |p.tasks|
  {
    LookFinds(u, ts, p);
    var i := P.FirstReady(u, p.completed, p.tasks);
    if i < |p.tasks| {
      P.WithoutSplits(p.tasks, i);
    }
  }

  /** After its look worker 0 is at the start of a service or has left. */
  lemma AfterLook(u: Universe, cfgs: map<Task, V.Config>, ts: seq<Task>, n: nat, p: P.Pool, s: Sys, s': Sys)
    requires u.Valid() && u.Schedulable(ts) && Acyclic(u.KeyGraph(ts)) && n >= 1
    requires P.Invariant(u, ts, p) && |p.workers| == n && |s.phases| == n && !p.die && p.err.None?
    requires forall w :: 0 <= w < n ==> p.workers[w].Awake?
    requires forall t :: t in p.tasks ==> CellOf(s.cells, t).Fresh?
    requires s' == s.(pool := P.Turn(u, p, 0), phases := AfterTurn(P.Turn(u, p, 0), s.phases, 0))
    requires CanReach(u, cfgs, ts, n, s')
    ensures OnTrack(u, cfgs, ts, n, s') && (AtStart(s') || NothingLeft(s'))
    ensures |s'.pool.tasks| <= |p.tasks| && (AtStart(s') ==> |s'.pool.tasks| < |p.tasks|)
  {
    LookTakes(u, ts, p);
    assert forall w :: 1 <= w < n ==> s'.pool.workers[w] == s'.pool.workers[1..][w - 1] == p.workers[1..][w - 1];
  }

  /** What stays the same while worker 0 is busy with a service `t`, whose cell alone changes. */
  ghost predicate BusyWith(u: Universe, cfgs: map<Task, V.Config>, ts: seq<Task>, n: nat, t: Task, pool: P.Pool,
                           c: Cell, s: Sys)
  {
    && OnTrack(u, cfgs, ts, n, s) && s.pool == pool
    && Running(s, 0) && s.pool.workers[0].task == t && t !in s.pool.tasks
    && CellOf(s.cells, t) == c
  }

  /** The launch goes through the steps that lead to STARTED. */
  lemma LaunchStarts(u: Universe, cfgs: map<Task, V.Config>, ts: seq<Task>, n: nat, t: Task, s: Sys)
    returns (s': Sys, c: Cell)
    requires BusyWith(u, cfgs, ts, n, t, s.pool, InLaunch(V.Launched(Cfg(cfgs, t))), s)
    ensures BusyWith(u, cfgs, ts, n, t, s.pool, c, s') && s'.phases == s.phases && c.Status() == V.Started
  {
    var cfg := Cfg(cfgs, t);
    var steps, states := R.StartedCanBeReached(cfg);
    s' := s;
    for k := 0 to |steps|
      invariant BusyWith(u, cfgs, ts, n, t, s.pool, InLaunch(states[k]), s') && s'.phases == s.phases
    {
      var step := ServiceStep(t, steps[k]);
      assert V.Enabled(cfg, states[k], steps[k]);
      ReachNext(u, cfgs, ts, n, s', step);
      s' := Next(u, cfgs, s', step);
    }
    c := InLaunch(states[|steps|]);
  }

  /** Start is called on an untouched service, and its launch begins. */
  lemma StartIsCalled(u: Universe, cfgs: map<Task, V.Config>, ts: seq<Task>, n: nat, s: Sys) returns (s': Sys)
    requires u.Valid() && u.Schedulable(ts) && OnTrack(u, cfgs, ts, n, s) && AtStart(s)
    ensures var t := s.pool.workers[0].task;
            BusyWith(u, cfgs, ts, n, t, s.pool, InLaunch(V.Launched(Cfg(cfgs, t))), s')
    ensures s'.phases[0] == AwaitHealthy
  {
    var t := s.pool.workers[0].task;
    ReachIsSound(u, cfgs, ts, n, s);
    S.StagesPartition(u, ts, s.pool, t);
    P.HoldersCount(s.pool.workers, t);
    ReachNext(u, cfgs, ts, n, s, CallStart(0, Succeeds));
    s' := Next(u, cfgs, s, CallStart(0, Succeeds));
  }

  /** A service that is STARTED is observed. */
  lemma StartIsSeen(u: Universe, cfgs: map<Task, V.Config>, ts: seq<Task>, n: nat, t: Task, c: Cell, s: Sys)
    returns (s': Sys)
    requires BusyWith(u, cfgs, ts, n, t, s.pool, c, s) && s.phases[0] == AwaitHealthy && c.Status() == V.Started
    ensures BusyWith(u, cfgs, ts, n, t, s.pool, c, s') && s'.phases[0] == Returned(None)
  {
    ReachNext(u, cfgs, ts, n, s, Observe(0));
    s' := Next(u, cfgs, s, Observe(0));
  }

  lemma FinishIsLook(u: Universe, cfgs: map<Task, V.Config>, s: Sys)
    requires |s.phases| == |s.pool.workers| && Running(s, 0) && s.phases[0] == Returned(None)
    ensures var p := P.Turn(u, P.Complete(u, s.pool, 0), 0);
            && Enabled(u, cfgs, s, PoolFinish(0)) && |p.workers| == |s.phases|
            && Next(u, cfgs, s, PoolFinish(0)) == s.(pool := p, phases := AfterTurn(p, s.phases, 0))
  {
  }

  /** And worker 0 looks for the next one. */
  lemma StartIsOver(u: Universe, cfgs: map<Task, V.Config>, ts: seq<Task>, n: nat, t: Task, c: Cell, s: Sys)
    returns (s': Sys)
    requires u.Valid() && u.Schedulable(ts) && Acyclic(u.KeyGraph(ts))
    requires BusyWith(u, cfgs, ts, n, t, s.pool, c, s) && s.phases[0] == Returned(None)
    ensures OnTrack(u, cfgs, ts, n, s') && (AtStart(s') || NothingLeft(s'))
    ensures AtStart(s') ==> |s'.pool.tasks| < |s.pool.tasks|
  {
    ReachIsSound(u, cfgs, ts, n, s);
    ReachNext(u, cfgs, ts, n, s, PoolFinish(0));
    P.InvariantComplete(u, ts, s.pool, 0);
    AllAwake(u, s.pool);
    FinishIsLook(u, cfgs, s);
    s' := Next(u, cfgs, s, PoolFinish(0));
    AfterLook(u, cfgs, ts, n, P.Complete(u, s.pool, 0), s, s');
  }

  /** Worker 0 starts one service after the other. */
  lemma AllStart(u: Universe, cfgs: map<Task, V.Config>, ts: seq<Task>, n: nat, s: Sys) returns (s': Sys)
    requires u.Valid() && u.Schedulable(ts) && Acyclic(u.KeyGraph(ts))
    requires OnTrack(u, cfgs, ts, n, s) && (AtStart(s) || NothingLeft(s))
    ensures OnTrack(u, cfgs, ts, n, s') && NothingLeft(s')
  {
    s' := s;
    while AtStart(s')
      invariant OnTrack(u, cfgs, ts, n, s') && (AtStart(s') || NothingLeft(s'))
      decreases if AtStart(s') then |s'.pool.tasks| + 1 else 0
    {
      var t := s'.pool.workers[0].task;
      var called := StartIsCalled(u, cfgs, ts, n, s');
      var started, c := LaunchStarts(u, cfgs, ts, n, t, called);
      var seen := StartIsSeen(u, cfgs, ts, n, t, c, started);
      s' := StartIsOver(u, cfgs, ts, n, t, c, seen);
    }
  }

  /** With nothing left each of the other workers leaves. */
  lemma OthersLeave(u: Universe, cfgs: map<Task, V.Config>, ts: seq<Task>, n: nat, s: Sys) returns (s': Sys)
    requires OnTrack(u, cfgs, ts, n, s) && NothingLeft(s)
    ensures CanReach(u, cfgs, ts, n, s') && S.AllExited(s'.pool) && s'.pool.err.None?
  {
    s' := s;
    for w := 1 to n
      invariant CanReach(u, cfgs, ts, n, s') && |s'.pool.workers| == |s'.phases| == n
      invariant s'.pool.err.None? && s'.pool.tasks == []
      invariant forall v :: 0 <= v < w ==> s'.pool.workers[v].Exited?
      invariant forall v :: w <= v < n ==> s'.pool.workers[v].Awake?
    {
      ReachNext(u, cfgs, ts, n, s', PoolEnter(w));
      s' := Next(u, cfgs, s', PoolEnter(w));
    }
  }

  /** Worker 0 looks first. */
  lemma FirstLook(u: Universe, cfgs: map<Task, V.Config>, ts: seq<Task>, n: nat) returns (s: Sys)
    requires u.Valid() && u.Schedulable(ts) && Acyclic(u.KeyGraph(ts)) && n >= 1
    ensures OnTrack(u, cfgs, ts, n, s) && (AtStart(s) || NothingLeft(s))
  {
    var first := Sys(P.Init(ts, n), seq(n, _ => Idle), map[], []);
    assert EndsIn(u, cfgs, ts, n, [], [first], first);
    ReachIsSound(u, cfgs, ts, n, first);
    ReachNext(u, cfgs, ts, n, first, PoolEnter(0));
    s := Next(u, cfgs, first, PoolEnter(0));
    AfterLook(u, cfgs, ts, n, first.pool, first, s);
  }

  /** Services that have not been touched, without cyclic dependencies: any number of workers can start all of them,
      and the start then reports success. */
  lemma StartCanSucceed(u: Universe, cfgs: map<Task, V.Config>, ts: seq<Task>, n: nat)
    returns (steps: seq<Step>, states: seq<Sys>)
    requires u.Valid() && u.Schedulable(ts) && Acyclic(u.KeyGraph(ts)) && n >= 1
    ensures Execution(u, cfgs, ts, n, steps, states) && states[0].cells == map[]
    ensures S.AllExited(states[|steps|].pool) && states[|steps|].pool.err.None?
    ensures forall t :: t in ts ==> Observed(t, V.Started) in states[|steps|].log
  {
    var s := FirstLook(u, cfgs, ts, n);
    s := AllStart(u, cfgs, ts, n, s);
    s := OthersLeave(u, cfgs, ts, n, s);
    steps, states :| EndsIn(u, cfgs, ts, n, steps, states, s);
    StartSucceedsIff(u, cfgs, ts, n, steps, states, |steps|);
  }
}
