/** What the worker pool guarantees over whole runs: order, exactly-once, no deadlock, termination and
    the outcome of Run. */
module Scheduler {
  import opened Graphs
  import opened Options
  import opened Tasks
  import opened Pool

  // ----- reading the history -----

  lemma {:induction false} TakenWhere(log: seq<Event>, t: Task)
    ensures t in TakenTasks(log) <==> Took(t) in log
  {
    if log != [] {
      TakenWhere(log[..|log| - 1], t);
      assert log == log[..|log| - 1] + [log[|log| - 1]];
    }
  }

  lemma {:induction false} DoneWhere(log: seq<Event>, t: Task)
    ensures t in DoneTasks(log) <==> Done(t) in log
  {
    if log != [] {
      DoneWhere(log[..|log| - 1], t);
      assert log == log[..|log| - 1] + [log[|log| - 1]];
    }
  }

  lemma {:induction false} FailedWhere(log: seq<Event>, t: Task)
    ensures t in FailedTasks(log) <==> exists e :: Failed(t, e) in log
  {
    if log != [] {
      FailedWhere(log[..|log| - 1], t);
      assert log == log[..|log| - 1] + [log[|log| - 1]];
    }
  }

  lemma {:induction false} TakenTwice(log: seq<Event>, i: nat, j: nat)
    requires i < j < |log| && log[i].Took? && log[i] == log[j]
    ensures multiset(TakenTasks(log))[log[i].task] >= 2
    decreases |log|
  {
    var init, last := log[..|log| - 1], log[|log| - 1];
    if j < |init| {
      TakenTwice(init, i, j);
    } else {
      assert init[i] in init;
      TakenWhere(init, last.task);
      assert last.task in multiset(TakenTasks(init));
    }
  }

  // ----- a single state -----

  lemma {:induction false} ListedOnce(u: Universe, ts: seq<Task>, t: Task)
    requires u.DistinctKeys(ts)
    ensures multiset(ts)[t] <= 1
  {
    if ts != [] {
      var init, last := ts[..|ts| - 1], ts[|ts| - 1];
      ListedOnce(u, init, t);
      assert ts == init + [last];
      assert t == last ==> t !in init;
    }
  }

  /** Each listed task is in exactly one of the four stages, and never in two workers. */
  lemma StagesPartition(u: Universe, ts: seq<Task>, p: Pool, t: Task)
    requires Invariant(u, ts, p)
    ensures t in ts ==>
              multiset(p.tasks)[t] + Holders(p.workers, t)
              + multiset(DoneTasks(p.log))[t] + multiset(FailedTasks(p.log))[t] == 1
    ensures t !in ts ==>
              t !in p.tasks && Holders(p.workers, t) == 0 && t !in DoneTasks(p.log) && t !in FailedTasks(p.log)
    ensures t in TakenTasks(p.log) <==> t in ts && t !in p.tasks
  {
    assert Accounted(ts, p, t);
    ListedOnce(u, ts, t);
    assert t in multiset(ts) <==> t in ts;
    assert t in multiset(p.tasks) <==> t in p.tasks;
    assert t in multiset(DoneTasks(p.log)) <==> t in DoneTasks(p.log);
    assert t in multiset(FailedTasks(p.log)) <==> t in FailedTasks(p.log);
    assert t in multiset(TakenTasks(p.log)) <==> t in TakenTasks(p.log);
  }

  lemma {:induction false} DoneOnlyGrows(u: Universe, log: seq<Event>, i: nat)
    requires i <= |log|
    ensures u.KeysOf(DoneTasks(log[..i])) <= u.KeysOf(DoneTasks(log))
    decreases |log|
  {
    if i < |log| {
      var init := log[..|log| - 1];
      assert init[..i] == log[..i];
      DoneOnlyGrows(u, init, i);
    } else {
      assert log[..i] == log;
    }
  }

  /** Every task that was ever taken has all its dependencies among the completed ones. */
  lemma TakenHasDependencies(u: Universe, ts: seq<Task>, p: Pool, t: Task)
    requires Invariant(u, ts, p) && t in TakenTasks(p.log)
    ensures u.DepKeys(t) <= p.completed
  {
    TakenWhere(p.log, t);
    var i :| 0 <= i < |p.log| && p.log[i] == Took(t);
    assert OrderlyAt(u, p.log[..i], p.log[i]);
    DoneOnlyGrows(u, p.log, i);
  }

  lemma CompletedIsDone(u: Universe, ts: seq<Task>, p: Pool, t: Task)
    requires Invariant(u, ts, p) && t in ts
    ensures u.Key(t) in p.completed <==> t in DoneTasks(p.log)
    ensures t in DoneTasks(p.log) ==> t in TakenTasks(p.log)
  {
    if u.Key(t) in p.completed {
      var s :| s in DoneTasks(p.log) && u.Key(s) == u.Key(t);
      StagesPartition(u, ts, p, s);
      SameKeySameTask(u, ts, s, t);
    }
    if t in DoneTasks(p.log) {
      StagesPartition(u, ts, p, t);
      assert t in multiset(DoneTasks(p.log));
    }
  }

  lemma TaskOfKey(u: Universe, ts: seq<Task>, k: string) returns (t: Task)
    requires u.DistinctKeys(ts) && k in u.KeyGraph(ts)
    ensures t in ts && u.Key(t) == k && Succ(u.KeyGraph(ts), k) == u.DepKeys(t)
  {
    u.KeyGraphEdges(ts);
    t :| t in ts && u.Key(t) == k;
  }

  /** The successors of a completed key are completed. */
  lemma CompletedStep(u: Universe, ts: seq<Task>, p: Pool, k: string, y: string)
    requires Invariant(u, ts, p) && k in p.completed && y in Succ(u.KeyGraph(ts), k)
    ensures y in p.completed
  {
    var t := TaskOfKey(u, ts, k);
    CompletedIsDone(u, ts, p, t);
    TakenHasDependencies(u, ts, p, t);
  }

  lemma TakenStep(u: Universe, ts: seq<Task>, p: Pool, t: Task, y: string)
    requires Invariant(u, ts, p) && t in TakenTasks(p.log) && y in Succ(u.KeyGraph(ts), u.Key(t))
    ensures y in p.completed
  {
    StagesPartition(u, ts, p, t);
    u.KeyGraphEdges(ts);
    TakenHasDependencies(u, ts, p, t);
  }

  /** Everything a taken task transitively depends on was completed. */
  lemma CompletedAlongWalk(u: Universe, ts: seq<Task>, p: Pool, t: Task, path: seq<string>)
    requires Invariant(u, ts, p) && t in TakenTasks(p.log)
    requires Walk(u.KeyGraph(ts), path) && |path| >= 2 && path[0] == u.Key(t)
    ensures path[|path| - 1] in p.completed
  {
    var g, s := u.KeyGraph(ts), p.completed;
    assert path[1] in Succ(g, path[0]);
    TakenStep(u, ts, p, t, path[1]);
    forall x, y | x in s && y in Succ(g, x)
      ensures y in s
    {
      CompletedStep(u, ts, p, x, y);
    }
    assert Walk(g, path[1..]);
    WalkStaysInside(g, s, path[1..]);
  }

  /** A task that transitively depends on a failed one is never taken. */
  lemma FailureBlocksDependents(u: Universe, ts: seq<Task>, p: Pool, t: Task, f: Task, path: seq<string>)
    requires Invariant(u, ts, p) && t in ts && f in FailedTasks(p.log)
    requires WalkTo(u.KeyGraph(ts), {u.Key(t)}, path, u.Key(f)) && |path| >= 2
    ensures t !in TakenTasks(p.log)
  {
    if t in TakenTasks(p.log) {
      CompletedAlongWalk(u, ts, p, t, path);
      StagesPartition(u, ts, p, f);
      CompletedIsDone(u, ts, p, f);
      assert false;
    }
  }

  // ----- order over a run -----

  /** In every run, when a task is taken each of its dependencies has completed earlier, nothing has failed
      earlier, and no task of the same key was taken earlier. */
  lemma TakenInOrder(u: Universe, ts: seq<Task>, p: Pool, i: nat)
    requires Invariant(u, ts, p)
    requires i < |p.log| && p.log[i].Took?
    ensures forall d :: d in u.Dependents(p.log[i].task) ==>
              exists j :: 0 <= j < i && p.log[j].Done? && u.Key(p.log[j].task) == u.Key(d)
    ensures forall j :: 0 <= j < i ==> !p.log[j].Failed?
    ensures forall j :: 0 <= j < i && p.log[j].Took? ==> u.Key(p.log[j].task) != u.Key(p.log[i].task)
  {
    var t, before := p.log[i].task, p.log[..i];
    assert OrderlyAt(u, before, p.log[i]);
    forall d | d in u.Dependents(t)
      ensures exists j :: 0 <= j < i && p.log[j].Done? && u.Key(p.log[j].task) == u.Key(d)
    {
      assert u.Key(d) in u.DepKeys(t);
      var s :| s in DoneTasks(before) && u.Key(s) == u.Key(d);
      DoneWhere(before, s);
      var j :| 0 <= j < i && before[j] == Done(s);
      assert p.log[j] == Done(s);
    }
    forall j | 0 <= j < i
      ensures !p.log[j].Failed?
    {
      if p.log[j].Failed? {
        assert before[j] == Failed(p.log[j].task, p.log[j].error);
        FailedWhere(before, p.log[j].task);
        assert false;
      }
    }
    forall j | 0 <= j < i && p.log[j].Took?
      ensures u.Key(p.log[j].task) != u.Key(t)
    {
      var s := p.log[j].task;
      TakenWhere(p.log, s);
      TakenWhere(p.log, t);
      StagesPartition(u, ts, p, s);
      StagesPartition(u, ts, p, t);
      if u.Key(s) == u.Key(t) {
        SameKeySameTask(u, ts, s, t);
        assert Accounted(ts, p, t);
        ListedOnce(u, ts, t);
        TakenTwice(p.log, j, i);
        assert false;
      }
    }
  }

  // ----- completed tasks are ranked by when they completed -----

  function FirstDone(u: Universe, log: seq<Event>): map<string, nat> {
    if log == [] then map[]
    else
      var last, before := log[|log| - 1], FirstDone(u, log[..|log| - 1]);
      if last.Done? && u.Key(last.task) !in before then before[u.Key(last.task) := |log| - 1] else before
  }

  lemma {:induction false} FirstDoneFinds(u: Universe, log: seq<Event>)
    ensures FirstDone(u, log).Keys == u.KeysOf(DoneTasks(log))
    ensures forall k :: k in FirstDone(u, log) ==>
              var i := FirstDone(u, log)[k];
              i < |log| && log[i].Done? && u.Key(log[i].task) == k
  {
    if log != [] {
      var init, last := log[..|log| - 1], log[|log| - 1];
      FirstDoneFinds(u, init);
      if last.Done? {
        KeysOfJoined(u, DoneTasks(init), [last.task]);
      }
    }
  }

  lemma {:induction false} FirstDoneStays(u: Universe, log: seq<Event>, i: nat, k: string)
    requires i <= |log| && k in FirstDone(u, log[..i])
    ensures k in FirstDone(u, log) && FirstDone(u, log)[k] < i
    decreases |log|
  {
    if i == |log| {
      assert log[..i] == log;
      FirstDoneFinds(u, log);
    } else {
      var init := log[..|log| - 1];
      assert init[..i] == log[..i];
      FirstDoneStays(u, init, i, k);
    }
  }

  /** Whatever a task finished at position `i` depends on had completed before. */
  lemma DependencyDoneBefore(u: Universe, log: seq<Event>, i: nat, d: Task)
    requires Orderly(u, log) && i < |log| && log[i].Done? && d in u.Dependents(log[i].task)
    ensures u.Key(d) in FirstDone(u, log) && FirstDone(u, log)[u.Key(d)] < i
  {
    var t, before := log[i].task, log[..i];
    assert OrderlyAt(u, before, log[i]);
    TakenWhere(before, t);
    var j :| 0 <= j < i && before[j] == Took(t);
    assert OrderlyAt(u, log[..j], log[j]);
    assert u.Key(d) in u.DepKeys(t);
    FirstDoneFinds(u, log[..j]);
    FirstDoneStays(u, log, j, u.Key(d));
  }

  lemma FirstDoneTask(u: Universe, ts: seq<Task>, p: Pool, t: Task)
    requires Invariant(u, ts, p) && t in ts && u.Key(t) in p.completed
    ensures u.Key(t) in FirstDone(u, p.log)
    ensures var i := FirstDone(u, p.log)[u.Key(t)]; i < |p.log| && p.log[i] == Done(t)
  {
    FirstDoneFinds(u, p.log);
    var i := FirstDone(u, p.log)[u.Key(t)];
    var s := p.log[i].task;
    DoneWhere(p.log, s);
    StagesPartition(u, ts, p, s);
    SameKeySameTask(u, ts, s, t);
  }

  /** At any moment the completed tasks are closed under dependency and ranked by when they completed, even
      when the task list as a whole has cycles. */
  lemma CompletedIsRanked(u: Universe, ts: seq<Task>, p: Pool, t: Task, d: Task)
    requires Invariant(u, ts, p)
    requires t in ts && u.Key(t) in p.completed && d in u.Dependents(t)
    ensures FirstDone(u, p.log).Keys == p.completed
    ensures u.Key(d) in p.completed
    ensures FirstDone(u, p.log)[u.Key(d)] < FirstDone(u, p.log)[u.Key(t)]
  {
    FirstDoneFinds(u, p.log);
    FirstDoneTask(u, ts, p, t);
    DependencyDoneBefore(u, p.log, FirstDone(u, p.log)[u.Key(t)], d);
  }

  // ----- no deadlock -----

  ghost predicate AllExited(p: Pool) {
    forall w :: 0 <= w < |p.workers| ==> p.workers[w].Exited?
  }

  ghost predicate CanStep(p: Pool) {
    exists w :: 0 <= w < |p.workers| && (p.workers[w].Awake? || p.workers[w].Running?)
  }

  /** Some worker can step exactly when the transition system has a step. */
  lemma CanStepIsEnabled(p: Pool)
    ensures CanStep(p) <==> exists step :: Enabled(p, step)
  {
    if w :| 0 <= w < |p.workers| && (p.workers[w].Awake? || p.workers[w].Running?) {
      assert Enabled(p, if p.workers[w].Awake? then Enter(w) else Finish(w, None));
    }
    if step :| Enabled(p, step) {
      assert 0 <= step.worker < |p.workers|;
    }
  }

  /** If nothing runs and nothing has failed, whatever is not pending is completed. */
  lemma PendingOrCompleted(u: Universe, ts: seq<Task>, p: Pool, k: string)
    requires Invariant(u, ts, p) && k in u.KeysOf(ts)
    requires !SomeRunning(p.workers) && !p.die
    ensures k in u.KeysOf(p.tasks) || k in p.completed
  {
    var s :| s in ts && u.Key(s) == k;
    StagesPartition(u, ts, p, s);
    HoldersCount(p.workers, s);
    CompletedIsDone(u, ts, p, s);
    assert s in multiset(p.tasks) <==> s in p.tasks;
    assert s in multiset(DoneTasks(p.log)) <==> s in DoneTasks(p.log);
  }

  /** If nothing runs and nothing has failed, the pending tasks include one that is ready, provided the
      dependencies have no cycle. */
  lemma SomePendingReady(u: Universe, ts: seq<Task>, p: Pool) returns (t: Task)
    requires Invariant(u, ts, p) && Acyclic(u.KeyGraph(ts))
    requires p.tasks != [] && !SomeRunning(p.workers) && !p.die
    ensures t in p.tasks && Ready(u, p.completed, t)
  {
    var g, pending := u.KeyGraph(ts), u.KeysOf(p.tasks);
    assert u.Key(p.tasks[0]) in pending;
    var k := Sink(g, pending);
    t :| t in p.tasks && u.Key(t) == k;
    StagesPartition(u, ts, p, t);
    u.KeyGraphEdges(ts);
    forall d | d in u.Dependents(t)
      ensures u.Key(d) in p.completed
    {
      assert u.Key(d) in Succ(g, k);
      PendingOrCompleted(u, ts, p, u.Key(d));
    }
  }

  /** Deadlock freedom: with acyclic dependencies, while any worker is left some worker can step. */
  lemma NoDeadlock(u: Universe, ts: seq<Task>, p: Pool)
    requires Invariant(u, ts, p) && Acyclic(u.KeyGraph(ts))
    requires !AllExited(p)
    ensures CanStep(p)
  {
    if !CanStep(p) {
      var w :| 0 <= w < |p.workers| && !p.workers[w].Exited?;
      assert RestJustified(u, p, p.workers[w]);
      assert p.workers[w].Waiting?;
      var t := SomePendingReady(u, ts, p);
      assert false;
    }
  }

  /** A run that ends without an error has completed every task. */
  lemma SuccessCompletesAll(u: Universe, ts: seq<Task>, p: Pool)
    requires Invariant(u, ts, p) && |p.workers| >= 1 && AllExited(p) && p.err.None?
    ensures p.completed == u.KeysOf(ts)
    ensures forall t :: t in ts <==> t in DoneTasks(p.log)
  {
    assert RestJustified(u, p, p.workers[0]);
    forall t
      ensures t in ts <==> t in DoneTasks(p.log)
    {
      StagesPartition(u, ts, p, t);
      HoldersCount(p.workers, t);
      assert t in multiset(DoneTasks(p.log)) <==> t in DoneTasks(p.log);
    }
  }

  lemma CompletedEdgeFalls(u: Universe, ts: seq<Task>, p: Pool, x: string, y: string)
    requires Invariant(u, ts, p)
    requires x in p.completed && y in Succ(u.KeyGraph(ts), x)
    ensures x in FirstDone(u, p.log) && y in FirstDone(u, p.log)
    ensures FirstDone(u, p.log)[y] < FirstDone(u, p.log)[x]
  {
    var t := TaskOfKey(u, ts, x);
    var d :| d in u.Dependents(t) && u.Key(d) == y;
    CompletedIsRanked(u, ts, p, t, d);
  }

  ghost predicate Falls(g: map<string, set<string>>, rank: map<string, nat>, x: string) {
    forall y :: y in Succ(g, x) ==> x in rank && y in rank && rank[y] < rank[x]
  }

  lemma CompletedFalls(u: Universe, ts: seq<Task>, p: Pool, x: string)
    requires Invariant(u, ts, p) && x in p.completed
    ensures Falls(u.KeyGraph(ts), FirstDone(u, p.log), x)
  {
    forall y | y in Succ(u.KeyGraph(ts), x)
      ensures x in FirstDone(u, p.log) && y in FirstDone(u, p.log) && FirstDone(u, p.log)[y] < FirstDone(u, p.log)[x]
    {
      CompletedEdgeFalls(u, ts, p, x, y);
    }
  }

  lemma AllCompletedIsRanked(u: Universe, ts: seq<Task>, p: Pool)
    requires Invariant(u, ts, p) && p.completed == u.KeysOf(ts)
    ensures Ranked(u.KeyGraph(ts), FirstDone(u, p.log))
  {
    u.KeyGraphEdges(ts);
    forall x | x in p.completed
      ensures Falls(u.KeyGraph(ts), FirstDone(u, p.log), x)
    {
      CompletedFalls(u, ts, p, x);
    }
  }

  /** So a run can only succeed when the dependencies have no cycle. */
  lemma SuccessNeedsAcyclic(u: Universe, ts: seq<Task>, p: Pool)
    requires Invariant(u, ts, p) && |p.workers| >= 1 && AllExited(p) && p.err.None?
    ensures Acyclic(u.KeyGraph(ts))
  {
    SuccessCompletesAll(u, ts, p);
    AllCompletedIsRanked(u, ts, p);
    RankedIsAcyclic(u.KeyGraph(ts), FirstDone(u, p.log));
  }

  /** A run that can go no further has ended, unless the dependencies have a cycle and nothing failed:
      the exact condition under which Run returns. */
  lemma StuckMeansEndedIff(u: Universe, ts: seq<Task>, p: Pool)
    requires Invariant(u, ts, p) && |p.workers| >= 1 && !CanStep(p)
    ensures AllExited(p) <==> p.err.Some? || Acyclic(u.KeyGraph(ts))
  {
    if AllExited(p) && p.err.None? {
      SuccessNeedsAcyclic(u, ts, p);
    }
    if p.err.Some? {
      forall w | 0 <= w < |p.workers|
        ensures p.workers[w].Exited?
      {
        assert RestJustified(u, p, p.workers[w]);
      }
    }
    if Acyclic(u.KeyGraph(ts)) && !AllExited(p) {
      NoDeadlock(u, ts, p);
    }
  }

  // ----- every run is finite -----

  function Weight(w: Worker, n: nat): nat {
    match w
    case Running(_) => n + 2
    case Awake => 1
    case _ => 0
  }

  function Weights(ws: seq<Worker>, n: nat): nat {
    if ws == [] then 0 else Weight(ws[0], n) + Weights(ws[1..], n)
  }

  /** Bounds the number of steps the pool can still make. */
  function Fuel(p: Pool): nat {
    var n := |p.workers|;
    2 * (n + 2) * |p.tasks| + Weights(p.workers, n)
  }

  lemma {:induction false} WeightsUpdate(ws: seq<Worker>, w: nat, x: Worker, n: nat)
    requires w < |ws|
    ensures Weights(ws[w := x], n) == Weights(ws, n) - Weight(ws[w], n) + Weight(x, n)
  {
    if w == 0 {
      assert ws[0 := x][1..] == ws[1..];
    } else {
      assert ws[w := x][0] == ws[0] && ws[w := x][1..] == ws[1..][w - 1 := x];
      WeightsUpdate(ws[1..], w - 1, x, n);
    }
  }

  lemma {:induction false} WeightsWake(ws: seq<Worker>, n: nat)
    ensures Weights(Wake(ws), n) <= Weights(ws, n) + |ws|
  {
    if ws != [] {
      assert Wake(ws)[1..] == Wake(ws[1..]);
      WeightsWake(ws[1..], n);
    }
  }

  lemma {:induction false} WeightsInitially(k: nat, n: nat)
    ensures Weights(seq(k, _ => Awake), n) == k
  {
    if k > 0 {
      assert seq(k, _ => Awake)[1..] == seq(k - 1, _ => Awake);
      WeightsInitially(k - 1, n);
    }
  }

  lemma TurnUsesFuel(u: Universe, p: Pool, w: nat)
    requires w < |p.workers| && p.workers[w].Awake?
    ensures Fuel(Turn(u, p, w)) < Fuel(p) && |Turn(u, p, w).workers| == |p.workers|
  {
    var n := |p.workers|;
    WeightsUpdate(p.workers, w, Exited, n);
    WeightsUpdate(p.workers, w, Waiting, n);
    if p.tasks != [] && !p.die {
      var i := FirstReady(u, p.completed, p.tasks);
      if i < |p.tasks| {
        WeightsUpdate(p.workers, w, Running(p.tasks[i]), n);
        var c := 2 * (n + 2);
        assert c * |p.tasks| == c * (|p.tasks| - 1) + c;
      }
    }
  }

  lemma StepUsesFuel(u: Universe, p: Pool, step: Step)
    requires Enabled(p, step)
    ensures Fuel(Next(u, p, step)) < Fuel(p) && |Next(u, p, step).workers| == |p.workers|
  {
    var n := |p.workers|;
    WeightsWake(p.workers, n);
    match step
    case Enter(w) => TurnUsesFuel(u, p, w);
    case Finish(w, Some(e)) =>
      WeightsUpdate(Wake(p.workers), w, Exited, n);
      WeightsUpdate(p.workers, w, Exited, n);
    case Finish(w, None) =>
      WeightsUpdate(Wake(p.workers), w, Awake, n);
      TurnUsesFuel(u, Complete(u, p, w), w);
  }

  lemma {:induction false} RunUsesFuel(u: Universe, ts: seq<Task>, n: nat, steps: seq<Step>, states: seq<Pool>, i: nat)
    requires Execution(u, ts, n, steps, states) && i < |states|
    ensures Fuel(states[i]) + i <= Fuel(Init(ts, n))
    ensures |states[i].workers| == n
  {
    if i > 0 {
      RunUsesFuel(u, ts, n, steps, states, i - 1);
      assert Enabled(states[i - 1], steps[i - 1]);
      StepUsesFuel(u, states[i - 1], steps[i - 1]);
    }
  }

  /** No run makes more than this many steps, whether or not the dependencies have cycles. */
  lemma RunsAreBounded(u: Universe, ts: seq<Task>, n: nat, steps: seq<Step>, states: seq<Pool>)
    requires Execution(u, ts, n, steps, states)
    ensures |steps| <= 2 * (n + 2) * |ts| + n
  {
    RunUsesFuel(u, ts, n, steps, states, |steps|);
    WeightsInitially(n, n);
    assert |Init(ts, n).workers| == n;
  }

  // ----- the outcome of Run -----

  /** `e` is the error of the earliest failure in the history. */
  ghost predicate EarliestError(log: seq<Event>, e: Error) {
    exists i :: 0 <= i < |log| && log[i].Failed? && log[i].error == e
                && forall j :: 0 <= j < i ==> !log[j].Failed?
  }

  lemma {:induction false} FirstErrorIsEarliest(log: seq<Event>)
    ensures FirstError(log).Some? ==> EarliestError(log, FirstError(log).value)
    ensures FirstError(log).None? ==> forall i :: 0 <= i < |log| ==> !log[i].Failed?
  {
    if log != [] {
      var init := log[..|log| - 1];
      FirstErrorIsEarliest(init);
      if FirstError(init).Some? {
        var i :| 0 <= i < |init| && init[i].Failed? && init[i].error == FirstError(init).value
                 && forall j :: 0 <= j < i ==> !init[j].Failed?;
        assert log[i] == init[i] && forall j :: 0 <= j < i ==> log[j] == init[j];
        assert EarliestError(log, FirstError(log).value);
      } else if log[|log| - 1].Failed? {
        assert forall j :: 0 <= j < |init| ==> log[j] == init[j];
        assert EarliestError(log, FirstError(log).value);
      } else {
        forall i | 0 <= i < |log|
          ensures !log[i].Failed?
        {
          assert i == |init| || log[i] == init[i];
        }
      }
    }
  }

  /** The first error that a task returned, in the order in which they returned. */
  function FirstReported(steps: seq<Step>): Option<Error> {
    if steps == [] then None
    else
      var last, before := steps[|steps| - 1], FirstReported(steps[..|steps| - 1]);
      if before.Some? then before else if last.Finish? then last.outcome else None
  }

  lemma PrefixRuns(u: Universe, ts: seq<Task>, n: nat, steps: seq<Step>, states: seq<Pool>)
    requires Execution(u, ts, n, steps, states) && steps != []
    ensures Execution(u, ts, n, steps[..|steps| - 1], states[..|steps|])
  {
  }

  /** In every run the runner's error is the first one that any of its tasks returned. */
  lemma {:induction false} ErrorIsFirstReported(
    u: Universe, ts: seq<Task>, n: nat, steps: seq<Step>, states: seq<Pool>)
    requires Execution(u, ts, n, steps, states)
    ensures states[|steps|].err == FirstReported(steps)
    decreases |steps|
  {
    if steps != [] {
      var m := |steps| - 1;
      PrefixRuns(u, ts, n, steps, states);
      ErrorIsFirstReported(u, ts, n, steps[..m], states[..|steps|]);
      assert states[m + 1] == Next(u, states[m], steps[m]);
    }
  }

  /** A task of the run returned nil to the worker that held it. */
  ghost predicate ReturnedNil(steps: seq<Step>, states: seq<Pool>, i: nat, t: Task) {
    && i < |steps| && i < |states| && steps[i] == Finish(steps[i].worker, None)
    && steps[i].worker < |states[i].workers| && states[i].workers[steps[i].worker] == Running(t)
  }

  ghost predicate SomeReturnedNil(steps: seq<Step>, states: seq<Pool>, m: nat, t: Task) {
    exists i :: 0 <= i < m && ReturnedNil(steps, states, i, t)
  }

  /** And the tasks that are done are those that returned nil. */
  lemma {:induction false} DoneIsReported(
    u: Universe, ts: seq<Task>, n: nat, steps: seq<Step>, states: seq<Pool>, m: nat, t: Task)
    requires Execution(u, ts, n, steps, states) && m <= |steps|
    ensures t in DoneTasks(states[m].log) <==> SomeReturnedNil(steps, states, m, t)
  {
    if m > 0 {
      var k := m - 1;
      DoneIsReported(u, ts, n, steps, states, k, t);
      assert Enabled(states[k], steps[k]) && states[k + 1] == Next(u, states[k], steps[k]);
      DoneByOneStep(u, steps, states, k, t);
      OneMoreReturned(steps, states, k, t);
      assert k + 1 == m;
    } else {
      assert states[0].log == [] && DoneTasks(states[0].log) == [];
    }
  }

  lemma OneMoreReturned(steps: seq<Step>, states: seq<Pool>, m: nat, t: Task)
    ensures SomeReturnedNil(steps, states, m + 1, t) <==>
            SomeReturnedNil(steps, states, m, t) || ReturnedNil(steps, states, m, t)
  {
  }

  lemma DoneByOneStep(u: Universe, steps: seq<Step>, states: seq<Pool>, i: nat, t: Task)
    requires i < |steps| < |states| && Enabled(states[i], steps[i]) && states[i + 1] == Next(u, states[i], steps[i])
    ensures t in DoneTasks(states[i + 1].log) <==>
            t in DoneTasks(states[i].log) || ReturnedNil(steps, states, i, t)
  {
    DoneByStep(u, states[i], steps[i]);
  }

  lemma TurnFinishesNothing(u: Universe, p: Pool, w: nat)
    requires w < |p.workers|
    ensures DoneTasks(Turn(u, p, w).log) == DoneTasks(p.log)
  {
    var i := FirstReady(u, p.completed, p.tasks);
    if i < |p.tasks| {
      HistoryGrows(p.log, Took(p.tasks[i]));
    }
  }

  lemma DoneByStep(u: Universe, p: Pool, step: Step)
    requires Enabled(p, step)
    ensures DoneTasks(Next(u, p, step).log) ==
            DoneTasks(p.log) + if step == Finish(step.worker, None) then [p.workers[step.worker].task] else []
  {
    match step
    case Enter(w) => TurnFinishesNothing(u, p, w);
    case Finish(w, Some(e)) => HistoryGrows(p.log, Failed(p.workers[w].task, e));
    case Finish(w, None) =>
      HistoryGrows(p.log, Done(p.workers[w].task));
      TurnFinishesNothing(u, Complete(u, p, w), w);
  }

  /** What Run returns, for the list `uniqueDeps` built from the given tasks: nil exactly when every task
      reachable through Dependents has run and returned nil, and otherwise the first error recorded. */
  lemma RunOutcome(u: Universe, given: seq<Task>, ts: seq<Task>, n: nat, steps: seq<Step>, states: seq<Pool>)
    requires u.Valid() && u.Known(given) && IsUniqueDeps(u, given, ts)
    requires n >= 1 && Execution(u, ts, n, steps, states)
    requires AllExited(states[|steps|])
    ensures var p := states[|steps|];
            match p.err
            case Some(e) => EarliestError(p.log, e)
            case None =>
              && p.completed == u.KeysOf(ts)
              && u.KeysOf(given) <= p.completed
              && (forall t :: t in ts <==> t in DoneTasks(p.log))
              && (forall i :: 0 <= i < |p.log| ==> !p.log[i].Failed?)
    ensures states[|steps|].err.None? && u.KeysIdentify() ==>
              forall t :: t in DoneTasks(states[|steps|].log) <==> Reachable(u.TaskGraph(), SetOf(given), t)
  {
    var p := states[|steps|];
    InvariantAlways(u, ts, n, steps, states, |steps|);
    RunUsesFuel(u, ts, n, steps, states, |steps|);
    FirstErrorIsEarliest(p.log);
    if p.err.None? {
      SuccessCompletesAll(u, ts, p);
      if u.KeysIdentify() {
        forall t
          ensures t in DoneTasks(p.log) <==> Reachable(u.TaskGraph(), SetOf(given), t)
        {
          UniqueDepsIsReachableSet(u, given, ts, t);
        }
      }
    }
  }

  /** The scheduler's liveness: a run on acyclic dependencies can always be continued until every worker
      has exited, and it gets there within the bound whichever steps are chosen. */
  lemma AcyclicRunsEnd(u: Universe, ts: seq<Task>, n: nat, steps: seq<Step>, states: seq<Pool>)
    requires u.Valid() && u.Schedulable(ts) && Acyclic(u.KeyGraph(ts))
    requires Execution(u, ts, n, steps, states)
    ensures |steps| <= 2 * (n + 2) * |ts| + n
    ensures AllExited(states[|steps|]) || exists step :: Enabled(states[|steps|], step)
  {
    RunsAreBounded(u, ts, n, steps, states);
    InvariantAlways(u, ts, n, steps, states, |steps|);
    if !AllExited(states[|steps|]) {
      NoDeadlock(u, ts, states[|steps|]);
      CanStepIsEnabled(states[|steps|]);
    }
  }
}
