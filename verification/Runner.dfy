/** The runner object: its fields, the regions its workers execute under the lock, and CriticalPath. */
module Runner {
  import opened Options
  import opened Tasks
  import P = Pool
  import S = Scheduler
  import opened LongestPath

  class Runner {
    const u: Universe
    const timing: Timing
    const tasksByKey: map<string, Task>
    var costs: map<string, int>

    var tasks: seq<Task>
    var completed: set<string>
    var die: bool
    var err: Option<P.Error>

    /** Where each worker goroutine stands, and so who is in the condition variable's wait set. */
    var workers: seq<P.Worker>
    ghost var log: seq<P.Event>

    /** The list `uniqueDeps` built. */
    ghost const all: seq<Task>

    ghost function View(): P.Pool
      reads this
    {
      P.Pool(tasks, completed, die, err, workers, log)
    }

    ghost predicate Valid()
      reads this
    {
      && P.Invariant(u, all, View())
      && tasksByKey == u.ByKey(all)
      && CostsAgree()
    }

    /** The cache never disagrees with the longest chain. */
    ghost predicate CostsAgree()
      reads this`costs
    {
      forall t :: t in all && u.Key(t) in costs ==> IsLongest(u, timing, t, costs[u.Key(t)])
    }

    /** NewRunner, with `n` worker goroutines about to start. */
    constructor (u: Universe, timing: Timing, given: seq<Task>, n: nat)
      requires u.Valid() && u.Known(given)
      ensures Valid() && this.u == u && this.timing == timing
      ensures IsUniqueDeps(u, given, all) && IsBreadthFirst(u, given, all)
      ensures View() == P.Init(all, n) && costs == map[]
    {
      var unique := UniqueDeps(u, given);
      var byKey: map<string, Task> := map[];
      for i := 0 to |unique|
        invariant byKey == u.ByKey(unique[..i])
      {
        byKey := byKey[u.Key(unique[i]) := unique[i]];
        assert unique[..i + 1][..i] == unique[..i];
      }
      assert unique[..|unique|] == unique;
      P.InvariantInit(u, unique, n);
      this.u, this.timing, tasksByKey, costs := u, timing, byKey, map[];
      tasks, completed, die, err := unique, {}, false, None;
      workers, log, all := seq(n, _ => P.Awake), [], unique;
    }

    method IsReady(task: Task) returns (ready: bool)
      ensures ready <==> P.Ready(u, completed, task)
    {
      var deps := u.Dependents(task);
      for i := 0 to |deps|
        invariant forall j :: 0 <= j < i ==> u.Key(deps[j]) in completed
      {
        if u.Key(deps[i]) !in completed {
          return false;
        }
      }
      return true;
    }

    /** Hand worker `w` the first ready task, or put it to sleep on the condition variable. */
    method NextTask(w: nat) returns (task: Option<Task>)
      requires Valid() && w < |workers| && workers[w].Awake? && tasks != [] && !die
      modifies this`tasks, this`workers, this`log
      ensures View() == P.Turn(u, old(View()), w)
      ensures task.Some? <==> workers[w].Running?
      ensures task.Some? ==> workers[w] == P.Running(task.value)
    {
      for i := 0 to |tasks|
        invariant tasks == old(tasks) && workers == old(workers) && log == old(log)
        invariant forall j :: 0 <= j < i ==> !P.Ready(u, completed, tasks[j])
      {
        var ready := IsReady(tasks[i]);
        if ready {
          task := Some(tasks[i]);
          assert P.FirstReady(u, completed, tasks) == i;
          log := log + [P.Took(tasks[i])];
          workers := workers[w := P.Running(tasks[i])];
          tasks := tasks[..i] + tasks[i + 1..];
          return;
        }
      }
      workers := workers[w := P.Waiting];
      return None;
    }

    method Broadcast()
      modifies this`workers
      ensures workers == P.Wake(old(workers))
    {
      workers := P.Wake(workers);
    }

    method SetErr(e: P.Error)
      modifies this`err, this`die, this`workers
      ensures View() == P.SetErr(old(View()), e)
    {
      if err.Some? {
        return;
      }
      err := Some(e);
      die := true;
      Broadcast();
    }

    method MarkDone(task: Task)
      modifies this`completed, this`workers
      ensures View() == P.MarkDone(u, old(View()), task)
    {
      completed := completed + {u.Key(task)};
      Broadcast();
    }

    /** A worker that holds the lock at the top of its loop, up to where it lets the lock go. */
    method Enter(w: nat)
      requires Valid() && P.Enabled(View(), P.Enter(w))
      modifies this`tasks, this`workers, this`log
      ensures Valid() && View() == P.Next(u, old(View()), P.Enter(w))
    {
      P.InvariantTurn(u, all, View(), w);
      if |tasks| > 0 && !die {
        var _ := NextTask(w);
      } else {
        workers := workers[w := P.Exited];
      }
    }

    /** A worker whose task has returned takes the lock again, up to where it lets the lock go. */
    method Finish(w: nat, outcome: Option<P.Error>)
      requires Valid() && P.Enabled(View(), P.Finish(w, outcome))
      modifies this`tasks, this`completed, this`die, this`err, this`workers, this`log
      ensures Valid() && View() == P.Next(u, old(View()), P.Finish(w, outcome))
    {
      match outcome {
        case Some(e) => FinishFailed(w, e);
        case None => FinishDone(w);
      }
    }

    method FinishFailed(w: nat, e: P.Error)
      requires Valid() && w < |workers| && workers[w].Running?
      modifies this`die, this`err, this`workers, this`log
      ensures Valid() && View() == P.Fail(old(View()), w, e)
    {
      P.InvariantFail(u, all, View(), w, e);
      log := log + [P.Failed(workers[w].task, e)];
      SetErr(e);
      workers := workers[w := P.Exited];
      assert View() == P.Fail(old(View()), w, e);
    }

    method FinishDone(w: nat)
      requires Valid() && w < |workers| && workers[w].Running?
      modifies this`tasks, this`completed, this`workers, this`log
      ensures Valid() && View() == P.Turn(u, P.Complete(u, old(View()), w), w)
    {
      P.InvariantComplete(u, all, View(), w);
      var task := workers[w].task;
      log := log + [P.Done(task)];
      MarkDone(task);
      workers := workers[w := P.Awake];
      assert View() == P.Complete(u, old(View()), w);
      Enter(w);
    }

    // ----- the critical path -----

    /** When a completed task completed: falls strictly along dependencies. */
    ghost function Rank(t: Task): nat
      reads this`log
    {
      var first := S.FirstDone(u, log);
      if u.Key(t) in first then first[u.Key(t)] else 0
    }

    ghost predicate Settled(t: Task)
      reads this`completed
    {
      t in all && u.Key(t) in completed
    }

    lemma SettledDependents(t: Task)
      requires Valid() && u.Coherent(all) && Settled(t)
      ensures forall d :: d in u.Dependents(t) ==> Settled(d) && Rank(d) < Rank(t)
    {
      forall d | d in u.Dependents(t)
        ensures Settled(d) && Rank(d) < Rank(t)
      {
        S.CompletedIsRanked(u, all, View(), t, d);
        assert u.Key(d) in u.KeysOf(all);
      }
    }

    /** The task with the greatest cost, passing over tasks that started before the runner did. */
    method HighestCost(ts: seq<Task>, ghost rank: nat) returns (highest: Option<Task>, cost: int)
      requires Valid() && u.Coherent(all)
      requires forall t :: t in ts ==> Settled(t) && Rank(t) < rank
      modifies this`costs
      ensures Valid()
      ensures highest.None? ==> cost == 0 && NoneAbove(u, timing, ts, 0)
      ensures highest.Some? ==> IsHighest(u, timing, ts, highest.value, cost)
      decreases rank, 0
    {
      highest, cost := None, 0;
      for i := 0 to |ts|
        invariant Valid()
        invariant highest.None? ==> cost == 0
        invariant highest.Some? ==> IsHighest(u, timing, ts[..i], highest.value, cost)
        invariant NoneAbove(u, timing, ts[..i], cost)
      {
        assert ts[..i + 1] == ts[..i] + [ts[i]];
        if timing.Eligible(ts[i]) {
          var c := TaskCost(ts[i]);
          if cost < c {
            highest, cost := Some(ts[i]), c;
          }
        }
      }
      assert ts[..|ts|] == ts;
    }

    /** Memoised longest chain from a task. */
    method TaskCost(task: Task) returns (cost: int)
      requires Valid() && u.Coherent(all) && Settled(task)
      modifies this`costs
      ensures Valid()
      ensures IsLongest(u, timing, task, cost)
      ensures u.Key(task) in costs && costs[u.Key(task)] == cost
      decreases Rank(task), 1
    {
      if u.Key(task) !in costs {
        SettledDependents(task);
        var highest, rest := HighestCost(u.Dependents(task), Rank(task));
        if highest.Some? {
          var again := TaskCost(highest.value);
          LongestIsUnique(u, timing, highest.value, rest, again);
          rest := again;
        }
        LongestStep(u, timing, task, rest);
        costs := costs[u.Key(task) := timing.Duration(task) + rest];
      }
      return costs[u.Key(task)];
    }

    /** The completed tasks, in whatever order the map yields them. */
    method CompletedTasks() returns (allTasks: seq<Task>)
      requires Valid()
      ensures forall t :: t in allTasks ==> Settled(t) && Rank(t) < |log|
      ensures forall t :: Settled(t) ==> t in allTasks
    {
      u.ByKeyFinds(all);
      allTasks := [];
      var keys := completed;
      while keys != {}
        invariant keys <= completed
        invariant forall t :: t in allTasks ==> Settled(t) && Rank(t) < |log|
        invariant forall t :: Settled(t) ==> u.Key(t) in keys || t in allTasks
        decreases keys
      {
        var k :| k in keys;
        CompletedIsListed(k);
        allTasks := allTasks + [tasksByKey[k]];
        keys := keys - {k};
      }
    }

    /** `path` so far and the task to go on with: together they make a chain that totals `total`. */
    ghost predicate OnPath(path: seq<Task>, task: Option<Task>, cost: int, total: int)
      reads this`completed
    {
      && (forall t :: t in path ==> Settled(t))
      && Total(timing, path) + cost == total
      && (path != [] ==> Chain(u, timing, path) && timing.Eligible(path[0]))
      && match task
         case None => cost == 0
         case Some(t) =>
           && Settled(t) && timing.Eligible(t) && IsLongest(u, timing, t, cost) && cost > 0
           && (path != [] ==> t in u.Dependents(path[|path| - 1]))
    }

    lemma PathStep(path: seq<Task>, t: Task, cost: int, total: int, next: Option<Task>, rest: int)
      requires OnPath(path, Some(t), cost, total)
      requires forall d :: d in u.Dependents(t) ==> Settled(d)
      requires next.None? ==> rest == 0 && NoneAbove(u, timing, u.Dependents(t), 0)
      requires next.Some? ==> IsHighest(u, timing, u.Dependents(t), next.value, rest)
      ensures OnPath(path + [t], next, rest, total)
    {
      TotalGrows(timing, path, t);
      ChainGrows(u, timing, path, t);
      LongestStep(u, timing, t, rest);
      LongestIsUnique(u, timing, t, cost, timing.Duration(t) + rest);
    }

    lemma DurationsBounded(total: int)
      requires forall t :: Settled(t) && timing.Eligible(t) ==> Bounded(u, timing, t, total)
      ensures forall t :: Settled(t) && timing.StartTime(t) >= timing.runnerStart ==> timing.Duration(t) <= total
    {
      forall t | Settled(t) && timing.StartTime(t) >= timing.runnerStart
        ensures timing.Duration(t) <= total
      {
        AloneIsChain(u, timing, t, total);
      }
    }

    /** The slowest chain: a real dependency chain of completed tasks that starts at an eligible one and
        whose total no chain from an eligible completed task exceeds; empty when no such total is positive.
        Callable at any moment of any run: it ends even if the task list has dependency cycles. */
    method CriticalPath() returns (path: seq<Task>)
      requires Valid() && u.Coherent(all)
      modifies this`costs
      ensures Valid()
      ensures forall t :: t in path ==> Settled(t)
      ensures forall t :: Settled(t) && timing.Eligible(t) ==> Bounded(u, timing, t, Total(timing, path))
      ensures Total(timing, path) >= 0
      ensures path != [] ==> Chain(u, timing, path) && timing.Eligible(path[0]) && Total(timing, path) > 0
      ensures forall t :: t in path ==> timing.StartTime(t) >= timing.runnerStart
      ensures forall t :: Settled(t) && timing.StartTime(t) >= timing.runnerStart ==>
                timing.Duration(t) <= Total(timing, path)
    {
      var allTasks := CompletedTasks();
      var task, cost := HighestCost(allTasks, |log|);
      path := [];
      ghost var total := cost;
      assert forall t :: Settled(t) && timing.Eligible(t) ==> Bounded(u, timing, t, total);
      while task.Some?
        invariant Valid() && OnPath(path, task, cost, total)
        invariant total >= 0 && (path != [] || task.Some? ==> total > 0)
        decreases if task.Some? then Rank(task.value) + 1 else 0
      {
        SettledDependents(task.value);
        var next, rest := HighestCost(u.Dependents(task.value), Rank(task.value));
        PathStep(path, task.value, cost, total, next, rest);
        path := path + [task.value];
        task, cost := next, rest;
      }
      if path != [] {
        ChainStartsLate(u, timing, path);
      }
      DurationsBounded(Total(timing, path));
    }

    lemma CompletedIsListed(k: string)
      requires Valid() && k in completed
      ensures k in tasksByKey && Settled(tasksByKey[k]) && u.Key(tasksByKey[k]) == k
      ensures Rank(tasksByKey[k]) < |log|
    {
      u.ByKeyFinds(all);
      var t :| t in P.DoneTasks(log) && u.Key(t) == k;
      S.StagesPartition(u, all, View(), t);
      S.FirstDoneFinds(u, log);
    }
  }

  lemma {:induction false} TotalGrows(tm: Timing, p: seq<Task>, t: Task)
    ensures Total(tm, p + [t]) == Total(tm, p) + tm.Duration(t)
  {
    if p == [] {
      assert ([] + [t])[1..] == [];
    } else {
      assert (p + [t])[1..] == p[1..] + [t];
      TotalGrows(tm, p[1..], t);
    }
  }

  lemma ChainGrows(u: Universe, tm: Timing, p: seq<Task>, t: Task)
    requires p != [] ==> Chain(u, tm, p) && t in u.Dependents(p[|p| - 1])
    requires tm.Eligible(t)
    ensures Chain(u, tm, p + [t])
  {
    var q := p + [t];
    forall i | 0 < i < |q|
      ensures Link(u, tm, q, i)
    {
      if i < |p| {
        assert Link(u, tm, p, i);
      }
    }
  }
}
