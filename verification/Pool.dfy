/** The worker pool of the topological runner as a transition system. A step is one lock-held region of
    one worker: everything between taking the runner's lock and giving it up, either by unlocking or by
    waiting on the condition variable. */
module Pool {
  import opened Options
  import opened Tasks

  type Error = string

  /** Where a worker stands while it does not hold the lock. `Awake` is about to take the lock and look at
      the loop condition: freshly started, or woken by a broadcast. */
  datatype Worker = Awake | Waiting | Running(task: Task) | Exited

  datatype Event = Took(task: Task) | Done(task: Task) | Failed(task: Task, error: Error)

  /** `tasks`, `completed`, `die` and `err` are the runner's fields; `log` is the history of the run. */
  datatype Pool = Pool(
    tasks: seq<Task>,
    completed: set<string>,
    die: bool,
    err: Option<Error>,
    workers: seq<Worker>,
    log: seq<Event>)

  datatype Step = Enter(worker: nat) | Finish(worker: nat, outcome: Option<Error>)

  // ----- the lock-held regions -----

  predicate Ready(u: Universe, completed: set<string>, t: Task) {
    forall d :: d in u.Dependents(t) ==> u.Key(d) in completed
  }

  /** The position of the first ready task, or the length of the list when there is none. */
  function FirstReady(u: Universe, completed: set<string>, ts: seq<Task>): (i: nat)
    ensures i <= |ts|
    ensures i < |ts| ==> Ready(u, completed, ts[i])
    ensures forall j :: 0 <= j < i ==> !Ready(u, completed, ts[j])
  {
    if ts == [] || Ready(u, completed, ts[0]) then 0 else 1 + FirstReady(u, completed, ts[1..])
  }

  function Without<T>(s: seq<T>, i: nat): seq<T>
    requires i < |s|
  {
    s[..i] + s[i + 1..]
  }

  /** `Broadcast`: every waiting worker will look again. */
  function Wake(ws: seq<Worker>): (r: seq<Worker>)
    ensures |r| == |ws|
    ensures forall i :: 0 <= i < |ws| ==> r[i] == if ws[i].Waiting? then Awake else ws[i]
  {
    seq(|ws|, i requires 0 <= i < |ws| => if ws[i].Waiting? then Awake else ws[i])
  }

  function Leave(p: Pool, w: nat): Pool
    requires w < |p.workers|
  {
    p.(workers := p.workers[w := Exited])
  }

  function Park(p: Pool, w: nat): Pool
    requires w < |p.workers|
  {
    p.(workers := p.workers[w := Waiting])
  }

  function Take(p: Pool, w: nat, i: nat): Pool
    requires w < |p.workers| && i < |p.tasks|
  {
    p.(tasks := Without(p.tasks, i),
       workers := p.workers[w := Running(p.tasks[i])],
       log := p.log + [Took(p.tasks[i])])
  }

  /** One turn of the worker loop: the loop condition, then `nextTask`. */
  function Turn(u: Universe, p: Pool, w: nat): Pool
    requires w < |p.workers|
  {
    if p.tasks == [] || p.die then Leave(p, w)
    else
      var i := FirstReady(u, p.completed, p.tasks);
      if i < |p.tasks| then Take(p, w, i) else Park(p, w)
  }

  function SetErr(p: Pool, e: Error): Pool {
    if p.err.Some? then p
    else p.(err := Some(e), die := true, workers := Wake(p.workers))
  }

  function MarkDone(u: Universe, p: Pool, t: Task): Pool {
    p.(completed := p.completed + {u.Key(t)}, workers := Wake(p.workers))
  }

  /** The worker's task returned an error: record it and leave the loop. */
  function Fail(p: Pool, w: nat, e: Error): Pool
    requires w < |p.workers| && p.workers[w].Running?
  {
    Leave(SetErr(p.(log := p.log + [Failed(p.workers[w].task, e)]), e), w)
  }

  /** The worker's task returned nil: mark it done and stay in the loop. */
  function Complete(u: Universe, p: Pool, w: nat): Pool
    requires w < |p.workers| && p.workers[w].Running?
  {
    var t := p.workers[w].task;
    var q := MarkDone(u, p.(log := p.log + [Done(t)]), t);
    q.(workers := q.workers[w := Awake])
  }

  predicate Enabled(p: Pool, step: Step) {
    && step.worker < |p.workers|
    && match step
       case Enter(w) => p.workers[w].Awake?
       case Finish(w, _) => p.workers[w].Running?
  }

  function Next(u: Universe, p: Pool, step: Step): Pool
    requires Enabled(p, step)
  {
    match step
    case Enter(w) => Turn(u, p, w)
    case Finish(w, Some(e)) => Fail(p, w, e)
    case Finish(w, None) => Turn(u, Complete(u, p, w), w)
  }

  function Init(ts: seq<Task>, n: nat): Pool {
    Pool(ts, {}, false, None, seq(n, _ => Awake), [])
  }

  /** A run of `n` workers over the task list: any interleaving, any outcome of any task. */
  ghost predicate Execution(u: Universe, ts: seq<Task>, n: nat, steps: seq<Step>, states: seq<Pool>) {
    && |states| == |steps| + 1
    && states[0] == Init(ts, n)
    && forall i {:trigger steps[i]} :: 0 <= i < |steps| ==>
         Enabled(states[i], steps[i]) && states[i + 1] == Next(u, states[i], steps[i])
  }

  // ----- what the history says -----

  function DoneTasks(log: seq<Event>): seq<Task> {
    if log == [] then []
    else
      var last := log[|log| - 1];
      DoneTasks(log[..|log| - 1]) + if last.Done? then [last.task] else []
  }

  function FailedTasks(log: seq<Event>): seq<Task> {
    if log == [] then []
    else
      var last := log[|log| - 1];
      FailedTasks(log[..|log| - 1]) + if last.Failed? then [last.task] else []
  }

  function TakenTasks(log: seq<Event>): seq<Task> {
    if log == [] then []
    else
      var last := log[|log| - 1];
      TakenTasks(log[..|log| - 1]) + if last.Took? then [last.task] else []
  }

  function FirstError(log: seq<Event>): Option<Error> {
    if log == [] then None
    else
      var last, before := log[|log| - 1], FirstError(log[..|log| - 1]);
      if before.Some? then before else if last.Failed? then Some(last.error) else None
  }

  lemma HistoryGrows(log: seq<Event>, e: Event)
    ensures DoneTasks(log + [e]) == DoneTasks(log) + if e.Done? then [e.task] else []
    ensures FailedTasks(log + [e]) == FailedTasks(log) + if e.Failed? then [e.task] else []
    ensures TakenTasks(log + [e]) == TakenTasks(log) + if e.Took? then [e.task] else []
    ensures FirstError(log + [e]) ==
            if FirstError(log).Some? then FirstError(log) else if e.Failed? then Some(e.error) else None
  {
    assert (log + [e])[..|log + [e]| - 1] == log;
  }

  // ----- the tasks in the workers' hands -----

  function InHand(w: Worker, t: Task): nat {
    if w == Running(t) then 1 else 0
  }

  /** How many workers are running the task. */
  function Holders(ws: seq<Worker>, t: Task): nat {
    if ws == [] then 0 else InHand(ws[0], t) + Holders(ws[1..], t)
  }

  lemma {:induction false} HoldersUpdate(ws: seq<Worker>, w: nat, x: Worker, t: Task)
    requires w < |ws|
    ensures Holders(ws[w := x], t) == Holders(ws, t) - InHand(ws[w], t) + InHand(x, t)
  {
    if w == 0 {
      assert ws[0 := x][1..] == ws[1..];
    } else {
      assert ws[w := x][0] == ws[0] && ws[w := x][1..] == ws[1..][w - 1 := x];
      HoldersUpdate(ws[1..], w - 1, x, t);
    }
  }

  lemma {:induction false} HoldersWake(ws: seq<Worker>, t: Task)
    ensures Holders(Wake(ws), t) == Holders(ws, t)
  {
    if ws != [] {
      assert Wake(ws)[1..] == Wake(ws[1..]);
      HoldersWake(ws[1..], t);
    }
  }

  /** A task has a holder exactly when some worker runs it. */
  lemma {:induction false} HoldersCount(ws: seq<Worker>, t: Task)
    ensures Holders(ws, t) > 0 <==> exists w :: 0 <= w < |ws| && ws[w] == Running(t)
  {
    if ws != [] {
      HoldersCount(ws[1..], t);
      if w :| 0 <= w < |ws| && ws[w] == Running(t) {
        assert w == 0 || ws[1..][w - 1] == Running(t);
      }
      if w :| 0 <= w < |ws[1..]| && ws[1..][w] == Running(t) {
        assert ws[w + 1] == Running(t);
      }
    }
  }

  lemma {:induction false} HoldersInitially(n: nat, t: Task)
    ensures Holders(seq(n, _ => Awake), t) == 0
  {
    if n > 0 {
      assert seq(n, _ => Awake)[1..] == seq(n - 1, _ => Awake);
      HoldersInitially(n - 1, t);
    }
  }

  ghost predicate SomeRunning(ws: seq<Worker>) {
    exists w :: 0 <= w < |ws| && ws[w].Running?
  }

  lemma WithoutSplits<T>(s: seq<T>, i: nat)
    requires i < |s|
    ensures multiset(s) == multiset(Without(s, i)) + multiset{s[i]}
    ensures forall x :: x in Without(s, i) ==> x in s
  {
    assert s == s[..i] + [s[i]] + s[i + 1..];
  }

  // ----- the invariant -----

  /** Each task of the list is exactly one of pending, running in exactly one worker, done and failed;
      and it was taken exactly when it is not pending. */
  ghost predicate Conserved(ts: seq<Task>, p: Pool) {
    forall t {:trigger Accounted(ts, p, t)} :: Accounted(ts, p, t)
  }

  ghost predicate Accounted(ts: seq<Task>, p: Pool, t: Task) {
    && multiset(p.tasks)[t] + multiset(TakenTasks(p.log))[t] == multiset(ts)[t]
    && multiset(TakenTasks(p.log))[t] ==
       Holders(p.workers, t) + multiset(DoneTasks(p.log))[t] + multiset(FailedTasks(p.log))[t]
  }

  /** A task is taken only when all its dependencies have been completed and nothing has failed; it
      finishes only after it was taken. */
  ghost predicate Orderly(u: Universe, log: seq<Event>) {
    forall i {:trigger OrderlyAt(u, log[..i], log[i])} :: 0 <= i < |log| ==> OrderlyAt(u, log[..i], log[i])
  }

  ghost predicate OrderlyAt(u: Universe, before: seq<Event>, e: Event) {
    if e.Took? then
      u.DepKeys(e.task) <= u.KeysOf(DoneTasks(before)) && FailedTasks(before) == []
    else
      e.task in TakenTasks(before)
  }

  /** `completed` and `err` say what the history says. */
  ghost predicate Recorded(u: Universe, p: Pool) {
    && p.completed == u.KeysOf(DoneTasks(p.log))
    && p.err == FirstError(p.log)
    && p.die == p.err.Some?
    && (p.err.Some? <==> FailedTasks(p.log) != [])
  }

  /** Whoever waits has nothing to do: no wake-up was lost. Whoever left had reason to. */
  ghost predicate NoLostWakeup(u: Universe, p: Pool) {
    forall w :: 0 <= w < |p.workers| ==> RestJustified(u, p, p.workers[w])
  }

  ghost predicate RestJustified(u: Universe, p: Pool, w: Worker) {
    && (w.Waiting? ==>
          && !p.die
          && (forall t :: t in p.tasks ==> !Ready(u, p.completed, t))
          && (p.tasks != [] || SomeRunning(p.workers)))
    && (w.Exited? ==> p.die || p.tasks == [])
  }

  ghost predicate Invariant(u: Universe, ts: seq<Task>, p: Pool) {
    && u.Valid() && u.Schedulable(ts)
    && Conserved(ts, p)
    && Orderly(u, p.log)
    && Recorded(u, p)
    && NoLostWakeup(u, p)
  }

  lemma InvariantInit(u: Universe, ts: seq<Task>, n: nat)
    requires u.Valid() && u.Schedulable(ts)
    ensures Invariant(u, ts, Init(ts, n))
  {
    var p := Init(ts, n);
    forall t
      ensures Accounted(ts, p, t)
    {
      HoldersInitially(n, t);
    }
  }

  lemma OrderlyGrows(u: Universe, log: seq<Event>, e: Event)
    requires Orderly(u, log) && OrderlyAt(u, log, e)
    ensures Orderly(u, log + [e])
  {
    var more := log + [e];
    forall i | 0 <= i < |more|
      ensures OrderlyAt(u, more[..i], more[i])
    {
      if i < |log| {
        assert more[..i] == log[..i] && more[i] == log[i];
        assert OrderlyAt(u, log[..i], log[i]);
      } else {
        assert more[..i] == log;
      }
    }
  }

  lemma ConservedRest(ts: seq<Task>, p: Pool, w: nat, x: Worker)
    requires Conserved(ts, p) && w < |p.workers| && !p.workers[w].Running? && !x.Running?
    ensures Conserved(ts, p.(workers := p.workers[w := x]))
    ensures SomeRunning(p.workers) ==> SomeRunning(p.workers[w := x])
  {
    if r :| 0 <= r < |p.workers| && p.workers[r].Running? {
      assert p.workers[w := x][r].Running?;
    }
    var q := p.(workers := p.workers[w := x]);
    forall t
      ensures Accounted(ts, q, t)
    {
      assert Accounted(ts, p, t);
      HoldersUpdate(p.workers, w, x, t);
    }
  }

  lemma ConservedTake(ts: seq<Task>, p: Pool, w: nat, i: nat)
    requires Conserved(ts, p) && w < |p.workers| && p.workers[w].Awake? && i < |p.tasks|
    ensures Conserved(ts, Take(p, w, i))
  {
    forall t
      ensures Accounted(ts, Take(p, w, i), t)
    {
      assert Accounted(ts, p, t);
      HoldersUpdate(p.workers, w, Running(p.tasks[i]), t);
      WithoutSplits(p.tasks, i);
      HistoryGrows(p.log, Took(p.tasks[i]));
    }
  }

  lemma ConservedFinish(ts: seq<Task>, p: Pool, q: Pool, w: nat, ws: seq<Worker>, x: Worker, e: Event)
    requires Conserved(ts, p) && w < |p.workers| && p.workers[w].Running? && !x.Running?
    requires ws == p.workers || ws == Wake(p.workers)
    requires !e.Took? && e.task == p.workers[w].task
    requires q.tasks == p.tasks && q.workers == ws[w := x] && q.log == p.log + [e]
    ensures Conserved(ts, q)
  {
    forall t
      ensures Accounted(ts, q, t)
    {
      assert Accounted(ts, p, t);
      HoldersWake(p.workers, t);
      HoldersUpdate(ws, w, x, t);
      HistoryGrows(p.log, e);
    }
  }

  /** A running task was taken. */
  lemma RunningWasTaken(ts: seq<Task>, p: Pool, w: nat)
    requires Conserved(ts, p) && w < |p.workers| && p.workers[w].Running?
    ensures p.workers[w].task in TakenTasks(p.log)
  {
    var t := p.workers[w].task;
    assert Accounted(ts, p, t);
    HoldersCount(p.workers, t);
  }

  lemma InvariantLeave(u: Universe, ts: seq<Task>, p: Pool, w: nat)
    requires Invariant(u, ts, p) && w < |p.workers| && p.workers[w].Awake?
    requires p.tasks == [] || p.die
    ensures Invariant(u, ts, Leave(p, w))
  {
    ConservedRest(ts, p, w, Exited);
  }

  lemma InvariantPark(u: Universe, ts: seq<Task>, p: Pool, w: nat)
    requires Invariant(u, ts, p) && w < |p.workers| && p.workers[w].Awake?
    requires p.tasks != [] && !p.die
    requires forall t :: t in p.tasks ==> !Ready(u, p.completed, t)
    ensures Invariant(u, ts, Park(p, w))
  {
    ConservedRest(ts, p, w, Waiting);
  }

  lemma InvariantTake(u: Universe, ts: seq<Task>, p: Pool, w: nat, i: nat)
    requires Invariant(u, ts, p) && w < |p.workers| && p.workers[w].Awake?
    requires !p.die && i < |p.tasks| && Ready(u, p.completed, p.tasks[i])
    ensures Invariant(u, ts, Take(p, w, i))
  {
    ConservedTake(ts, p, w, i);
    WithoutSplits(p.tasks, i);
    HistoryGrows(p.log, Took(p.tasks[i]));
    OrderlyGrows(u, p.log, Took(p.tasks[i]));
  }

  lemma InvariantComplete(u: Universe, ts: seq<Task>, p: Pool, w: nat)
    requires Invariant(u, ts, p) && w < |p.workers| && p.workers[w].Running?
    ensures Invariant(u, ts, Complete(u, p, w)) && Complete(u, p, w).workers[w].Awake?
  {
    var t, q := p.workers[w].task, Complete(u, p, w);
    ConservedFinish(ts, p, q, w, Wake(p.workers), Awake, Done(t));
    RunningWasTaken(ts, p, w);
    OrderlyGrows(u, p.log, Done(t));
  }

  lemma InvariantFail(u: Universe, ts: seq<Task>, p: Pool, w: nat, e: Error)
    requires Invariant(u, ts, p) && w < |p.workers| && p.workers[w].Running?
    ensures Invariant(u, ts, Fail(p, w, e))
  {
    var t, q := p.workers[w].task, Fail(p, w, e);
    ConservedFinish(ts, p, q, w, if p.err.Some? then p.workers else Wake(p.workers), Exited, Failed(t, e));
    RunningWasTaken(ts, p, w);
    OrderlyGrows(u, p.log, Failed(t, e));
    forall v | 0 <= v < |q.workers|
      ensures !q.workers[v].Waiting?
    {
      assert RestJustified(u, p, p.workers[v]);
    }
  }

  lemma InvariantTurn(u: Universe, ts: seq<Task>, p: Pool, w: nat)
    requires Invariant(u, ts, p) && w < |p.workers| && p.workers[w].Awake?
    ensures Invariant(u, ts, Turn(u, p, w))
  {
    if p.tasks == [] || p.die {
      InvariantLeave(u, ts, p, w);
    } else {
      var i := FirstReady(u, p.completed, p.tasks);
      if i < |p.tasks| {
        InvariantTake(u, ts, p, w, i);
      } else {
        InvariantPark(u, ts, p, w);
      }
    }
  }

  lemma InvariantNext(u: Universe, ts: seq<Task>, p: Pool, step: Step, q: Pool)
    requires Invariant(u, ts, p) && Enabled(p, step) && q == Next(u, p, step)
    ensures Invariant(u, ts, q)
  {
    match step
    case Enter(w) => InvariantTurn(u, ts, p, w);
    case Finish(w, Some(e)) => InvariantFail(u, ts, p, w, e);
    case Finish(w, None) =>
      InvariantComplete(u, ts, p, w);
      InvariantTurn(u, ts, Complete(u, p, w), w);
  }

  /** The invariant holds in every state of every run, whatever the interleaving and the outcomes. */
  lemma {:induction false} InvariantAlways(
    u: Universe, ts: seq<Task>, n: nat, steps: seq<Step>, states: seq<Pool>, i: nat)
    requires u.Valid() && u.Schedulable(ts)
    requires Execution(u, ts, n, steps, states) && i < |states|
    ensures Invariant(u, ts, states[i])
  {
    if i == 0 {
      InvariantInit(u, ts, n);
    } else {
      InvariantAlways(u, ts, n, steps, states, i - 1);
      var step := steps[i - 1];
      InvariantNext(u, ts, states[i - 1], step, states[i]);
    }
  }
}
