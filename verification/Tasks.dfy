/** Tasks of the topological runner: objects with a key and a list of dependents. */
module Tasks {
  import opened Graphs

  /** The identity of a task object. */
  type Task = nat

  /** What the interface methods `Key` and `Dependents` answer for every task object. */
  datatype Universe = Universe(key: map<Task, string>, dependents: map<Task, seq<Task>>) {

    ghost predicate Valid() {
      && key.Keys == dependents.Keys
      && forall t, d :: t in dependents && d in dependents[t] ==> d in dependents
    }

    function Key(t: Task): string {
      if t in key then key[t] else ""
    }

    function Dependents(t: Task): seq<Task> {
      if t in dependents then dependents[t] else []
    }

    function DepKeys(t: Task): set<string> {
      set d | d in Dependents(t) :: Key(d)
    }

    function KeysOf(ts: seq<Task>): set<string> {
      set t | t in ts :: Key(t)
    }

    ghost predicate Known(ts: seq<Task>) {
      forall t :: t in ts ==> t in key
    }

    /** No two tasks of the list share a key. */
    ghost predicate DistinctKeys(ts: seq<Task>) {
      forall i, j :: 0 <= i < j < |ts| ==> Key(ts[i]) != Key(ts[j])
    }

    /** Every dependency of a listed task is listed, up to its key. */
    ghost predicate DependencyClosed(ts: seq<Task>) {
      forall t, d :: t in ts && d in Dependents(t) ==> Key(d) in KeysOf(ts)
    }

    /** The task lists the worker pool runs on. */
    ghost predicate Schedulable(ts: seq<Task>) {
      Known(ts) && DistinctKeys(ts) && DependencyClosed(ts)
    }

    /** No two task objects of the universe share a key. */
    ghost predicate KeysIdentify() {
      forall s, t :: s in key && t in key && key[s] == key[t] ==> s == t
    }

    /** Every dependency of a listed task is itself listed, and not just a task of the same key. */
    ghost predicate Coherent(ts: seq<Task>) {
      forall t, d :: t in ts && d in Dependents(t) ==> d in ts
    }

    /** `tasksByKey` of NewRunner. */
    function ByKey(ts: seq<Task>): map<string, Task> {
      if ts == [] then map[]
      else ByKey(ts[..|ts| - 1])[Key(ts[|ts| - 1]) := ts[|ts| - 1]]
    }

    /** The dependency relation between the keys of a task list. */
    function KeyGraph(ts: seq<Task>): map<string, set<string>> {
      var byKey := ByKey(ts);
      map k | k in byKey :: DepKeys(byKey[k])
    }

    /** The dependency relation between task objects. */
    function TaskGraph(): map<Task, set<Task>> {
      map t | t in dependents :: SetOf(dependents[t])
    }

    lemma {:induction false} ByKeyFinds(ts: seq<Task>)
      requires DistinctKeys(ts)
      ensures ByKey(ts).Keys == KeysOf(ts)
      ensures forall t :: t in ts ==> ByKey(ts)[Key(t)] == t
      ensures forall k :: k in ByKey(ts) ==> ByKey(ts)[k] in ts && Key(ByKey(ts)[k]) == k
    {
      if ts != [] {
        var rest, last := ts[..|ts| - 1], ts[|ts| - 1];
        assert ts == rest + [last];
        ByKeyFinds(rest);
        forall t | t in rest
          ensures Key(t) != Key(last)
        {
          var i :| 0 <= i < |rest| && rest[i] == t;
          assert ts[i] == t;
        }
      }
    }

    lemma KeyGraphEdges(ts: seq<Task>)
      requires DistinctKeys(ts)
      ensures KeyGraph(ts).Keys == KeysOf(ts)
      ensures forall t :: t in ts ==> Succ(KeyGraph(ts), Key(t)) == DepKeys(t)
      ensures forall k :: k in KeyGraph(ts) ==> exists t :: t in ts && Key(t) == k
    {
      ByKeyFinds(ts);
      forall t | t in ts
        ensures Succ(KeyGraph(ts), Key(t)) == DepKeys(t)
      {
        assert Key(t) in KeysOf(ts);
      }
    }

    /** Two task lists with the same tasks define the same relation. */
    lemma KeyGraphOfSameTasks(ts: seq<Task>, us: seq<Task>)
      requires DistinctKeys(ts) && DistinctKeys(us)
      requires forall t :: t in ts <==> t in us
      ensures KeyGraph(ts) == KeyGraph(us)
    {
      KeyGraphEdges(ts);
      KeyGraphEdges(us);
      assert KeysOf(ts) == KeysOf(us);
      forall k | k in KeyGraph(ts)
        ensures KeyGraph(ts)[k] == KeyGraph(us)[k]
      {
        var t :| t in ts && Key(t) == k;
        assert KeyGraph(ts)[k] == Succ(KeyGraph(ts), Key(t)) && KeyGraph(us)[k] == Succ(KeyGraph(us), Key(t));
      }
    }
  }

  lemma SameKeySameTask(u: Universe, ts: seq<Task>, s: Task, t: Task)
    requires u.DistinctKeys(ts) && s in ts && t in ts && u.Key(s) == u.Key(t)
    ensures s == t
  {
    var i :| 0 <= i < |ts| && ts[i] == s;
    var j :| 0 <= j < |ts| && ts[j] == t;
  }

  lemma IdentifiedIsCoherent(u: Universe, ts: seq<Task>)
    requires u.Valid() && u.Schedulable(ts) && u.KeysIdentify()
    ensures u.Coherent(ts)
  {
    forall t, d | t in ts && d in u.Dependents(t)
      ensures d in ts
    {
      assert u.Key(d) in u.KeysOf(ts);
    }
  }

  /** What `uniqueDeps` promises: one task for every key that dependencies can reach. */
  ghost predicate IsUniqueDeps(u: Universe, given: seq<Task>, ts: seq<Task>) {
    && u.Schedulable(ts)
    && u.KeysOf(given) <= u.KeysOf(ts)
    && forall t :: t in ts ==> Reachable(u.TaskGraph(), SetOf(given), t)
  }

  // ----- the order of the list -----

  /** The first task of each key, in order. */
  function Firsts(u: Universe, ts: seq<Task>): seq<Task> {
    if ts == [] then []
    else
      var front, last := Firsts(u, ts[..|ts| - 1]), ts[|ts| - 1];
      if u.Key(last) in u.KeysOf(front) then front else front + [last]
  }

  /** The dependents of the tasks, one task after the other. */
  function DependentsOf(u: Universe, ts: seq<Task>): seq<Task> {
    if ts == [] then [] else DependentsOf(u, ts[..|ts| - 1]) + u.Dependents(ts[|ts| - 1])
  }

  /** The order `uniqueDeps` promises: the given tasks and behind them the dependents of each listed task in turn, of
      which the first of each key is kept; and each is brought in by the tasks before it. */
  ghost predicate IsBreadthFirst(u: Universe, given: seq<Task>, ts: seq<Task>) {
    && ts == Firsts(u, given + DependentsOf(u, ts))
    && forall k :: 0 <= k < |ts| ==> IsBroughtIn(u, given, ts, k)
  }

  ghost predicate IsBroughtIn(u: Universe, given: seq<Task>, ts: seq<Task>, k: nat)
    requires k < |ts|
  {
    ts[..k + 1] <= Firsts(u, given + DependentsOf(u, ts[..k]))
  }

  lemma FirstsOneMore(u: Universe, ts: seq<Task>, t: Task)
    ensures Firsts(u, ts + [t]) == if u.Key(t) in u.KeysOf(Firsts(u, ts)) then Firsts(u, ts) else Firsts(u, ts) + [t]
  {
    assert (ts + [t])[..|ts|] == ts;
  }

  lemma {:induction false} FirstsGrow(u: Universe, ts: seq<Task>, more: seq<Task>)
    ensures Firsts(u, ts) <= Firsts(u, ts + more)
  {
    if more == [] {
      assert ts + more == ts;
    } else {
      var front := more[..|more| - 1];
      FirstsGrow(u, ts, front);
      assert ts + more == ts + front + [more[|more| - 1]];
      FirstsOneMore(u, ts + front, more[|more| - 1]);
    }
  }

  /** Kept are exactly the tasks that no task of their key goes before. */
  lemma {:induction false} FirstsAre(u: Universe, ts: seq<Task>)
    ensures u.KeysOf(Firsts(u, ts)) == u.KeysOf(ts) && u.DistinctKeys(Firsts(u, ts))
    ensures forall t :: t in Firsts(u, ts) <==> IsFirst(u, ts, t)
  {
    if ts != [] {
      var front, last := ts[..|ts| - 1], ts[|ts| - 1];
      FirstsAre(u, front);
      assert ts == front + [last];
      KeysOfJoined(u, front, [last]);
      KeysOfJoined(u, Firsts(u, front), [last]);
      forall t
        ensures t in Firsts(u, ts) <==> IsFirst(u, ts, t)
      {
        FirstOneMore(u, front, last, t);
      }
    }
  }

  ghost predicate IsFirstAt(u: Universe, ts: seq<Task>, t: Task, i: nat) {
    i < |ts| && ts[i] == t && forall j :: 0 <= j < i ==> u.Key(ts[j]) != u.Key(t)
  }

  ghost predicate IsFirst(u: Universe, ts: seq<Task>, t: Task) {
    exists i: nat :: IsFirstAt(u, ts, t, i)
  }

  lemma FirstOneMore(u: Universe, ts: seq<Task>, last: Task, t: Task)
    ensures IsFirst(u, ts + [last], t) <==> IsFirst(u, ts, t) || (t == last && u.Key(t) !in u.KeysOf(ts))
  {
    if i: nat :| IsFirstAt(u, ts + [last], t, i) {
      assert forall j :: 0 <= j < |ts| ==> (ts + [last])[j] == ts[j];
      if i < |ts| {
        assert IsFirstAt(u, ts, t, i);
      }
    }
    if i: nat :| IsFirstAt(u, ts, t, i) {
      assert IsFirstAt(u, ts + [last], t, i);
    }
    if t == last && u.Key(t) !in u.KeysOf(ts) {
      assert IsFirstAt(u, ts + [last], t, |ts|);
    }
  }

  lemma {:induction false} FirstsOfDistinct(u: Universe, ts: seq<Task>)
    requires u.DistinctKeys(ts)
    ensures Firsts(u, ts) == ts
  {
    if ts != [] {
      var front := ts[..|ts| - 1];
      FirstsOfDistinct(u, front);
      assert ts == front + [ts[|ts| - 1]];
    }
  }

  /** The given tasks come first, in the order given, but for those whose key was given before; what nobody gave comes
      behind them. */
  lemma GivenComeFirst(u: Universe, given: seq<Task>, ts: seq<Task>)
    requires IsBreadthFirst(u, given, ts)
    ensures Firsts(u, given) <= ts
    ensures forall t :: IsFirst(u, given, t) ==> t in ts
    ensures forall i :: 0 <= i < |Firsts(u, given)| ==> ts[i] in given
  {
    FirstsGrow(u, given, DependentsOf(u, ts));
    FirstsAre(u, given);
    forall i | 0 <= i < |Firsts(u, given)|
      ensures ts[i] in given
    {
      assert IsFirst(u, given, Firsts(u, given)[i]);
    }
  }

  /** A given task is on the list when all given tasks of its key are that task. */
  lemma GivenIsListed(u: Universe, given: seq<Task>, ts: seq<Task>, t: Task)
    requires IsBreadthFirst(u, given, ts) && t in given
    requires forall s :: s in given && u.Key(s) == u.Key(t) ==> s == t
    ensures t in ts
  {
    GivenComeFirst(u, given, ts);
    FirstsAre(u, given);
    assert u.Key(t) in u.KeysOf(Firsts(u, given));
    var s :| s in Firsts(u, given) && u.Key(s) == u.Key(t);
    assert IsFirst(u, given, s);
  }

  /** There is only one such list. */
  lemma BreadthFirstIsUnique(u: Universe, given: seq<Task>, ts: seq<Task>, us: seq<Task>)
    requires IsBreadthFirst(u, given, ts) && IsBreadthFirst(u, given, us)
    ensures ts == us
  {
    AgreeUpTo(u, given, ts, us, |ts|);
    AgreeUpTo(u, given, us, ts, |us|);
    assert ts[..|ts|] == ts && us[..|us|] == us;
  }

  lemma {:induction false} AgreeUpTo(u: Universe, given: seq<Task>, ts: seq<Task>, us: seq<Task>, k: nat)
    requires IsBreadthFirst(u, given, ts) && IsBreadthFirst(u, given, us) && k <= |ts|
    ensures ts[..k] <= us
  {
    if k > 0 {
      AgreeUpTo(u, given, ts, us, k - 1);
      assert IsBroughtIn(u, given, ts, k - 1);
      assert ts[..k - 1] == us[..k - 1];
      BroughtInEverywhere(u, given, us, k - 1);
    }
  }

  /** What the first `k` tasks bring in is on the list. */
  lemma BroughtInEverywhere(u: Universe, given: seq<Task>, us: seq<Task>, k: nat)
    requires IsBreadthFirst(u, given, us) && k <= |us|
    ensures Firsts(u, given + DependentsOf(u, us[..k])) <= us
  {
    var some, all := DependentsOf(u, us[..k]), DependentsOf(u, us);
    DependentsGrow(u, us, k);
    FirstsGrow(u, given + some, all[|some|..]);
    assert some + all[|some|..] == all;
    Regrouped(given, some, all[|some|..]);
  }

  lemma {:induction false} DependentsGrow(u: Universe, ts: seq<Task>, k: nat)
    requires k <= |ts|
    ensures DependentsOf(u, ts[..k]) <= DependentsOf(u, ts)
    decreases |ts|
  {
    if k == |ts| {
      assert ts[..k] == ts;
    } else {
      assert ts[..|ts| - 1][..k] == ts[..k];
      DependentsGrow(u, ts[..|ts| - 1], k);
    }
  }

  /** Between two turns of a queue loop the turns taken so far and the queue hold the given tasks and the dependents of
      what is kept, in that order; kept is the first of each key among the turns. */
  ghost predicate InTurn(u: Universe, given: seq<Task>, turns: seq<Task>, queue: seq<Task>, deps: seq<Task>) {
    && turns + queue == given + DependentsOf(u, deps)
    && deps == Firsts(u, turns)
    && forall k :: 0 <= k < |deps| ==> IsBroughtIn(u, given, deps, k)
  }

  lemma InTurnAfterSkip(u: Universe, given: seq<Task>, turns: seq<Task>, queue: seq<Task>, deps: seq<Task>)
    requires InTurn(u, given, turns, queue, deps) && queue != [] && u.Key(queue[0]) in u.KeysOf(deps)
    ensures InTurn(u, given, turns + [queue[0]], queue[1..], deps)
  {
    TurnTaken(turns, queue);
    FirstsOneMore(u, turns, queue[0]);
  }

  lemma InTurnAfterVisit(u: Universe, given: seq<Task>, turns: seq<Task>, queue: seq<Task>, deps: seq<Task>)
    requires InTurn(u, given, turns, queue, deps) && queue != [] && u.Key(queue[0]) !in u.KeysOf(deps)
    ensures InTurn(u, given, turns + [queue[0]], queue[1..] + u.Dependents(queue[0]), deps + [queue[0]])
  {
    var task, rest := queue[0], queue[1..];
    TurnTaken(turns, queue);
    FirstsOneMore(u, turns, task);
    FirstsGrow(u, turns + [task], rest);
    BroughtInOneMore(u, given, deps, task);
    Regrouped(turns + [task], rest, u.Dependents(task));
    Regrouped(given, DependentsOf(u, deps), u.Dependents(task));
  }

  lemma TurnTaken(turns: seq<Task>, queue: seq<Task>)
    requires queue != []
    ensures turns + [queue[0]] + queue[1..] == turns + queue
  {
  }

  lemma Regrouped(a: seq<Task>, b: seq<Task>, c: seq<Task>)
    ensures a + (b + c) == a + b + c
  {
  }

  lemma BroughtInOneMore(u: Universe, given: seq<Task>, deps: seq<Task>, task: Task)
    requires forall k :: 0 <= k < |deps| ==> IsBroughtIn(u, given, deps, k)
    requires deps + [task] <= Firsts(u, given + DependentsOf(u, deps))
    ensures forall k :: 0 <= k < |deps + [task]| ==> IsBroughtIn(u, given, deps + [task], k)
    ensures DependentsOf(u, deps + [task]) == DependentsOf(u, deps) + u.Dependents(task)
  {
    var more := deps + [task];
    assert more[..|deps|] == deps;
    forall k | 0 <= k < |more|
      ensures IsBroughtIn(u, given, more, k)
    {
      if k < |deps| {
        assert IsBroughtIn(u, given, deps, k);
        assert more[..k + 1] == deps[..k + 1] && more[..k] == deps[..k];
      } else {
        assert more[..k + 1] == more;
      }
    }
  }

  lemma InTurnAtEnd(u: Universe, given: seq<Task>, turns: seq<Task>, deps: seq<Task>)
    requires InTurn(u, given, turns, [], deps)
    ensures IsBreadthFirst(u, given, deps)
  {
    assert turns + [] == turns;
  }

  /** Between two turns of a queue loop: the tasks kept in `deps` have the keys in `seen`, and whatever
      is still owed is queued. */
  ghost predicate Owed(u: Universe, given: seq<Task>, queue: seq<Task>, deps: seq<Task>, seen: set<string>) {
    && u.Known(queue) && u.Known(deps) && u.DistinctKeys(deps)
    && seen == u.KeysOf(deps)
    && u.KeysOf(given) <= seen + u.KeysOf(queue)
    && (forall t :: t in deps ==> u.DepKeys(t) <= seen + u.KeysOf(queue))
    && (forall t :: t in queue || t in deps ==> Reachable(u.TaskGraph(), SetOf(given), t))
  }

  lemma OwedInitially(u: Universe, given: seq<Task>)
    requires u.Valid() && u.Known(given)
    ensures Owed(u, given, given, [], {})
  {
    forall t | t in given
      ensures Reachable(u.TaskGraph(), SetOf(given), t)
    {
      ReachableRoot(u.TaskGraph(), SetOf(given), t);
    }
  }

  lemma KeysOfJoined(u: Universe, ts: seq<Task>, us: seq<Task>)
    ensures u.KeysOf(ts + us) == u.KeysOf(ts) + u.KeysOf(us)
  {
  }

  /** A queued task whose key was seen can be dropped. */
  lemma OwedAfterSkip(u: Universe, given: seq<Task>, queue: seq<Task>, deps: seq<Task>, seen: set<string>)
    requires Owed(u, given, queue, deps, seen) && queue != [] && u.Key(queue[0]) in seen
    ensures Owed(u, given, queue[1..], deps, seen)
  {
    assert queue == [queue[0]] + queue[1..];
    KeysOfJoined(u, [queue[0]], queue[1..]);
  }

  /** The first task of a key is kept and its dependents are queued. */
  lemma OwedAfterVisit(u: Universe, given: seq<Task>, queue: seq<Task>, deps: seq<Task>, seen: set<string>)
    requires u.Valid() && u.Known(given)
    requires Owed(u, given, queue, deps, seen) && queue != [] && u.Key(queue[0]) !in seen
    ensures Owed(u, given, queue[1..] + u.Dependents(queue[0]), deps + [queue[0]], seen + {u.Key(queue[0])})
  {
    var task, rest := queue[0], queue[1..];
    assert queue == [task] + rest;
    KeysOfJoined(u, [task], rest);
    KeysOfJoined(u, rest, u.Dependents(task));
    KeysOfJoined(u, deps, [task]);
    assert u.KeysOf(u.Dependents(task)) == u.DepKeys(task);
    forall d | d in u.Dependents(task)
      ensures Reachable(u.TaskGraph(), SetOf(given), d)
    {
      ReachableStep(u.TaskGraph(), SetOf(given), task, d);
    }
  }

  lemma OwedAtEnd(u: Universe, given: seq<Task>, deps: seq<Task>, seen: set<string>)
    requires Owed(u, given, [], deps, seen)
    ensures IsUniqueDeps(u, given, deps)
  {
    forall t, d | t in deps && d in u.Dependents(t)
      ensures u.Key(d) in u.KeysOf(deps)
    {
      assert u.Key(d) in u.DepKeys(t);
    }
  }

  function AllKeys(u: Universe): set<string> {
    set t | t in u.key :: u.Key(t)
  }

  /** `uniqueDeps`: a queue over the given tasks and, at the first task of each key, its dependents.
      Terminates on every universe, cyclic ones included. */
  method UniqueDeps(u: Universe, given: seq<Task>) returns (deps: seq<Task>)
    requires u.Valid() && u.Known(given)
    ensures IsUniqueDeps(u, given, deps) && IsBreadthFirst(u, given, deps)
  {
    var seen: set<string> := {};
    deps := [];
    var queue := Enqueue([], given);
    ghost var turns: seq<Task> := [];
    assert queue == given;
    OwedInitially(u, given);
    while |queue| > 0
      invariant Owed(u, given, queue, deps, seen) && InTurn(u, given, turns, queue, deps)
      decreases AllKeys(u) - seen, |queue|
    {
      var task := queue[0];
      ghost var before := turns;
      turns := turns + [task];
      if u.Key(task) !in seen {
        OwedAfterVisit(u, given, queue, deps, seen);
        InTurnAfterVisit(u, given, before, queue, deps);
        seen := seen + {u.Key(task)};
        queue := Enqueue(queue[1..], u.Dependents(task));
        deps := deps + [task];
      } else {
        OwedAfterSkip(u, given, queue, deps, seen);
        InTurnAfterSkip(u, given, before, queue, deps);
        queue := queue[1..];
      }
    }
    OwedAtEnd(u, given, deps, seen);
    InTurnAtEnd(u, given, turns, deps);
  }

  /** The loop that appends the dependents one at a time. */
  method Enqueue(queue: seq<Task>, more: seq<Task>) returns (longer: seq<Task>)
    ensures longer == queue + more
  {
    longer := queue;
    for i := 0 to |more|
      invariant longer == queue + more[..i]
    {
      longer := longer + [more[i]];
    }
  }

  /** When keys identify tasks, the list `uniqueDeps` returns holds exactly the tasks reachable through
      `Dependents`, so its keys are exactly the reachable keys. */
  lemma UniqueDepsIsReachableSet(u: Universe, given: seq<Task>, ts: seq<Task>, t: Task)
    requires u.Valid() && u.Known(given) && u.KeysIdentify()
    requires IsUniqueDeps(u, given, ts)
    ensures t in ts <==> Reachable(u.TaskGraph(), SetOf(given), t)
  {
    var g, roots, inside := u.TaskGraph(), SetOf(given), SetOf(ts);
    forall s | s in roots
      ensures s in inside
    {
      assert u.Key(s) in u.KeysOf(given);
    }
    forall s | s in inside
      ensures Succ(g, s) <= inside
    {
      forall d | d in Succ(g, s)
        ensures d in inside
      {
        assert d in u.Dependents(s);
        assert u.Key(d) in u.KeysOf(ts);
      }
    }
    if Reachable(g, roots, t) {
      ReachableInside(g, roots, inside, t);
    }
  }
}
