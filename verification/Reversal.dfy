/** NewReversedRunner: the same tasks with every dependency turned round. */
module Reversal {
  import opened Graphs
  import opened Tasks

  /** The tasks that depend on the key, by walking the kept tasks and their dependents in order. */
  type Dependers = map<string, seq<Task>>

  function Of(m: Dependers, k: string): seq<Task> {
    if k in m then m[k] else []
  }

  /** `reversedDeps` lists, for every key, exactly the kept tasks with a dependency of that key. */
  ghost predicate ListsDependers(u: Universe, kept: seq<Task>, m: Dependers) {
    forall k, t :: t in Of(m, k) <==> t in kept && k in u.DepKeys(t)
  }

  /** The reversed tasks form a universe of their own: each keeps its key. */
  ghost predicate IsReversal(u: Universe, ts: seq<Task>, r: Universe, rs: seq<Task>) {
    && r.Valid() && r.Schedulable(rs)
    && r.KeysOf(rs) == u.KeysOf(ts)
    && (forall t :: t in rs <==> t in ts)
    && (forall t :: t in ts ==> r.Key(t) == u.Key(t))
    && Inverse(u.KeyGraph(ts), r.KeyGraph(rs))
  }

  /** One dependent of a visited task: note the depender, and queue the dependent. */
  method NoteDependents(u: Universe, task: Task, queue: seq<Task>, m: Dependers)
    returns (queue': seq<Task>, m': Dependers)
    ensures queue' == queue + u.Dependents(task)
    ensures forall k, t :: t in Of(m', k) <==> t in Of(m, k) || (t == task && k in u.DepKeys(task))
  {
    queue', m' := queue, m;
    var deps := u.Dependents(task);
    for i := 0 to |deps|
      invariant queue' == queue + deps[..i]
      invariant forall k, t :: t in Of(m', k) <==> t in Of(m, k) || (t == task && k in u.KeysOf(deps[..i]))
    {
      var key, before := u.Key(deps[i]), m';
      m' := m'[key := Of(m', key) + [task]];
      queue' := queue' + [deps[i]];
      assert deps[..i + 1] == deps[..i] + [deps[i]];
      KeysOfJoined(u, deps[..i], [deps[i]]);
      assert forall k :: Of(m', k) == if k == key then Of(before, k) + [task] else Of(before, k);
    }
    assert deps[..|deps|] == deps;
  }

  /** The reversed task objects: `dependents` filled from the map, looked up by key. */
  function ReversedUniverse(u: Universe, ts: seq<Task>, m: Dependers): Universe {
    Universe(map t | t in ts :: u.Key(t), map t | t in ts :: Of(m, u.Key(t)))
  }

  lemma ReversedKeys(u: Universe, ts: seq<Task>, m: Dependers, r: Universe)
    requires u.Schedulable(ts) && ListsDependers(u, ts, m) && r == ReversedUniverse(u, ts, m)
    ensures r.Valid() && r.Schedulable(ts) && r.KeysOf(ts) == u.KeysOf(ts)
    ensures forall t :: t in ts ==> r.Key(t) == u.Key(t)
  {
    assert forall t :: t in ts ==> r.Key(t) == u.Key(t) && r.Dependents(t) == Of(m, u.Key(t));
    forall t, d | t in ts && d in r.Dependents(t)
      ensures d in ts && r.Key(d) in r.KeysOf(ts)
    {
      assert d in Of(m, u.Key(t));
    }
  }

  lemma ReversalIsInverse(u: Universe, ts: seq<Task>, m: Dependers, r: Universe)
    requires u.Schedulable(ts) && ListsDependers(u, ts, m) && r == ReversedUniverse(u, ts, m)
    ensures IsReversal(u, ts, r, ts)
  {
    ReversedKeys(u, ts, m, r);
    var g, h := u.KeyGraph(ts), r.KeyGraph(ts);
    forall x, y
      ensures y in Succ(h, x) <==> x in Succ(g, y)
    {
      EdgeTurned(u, ts, m, r, x, y);
    }
  }

  lemma EdgeTurned(u: Universe, ts: seq<Task>, m: Dependers, r: Universe, x: string, y: string)
    requires u.Schedulable(ts) && ListsDependers(u, ts, m) && r == ReversedUniverse(u, ts, m)
    requires r.DistinctKeys(ts)
    ensures y in Succ(r.KeyGraph(ts), x) <==> x in Succ(u.KeyGraph(ts), y)
  {
    if y in Succ(r.KeyGraph(ts), x) {
      EdgeBack(u, ts, m, r, x, y);
    }
    if x in Succ(u.KeyGraph(ts), y) {
      EdgeForth(u, ts, m, r, x, y);
    }
  }

  lemma EdgeBack(u: Universe, ts: seq<Task>, m: Dependers, r: Universe, x: string, y: string)
    requires u.DistinctKeys(ts) && ListsDependers(u, ts, m) && r == ReversedUniverse(u, ts, m)
    requires r.DistinctKeys(ts) && y in Succ(r.KeyGraph(ts), x)
    ensures x in Succ(u.KeyGraph(ts), y)
  {
    u.KeyGraphEdges(ts);
    r.KeyGraphEdges(ts);
    var t :| t in ts && r.Key(t) == x;
    assert Succ(r.KeyGraph(ts), r.Key(t)) == r.DepKeys(t);
    var s :| s in r.Dependents(t) && r.Key(s) == y;
    assert s in Of(m, x);
    assert Succ(u.KeyGraph(ts), u.Key(s)) == u.DepKeys(s);
  }

  lemma EdgeForth(u: Universe, ts: seq<Task>, m: Dependers, r: Universe, x: string, y: string)
    requires u.Schedulable(ts) && ListsDependers(u, ts, m) && r == ReversedUniverse(u, ts, m)
    requires r.DistinctKeys(ts) && x in Succ(u.KeyGraph(ts), y)
    ensures y in Succ(r.KeyGraph(ts), x)
  {
    u.KeyGraphEdges(ts);
    r.KeyGraphEdges(ts);
    var s :| s in ts && u.Key(s) == y;
    assert Succ(u.KeyGraph(ts), u.Key(s)) == u.DepKeys(s);
    assert s in Of(m, x);
    var d :| d in u.Dependents(s) && u.Key(d) == x;
    assert x in u.KeysOf(ts);
    var t :| t in ts && u.Key(t) == x;
    assert Succ(r.KeyGraph(ts), r.Key(t)) == r.DepKeys(t);
    assert s in r.Dependents(t);
  }

  /** The first loop of NewReversedRunner: keep the first task of each key, note who depends on what. */
  method CollectDependers(u: Universe, given: seq<Task>) returns (kept: seq<Task>, reversedDeps: Dependers)
    requires u.Valid() && u.Known(given)
    ensures IsUniqueDeps(u, given, kept) && IsBreadthFirst(u, given, kept)
    ensures ListsDependers(u, kept, reversedDeps)
  {
    reversedDeps := map[];
    var seen: set<string> := {};
    kept := [];
    var tasks := given;
    ghost var turns: seq<Task> := [];
    OwedInitially(u, given);
    while |tasks| != 0
      invariant Owed(u, given, tasks, kept, seen) && InTurn(u, given, turns, tasks, kept)
      invariant ListsDependers(u, kept, reversedDeps)
      decreases AllKeys(u) - seen, |tasks|
    {
      var task := tasks[0];
      ghost var before := turns;
      turns := turns + [task];
      if u.Key(task) in seen {
        OwedAfterSkip(u, given, tasks, kept, seen);
        InTurnAfterSkip(u, given, before, tasks, kept);
        tasks := tasks[1..];
      } else {
        OwedAfterVisit(u, given, tasks, kept, seen);
        InTurnAfterVisit(u, given, before, tasks, kept);
        var queue, noted := NoteDependents(u, task, tasks[1..], reversedDeps);
        ListsOneMore(u, kept, task, reversedDeps, noted);
        seen := seen + {u.Key(task)};
        tasks, kept, reversedDeps := queue, kept + [task], noted;
      }
    }
    OwedAtEnd(u, given, kept, seen);
    InTurnAtEnd(u, given, turns, kept);
  }

  lemma ListsOneMore(u: Universe, kept: seq<Task>, task: Task, m: Dependers, m': Dependers)
    requires ListsDependers(u, kept, m)
    requires forall k, t :: t in Of(m', k) <==> t in Of(m, k) || (t == task && k in u.DepKeys(task))
    ensures ListsDependers(u, kept + [task], m')
  {
  }

  /** NewReversedRunner up to the list the pool will run: `kept` is the dependency closure of the given
      tasks, and `rs` holds the reversed tasks, on which the dependency relation is exactly the inverse. */
  method NewReversedRunner(u: Universe, given: seq<Task>)
    returns (kept: seq<Task>, r: Universe, rs: seq<Task>)
    requires u.Valid() && u.Known(given)
    ensures IsUniqueDeps(u, given, kept) && IsBreadthFirst(u, given, kept)
    ensures IsReversal(u, kept, r, rs) && rs == kept
  {
    var reversedDeps;
    kept, reversedDeps := CollectDependers(u, given);
    r := ReversedUniverse(u, kept, reversedDeps);
    ReversalIsInverse(u, kept, reversedDeps, r);
    rs := UniqueDeps(r, kept);
    SameTasksReversed(u, kept, r, rs);
    SameOrderReversed(r, kept, rs);
  }

  lemma SameOrderReversed(r: Universe, ts: seq<Task>, rs: seq<Task>)
    requires r.DistinctKeys(ts) && r.DistinctKeys(rs) && IsBreadthFirst(r, ts, rs)
    requires r.KeysOf(rs) <= r.KeysOf(ts)
    ensures rs == ts
  {
    GivenComeFirst(r, ts, rs);
    FirstsOfDistinct(r, ts);
    assert forall t :: t in rs ==> r.Key(t) in r.KeysOf(ts);
  }

  /** The closure NewRunner computes over the reversed tasks adds nothing and drops nothing. */
  lemma SameTasksReversed(u: Universe, ts: seq<Task>, r: Universe, rs: seq<Task>)
    requires u.Schedulable(ts) && IsReversal(u, ts, r, ts) && IsUniqueDeps(r, ts, rs)
    requires r.key.Keys == SetOf(ts)
    ensures IsReversal(u, ts, r, rs)
  {
    forall t
      ensures t in rs <==> t in ts
    {
      if t in ts {
        assert r.Key(t) in r.KeysOf(rs);
        var s :| s in rs && r.Key(s) == r.Key(t);
        SameKeySameTask(u, ts, s, t);
      }
    }
    assert r.KeysOf(rs) == r.KeysOf(ts);
    r.KeyGraphOfSameTasks(ts, rs);
  }

  /** The reversed dependencies have a cycle exactly when the original ones do. */
  lemma ReversalKeepsAcyclicity(u: Universe, ts: seq<Task>, r: Universe, rs: seq<Task>)
    requires IsReversal(u, ts, r, rs)
    ensures Acyclic(r.KeyGraph(rs)) <==> Acyclic(u.KeyGraph(ts))
  {
    InverseAcyclic(u.KeyGraph(ts), r.KeyGraph(rs));
  }
}
