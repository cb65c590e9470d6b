/** When memoising costs by key is right. */
module CostCache {
  import opened Graphs
  import opened Tasks
  import opened LongestPath

  /** The task's cost is asked for when the list's critical path is computed. */
  ghost predicate Asked(u: Universe, ts: seq<Task>, x: Task) {
    x in ts || exists t :: t in ts && x in u.Dependents(t)
  }

  /** Tasks that share a key, and so an entry in the cache, have the same cost. */
  ghost predicate SharedCostsAgree(u: Universe, tm: Timing, ts: seq<Task>) {
    forall x, y, c, e ::
      Asked(u, ts, x) && Asked(u, ts, y) && u.Key(x) == u.Key(y) && IsLongest(u, tm, x, c) && IsLongest(u, tm, y, e)
      ==> c == e
  }

  lemma ChainIsWalk(u: Universe, tm: Timing, p: seq<Task>)
    requires u.Valid() && Chain(u, tm, p)
    ensures Walk(u.TaskGraph(), p)
  {
    forall i | 0 <= i < |p| - 1
      ensures p[i + 1] in Succ(u.TaskGraph(), p[i])
    {
      assert Link(u, tm, p, i + 1);
      assert p[i + 1] in u.Dependents(p[i]);
    }
  }

  /** Only `a` takes any time. */
  function Only(a: Task): Timing {
    Timing(map[a := 1], map[], 0)
  }

  lemma {:induction false} TotalWithout(a: Task, p: seq<Task>)
    requires a !in p
    ensures Total(Only(a), p) == 0
  {
    if p != [] {
      assert p == [p[0]] + p[1..];
      TotalWithout(a, p[1..]);
    }
  }

  lemma CostsNothing(u: Universe, a: Task, b: Task)
    requires u.Valid() && a != b && !Reachable(u.TaskGraph(), {b}, a)
    ensures IsLongest(u, Only(a), b, 0)
  {
    TotalWithout(a, [b]);
    assert ChainFrom(u, Only(a), [b], b);
    forall p | ChainFrom(u, Only(a), p, b)
      ensures Total(Only(a), p) <= 0
    {
      ChainIsWalk(u, Only(a), p);
      if i :| 0 <= i < |p| && p[i] == a {
        InnerWalk(u.TaskGraph(), p, 0, i);
        assert WalkTo(u.TaskGraph(), {b}, p[0..i + 1], a);
        assert false;
      }
      TotalWithout(a, p);
    }
  }

  lemma NoReturn(g: map<Task, set<Task>>, p: seq<Task>, i: nat)
    requires Acyclic(g) && Walk(g, p) && 0 < i < |p|
    ensures p[i] != p[0]
  {
    var q := p[0..i + 1];
    InnerWalk(g, p, 0, i);
    assert q[|q| - 1] == p[i];
  }

  lemma CostsOnce(u: Universe, a: Task)
    requires u.Valid() && Acyclic(u.TaskGraph())
    ensures IsLongest(u, Only(a), a, 1)
  {
    assert Total(Only(a), [a]) == 1 + Total(Only(a), [a][1..]);
    assert ChainFrom(u, Only(a), [a], a);
    forall p | ChainFrom(u, Only(a), p, a)
      ensures Total(Only(a), p) <= 1
    {
      ChainIsWalk(u, Only(a), p);
      forall i | 0 < i < |p|
        ensures p[i] != a
      {
        NoReturn(u.TaskGraph(), p, i);
      }
      TotalWithout(a, p[1..]);
    }
  }

  lemma WalksJoin(g: map<Task, set<Task>>, p: seq<Task>, q: seq<Task>)
    requires Walk(g, p) && Walk(g, q) && p[|p| - 1] == q[0]
    ensures Walk(g, p + q[1..])
  {
    var r := p + q[1..];
    forall i | 0 <= i < |r| - 1
      ensures r[i + 1] in Succ(g, r[i])
    {
      if i >= |p| - 1 {
        assert r[i + 1] == q[i + 2 - |p|] && r[i] == q[i + 1 - |p|];
        assert q[i + 2 - |p|] in Succ(g, q[i + 1 - |p|]);
      } else {
        assert p[i + 1] in Succ(g, p[i]);
      }
    }
  }

  lemma NotBothWays(g: map<Task, set<Task>>, x: Task, y: Task)
    requires Acyclic(g) && x != y
    ensures !Reachable(g, {x}, y) || !Reachable(g, {y}, x)
  {
    if Reachable(g, {x}, y) && Reachable(g, {y}, x) {
      var p :| WalkTo(g, {x}, p, y);
      var q :| WalkTo(g, {y}, q, x);
      WalksJoin(g, p, q);
      assert false;
    }
  }

  /** Two tasks of one key whose costs differ when only one of them takes any time. */
  lemma CostsDiffer(u: Universe, ts: seq<Task>, a: Task, b: Task)
    requires u.Valid() && Acyclic(u.TaskGraph())
    requires Asked(u, ts, a) && Asked(u, ts, b) && u.Key(a) == u.Key(b)
    requires a != b && !Reachable(u.TaskGraph(), {b}, a)
    ensures !SharedCostsAgree(u, Only(a), ts)
  {
    CostsNothing(u, a, b);
    CostsOnce(u, a);
  }

  /** Costs may be cached by key, whatever the durations and start times are, exactly when every dependency of a
      listed task is itself on the list. Names that are used again can break it. */
  lemma CachingByKeyIff(u: Universe, ts: seq<Task>)
    requires u.Valid() && u.Schedulable(ts) && Acyclic(u.TaskGraph())
    ensures (forall tm :: SharedCostsAgree(u, tm, ts)) <==> u.Coherent(ts)
  {
    if u.Coherent(ts) {
      forall tm
        ensures SharedCostsAgree(u, tm, ts)
      {
        forall x, y | Asked(u, ts, x) && Asked(u, ts, y) && u.Key(x) == u.Key(y)
          ensures x == y
        {
          SameKeySameTask(u, ts, x, y);
        }
      }
    } else {
      var t, d :| t in ts && d in u.Dependents(t) && d !in ts;
      assert u.Key(d) in u.KeysOf(ts);
      var other :| other in ts && u.Key(other) == u.Key(d);
      NotBothWays(u.TaskGraph(), d, other);
      if Reachable(u.TaskGraph(), {d}, other) {
        CostsDiffer(u, ts, d, other);
      } else {
        CostsDiffer(u, ts, other, d);
      }
    }
  }
}
