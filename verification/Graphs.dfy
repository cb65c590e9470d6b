/** Finite directed graphs as successor maps: walks, reachability and acyclicity.
    Every component that follows a dependency, import or parent relation states its
    results in these terms. */
module Graphs {

  function SetOf<T>(s: seq<T>): set<T> {
    set x | x in s
  }

  function Succ<T>(g: map<T, set<T>>, x: T): set<T> {
    if x in g then g[x] else {}
  }

  ghost predicate Walk<T(!new)>(g: map<T, set<T>>, p: seq<T>) {
    && |p| > 0
    && forall i {:trigger Succ(g, p[i])} :: 0 <= i < |p| - 1 ==> p[i + 1] in Succ(g, p[i])
  }

  /** No walk of at least one edge returns to where it began. */
  ghost predicate Acyclic<T(!new)>(g: map<T, set<T>>) {
    forall p: seq<T> :: Walk(g, p) && |p| >= 2 ==> p[0] != p[|p| - 1]
  }

  ghost predicate WalkTo<T(!new)>(g: map<T, set<T>>, roots: set<T>, p: seq<T>, x: T) {
    Walk(g, p) && p[0] in roots && p[|p| - 1] == x
  }

  ghost predicate Reachable<T(!new)>(g: map<T, set<T>>, roots: set<T>, x: T) {
    exists p :: WalkTo(g, roots, p, x)
  }

  ghost predicate ClosedUnder<T(!new)>(g: map<T, set<T>>, s: set<T>) {
    forall x :: x in s ==> Succ(g, x) <= s
  }

  /** `rank` falls strictly along every edge. */
  ghost predicate Ranked<T(!new)>(g: map<T, set<T>>, rank: map<T, nat>) {
    forall x, y :: y in Succ(g, x) ==> x in rank && y in rank && rank[y] < rank[x]
  }

  lemma ReachableRoot<T(!new)>(g: map<T, set<T>>, roots: set<T>, x: T)
    requires x in roots
    ensures Reachable(g, roots, x)
  {
    assert WalkTo(g, roots, [x], x);
  }

  lemma ReachableStep<T(!new)>(g: map<T, set<T>>, roots: set<T>, x: T, y: T)
    requires Reachable(g, roots, x)
    requires y in Succ(g, x)
    ensures Reachable(g, roots, y)
  {
    var p :| WalkTo(g, roots, p, x);
    assert WalkTo(g, roots, p + [y], y);
  }

  /** Reachability is the least set that holds the roots and is closed under the edges. */
  lemma {:induction false} WalkStaysInside<T(!new)>(g: map<T, set<T>>, s: set<T>, p: seq<T>)
    requires Walk(g, p) && p[0] in s && ClosedUnder(g, s)
    ensures p[|p| - 1] in s
    decreases |p|
  {
    if |p| > 1 {
      WalkStaysInside(g, s, p[..|p| - 1]);
      assert p[|p| - 1] in Succ(g, p[|p| - 2]);
    }
  }

  lemma ReachableInside<T(!new)>(g: map<T, set<T>>, roots: set<T>, s: set<T>, x: T)
    requires roots <= s && ClosedUnder(g, s) && Reachable(g, roots, x)
    ensures x in s
  {
    var p :| WalkTo(g, roots, p, x);
    WalkStaysInside(g, s, p);
  }

  lemma ReachingBackIsCycle<T(!new)>(g: map<T, set<T>>, d: T, x: T)
    requires d in Succ(g, x) && Reachable(g, {d}, x)
    ensures !Acyclic(g)
  {
    var p :| WalkTo(g, {d}, p, x);
    assert Walk(g, p + [d]);
  }

  lemma {:induction false} RankFalls<T(!new)>(g: map<T, set<T>>, rank: map<T, nat>, p: seq<T>)
    requires Ranked(g, rank) && Walk(g, p) && |p| >= 2
    ensures p[0] in rank && p[|p| - 1] in rank && rank[p[|p| - 1]] < rank[p[0]]
    decreases |p|
  {
    var x, y := p[|p| - 2], p[|p| - 1];
    assert y in Succ(g, x);
    assert x in rank && y in rank && rank[y] < rank[x];
    if |p| > 2 {
      var q := p[..|p| - 1];
      RankFalls(g, rank, q);
      assert q[0] == p[0] && q[|q| - 1] == p[|p| - 2];
    }
  }

  lemma RankedIsAcyclic<T(!new)>(g: map<T, set<T>>, rank: map<T, nat>)
    requires Ranked(g, rank)
    ensures Acyclic(g)
  {
    forall p: seq<T> | Walk(g, p) && |p| >= 2
      ensures p[0] != p[|p| - 1]
    {
      RankFalls(g, rank, p);
    }
  }

  /** A sequence over `s` longer than `s` repeats an element. */
  lemma {:induction false} Pigeonhole<T(!new)>(s: set<T>, p: seq<T>) returns (i: nat, j: nat)
    requires |p| > |s|
    requires forall k :: 0 <= k < |p| ==> p[k] in s
    ensures i < j < |p| && p[i] == p[j]
    decreases |p|
  {
    var last := p[|p| - 1];
    var rest := p[..|p| - 1];
    if k :| 0 <= k < |rest| && rest[k] == last {
      return k, |p| - 1;
    }
    i, j := Pigeonhole(s - {last}, rest);
  }

  ghost predicate Enters<T(!new)>(g: map<T, set<T>>, x: T, s: set<T>) {
    exists y :: y in Succ(g, x) && y in s
  }

  lemma {:induction false} WalkInside<T(!new)>(g: map<T, set<T>>, s: set<T>, n: nat) returns (p: seq<T>)
    requires s != {}
    requires forall x {:trigger Enters(g, x, s)} :: x in s ==> Enters(g, x, s)
    ensures |p| == n + 1 && Walk(g, p)
    ensures forall k :: 0 <= k < |p| ==> p[k] in s
    decreases n
  {
    if n == 0 {
      var x :| x in s;
      p := [x];
    } else {
      var q := WalkInside(g, s, n - 1);
      assert Enters(g, q[n - 1], s);
      var y :| y in Succ(g, q[n - 1]) && y in s;
      p := q + [y];
    }
  }

  lemma InnerWalk<T(!new)>(g: map<T, set<T>>, p: seq<T>, i: nat, j: nat)
    requires Walk(g, p) && i < j < |p|
    ensures Walk(g, p[i..j + 1])
  {
    var q := p[i..j + 1];
    forall k | 0 <= k < |q| - 1
      ensures q[k + 1] in Succ(g, q[k])
    {
      assert q[k] == p[i + k] && q[k + 1] == p[i + k + 1];
    }
  }

  /** In an acyclic graph every non-empty set has an element with no successor in the set. */
  lemma {:induction false} Sink<T(!new)>(g: map<T, set<T>>, s: set<T>) returns (x: T)
    requires Acyclic(g) && s != {}
    ensures x in s && !Enters(g, x, s)
  {
    if forall y {:trigger Enters(g, y, s)} :: y in s ==> Enters(g, y, s) {
      var p := WalkInside(g, s, |s|);
      var i, j := Pigeonhole(s, p);
      InnerWalk(g, p, i, j);
      assert false;
    } else {
      x :| x in s && !Enters(g, x, s);
    }
  }

  // ----- inverse graphs -----

  /** `h` has exactly the edges of `g`, turned round. */
  ghost predicate Inverse<T(!new)>(g: map<T, set<T>>, h: map<T, set<T>>) {
    forall x, y :: y in Succ(h, x) <==> x in Succ(g, y)
  }

  function Reversed<T>(p: seq<T>): (r: seq<T>)
    ensures |r| == |p| && forall i :: 0 <= i < |p| ==> r[i] == p[|p| - 1 - i]
  {
    seq(|p|, i requires 0 <= i < |p| => p[|p| - 1 - i])
  }

  lemma InverseAcyclicOneWay<T(!new)>(g: map<T, set<T>>, h: map<T, set<T>>)
    requires Inverse(g, h) && Acyclic(g)
    ensures Acyclic(h)
  {
    forall p: seq<T> | Walk(h, p) && |p| >= 2
      ensures p[0] != p[|p| - 1]
    {
      var q := Reversed(p);
      forall i | 0 <= i < |q| - 1
        ensures q[i + 1] in Succ(g, q[i])
      {
        var j := |p| - 2 - i;
        assert p[j + 1] in Succ(h, p[j]);
      }
      assert Walk(g, q);
    }
  }

  lemma InverseAcyclic<T(!new)>(g: map<T, set<T>>, h: map<T, set<T>>)
    requires Inverse(g, h)
    ensures Acyclic(g) <==> Acyclic(h)
  {
    if Acyclic(g) {
      InverseAcyclicOneWay(g, h);
    }
    if Acyclic(h) {
      assert Inverse(h, g);
      InverseAcyclicOneWay(h, g);
    }
  }
}
