/** The longest dependency chain, stated over chains rather than by recursion. */
module LongestPath {
  import opened Tasks

  /** `Duration`, `StartTime` and the moment the runner was created, in nanoseconds. */
  datatype Timing = Timing(duration: map<Task, int>, start: map<Task, int>, runnerStart: int) {
    function Duration(t: Task): int {
      if t in duration then duration[t] else 0
    }

    function StartTime(t: Task): int {
      if t in start then start[t] else 0
    }

    /** A task that was already running when the runner was created takes no part. */
    predicate Eligible(t: Task) {
      !(StartTime(t) < runnerStart)
    }
  }

  /** A dependency chain whose tasks after the first are eligible. */
  ghost predicate Chain(u: Universe, tm: Timing, p: seq<Task>) {
    && |p| > 0
    && forall i {:trigger p[i]} :: 0 < i < |p| ==> Link(u, tm, p, i)
  }

  ghost predicate Link(u: Universe, tm: Timing, p: seq<Task>, i: nat)
    requires 0 < i < |p|
  {
    p[i] in u.Dependents(p[i - 1]) && tm.Eligible(p[i])
  }

  function Total(tm: Timing, p: seq<Task>): int {
    if p == [] then 0 else tm.Duration(p[0]) + Total(tm, p[1..])
  }

  ghost predicate ChainFrom(u: Universe, tm: Timing, p: seq<Task>, t: Task) {
    Chain(u, tm, p) && p[0] == t
  }

  ghost predicate Attained(u: Universe, tm: Timing, t: Task, c: int) {
    exists p :: ChainFrom(u, tm, p, t) && Total(tm, p) == c
  }

  ghost predicate Bounded(u: Universe, tm: Timing, t: Task, c: int) {
    forall p :: ChainFrom(u, tm, p, t) ==> Total(tm, p) <= c
  }

  /** `c` is the greatest total duration of a dependency chain from `t`. */
  ghost predicate IsLongest(u: Universe, tm: Timing, t: Task, c: int) {
    Attained(u, tm, t, c) && Bounded(u, tm, t, c)
  }

  /** `h` is an eligible task of the list with the greatest positive longest chain, if there is one. */
  ghost predicate IsHighest(u: Universe, tm: Timing, ts: seq<Task>, h: Task, c: int) {
    && h in ts && tm.Eligible(h) && c > 0 && IsLongest(u, tm, h, c)
    && NoneAbove(u, tm, ts, c)
  }

  ghost predicate NoneAbove(u: Universe, tm: Timing, ts: seq<Task>, c: int) {
    forall t :: t in ts && tm.Eligible(t) ==> Bounded(u, tm, t, c)
  }

  lemma LongestIsUnique(u: Universe, tm: Timing, t: Task, c: int, d: int)
    requires IsLongest(u, tm, t, c) && IsLongest(u, tm, t, d)
    ensures c == d
  {
  }

  lemma ChainTail(u: Universe, tm: Timing, p: seq<Task>)
    requires Chain(u, tm, p) && |p| > 1
    ensures ChainFrom(u, tm, p[1..], p[1])
    ensures p[1] in u.Dependents(p[0]) && tm.Eligible(p[1])
  {
    assert Link(u, tm, p, 1);
    forall i | 0 < i < |p[1..]|
      ensures Link(u, tm, p[1..], i)
    {
      assert p[1..][i] == p[i + 1];
      assert Link(u, tm, p, i + 1);
    }
  }

  lemma ChainExtends(u: Universe, tm: Timing, t: Task, p: seq<Task>)
    requires Chain(u, tm, p) && p[0] in u.Dependents(t) && tm.Eligible(p[0])
    ensures ChainFrom(u, tm, [t] + p, t) && Total(tm, [t] + p) == tm.Duration(t) + Total(tm, p)
  {
    var q := [t] + p;
    assert q[1..] == p;
    forall i | 0 < i < |q|
      ensures Link(u, tm, q, i)
    {
      if i > 1 {
        assert q[i] == p[i - 1] && q[i - 1] == p[i - 2];
        assert Link(u, tm, p, i - 1);
      }
    }
  }

  /** A chain from `t` is `t` followed by a chain from an eligible dependent, so the recursion computes the
      maximum over all chains: with `rest` the greatest positive cost among the dependents, or 0. */
  lemma LongestStep(u: Universe, tm: Timing, t: Task, rest: int)
    requires rest >= 0 && NoneAbove(u, tm, u.Dependents(t), rest)
    requires rest > 0 ==> exists h :: IsHighest(u, tm, u.Dependents(t), h, rest)
    ensures IsLongest(u, tm, t, tm.Duration(t) + rest)
  {
    if rest == 0 {
      assert Total(tm, [t]) == tm.Duration(t) + Total(tm, [t][1..]);
      assert ChainFrom(u, tm, [t], t);
    } else {
      var h :| IsHighest(u, tm, u.Dependents(t), h, rest);
      var p :| ChainFrom(u, tm, p, h) && Total(tm, p) == rest;
      ChainExtends(u, tm, t, p);
    }
    forall p | ChainFrom(u, tm, p, t)
      ensures Total(tm, p) <= tm.Duration(t) + rest
    {
      if |p| > 1 {
        ChainTail(u, tm, p);
        assert Bounded(u, tm, p[1], rest);
      } else {
        assert p[1..] == [];
      }
    }
  }

  /** A task alone is a chain. */
  lemma AloneIsChain(u: Universe, tm: Timing, t: Task, c: int)
    requires Bounded(u, tm, t, c)
    ensures tm.Duration(t) <= c
  {
    assert ChainFrom(u, tm, [t], t);
    assert Total(tm, [t]) == tm.Duration(t) + Total(tm, [t][1..]);
  }

  lemma ChainStartsLate(u: Universe, tm: Timing, p: seq<Task>)
    requires Chain(u, tm, p) && tm.Eligible(p[0])
    ensures forall t :: t in p ==> tm.StartTime(t) >= tm.runnerStart
  {
    forall i | 0 <= i < |p|
      ensures tm.StartTime(p[i]) >= tm.runnerStart
    {
      if i > 0 {
        assert Link(u, tm, p, i);
      }
    }
  }
}
