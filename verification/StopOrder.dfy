/** The ordered StopAll: the worker pool on the reversed tasks. Taking a stop task calls Stop on its service;
    `Done` means that Stop returned nil. */
module StopOrder {
  import opened Graphs
  import opened Tasks
  import P = Pool
  import S = Scheduler
  import opened Reversal

  /** In every run, Stop is called on a service only after Stop has returned nil for every service of the
      closure that depends on it. */
  lemma StopOrder(u: Universe, given: seq<Task>, kept: seq<Task>, r: Universe, rs: seq<Task>, n: nat,
                  steps: seq<P.Step>, states: seq<P.Pool>, s: nat, i: nat, b: Task)
    requires IsUniqueDeps(u, given, kept) && IsReversal(u, kept, r, rs)
    requires P.Execution(r, rs, n, steps, states) && s < |states|
    requires i < |states[s].log| && states[s].log[i].Took?
    requires b in kept && u.Key(states[s].log[i].task) in u.DepKeys(b)
    ensures exists j :: 0 <= j < i && states[s].log[j] == P.Done(b)
  {
    P.InvariantAlways(r, rs, n, steps, states, s);
    var p := states[s];
    var a := p.log[i].task;
    LoggedIsListed(r, rs, p, i);
    Depends(u, kept, r, rs, a, b);
    var j := DependencyDone(r, rs, p, i, u.Key(b));
    SameKeySameTask(u, kept, p.log[j].task, b);
  }

  lemma LoggedIsListed(r: Universe, rs: seq<Task>, p: P.Pool, i: nat)
    requires P.Invariant(r, rs, p) && i < |p.log| && !p.log[i].Failed?
    ensures p.log[i].task in rs
  {
    var a := p.log[i].task;
    S.TakenWhere(p.log, a);
    S.DoneWhere(p.log, a);
    S.StagesPartition(r, rs, p, a);
  }

  lemma DependencyDone(r: Universe, rs: seq<Task>, p: P.Pool, i: nat, k: string) returns (j: nat)
    requires P.Invariant(r, rs, p) && i < |p.log| && p.log[i].Took? && k in r.DepKeys(p.log[i].task)
    ensures j < i && p.log[j] == P.Done(p.log[j].task) && p.log[j].task in rs && r.Key(p.log[j].task) == k
  {
    S.TakenInOrder(r, rs, p, i);
    var d :| d in r.Dependents(p.log[i].task) && r.Key(d) == k;
    j :| 0 <= j < i && p.log[j].Done? && r.Key(p.log[j].task) == r.Key(d);
    LoggedIsListed(r, rs, p, j);
  }

  /** An edge of the original relation is an edge of the reversed one, the other way. */
  lemma Depends(u: Universe, kept: seq<Task>, r: Universe, rs: seq<Task>, a: Task, b: Task)
    requires IsReversal(u, kept, r, rs) && u.DistinctKeys(kept)
    requires a in kept && b in kept && u.Key(a) in u.DepKeys(b)
    ensures u.Key(b) in r.DepKeys(a)
  {
    u.KeyGraphEdges(kept);
    r.KeyGraphEdges(rs);
    assert u.Key(a) in Succ(u.KeyGraph(kept), u.Key(b));
    assert u.Key(b) in Succ(r.KeyGraph(rs), u.Key(a));
    assert Succ(r.KeyGraph(rs), r.Key(a)) == r.DepKeys(a);
  }

  /** A stuck StopAll has ended unless the services' dependencies have a cycle and no Stop failed. */
  lemma StopAllEndsIff(u: Universe, kept: seq<Task>, r: Universe, rs: seq<Task>, n: nat,
                       steps: seq<P.Step>, states: seq<P.Pool>)
    requires IsReversal(u, kept, r, rs) && n >= 1
    requires P.Execution(r, rs, n, steps, states) && !S.CanStep(states[|steps|])
    ensures S.AllExited(states[|steps|]) <==> states[|steps|].err.Some? || Acyclic(u.KeyGraph(kept))
  {
    P.InvariantAlways(r, rs, n, steps, states, |steps|);
    S.RunUsesFuel(r, rs, n, steps, states, |steps|);
    S.StuckMeansEndedIff(r, rs, states[|steps|]);
    ReversalKeepsAcyclicity(u, kept, r, rs);
  }
}
