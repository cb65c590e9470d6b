/** Process trees out of a snapshot of the process table. */
module Procfs {
  import opened Graphs
  import opened Options

  datatype ProcStat = ProcStat(pid: int, ppid: int, sessionId: int)

  function Children(m: map<int, seq<int>>, pid: int): seq<int> {
    if pid in m then m[pid] else []
  }

  /** The child relation of a snapshot; broken snapshots may have cycles in it. */
  function ChildGraph(stats: seq<ProcStat>): map<int, set<int>> {
    map p | p in Parents(stats) :: PidsUnder(stats, p)
  }

  function Parents(stats: seq<ProcStat>): set<int> {
    set st | st in stats :: st.ppid
  }

  function PidsUnder(stats: seq<ProcStat>, ppid: int): set<int> {
    set st | st in stats && st.ppid == ppid :: st.pid
  }

  function SessionPids(stats: seq<ProcStat>, sessionId: int): set<int> {
    set st | st in stats && st.sessionId == sessionId :: st.pid
  }

  /** Each pid of the least set that holds the roots and is closed under children, exactly once. */
  ghost predicate IsProcessTree(stats: seq<ProcStat>, roots: set<int>, pids: seq<int>) {
    && (forall p :: p in pids <==> Reachable(ChildGraph(stats), roots, p))
    && (forall i, j :: 0 <= i < j < |pids| ==> pids[i] != pids[j])
  }

  method GetChildPidMap(stats: seq<ProcStat>) returns (result: map<int, seq<int>>)
    ensures forall p :: SetOf(Children(result, p)) == Succ(ChildGraph(stats), p)
  {
    result := map[];
    for i := 0 to |stats|
      invariant forall p, c :: c in Children(result, p) <==>
                  exists st :: st in stats[..i] && st.ppid == p && st.pid == c
    {
      var st := stats[i];
      ghost var before := result;
      result := result[st.ppid := Children(result, st.ppid) + [st.pid]];
      assert stats[..i + 1] == stats[..i] + [st];
      assert forall p :: Children(result, p) ==
               if p == st.ppid then Children(before, p) + [st.pid] else Children(before, p);
    }
    assert stats[..|stats|] == stats;
    forall p
      ensures SetOf(Children(result, p)) == Succ(ChildGraph(stats), p)
    {
      ChildrenAre(stats, result, p);
    }
  }

  lemma ChildrenAre(stats: seq<ProcStat>, m: map<int, seq<int>>, p: int)
    requires forall c :: c in Children(m, p) <==> exists st :: st in stats && st.ppid == p && st.pid == c
    ensures SetOf(Children(m, p)) == Succ(ChildGraph(stats), p)
  {
    var g := ChildGraph(stats);
    forall c
      ensures c in Children(m, p) <==> c in Succ(g, p)
    {
      if c in Children(m, p) {
        var st :| st in stats && st.ppid == p && st.pid == c;
        assert p in g;
      }
    }
  }

  method Element<T>(s: set<T>) returns (x: T)
    requires s != {}
    ensures x in s
  {
    x :| x in s;
  }

  /** The elements of a set in some order. */
  method ToIntSlice(intSet: set<int>) returns (result: seq<int>)
    ensures SetOf(result) == intSet
    ensures forall i, j :: 0 <= i < j < |result| ==> result[i] != result[j]
  {
    result := [];
    var rest := intSet;
    while rest != {}
      invariant SetOf(result) + rest == intSet && SetOf(result) !! rest
      invariant forall i, j :: 0 <= i < j < |result| ==> result[i] != result[j]
      decreases rest
    {
      var i := Element(rest);
      assert i !in SetOf(result) && SetOf(result + [i]) == SetOf(result) + {i};
      result := result + [i];
      rest := rest - {i};
    }
  }

  /** What the worklist loop keeps: pids found are reachable, and children of a pid are found once it has left
      the worklist. */
  ghost predicate Walked(g: map<int, set<int>>, roots: set<int>, found: set<int>, toProcess: seq<int>) {
    && roots <= found && SetOf(toProcess) <= found
    && (forall p :: p in found ==> Reachable(g, roots, p))
    && (forall p :: p in found && p !in toProcess ==> Succ(g, p) <= found)
  }

  /** The children of one pid: those not met before join the set and the worklist. */
  method AddChildren(children: seq<int>, found: set<int>, toProcess: seq<int>)
    returns (found': set<int>, toProcess': seq<int>)
    ensures found' == found + SetOf(children)
    ensures SetOf(toProcess') == SetOf(toProcess) + (SetOf(children) - found)
    ensures found' == found ==> toProcess' == toProcess
  {
    found', toProcess' := found, toProcess;
    for i := 0 to |children|
      invariant found' == found + SetOf(children[..i])
      invariant SetOf(toProcess') == SetOf(toProcess) + (SetOf(children[..i]) - found)
      invariant found' == found ==> toProcess' == toProcess
    {
      var child := children[i];
      assert SetOf(children[..i + 1]) == SetOf(children[..i]) + {child};
      if child !in found' {
        assert SetOf(toProcess' + [child]) == SetOf(toProcess') + {child};
        found' := found' + {child};
        toProcess' := toProcess' + [child];
      }
    }
    assert children[..|children|] == children;
  }

  lemma WalkedStep(g: map<int, set<int>>, roots: set<int>, found: set<int>, toProcess: seq<int>, found': set<int>,
                   toProcess': seq<int>)
    requires Walked(g, roots, found, toProcess) && toProcess != []
    requires found' == found + Succ(g, toProcess[0])
    requires SetOf(toProcess') == SetOf(toProcess[1..]) + (Succ(g, toProcess[0]) - found)
    ensures Walked(g, roots, found', toProcess')
  {
    var pid := toProcess[0];
    assert toProcess == [pid] + toProcess[1..];
    assert pid in SetOf(toProcess);
    assert forall p :: p in toProcess' <==> p in SetOf(toProcess');
    forall p | p in Succ(g, pid)
      ensures Reachable(g, roots, p)
    {
      ReachableStep(g, roots, pid, p);
    }
  }

  /** The worklist loop that both queries share. */
  method Closure(stats: seq<ProcStat>, roots: set<int>) returns (pids: seq<int>)
    ensures IsProcessTree(stats, roots, pids)
  {
    ghost var g := ChildGraph(stats);
    ghost var all := roots + set st | st in stats :: st.pid;
    var pidToChildren := GetChildPidMap(stats);
    var pidSet := roots;
    var toProcess := ToIntSlice(pidSet);
    forall p | p in roots
      ensures Reachable(g, roots, p)
    {
      ReachableRoot(g, roots, p);
    }
    assert forall p :: p in toProcess <==> p in SetOf(toProcess);
    while |toProcess| > 0
      invariant Walked(g, roots, pidSet, toProcess)
      invariant pidSet <= all
      decreases all - pidSet, |toProcess|
    {
      var pid := toProcess[0];
      ghost var found, work := pidSet, toProcess;
      assert SetOf(Children(pidToChildren, pid)) == Succ(g, pid);
      pidSet, toProcess := AddChildren(Children(pidToChildren, pid), pidSet, toProcess[1..]);
      WalkedStep(g, roots, found, work, pidSet, toProcess);
    }
    pids := ToIntSlice(pidSet);
    forall p
      ensures p in pids <==> Reachable(g, roots, p)
    {
      assert p in pids <==> p in SetOf(pids);
      if Reachable(g, roots, p) {
        ReachableInside(g, roots, pidSet, p);
      }
    }
  }

  /** All processes in trees rooted in the session; None stands for ESRCH. */
  method GetProcessTreePids(stats: seq<ProcStat>, sessionId: int) returns (pids: Option<seq<int>>)
    ensures pids.None? <==> forall st :: st in stats ==> st.sessionId != sessionId
    ensures pids.Some? ==> IsProcessTree(stats, SessionPids(stats, sessionId), pids.value)
  {
    var pidSet: set<int> := {};
    for i := 0 to |stats|
      invariant pidSet == SessionPids(stats[..i], sessionId)
    {
      assert stats[..i + 1] == stats[..i] + [stats[i]];
      if stats[i].sessionId == sessionId {
        pidSet := pidSet + {stats[i].pid};
      }
    }
    assert stats[..|stats|] == stats;
    if pidSet == {} {
      assert forall st :: st in stats && st.sessionId == sessionId ==> st.pid in SessionPids(stats, sessionId);
      return None;
    }
    var tree := Closure(stats, pidSet);
    return Some(tree);
  }

  /** The process and everything below it, whether or not it is in the snapshot itself. */
  method GetProcessDescendents(stats: seq<ProcStat>, parentPid: int) returns (pids: seq<int>)
    ensures IsProcessTree(stats, {parentPid}, pids)
  {
    pids := Closure(stats, {parentPid});
  }

  // ----- descent, in terms of the processes themselves -----

  /** Each process is the parent of the next. */
  ghost predicate Descent(chain: seq<ProcStat>) {
    forall i :: 0 <= i < |chain| - 1 ==> chain[i + 1].ppid == chain[i].pid
  }

  /** A line of descent among the processes of the snapshot, below one of the roots. */
  ghost predicate DescentFrom(stats: seq<ProcStat>, roots: set<int>, chain: seq<ProcStat>, p: int) {
    && chain != [] && (forall st :: st in chain ==> st in stats) && Descent(chain)
    && chain[0].ppid in roots && chain[|chain| - 1].pid == p
  }

  lemma {:induction false} WalkIsDescent(stats: seq<ProcStat>, roots: set<int>, walk: seq<int>)
    returns (chain: seq<ProcStat>)
    requires Walk(ChildGraph(stats), walk) && walk[0] in roots && |walk| > 1
    ensures DescentFrom(stats, roots, chain, walk[|walk| - 1])
    decreases |walk|
  {
    var n := |walk| - 1;
    assert walk[n] in Succ(ChildGraph(stats), walk[n - 1]);
    var st :| st in stats && st.ppid == walk[n - 1] && st.pid == walk[n];
    if n == 1 {
      chain := [st];
    } else {
      assert forall i :: 0 <= i < n - 1 ==> walk[..n][i + 1] in Succ(ChildGraph(stats), walk[..n][i]);
      var front := WalkIsDescent(stats, roots, walk[..n]);
      chain := front + [st];
    }
  }

  lemma {:induction false} DescentIsReachable(stats: seq<ProcStat>, roots: set<int>, chain: seq<ProcStat>)
    requires chain != [] && DescentFrom(stats, roots, chain, chain[|chain| - 1].pid)
    ensures Reachable(ChildGraph(stats), roots, chain[|chain| - 1].pid)
    decreases |chain|
  {
    var g, n := ChildGraph(stats), |chain| - 1;
    var st := chain[n];
    assert st in stats;
    if n == 0 {
      ReachableRoot(g, roots, st.ppid);
    } else {
      assert DescentFrom(stats, roots, chain[..n], chain[n - 1].pid);
      DescentIsReachable(stats, roots, chain[..n]);
    }
    assert st.pid in Succ(g, st.ppid);
    ReachableStep(g, roots, st.ppid, st.pid);
  }

  /** A process is listed exactly when it is a root or a line of descent leads from a root to it. */
  lemma ListedIff(stats: seq<ProcStat>, roots: set<int>, pids: seq<int>, p: int)
    requires IsProcessTree(stats, roots, pids)
    ensures p in pids <==> p in roots || exists chain :: DescentFrom(stats, roots, chain, p)
  {
    if p in pids && p !in roots {
      var walk :| WalkTo(ChildGraph(stats), roots, walk, p);
      var chain := WalkIsDescent(stats, roots, walk);
    }
    if p in roots {
      ReachableRoot(ChildGraph(stats), roots, p);
    }
    if chain: seq<ProcStat> :| DescentFrom(stats, roots, chain, p) {
      DescentIsReachable(stats, roots, chain);
    }
  }

  /** For a session: exactly when a line of descent leads to it from a process of the session. */
  lemma SessionListedIff(stats: seq<ProcStat>, sessionId: int, pids: seq<int>, p: int)
    requires IsProcessTree(stats, SessionPids(stats, sessionId), pids)
    ensures p in pids <==> exists chain :: SessionDescent(stats, sessionId, chain, p)
  {
    var roots := SessionPids(stats, sessionId);
    ListedIff(stats, roots, pids, p);
    if p in roots {
      var st :| st in stats && st.sessionId == sessionId && st.pid == p;
      assert SessionDescent(stats, sessionId, [st], p);
    } else if chain: seq<ProcStat> :| DescentFrom(stats, roots, chain, p) {
      var st :| st in stats && st.sessionId == sessionId && st.pid == chain[0].ppid;
      assert SessionDescent(stats, sessionId, [st] + chain, p);
    }
    if chain: seq<ProcStat> :| SessionDescent(stats, sessionId, chain, p) {
      assert chain[0] in chain && chain[0].pid in roots;
      if |chain| > 1 {
        assert DescentFrom(stats, roots, chain[1..], p);
      }
    }
  }

  ghost predicate SessionDescent(stats: seq<ProcStat>, sessionId: int, chain: seq<ProcStat>, p: int) {
    && chain != [] && (forall st :: st in chain ==> st in stats) && Descent(chain)
    && chain[0].sessionId == sessionId && chain[|chain| - 1].pid == p
  }
}
