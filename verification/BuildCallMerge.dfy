/** Merging the argument nodes of two calls in place. */
module BuildCallMerge {
  import opened Options
  import opened BuildExprs
  import opened BuildCalls

  /** An argument node of the syntax tree, whose right-hand side the merge overwrites. */
  class AssignExpr {
    const name: string
    var rhs: Expr

    constructor (name: string, rhs: Expr)
      ensures this.name == name && this.rhs == rhs
    {
      this.name, this.rhs := name, rhs;
    }
  }

  datatype Node = KeywordNode(assign: AssignExpr) | PositionalNode(e: Expr)

  type Table = map<string, AssignExpr>

  function Assigns(nodes: seq<Node>): set<AssignExpr> {
    set i | 0 <= i < |nodes| && nodes[i].KeywordNode? :: nodes[i].assign
  }

  /** The arguments are what the nodes held when the merge began, with `was` the right-hand sides then. */
  ghost predicate Held(nodes: seq<Node>, was: map<AssignExpr, Expr>, args: seq<Arg>) {
    && |args| == |nodes|
    && Assigns(nodes) <= was.Keys
    && forall i :: 0 <= i < |nodes| ==>
         if nodes[i].KeywordNode? then args[i] == Keyword(nodes[i].assign.name, was[nodes[i].assign])
         else args[i] == Positional(nodes[i].e)
  }

  /** A table from names to nodes that holds the last node of each name it is asked to hold. */
  ghost predicate IsTable(t: Table, call2: seq<Arg>, was: map<AssignExpr, Expr>, additional: bool) {
    && (forall n :: n in t <==> IsAdditional(n) == additional && Last(call2, n).Some?)
    && (forall n :: n in t ==> t[n] in was && t[n].name == n && Some(was[t[n]]) == Last(call2, n))
  }

  /** Each argument of a call is a node of its own. */
  ghost predicate DistinctNodes(nodes: seq<Node>) {
    forall i, j :: 0 <= i < j < |nodes| && nodes[i].KeywordNode? && nodes[j].KeywordNode? ==>
      nodes[i].assign != nodes[j].assign
  }

  /** Everything the merge knows and does not change. */
  ghost predicate Setting(call1: seq<Node>, c1: seq<Arg>, c2: seq<Arg>, was: map<AssignExpr, Expr>,
                          overrides: Table, additionals: Table)
  {
    && Held(call1, was, c1) && DistinctNodes(call1)
    && IsTable(overrides, c2, was, false) && IsTable(additionals, c2, was, true)
    && Assigns(call1) !! overrides.Values && Assigns(call1) !! additionals.Values
  }

  /** How often the addition was merged into each node so far. */
  type Merges = map<AssignExpr, nat>

  /** Each node holds what it held at first, with the addition merged in that often. */
  ghost predicate Current(c2: seq<Arg>, was: map<AssignExpr, Expr>, times: Merges)
    reads was.Keys
  {
    && times.Keys == was.Keys
    && forall a :: a in was ==> Some(a.rhs) == Times(was[a], Additional(c2, a.name), times[a])
  }

  /** The additions themselves are never added to. */
  ghost predicate Untouched(additionals: Table, times: Merges) {
    forall m :: m in additionals ==> additionals[m] in times && times[additionals[m]] == 0
  }

  ghost predicate IsLastNode(t: Table, call2: seq<Node>, c2: seq<Arg>, n: string, j: nat) {
    n in t && IsLast(c2, j) && c2[j].name == n && j < |call2| && call2[j] == KeywordNode(t[n])
  }

  ghost predicate HasLastNode(t: Table, call2: seq<Node>, c2: seq<Arg>, n: string) {
    exists j :: IsLastNode(t, call2, c2, n, j)
  }

  /** The table leads to the last node of each name. */
  ghost predicate LeadsToLast(t: Table, call2: seq<Node>, c2: seq<Arg>) {
    forall n :: n in t ==> HasLastNode(t, call2, c2, n)
  }

  lemma LeadsOneMore(t: Table, call2: seq<Node>, c2: seq<Arg>, i: nat, t': Table)
    requires i < |c2| == |call2| && LeadsToLast(t, call2, c2[..i])
    requires || (t' == t && (c2[i].Positional? || c2[i].name !in t))
             || (c2[i].Keyword? && call2[i].KeywordNode? && t' == t[c2[i].name := call2[i].assign])
    ensures LeadsToLast(t', call2, c2[..i + 1])
  {
    forall n | n in t'
      ensures HasLastNode(t', call2, c2[..i + 1], n)
    {
      if c2[i].Keyword? && n == c2[i].name {
        assert IsLastNode(t', call2, c2[..i + 1], n, i);
      } else {
        assert HasLastNode(t, call2, c2[..i], n);
        var j :| IsLastNode(t, call2, c2[..i], n, j);
        assert IsLastNode(t', call2, c2[..i + 1], n, j);
      }
    }
  }

  /** The tables over the first `i` arguments of the second call. */
  ghost predicate Collected(call2: seq<Node>, c2: seq<Arg>, was: map<AssignExpr, Expr>, overrides: Table,
                            additionals: Table, i: nat)
    requires i <= |c2|
  {
    && IsTable(overrides, c2[..i], was, false) && IsTable(additionals, c2[..i], was, true)
    && overrides.Values <= Assigns(call2) && additionals.Values <= Assigns(call2)
    && LeadsToLast(overrides, call2, c2[..i])
  }

  lemma TableOneMore(t: Table, call2: seq<Node>, c2: seq<Arg>, was: map<AssignExpr, Expr>, additional: bool, i: nat,
                     t': Table)
    requires Held(call2, was, c2) && i < |c2| && IsTable(t, c2[..i], was, additional) && t.Values <= Assigns(call2)
    requires t' == if c2[i].Keyword? && IsAdditional(c2[i].name) == additional then t[c2[i].name := call2[i].assign]
                   else t
    ensures IsTable(t', c2[..i + 1], was, additional) && t'.Values <= Assigns(call2)
  {
    assert c2[..i + 1][..i] == c2[..i];
    assert forall n :: n in t ==> t[n] in t.Values;
    assert c2[i].Keyword? ==> call2[i].assign in Assigns(call2);
  }

  /** The two tables over the second call's keyword arguments; later arguments win. */
  method CollectArgs(call2: seq<Node>, ghost c2: seq<Arg>, ghost was: map<AssignExpr, Expr>)
    returns (overrides: Table, additionals: Table)
    requires Held(call2, was, c2)
    ensures IsTable(overrides, c2, was, false) && IsTable(additionals, c2, was, true)
    ensures overrides.Values <= Assigns(call2) && additionals.Values <= Assigns(call2)
    ensures LeadsToLast(overrides, call2, c2)
  {
    overrides, additionals := map[], map[];
    for i := 0 to |call2|
      invariant Collected(call2, c2, was, overrides, additionals, i)
    {
      ghost var o, a := overrides, additionals;
      match call2[i] {
        case PositionalNode(_) =>
        case KeywordNode(assign) =>
          if PREFIX <= assign.name {
            additionals := additionals[assign.name := assign];
          } else {
            overrides := overrides[assign.name := assign];
          }
      }
      TableOneMore(o, call2, c2, was, false, i, overrides);
      TableOneMore(a, call2, c2, was, true, i, additionals);
      LeadsOneMore(o, call2, c2, i, overrides);
    }
    assert c2[..|c2|] == c2;
  }

  lemma UnprefixedName(m: string)
    requires IsAdditional(m)
    ensures PREFIX + m[|PREFIX|..] == m
  {
  }

  /** `used` holds exactly the additions to the keywords seen so far. */
  ghost predicate AdditionsUsed(used: set<string>, additionals: Table, seen: set<string>) {
    forall m :: m in additionals && IsAdditional(m) ==> (m in used <==> m[|PREFIX|..] in seen)
  }

  /** `used` holds exactly the overrides of the keywords seen so far. */
  ghost predicate OverridesUsed(used: set<string>, overrides: Table, seen: set<string>) {
    forall n :: n in overrides ==> (n in used <==> n in seen)
  }

  lemma AdditionsUsedOneMore(used: set<string>, additionals: Table, seen: set<string>, n: string, used': set<string>)
    requires AdditionsUsed(used, additionals, seen)
    requires used' == used + if PREFIX + n in additionals then {PREFIX + n} else {}
    ensures AdditionsUsed(used', additionals, seen + {n})
  {
    forall m | m in additionals && IsAdditional(m)
      ensures m in used' <==> m[|PREFIX|..] in seen + {n}
    {
      UnprefixedName(m);
    }
  }

  method MaybeMergeAdditionalArg(name: string, assign: AssignExpr, additionals: Table, used: set<string>)
    returns (ok: bool, used': set<string>)
    requires PREFIX + name in additionals ==> additionals[PREFIX + name] != assign
    modifies assign
    ensures used' == used + if PREFIX + name in additionals then {PREFIX + name} else {}
    ensures var more := if PREFIX + name in additionals then MergeExpr(old(assign.rhs), additionals[PREFIX + name].rhs)
                        else Some(old(assign.rhs));
            (ok <==> more.Some?) && (ok ==> assign.rhs == more.value)
  {
    if PREFIX + name !in additionals {
      return true, used;
    }
    used' := used + {PREFIX + name};
    var merged := MergeExpr(assign.rhs, additionals[PREFIX + name].rhs);
    if merged.None? {
      return false, used';
    }
    assign.rhs := merged.value;
    return true, used';
  }

  lemma AdditionIs(additionals: Table, c2: seq<Arg>, was: map<AssignExpr, Expr>, times: Merges, name: string)
    requires IsTable(additionals, c2, was, true) && Current(c2, was, times) && Untouched(additionals, times)
    ensures Additional(c2, name) ==
            if PREFIX + name in additionals then Some(additionals[PREFIX + name].rhs) else None
  {
    var key := PREFIX + name;
    assert IsAdditional(key);
    if key in additionals {
      assert Times(was[additionals[key]], Additional(c2, key), 0) == Some(was[additionals[key]]);
    }
  }

  /** One more merge of the addition to a node into it. */
  method Settle(assign: AssignExpr, additionals: Table, used: set<string>, ghost c2: seq<Arg>,
                ghost was: map<AssignExpr, Expr>, ghost times: Merges, ghost seen: set<string>)
    returns (ok: bool, used': set<string>)
    requires IsTable(additionals, c2, was, true) && Current(c2, was, times) && Untouched(additionals, times)
    requires assign in was && assign !in additionals.Values
    requires AdditionsUsed(used, additionals, seen)
    modifies assign
    ensures ok <==> Times(was[assign], Additional(c2, assign.name), times[assign] + 1).Some?
    ensures ok ==> Current(c2, was, times[assign := times[assign] + 1])
    ensures AdditionsUsed(used', additionals, seen + {assign.name})
    ensures used <= used' && forall m :: m in used' && m !in used ==> IsAdditional(m)
  {
    var key := PREFIX + assign.name;
    AdditionIs(additionals, c2, was, times, assign.name);
    assert key in additionals ==> additionals[key] in additionals.Values;
    ok, used' := MaybeMergeAdditionalArg(assign.name, assign, additionals, used);
    AdditionsUsedOneMore(used, additionals, seen, assign.name, used');
  }

  /** The node the first call's keyword is taken from. */
  function Chosen(own: AssignExpr, overrides: Table): AssignExpr {
    if own.name in overrides then overrides[own.name] else own
  }

  /** The nodes of the output so far. */
  ghost predicate OutSoFar(call1: seq<Node>, overrides: Table, out: seq<Node>) {
    && |out| <= |call1|
    && forall k :: 0 <= k < |out| ==>
         out[k] == if call1[k].PositionalNode? then call1[k] else KeywordNode(Chosen(call1[k].assign, overrides))
  }

  /** The first call's own nodes: merged into once, where they are used at all, among the first `i`. */
  ghost predicate OwnTimes(call1: seq<Node>, overrides: Table, times: Merges, i: nat) {
    forall k :: 0 <= k < |call1| && call1[k].KeywordNode? ==>
      && call1[k].assign in times
      && times[call1[k].assign] == if k < i && call1[k].assign.name !in overrides then 1 else 0
  }

  /** The overrides: merged into once for each argument they replaced among the first `i`. */
  ghost predicate OverrideTimes(c1: seq<Arg>, overrides: Table, times: Merges, i: nat)
    requires i <= |c1|
  {
    forall n :: n in overrides ==> overrides[n] in times && times[overrides[n]] == Uses(c1[..i], n)
  }

  /** All other nodes are left alone. */
  ghost predicate OthersIdle(call1: seq<Node>, overrides: Table, times: Merges) {
    forall a :: a in times && a !in Assigns(call1) && a !in overrides.Values ==> times[a] == 0
  }

  ghost predicate TimesSoFar(call1: seq<Node>, overrides: Table, additionals: Table, c1: seq<Arg>, times: Merges,
                             i: nat)
    requires i <= |c1|
  {
    && Untouched(additionals, times) && OthersIdle(call1, overrides, times)
    && OwnTimes(call1, overrides, times, i) && OverrideTimes(c1, overrides, times, i)
  }

  ghost predicate UsedSoFar(overrides: Table, additionals: Table, c1: seq<Arg>, used: set<string>, i: nat)
    requires i <= |c1|
  {
    && OverridesUsed(used, overrides, KeywordNames(c1[..i]))
    && AdditionsUsed(used, additionals, KeywordNames(c1[..i]))
  }

  /** What stands after the first arguments of the first call, as many as there are nodes, have been dealt with. */
  ghost predicate MergedSoFar(call1: seq<Node>, overrides: Table, additionals: Table, c1: seq<Arg>, c2: seq<Arg>,
                              was: map<AssignExpr, Expr>, out: seq<Node>, used: set<string>, times: Merges)
    requires |out| <= |c1|
    reads was.Keys
  {
    && Current(c2, was, times) && OutSoFar(call1, overrides, out)
    && TimesSoFar(call1, overrides, additionals, c1, times, |out|)
    && UsedSoFar(overrides, additionals, c1, used, |out|)
  }

  lemma ChosenIs(call1: seq<Node>, c1: seq<Arg>, c2: seq<Arg>, was: map<AssignExpr, Expr>, overrides: Table,
                 additionals: Table, times: Merges, i: nat)
    requires Setting(call1, c1, c2, was, overrides, additionals)
    requires i < |call1| && call1[i].KeywordNode?
    requires OwnTimes(call1, overrides, times, i) && OverrideTimes(c1, overrides, times, i)
    ensures var a := Chosen(call1[i].assign, overrides);
            && a in was && a.name == call1[i].assign.name && a !in additionals.Values
            && was[a] == BaseAt(c1, c2, i)
            && a in times && times[a] + 1 == if a.name in overrides then Uses(c1[..i + 1], a.name) else 1
  {
    assert call1[i].assign in Assigns(call1);
    UsesGrow(c1, i, c1[i].name);
  }

  /** Merging one more addition fails only if the argument cannot be settled. */
  lemma SettlesOrFails(c1: seq<Arg>, c2: seq<Arg>, i: nat)
    requires i < |c1| && c1[i].Keyword?
    requires var n := c1[i].name;
             Times(BaseAt(c1, c2, i), Additional(c2, n),
                   if Override(c2, n).Some? then Uses(c1[..i + 1], n) else 1).None?
    ensures !Mergeable(c1, c2)
  {
    var n := c1[i].name;
    UsesGrow(c1, i, n);
    if Override(c2, n).Some? {
      FailsForGood(BaseAt(c1, c2, i), Additional(c2, n), Uses(c1[..i + 1], n), Uses(c1, n));
    }
    assert SettledAt(c1, c2, i).None?;
  }

  lemma OneMoreTime(call1: seq<Node>, c1: seq<Arg>, c2: seq<Arg>, was: map<AssignExpr, Expr>, overrides: Table,
                    additionals: Table, times: Merges, i: nat, a: AssignExpr, times': Merges)
    requires Setting(call1, c1, c2, was, overrides, additionals)
    requires i < |call1| && call1[i].KeywordNode? && a == Chosen(call1[i].assign, overrides) && a in times
    requires TimesSoFar(call1, overrides, additionals, c1, times, i) && times' == times[a := times[a] + 1]
    ensures TimesSoFar(call1, overrides, additionals, c1, times', i + 1)
  {
    var own := call1[i].assign;
    assert own in Assigns(call1);
    forall k | 0 <= k < |call1| && call1[k].KeywordNode?
      ensures k != i ==> call1[k].assign != own
      ensures call1[k].assign !in overrides.Values
    {
      assert call1[k].assign in Assigns(call1);
    }
    forall n | n in overrides
      ensures Uses(c1[..i + 1], n) == Uses(c1[..i], n) + if n == own.name then 1 else 0
      ensures overrides[n] == a <==> n == own.name
    {
      UsesGrow(c1, i, n);
      assert overrides[n] in overrides.Values;
    }
    forall m | m in additionals
      ensures additionals[m] != a
    {
      assert additionals[m] in additionals.Values;
    }
  }

  lemma UsedOneMore(overrides: Table, additionals: Table, c1: seq<Arg>, i: nat, used: set<string>, used': set<string>,
                    used'': set<string>)
    requires i < |c1| && c1[i].Keyword? && UsedSoFar(overrides, additionals, c1, used, i)
    requires used' == used + if c1[i].name in overrides then {c1[i].name} else {}
    requires used' <= used'' && forall m :: m in used'' && m !in used' ==> IsAdditional(m)
    requires AdditionsUsed(used'', additionals, KeywordNames(c1[..i]) + {c1[i].name})
    requires forall n :: n in overrides ==> !IsAdditional(n)
    ensures UsedSoFar(overrides, additionals, c1, used'', i + 1)
  {
  }

  /** The node a keyword of the first call is taken from, noted as used if it is an override. */
  method Choose(own: AssignExpr, overrides: Table, additionals: Table, used: set<string>,
                ghost call1: seq<Node>, ghost c1: seq<Arg>, ghost c2: seq<Arg>, ghost was: map<AssignExpr, Expr>,
                ghost times: Merges, ghost i: nat)
    returns (assign: AssignExpr, used': set<string>)
    requires Setting(call1, c1, c2, was, overrides, additionals)
    requires i < |call1| && call1[i] == KeywordNode(own) && UsedSoFar(overrides, additionals, c1, used, i)
    requires TimesSoFar(call1, overrides, additionals, c1, times, i)
    ensures assign == Chosen(own, overrides) && assign.name == own.name
    ensures assign in was && assign !in additionals.Values && assign in times
    ensures used' == used + if own.name in overrides then {own.name} else {}
    ensures AdditionsUsed(used', additionals, KeywordNames(c1[..i]))
  {
    ChosenIs(call1, c1, c2, was, overrides, additionals, times, i);
    assign, used' := own, used;
    if own.name in overrides {
      assign, used' := overrides[own.name], used + {own.name};
    }
  }

  lemma KeywordFails(call1: seq<Node>, c1: seq<Arg>, c2: seq<Arg>, was: map<AssignExpr, Expr>, overrides: Table,
                     additionals: Table, times: Merges, i: nat)
    requires Setting(call1, c1, c2, was, overrides, additionals)
    requires i < |call1| && call1[i].KeywordNode? && TimesSoFar(call1, overrides, additionals, c1, times, i)
    requires var a := Chosen(call1[i].assign, overrides);
             a in was && a in times && Times(was[a], Additional(c2, a.name), times[a] + 1).None?
    ensures !Mergeable(c1, c2)
  {
    ChosenIs(call1, c1, c2, was, overrides, additionals, times, i);
    SettlesOrFails(c1, c2, i);
  }

  /** The next argument of the first call, when it is a keyword. */
  method MergeKeyword(own: AssignExpr, call1: seq<Node>, overrides: Table, additionals: Table,
                      ghost c1: seq<Arg>, ghost c2: seq<Arg>, ghost was: map<AssignExpr, Expr>,
                      out: seq<Node>, used: set<string>, ghost times: Merges)
    returns (ok: bool, out': seq<Node>, used': set<string>, ghost times': Merges)
    requires Setting(call1, c1, c2, was, overrides, additionals)
    requires |out| < |call1| && call1[|out|] == KeywordNode(own)
    requires MergedSoFar(call1, overrides, additionals, c1, c2, was, out, used, times)
    modifies was.Keys
    ensures ok ==> |out'| == |out| + 1
                   && MergedSoFar(call1, overrides, additionals, c1, c2, was, out', used', times')
    ensures !ok ==> !Mergeable(c1, c2)
  {
    ghost var i := |out|;
    var assign, chosen := Choose(own, overrides, additionals, used, call1, c1, c2, was, times, i);
    times' := times[assign := times[assign] + 1];
    ok, used' := Settle(assign, additionals, chosen, c2, was, times, KeywordNames(c1[..i]));
    out' := out + [KeywordNode(assign)];
    if ok {
      OneMoreTime(call1, c1, c2, was, overrides, additionals, times, i, assign, times');
      UsedOneMore(overrides, additionals, c1, i, used, chosen, used');
    } else {
      KeywordFails(call1, c1, c2, was, overrides, additionals, times, i);
    }
  }

  /** The first call's arguments in order, each keyword from the second call where it has one. */
  method MergeFirst(call1: seq<Node>, overrides: Table, additionals: Table,
                    ghost c1: seq<Arg>, ghost c2: seq<Arg>, ghost was: map<AssignExpr, Expr>, ghost zero: Merges)
    returns (ok: bool, out: seq<Node>, used: set<string>, ghost times: Merges)
    requires Setting(call1, c1, c2, was, overrides, additionals)
    requires MergedSoFar(call1, overrides, additionals, c1, c2, was, [], {}, zero)
    modifies was.Keys
    ensures !ok ==> !Mergeable(c1, c2)
    ensures ok ==> |out| == |call1| && MergedSoFar(call1, overrides, additionals, c1, c2, was, out, used, times)
  {
    out, used, times := [], {}, zero;
    for i := 0 to |call1|
      invariant |out| == i
      invariant MergedSoFar(call1, overrides, additionals, c1, c2, was, out, used, times)
    {
      match call1[i] {
        case PositionalNode(_) =>
          PositionalStays(call1, overrides, additionals, c1, c2, was, out, used, times);
          out := out + [call1[i]];
        case KeywordNode(own) =>
          ok, out, used, times := MergeKeyword(own, call1, overrides, additionals, c1, c2, was, out, used, times);
          if !ok {
            return;
          }
      }
    }
    ok := true;
  }

  lemma NoUse(call1: seq<Node>, overrides: Table, additionals: Table, c1: seq<Arg>, used: set<string>, times: Merges,
              i: nat)
    requires |c1| == |call1| && i < |c1| && call1[i].PositionalNode? && c1[i].Positional?
    requires TimesSoFar(call1, overrides, additionals, c1, times, i)
    requires UsedSoFar(overrides, additionals, c1, used, i)
    ensures TimesSoFar(call1, overrides, additionals, c1, times, i + 1)
    ensures UsedSoFar(overrides, additionals, c1, used, i + 1)
  {
    forall n | n in overrides
      ensures Uses(c1[..i + 1], n) == Uses(c1[..i], n)
    {
      UsesGrow(c1, i, n);
    }
  }

  lemma PositionalStays(call1: seq<Node>, overrides: Table, additionals: Table, c1: seq<Arg>, c2: seq<Arg>,
                        was: map<AssignExpr, Expr>, out: seq<Node>, used: set<string>, times: Merges)
    requires Setting(call1, c1, c2, was, overrides, additionals)
    requires |out| < |call1| && call1[|out|].PositionalNode?
    requires MergedSoFar(call1, overrides, additionals, c1, c2, was, out, used, times)
    ensures MergedSoFar(call1, overrides, additionals, c1, c2, was, out + [call1[|out|]], used, times)
  {
    OutOneMore(call1, overrides, out);
    NoUse(call1, overrides, additionals, c1, used, times, |out|);
    assert |out + [call1[|out|]]| == |out| + 1;
  }

  lemma OutOneMore(call1: seq<Node>, overrides: Table, out: seq<Node>)
    requires OutSoFar(call1, overrides, out) && |out| < |call1| && call1[|out|].PositionalNode?
    ensures OutSoFar(call1, overrides, out + [call1[|out|]])
  {
  }

  /** The nodes added after the first call's: settled, and each with a name of its own. */
  ghost predicate Appended(c1: seq<Arg>, c2: seq<Arg>, more: seq<Node>, seen: set<string>)
    reads Assigns(more)
  {
    && (forall k :: 0 <= k < |more| ==>
          more[k].KeywordNode? && Some(more[k].assign.rhs) == Target(c1, c2, more[k].assign.name))
    && (forall k, l :: 0 <= k < l < |more| ==> more[k].assign.name != more[l].assign.name)
    && (forall k :: 0 <= k < |more| ==> more[k].assign.name !in KeywordNames(c1))
    && seen == KeywordNames(c1) + set k | 0 <= k < |more| :: more[k].assign.name
  }

  lemma AppendedOneMore(c1: seq<Arg>, c2: seq<Arg>, more: seq<Node>, seen: set<string>, a: AssignExpr)
    requires Appended(c1, c2, more, seen)
    requires a.name !in seen && Some(a.rhs) == Target(c1, c2, a.name)
    ensures Appended(c1, c2, more + [KeywordNode(a)], seen + {a.name})
  {
    var longer := more + [KeywordNode(a)];
    assert forall k :: 0 <= k < |more| ==> longer[k] == more[k] && more[k].assign.name in seen;
    assert longer[|more|].assign.name == a.name;
    assert (set k | 0 <= k < |longer| :: longer[k].assign.name)
        == (set k | 0 <= k < |more| :: more[k].assign.name) + {a.name};
  }

  /** The overrides that are no arguments of the first call have been merged into once, but for those in `rest`. */
  ghost predicate NewOverrideTimes(c1: seq<Arg>, overrides: Table, times: Merges, rest: set<string>) {
    forall n :: n in overrides ==>
      && overrides[n] in times
      && times[overrides[n]] == if n in KeywordNames(c1) then Uses(c1, n) else if n in rest then 0 else 1
  }

  /** The nodes appended so far, all of them settled; `rest` are the overrides still to come. */
  ghost predicate Appending(call1: seq<Node>, c1: seq<Arg>, c2: seq<Arg>, was: map<AssignExpr, Expr>, overrides: Table,
                            additionals: Table, more: seq<Node>, used: set<string>, times: Merges, rest: set<string>,
                            seen: set<string>)
    reads was.Keys + Assigns(more)
  {
    && Current(c2, was, times) && Untouched(additionals, times) && OthersIdle(call1, overrides, times)
    && OwnTimes(call1, overrides, times, |call1|) && NewOverrideTimes(c1, overrides, times, rest)
    && (forall k :: 0 <= k < |more| && more[k].KeywordNode? ==>
          more[k].assign.name in overrides && more[k].assign == overrides[more[k].assign.name])
    && Appended(c1, c2, more, seen)
    && AdditionsUsed(used, additionals, seen)
  }

  lemma OverrideIsBase(call1: seq<Node>, c1: seq<Arg>, c2: seq<Arg>, was: map<AssignExpr, Expr>, overrides: Table,
                       additionals: Table, n: string)
    requires Setting(call1, c1, c2, was, overrides, additionals) && n in overrides
    ensures var a := overrides[n];
            a in was && a.name == n && a !in additionals.Values && Base(c1, c2, n) == Some(was[a])
    ensures n !in KeywordNames(c1) ==> Target(c1, c2, n) == Times(was[overrides[n]], Additional(c2, n), 1)
  {
    var a := overrides[n];
    assert Times(was[a], Additional(c2, n), 0) == Some(was[a]);
  }

  lemma NewOverrideOnce(call1: seq<Node>, c1: seq<Arg>, c2: seq<Arg>, was: map<AssignExpr, Expr>, overrides: Table,
                        additionals: Table, times: Merges, rest: set<string>, n: string)
    requires Setting(call1, c1, c2, was, overrides, additionals) && Untouched(additionals, times)
    requires OwnTimes(call1, overrides, times, |call1|) && NewOverrideTimes(c1, overrides, times, rest)
    requires n in overrides && n in rest && n !in KeywordNames(c1)
    ensures var times' := times[overrides[n] := 1];
            && OwnTimes(call1, overrides, times', |call1|)
            && NewOverrideTimes(c1, overrides, times', rest - {n})
            && Untouched(additionals, times') && overrides[n] in overrides.Values
  {
    var a := overrides[n];
    assert a in overrides.Values;
    forall k | 0 <= k < |call1| && call1[k].KeywordNode?
      ensures call1[k].assign != a
    {
      assert call1[k].assign in Assigns(call1);
    }
    forall m | m in additionals
      ensures additionals[m] != a
    {
      assert additionals[m] in additionals.Values;
    }
  }

  method AppendOverride(n: string, call1: seq<Node>, overrides: Table, additionals: Table, used: set<string>,
                        more: seq<Node>, ghost c1: seq<Arg>, ghost c2: seq<Arg>, ghost was: map<AssignExpr, Expr>,
                        ghost times: Merges, ghost rest: set<string>, ghost seen: set<string>)
    returns (ok: bool, more': seq<Node>, used': set<string>, ghost times': Merges)
    requires Setting(call1, c1, c2, was, overrides, additionals)
    requires Appending(call1, c1, c2, was, overrides, additionals, more, used, times, rest, seen)
    requires n in overrides && n in rest && n !in seen
    modifies was.Keys
    ensures ok ==> Appending(call1, c1, c2, was, overrides, additionals, more', used', times', rest - {n}, seen + {n})
    ensures !ok ==> !Mergeable(c1, c2)
    ensures used <= used' && forall m :: m in used' && m !in used ==> IsAdditional(m)
  {
    more' := more;
    var assign := overrides[n];
    OverrideIsBase(call1, c1, c2, was, overrides, additionals, n);
    times' := times[assign := 1];
    ok, used' := Settle(assign, additionals, used, c2, was, times, seen);
    if ok {
      NewOverrideOnce(call1, c1, c2, was, overrides, additionals, times, rest, n);
      assert forall k :: 0 <= k < |more| ==> more[k].assign != assign;
      assert Appended(c1, c2, more, seen);
      AppendedOneMore(c1, c2, more, seen, assign);
      more' := more + [KeywordNode(assign)];
    } else {
      assert !MergesAt(c1, c2, n);
    }
  }

  /** The second call's overrides that the first call has no argument for, in whatever order the map yields. */
  method MergeOverrides(call1: seq<Node>, overrides: Table, additionals: Table, used: set<string>,
                        ghost c1: seq<Arg>, ghost c2: seq<Arg>, ghost was: map<AssignExpr, Expr>, ghost times: Merges)
    returns (ok: bool, more: seq<Node>, used': set<string>, ghost times': Merges, ghost seen: set<string>)
    requires Setting(call1, c1, c2, was, overrides, additionals)
    requires OverridesUsed(used, overrides, KeywordNames(c1))
    requires Appending(call1, c1, c2, was, overrides, additionals, [], used, times, overrides.Keys, KeywordNames(c1))
    modifies was.Keys
    ensures !ok ==> !Mergeable(c1, c2)
    ensures ok ==> Appending(call1, c1, c2, was, overrides, additionals, more, used', times', {}, seen)
                   && overrides.Keys <= seen && KeywordNames(c1) <= seen
  {
    more, used', times', seen := [], used, times, KeywordNames(c1);
    var names := overrides.Keys;
    while names != {}
      invariant names <= overrides.Keys && KeywordNames(c1) <= seen
      invariant Appending(call1, c1, c2, was, overrides, additionals, more, used', times', names, seen)
      invariant OverridesUsed(used', overrides, KeywordNames(c1))
      invariant overrides.Keys <= seen + names
      invariant names * seen <= KeywordNames(c1)
      decreases names
    {
      var name :| name in names;
      if name !in used' {
        ok, more, used', times' :=
          AppendOverride(name, call1, overrides, additionals, used', more, c1, c2, was, times', names, seen);
        if !ok {
          return;
        }
        seen := seen + {name};
      }
      names := names - {name};
    }
    ok := true;
  }

  /** A new argument under the plain name, for an addition to a keyword that neither call has. */
  method MakeEntry(name: string, additionals: Table, overrides: Table, ghost c1: seq<Arg>, ghost c2: seq<Arg>,
                   ghost was: map<AssignExpr, Expr>, ghost times: Merges, ghost seen: set<string>)
    returns (entry: AssignExpr)
    requires IsTable(overrides, c2, was, false) && IsTable(additionals, c2, was, true)
    requires Current(c2, was, times) && Untouched(additionals, times)
    requires overrides.Keys <= seen && KeywordNames(c1) <= seen
    requires name in additionals && IsAdditional(name) && name[|PREFIX|..] !in seen
    ensures fresh(entry) && entry.name == name[|PREFIX|..]
    ensures Some(entry.rhs) == Target(c1, c2, entry.name)
  {
    UnprefixedName(name);
    NoBase(overrides, c1, c2, was, seen, name[|PREFIX|..]);
    assert additionals[name] in was;
    entry := new AssignExpr(name[|PREFIX|..], additionals[name].rhs);
  }

  /** The additions still to do, in `names`, go to keywords that are seen only if they were at first. */
  ghost predicate Remaining(additionals: Table, names: set<string>, first: set<string>, seen: set<string>) {
    && names <= additionals.Keys && first <= seen
    && (forall m :: m in additionals ==> IsAdditional(m))
    && (forall m :: m in additionals ==> m in names || m[|PREFIX|..] in seen)
    && (forall m :: m in names && m[|PREFIX|..] in seen ==> m[|PREFIX|..] in first)
  }

  lemma RemainingOneLess(additionals: Table, used: set<string>, names: set<string>, first: set<string>,
                         seen: set<string>, name: string)
    requires Remaining(additionals, names, first, seen) && name in names
    requires AdditionsUsed(used, additionals, first)
    ensures name !in used ==> name[|PREFIX|..] !in seen
    ensures Remaining(additionals, names - {name}, first, if name in used then seen else seen + {name[|PREFIX|..]})
  {
    UnprefixedName(name);
    forall m | m in names - {name}
      ensures m[|PREFIX|..] != name[|PREFIX|..]
    {
      UnprefixedName(m);
    }
  }

  /** The first `n` nodes are overrides, the others are new objects. */
  ghost predicate NewNodes(overrides: Table, more: seq<Node>, n: nat, made: set<AssignExpr>) {
    && n <= |more|
    && (forall k :: 0 <= k < |more| ==> more[k].KeywordNode? && (k < n <==> more[k].assign.name in overrides))
    && (forall k :: 0 <= k < n ==> more[k].assign == overrides[more[k].assign.name])
    && (forall k :: n <= k < |more| ==> more[k].assign in made)
  }

  lemma NewOneMore(overrides: Table, more: seq<Node>, n: nat, made: set<AssignExpr>, a: AssignExpr)
    requires NewNodes(overrides, more, n, made) && a.name !in overrides
    ensures NewNodes(overrides, more + [KeywordNode(a)], n, made + {a})
  {
  }

  /** The additions to keywords that neither call has, in whatever order the map yields. */
  method AddRemaining(additionals: Table, used: set<string>, overrides: Table, first: seq<Node>,
                      ghost c1: seq<Arg>, ghost c2: seq<Arg>, ghost was: map<AssignExpr, Expr>,
                      ghost times: Merges, ghost seen: set<string>)
    returns (more: seq<Node>, ghost seen': set<string>, ghost made: set<AssignExpr>)
    requires IsTable(overrides, c2, was, false) && IsTable(additionals, c2, was, true)
    requires NewNodes(overrides, first, |first|, {})
    requires Current(c2, was, times) && Untouched(additionals, times)
    requires Appended(c1, c2, first, seen) && AdditionsUsed(used, additionals, seen)
    requires overrides.Keys <= seen && KeywordNames(c1) <= seen
    ensures Appended(c1, c2, more, seen') && NewNodes(overrides, more, |first|, made) && fresh(made)
    ensures seen <= seen' && forall m :: m in additionals ==> m[|PREFIX|..] in seen'
  {
    more, seen', made := first, seen, {};
    var names := additionals.Keys;
    while names != {}
      invariant Remaining(additionals, names, seen, seen')
      invariant Appended(c1, c2, more, seen') && NewNodes(overrides, more, |first|, made) && fresh(made)
      decreases names
    {
      var name :| name in names;
      RemainingOneLess(additionals, used, names, seen, seen', name);
      names := names - {name};
      if name !in used {
        var entry := MakeEntry(name, additionals, overrides, c1, c2, was, times, seen');
        AppendedOneMore(c1, c2, more, seen', entry);
        NewOneMore(overrides, more, |first|, made, entry);
        more := more + [KeywordNode(entry)];
        seen', made := seen' + {entry.name}, made + {entry};
      }
    }
  }

  lemma NoBase(overrides: Table, c1: seq<Arg>, c2: seq<Arg>, was: map<AssignExpr, Expr>, seen: set<string>, n: string)
    requires IsTable(overrides, c2, was, false) && overrides.Keys <= seen && KeywordNames(c1) <= seen
    requires n !in seen
    ensures Base(c1, c2, n).None?
  {
    LastIsNamed(c1, n);
  }

  /** What the nodes hold at present. */
  ghost predicate Holds(nodes: seq<Node>, args: seq<Arg>)
    reads Assigns(nodes)
  {
    && |args| == |nodes|
    && forall i :: 0 <= i < |nodes| ==>
         args[i] == if nodes[i].KeywordNode? then Keyword(nodes[i].assign.name, nodes[i].assign.rhs)
                    else Positional(nodes[i].e)
  }

  /** The output's first nodes hold the settled arguments of the first call. */
  lemma FirstSettled(call1: seq<Node>, c1: seq<Arg>, c2: seq<Arg>, was: map<AssignExpr, Expr>, overrides: Table,
                     additionals: Table, first: seq<Node>, times: Merges, i: nat)
    requires Setting(call1, c1, c2, was, overrides, additionals) && Current(c2, was, times)
    requires |first| == |call1| && OutSoFar(call1, overrides, first)
    requires OwnTimes(call1, overrides, times, |call1|) && NewOverrideTimes(c1, overrides, times, {})
    requires i < |c1| && c1[i].Keyword?
    ensures first[i].KeywordNode? && first[i].assign.name == c1[i].name
    ensures Some(first[i].assign.rhs) == SettledAt(c1, c2, i)
  {
    assert call1[i].assign in Assigns(call1);
    var a := first[i].assign;
    assert c1[i].name in KeywordNames(c1);
    assert a in was && was[a] == BaseAt(c1, c2, i);
    assert times[a] == if c1[i].name in overrides then Uses(c1, c1[i].name) else 1;
  }

  /** The parts make up the merged call. */
  lemma MergedFromParts(c1: seq<Arg>, c2: seq<Arg>, more: seq<Node>, was: map<AssignExpr, Expr>, overrides: Table,
                        additionals: Table, seen: set<string>, out: seq<Arg>)
    requires IsTable(overrides, c2, was, false) && IsTable(additionals, c2, was, true)
    requires Appended(c1, c2, more, seen)
    requires overrides.Keys <= seen && forall m :: m in additionals ==> m[|PREFIX|..] in seen
    requires StartsWithFirst(c1, c2, out) && |out| == |c1| + |more| && Holds(more, out[|c1|..])
    ensures MergedCall(c1, c2, out)
  {
    forall i | |c1| <= i < |out|
      ensures out[i].Keyword? && Some(out[i].rhs) == Target(c1, c2, out[i].name) && out[i].name !in KeywordNames(c1)
      ensures out[i].name == more[i - |c1|].assign.name
    {
      assert out[i] == out[|c1|..][i - |c1|];
    }
    forall n | n !in KeywordNames(c1) && Target(c1, c2, n).Some?
      ensures n in KeywordNames(out)
    {
      TargetIsSeen(c1, c2, was, overrides, additionals, seen, n);
      var k :| 0 <= k < |more| && more[k].assign.name == n;
      assert out[|c1| + k].name == n;
    }
  }

  lemma OutStartsWithFirst(call1: seq<Node>, c1: seq<Arg>, c2: seq<Arg>, was: map<AssignExpr, Expr>, overrides: Table,
                           additionals: Table, first: seq<Node>, more: seq<Node>, times: Merges, out: seq<Arg>)
    requires Setting(call1, c1, c2, was, overrides, additionals) && Current(c2, was, times)
    requires |first| == |call1| && OutSoFar(call1, overrides, first)
    requires OwnTimes(call1, overrides, times, |call1|) && NewOverrideTimes(c1, overrides, times, {})
    requires Holds(first + more, out)
    ensures StartsWithFirst(c1, c2, out) && |out| == |c1| + |more|
  {
    forall i | 0 <= i < |c1|
      ensures if c1[i].Positional? then out[i] == c1[i]
              else out[i].Keyword? && out[i].name == c1[i].name && Some(out[i].rhs) == SettledAt(c1, c2, i)
    {
      assert (first + more)[i] == first[i];
      if c1[i].Keyword? {
        FirstSettled(call1, c1, c2, was, overrides, additionals, first, times, i);
      }
    }
  }

  lemma TargetIsSeen(c1: seq<Arg>, c2: seq<Arg>, was: map<AssignExpr, Expr>, overrides: Table, additionals: Table,
                     seen: set<string>, n: string)
    requires IsTable(overrides, c2, was, false) && IsTable(additionals, c2, was, true)
    requires overrides.Keys <= seen && KeywordNames(c1) <= seen
    requires forall m :: m in additionals ==> m[|PREFIX|..] in seen
    requires Target(c1, c2, n).Some?
    ensures n in seen
  {
    LastIsNamed(c1, n);
    assert Additional(c2, n).Some? ==> PREFIX + n in additionals;
  }

  lemma AllMergeable(call1: seq<Node>, c1: seq<Arg>, c2: seq<Arg>, was: map<AssignExpr, Expr>, overrides: Table,
                     additionals: Table, first: seq<Node>, more: seq<Node>, times: Merges, seen: set<string>)
    requires Setting(call1, c1, c2, was, overrides, additionals) && Current(c2, was, times)
    requires |first| == |call1| && OutSoFar(call1, overrides, first)
    requires OwnTimes(call1, overrides, times, |call1|) && NewOverrideTimes(c1, overrides, times, {})
    requires Appended(c1, c2, more, seen) && overrides.Keys <= seen
    ensures Mergeable(c1, c2)
  {
    forall i | 0 <= i < |c1| && c1[i].Keyword?
      ensures SettledAt(c1, c2, i).Some?
    {
      FirstSettled(call1, c1, c2, was, overrides, additionals, first, times, i);
    }
    forall n | n !in KeywordNames(c1)
      ensures MergesAt(c1, c2, n)
    {
      LastIsNamed(c1, n);
      if n in overrides {
        var k :| 0 <= k < |more| && more[k].assign.name == n;
        assert Some(more[k].assign.rhs) == Target(c1, c2, n);
      }
    }
  }

  // ----- the nodes of a merged call -----

  function Content(node: Node): Arg
    reads if node.KeywordNode? then {node.assign} else {}
  {
    match node
    case KeywordNode(a) => Keyword(a.name, a.rhs)
    case PositionalNode(e) => Positional(e)
  }

  ghost function Contents(nodes: seq<Node>): (args: seq<Arg>)
    reads Assigns(nodes)
    ensures Holds(nodes, args)
  {
    assert forall i :: 0 <= i < |nodes| && nodes[i].KeywordNode? ==> nodes[i].assign in Assigns(nodes);
    seq(|nodes|, i requires 0 <= i < |nodes| && (nodes[i].KeywordNode? ==> nodes[i].assign in Assigns(nodes))
                   reads Assigns(nodes) => Content(nodes[i]))
  }

  ghost predicate IsOverrideAt(call2: seq<Node>, c2: seq<Arg>, n: string, a: AssignExpr, j: nat) {
    j < |call2| && Overrides(c2, j) && c2[j].name == n && call2[j] == KeywordNode(a)
  }

  /** The node is the second call's override of the name. */
  ghost predicate IsOverrideNode(call2: seq<Node>, c2: seq<Arg>, n: string, a: AssignExpr) {
    exists j: nat :: IsOverrideAt(call2, c2, n, a, j)
  }

  /** A node of the output: the second call's, where that overrides the name, and otherwise one of its own, which holds
      the expression for good. */
  ghost predicate Stands(call2: seq<Node>, c2: seq<Arg>, a: AssignExpr, own: Option<Expr>)
    reads {a} - Assigns(call2)
  {
    if Override(c2, a.name).Some? then IsOverrideNode(call2, c2, a.name, a)
    else a !in Assigns(call2) && Some(a.rhs) == own
  }

  function NodeNames(nodes: seq<Node>): set<string> {
    set k | 0 <= k < |nodes| && nodes[k].KeywordNode? :: nodes[k].assign.name
  }

  ghost predicate NodeThere(out: seq<Node>, n: string) {
    if IsAdditional(n) then n[|PREFIX|..] in NodeNames(out) else n in NodeNames(out)
  }

  ghost predicate FirstStands(call2: seq<Node>, c1: seq<Arg>, c2: seq<Arg>, node: Node, k: nat)
    requires k < |c1|
    reads Assigns([node]) - Assigns(call2)
  {
    match c1[k]
    case Positional(e) => node == PositionalNode(e)
    case Keyword(n, rhs) =>
      && node.KeywordNode? && node.assign.name == n
      && assert node.assign == [node][0].assign; node.assign in Assigns([node])
      && Stands(call2, c2, node.assign, Times(rhs, Additional(c2, n), 1))
  }

  ghost predicate NewStands(call2: seq<Node>, c1: seq<Arg>, c2: seq<Arg>, node: Node)
    reads Assigns([node]) - Assigns(call2)
  {
    && node.KeywordNode? && node.assign.name !in KeywordNames(c1)
    && assert node.assign == [node][0].assign; node.assign in Assigns([node])
    && Stands(call2, c2, node.assign, Additional(c2, node.assign.name))
  }

  /** What the output's nodes are, whatever the nodes of the second call come to hold. */
  ghost predicate OutShape(call2: seq<Node>, c1: seq<Arg>, c2: seq<Arg>, out: seq<Node>)
    reads Assigns(out) - Assigns(call2)
  {
    && |c1| <= |out|
    && (forall k :: 0 <= k < |out| ==> Assigns([out[k]]) <= Assigns(out))
    && (forall k :: 0 <= k < |c1| ==> FirstStands(call2, c1, c2, out[k], k))
    && (forall k :: |c1| <= k < |out| ==> NewStands(call2, c1, c2, out[k]))
    && (forall k, l :: |c1| <= k < l < |out| ==> out[k].assign.name != out[l].assign.name)
    && (forall n :: n in KeywordNames(c2) ==> NodeThere(out, n))
  }

  lemma OneNode(nodes: seq<Node>, k: nat)
    requires k < |nodes|
    ensures Assigns([nodes[k]]) <= Assigns(nodes)
    ensures nodes[k].KeywordNode? ==> nodes[k].assign in Assigns(nodes) && nodes[k].assign in Assigns([nodes[k]])
  {
    assert nodes[k].KeywordNode? ==> [nodes[k]][0].assign == nodes[k].assign;
  }

  /** The parts of the output make its shape. */
  lemma ShapeOfFirst(call1: seq<Node>, call2: seq<Node>, c1: seq<Arg>, c2: seq<Arg>, was: map<AssignExpr, Expr>,
                     overrides: Table, additionals: Table, first: seq<Node>, times: Merges, k: nat)
    requires Setting(call1, c1, c2, was, overrides, additionals) && Current(c2, was, times)
    requires Assigns(call1) !! Assigns(call2) && LeadsToLast(overrides, call2, c2)
    requires |first| == |call1| && OutSoFar(call1, overrides, first)
    requires OwnTimes(call1, overrides, times, |call1|) && NewOverrideTimes(c1, overrides, times, {})
    requires k < |c1|
    ensures FirstStands(call2, c1, c2, first[k], k)
  {
    OneNode([first[k]], 0);
    if c1[k].Keyword? {
      FirstSettled(call1, c1, c2, was, overrides, additionals, first, times, k);
      assert call1[k].assign in Assigns(call1);
      var n := c1[k].name;
      if n in overrides {
        OverrideStands(call2, c2, was, overrides, n);
      }
    }
  }

  lemma OverrideStands(call2: seq<Node>, c2: seq<Arg>, was: map<AssignExpr, Expr>, overrides: Table, n: string)
    requires IsTable(overrides, c2, was, false) && LeadsToLast(overrides, call2, c2) && n in overrides
    ensures Override(c2, n).Some? && overrides[n].name == n && IsOverrideNode(call2, c2, n, overrides[n])
  {
    assert HasLastNode(overrides, call2, c2, n);
    var j :| IsLastNode(overrides, call2, c2, n, j);
    assert IsOverrideAt(call2, c2, n, overrides[n], j);
  }

  lemma ShapeOfMore(call2: seq<Node>, c1: seq<Arg>, c2: seq<Arg>, was: map<AssignExpr, Expr>, overrides: Table,
                    more: seq<Node>, seen: set<string>, k: nat)
    requires IsTable(overrides, c2, was, false) && LeadsToLast(overrides, call2, c2)
    requires Appended(c1, c2, more, seen) && k < |more|
    requires if more[k].assign.name in overrides then more[k].assign == overrides[more[k].assign.name]
             else more[k].assign !in Assigns(call2)
    ensures NewStands(call2, c1, c2, more[k])
  {
    OneNode([more[k]], 0);
    var n := more[k].assign.name;
    if n in overrides {
      OverrideStands(call2, c2, was, overrides, n);
    } else {
      LastIsNamed(c1, n);
      assert Target(c1, c2, n) == Additional(c2, n);
    }
  }

  lemma AllThere(call1: seq<Node>, c1: seq<Arg>, c2: seq<Arg>, was: map<AssignExpr, Expr>, overrides: Table,
                 additionals: Table, first: seq<Node>, more: seq<Node>, seen: set<string>, n: string)
    requires Setting(call1, c1, c2, was, overrides, additionals)
    requires |first| == |call1| && OutSoFar(call1, overrides, first) && Appended(c1, c2, more, seen)
    requires overrides.Keys <= seen && forall m :: m in additionals ==> m[|PREFIX|..] in seen
    requires n in KeywordNames(c2)
    ensures NodeThere(first + more, n)
  {
    LastIsNamed(c2, n);
    var name := if IsAdditional(n) then n[|PREFIX|..] else n;
    assert name in seen;
    if name in KeywordNames(c1) {
      var k :| 0 <= k < |c1| && c1[k].Keyword? && c1[k].name == name;
      assert (first + more)[k] == first[k] && first[k].assign.name == name;
    } else {
      var k :| 0 <= k < |more| && more[k].assign.name == name;
      assert (first + more)[|first| + k] == more[k];
    }
  }

  lemma ShapeFromParts(call2: seq<Node>, c1: seq<Arg>, c2: seq<Arg>, first: seq<Node>, more: seq<Node>)
    requires |first| == |c1| && forall k :: 0 <= k < |c1| ==> FirstStands(call2, c1, c2, first[k], k)
    requires forall k :: 0 <= k < |more| ==> NewStands(call2, c1, c2, more[k])
    requires forall k, l :: 0 <= k < l < |more| ==>
               more[k].KeywordNode? && more[l].KeywordNode? && more[k].assign.name != more[l].assign.name
    requires forall n :: n in KeywordNames(c2) ==> NodeThere(first + more, n)
    ensures OutShape(call2, c1, c2, first + more)
  {
    var out := first + more;
    forall k | 0 <= k < |out|
      ensures Assigns([out[k]]) <= Assigns(out)
      ensures out[k] == if k < |first| then first[k] else more[k - |first|]
    {
      OneNode(out, k);
    }
  }

  /** Once the merges are over the output holds the merged call, with all the additions that there were. */
  lemma OutReads(call2: seq<Node>, c1: seq<Arg>, c2: seq<Arg>, m: Counts, out: seq<Node>, args: seq<Arg>)
    requires OutShape(call2, c1, c2, out) && SecondWith(c2, m, Contents(call2)) && Holds(out, args)
    ensures MergedWith(c1, c2, m, args)
  {
    forall k | 0 <= k < |out| && out[k].KeywordNode? && Override(c2, out[k].assign.name).Some?
      ensures k < |c1| ==> c1[k].Keyword?
      ensures var n := args[k].name;
              Some(args[k].rhs) == Times(Override(c2, n).value, Additional(c2, n), m(n))
    {
      assert k < |c1| ==> FirstStands(call2, c1, c2, out[k], k);
      OverrideReads(call2, c1, c2, m, out, args, k);
    }
    forall n | n in KeywordNames(c2)
      ensures IsThere(c1, c2, args, n)
    {
      assert NodeThere(out, n);
      NamesRead(out, args);
    }
    NewReads(call2, c1, c2, m, out, args);
  }

  lemma NamesRead(out: seq<Node>, args: seq<Arg>)
    requires Holds(out, args)
    ensures KeywordNames(args) == NodeNames(out)
  {
    forall n
      ensures n in KeywordNames(args) <==> n in NodeNames(out)
    {
      if n in NodeNames(out) {
        var k :| 0 <= k < |out| && out[k].KeywordNode? && out[k].assign.name == n;
        assert args[k].Keyword? && args[k].name == n;
      }
      if n in KeywordNames(args) {
        var k :| 0 <= k < |args| && args[k].Keyword? && args[k].name == n;
        assert out[k].KeywordNode? && out[k].assign.name == n;
      }
    }
  }

  lemma OverrideReads(call2: seq<Node>, c1: seq<Arg>, c2: seq<Arg>, m: Counts, out: seq<Node>, args: seq<Arg>, k: nat)
    requires OutShape(call2, c1, c2, out) && SecondWith(c2, m, Contents(call2)) && Holds(out, args)
    requires k < |out| && out[k].KeywordNode? && Override(c2, out[k].assign.name).Some?
    requires k < |c1| ==> c1[k].Keyword?
    ensures var n := args[k].name;
            Some(args[k].rhs) == Times(Override(c2, n).value, Additional(c2, n), m(n))
  {
    var a := out[k].assign;
    assert if k < |c1| then FirstStands(call2, c1, c2, out[k], k) else NewStands(call2, c1, c2, out[k]);
    assert IsOverrideNode(call2, c2, a.name, a);
    var j: nat :| IsOverrideAt(call2, c2, a.name, a, j);
    LastAt(c2, j);
    assert Contents(call2)[j] == Keyword(a.name, a.rhs);
  }

  lemma NewReads(call2: seq<Node>, c1: seq<Arg>, c2: seq<Arg>, m: Counts, out: seq<Node>, args: seq<Arg>)
    requires OutShape(call2, c1, c2, out) && SecondWith(c2, m, Contents(call2)) && Holds(out, args)
    ensures forall i :: |c1| <= i < |out| ==>
              && args[i].Keyword? && args[i].name !in KeywordNames(c1)
              && Some(args[i].rhs) == TargetWith(c1, c2, m, args[i].name)
  {
    forall i | |c1| <= i < |out|
      ensures args[i].Keyword? && args[i].name !in KeywordNames(c1)
      ensures Some(args[i].rhs) == TargetWith(c1, c2, m, args[i].name)
    {
      assert NewStands(call2, c1, c2, out[i]);
      LastIsNamed(c1, args[i].name);
      if Override(c2, args[i].name).Some? {
        OverrideReads(call2, c1, c2, m, out, args, i);
      }
    }
  }

  /** The shape is the same seen from the second call before earlier merges. */
  lemma ShapeFromStart(call2: seq<Node>, c1: seq<Arg>, c2: seq<Arg>, m: Counts, now: seq<Arg>, out: seq<Node>)
    requires SecondWith(c2, m, now) && OutShape(call2, c1, now, out)
    ensures OutShape(call2, c1, c2, out)
  {
    NamesWith(c2, m, now);
    forall a: AssignExpr, own | Stands(call2, now, a, own)
      ensures Stands(call2, c2, a, own)
    {
      LastWith(c2, m, now, a.name);
      if Override(now, a.name).Some? {
        var j: nat :| IsOverrideAt(call2, now, a.name, a, j);
        assert IsOverrideAt(call2, c2, a.name, a, j);
      }
    }
    forall n
      ensures Additional(now, n) == Additional(c2, n)
    {
      LastWith(c2, m, now, n);
    }
    forall k | 0 <= k < |c1|
      ensures FirstStands(call2, c1, c2, out[k], k)
    {
      assert FirstStands(call2, c1, now, out[k], k);
    }
    forall k | |c1| <= k < |out|
      ensures NewStands(call2, c1, c2, out[k])
    {
      assert NewStands(call2, c1, now, out[k]);
    }
  }

  /** The new arguments: the second call's overrides, then the additions that neither call has a keyword for. */
  method MergeMore(call1: seq<Node>, overrides: Table, additionals: Table, used: set<string>,
                   ghost c1: seq<Arg>, ghost c2: seq<Arg>, ghost was: map<AssignExpr, Expr>, ghost times: Merges)
    returns (ok: bool, more: seq<Node>, ghost times': Merges, ghost seen: set<string>, ghost n: nat,
             ghost made: set<AssignExpr>)
    requires Setting(call1, c1, c2, was, overrides, additionals)
    requires OverridesUsed(used, overrides, KeywordNames(c1))
    requires Appending(call1, c1, c2, was, overrides, additionals, [], used, times, overrides.Keys, KeywordNames(c1))
    modifies was.Keys
    ensures !ok ==> !Mergeable(c1, c2)
    ensures ok ==> Current(c2, was, times') && NewOverrideTimes(c1, overrides, times', {})
                   && OwnTimes(call1, overrides, times', |call1|) && OthersIdle(call1, overrides, times')
    ensures ok ==> Appended(c1, c2, more, seen) && overrides.Keys <= seen
                   && forall m :: m in additionals ==> m[|PREFIX|..] in seen
    ensures ok ==> NewNodes(overrides, more, n, made) && fresh(made)
  {
    var used', first;
    ok, first, used', times', seen := MergeOverrides(call1, overrides, additionals, used, c1, c2, was, times);
    more, n, made := first, |first|, {};
    if ok {
      more, seen, made := AddRemaining(additionals, used', overrides, first, c1, c2, was, times', seen);
    }
  }

  lemma OutNodes(call1: seq<Node>, call2: seq<Node>, overrides: Table, first: seq<Node>, more: seq<Node>, n: nat,
                 made: set<AssignExpr>)
    requires |first| == |call1| && OutSoFar(call1, overrides, first) && overrides.Values <= Assigns(call2)
    requires NewNodes(overrides, more, n, made)
    ensures Assigns(first + more) <= Assigns(call1) + Assigns(call2) + made
  {
    assert forall n :: n in overrides ==> overrides[n] in overrides.Values;
    forall k | 0 <= k < |call1| && call1[k].KeywordNode?
      ensures call1[k].assign in Assigns(call1)
    {
    }
    forall a | a in Assigns(first + more)
      ensures a in Assigns(call1) + Assigns(call2) + made
    {
      var k :| 0 <= k < |first + more| && (first + more)[k].KeywordNode? && (first + more)[k].assign == a;
      assert k >= |first| ==> more[k - |first|].assign == a;
    }
  }

  lemma OutIsShaped(call1: seq<Node>, call2: seq<Node>, c1: seq<Arg>, c2: seq<Arg>, was: map<AssignExpr, Expr>,
                    overrides: Table, additionals: Table, first: seq<Node>, more: seq<Node>, n: nat,
                    made: set<AssignExpr>, times: Merges, seen: set<string>)
    requires Setting(call1, c1, c2, was, overrides, additionals) && Current(c2, was, times)
    requires Assigns(call1) !! Assigns(call2) && LeadsToLast(overrides, call2, c2)
    requires |first| == |call1| && OutSoFar(call1, overrides, first)
    requires OwnTimes(call1, overrides, times, |call1|) && NewOverrideTimes(c1, overrides, times, {})
    requires Appended(c1, c2, more, seen)
    requires overrides.Keys <= seen && forall m :: m in additionals ==> m[|PREFIX|..] in seen
    requires NewNodes(overrides, more, n, made) && made !! Assigns(call2)
    ensures OutShape(call2, c1, c2, first + more)
  {
    forall k | 0 <= k < |c1|
      ensures FirstStands(call2, c1, c2, first[k], k)
    {
      ShapeOfFirst(call1, call2, c1, c2, was, overrides, additionals, first, times, k);
    }
    forall k | 0 <= k < |more|
      ensures NewStands(call2, c1, c2, more[k])
    {
      ShapeOfMore(call2, c1, c2, was, overrides, more, seen, k);
    }
    forall n | n in KeywordNames(c2)
      ensures NodeThere(first + more, n)
    {
      AllThere(call1, c1, c2, was, overrides, additionals, first, more, seen, n);
    }
    ShapeFromParts(call2, c1, c2, first, more);
  }

  lemma OutIsMerged(call1: seq<Node>, c1: seq<Arg>, c2: seq<Arg>, was: map<AssignExpr, Expr>, overrides: Table,
                    additionals: Table, first: seq<Node>, more: seq<Node>, times: Merges, seen: set<string>)
    requires Setting(call1, c1, c2, was, overrides, additionals) && Current(c2, was, times)
    requires |first| == |call1| && OutSoFar(call1, overrides, first)
    requires OwnTimes(call1, overrides, times, |call1|) && NewOverrideTimes(c1, overrides, times, {})
    requires Appended(c1, c2, more, seen)
    requires overrides.Keys <= seen && forall m :: m in additionals ==> m[|PREFIX|..] in seen
    ensures forall args :: Holds(first + more, args) ==> MergedCall(c1, c2, args)
  {
    forall args | Holds(first + more, args)
      ensures MergedCall(c1, c2, args)
    {
      OutStartsWithFirst(call1, c1, c2, was, overrides, additionals, first, more, times, args);
      MoreHolds(first, more, args);
      MergedFromParts(c1, c2, more, was, overrides, additionals, seen, args);
    }
  }

  /** `mergeCallExpr` on the argument nodes of two calls. Right-hand sides are overwritten in place; the result
      is read once the merge is over. It fails exactly when some addition does not merge. */
  method MergeCallExpr(call1: seq<Node>, call2: seq<Node>, ghost c1: seq<Arg>, ghost c2: seq<Arg>)
    returns (ok: bool, out: seq<Node>)
    requires Holds(call1, c1) && Holds(call2, c2)
    requires Assigns(call1) !! Assigns(call2) && DistinctNodes(call1) && DistinctNodes(call2)
    modifies Assigns(call1) + Assigns(call2)
    ensures ok <==> Mergeable(c1, c2)
    ensures ok ==> forall args :: Holds(out, args) ==> MergedCall(c1, c2, args)
    ensures ok ==> forall args :: Holds(call1, args) ==> FirstAfter(c1, c2, args)
    ensures ok ==> forall args :: Holds(call2, args) ==> SecondWith(c2, Single(c1), args)
    ensures ok ==> OutShape(call2, c1, c2, out)
    ensures ok ==> forall a :: a in Assigns(out) ==> a in Assigns(call1) || a in Assigns(call2) || fresh(a)
  {
    ghost var was := map a | a in Assigns(call1) + Assigns(call2) :: a.rhs;
    ghost var zero: Merges := map a | a in was :: 0;
    assert Held(call1, was, c1) && Held(call2, was, c2) by {
      assert forall i :: 0 <= i < |call1| && call1[i].KeywordNode? ==> call1[i].assign in Assigns(call1);
      assert forall i :: 0 <= i < |call2| && call2[i].KeywordNode? ==> call2[i].assign in Assigns(call2);
    }
    var overrides, additionals := CollectArgs(call2, c2, was);
    MergeBegins(call1, c1, c2, was, overrides, additionals, zero);
    var first, used;
    ghost var times, seen;
    ok, first, used, times := MergeFirst(call1, overrides, additionals, c1, c2, was, zero);
    if !ok {
      return false, [];
    }
    FirstIsOver(call1, c1, c2, was, overrides, additionals, first, used, times);
    var more;
    ghost var n, made;
    ok, more, times, seen, n, made := MergeMore(call1, overrides, additionals, used, c1, c2, was, times);
    if !ok {
      return false, [];
    }
    AllMergeable(call1, c1, c2, was, overrides, additionals, first, more, times, seen);
    out := first + more;
    OutIsShaped(call1, call2, c1, c2, was, overrides, additionals, first, more, n, made, times, seen);
    OutIsMerged(call1, c1, c2, was, overrides, additionals, first, more, times, seen);
    OutNodes(call1, call2, overrides, first, more, n, made);
    AfterFirst(call1, c1, c2, was, overrides, additionals, times);
    AfterSecond(call1, call2, c1, c2, was, overrides, additionals, times);
  }

  lemma AfterFirst(call1: seq<Node>, c1: seq<Arg>, c2: seq<Arg>, was: map<AssignExpr, Expr>, overrides: Table,
                   additionals: Table, times: Merges)
    requires Setting(call1, c1, c2, was, overrides, additionals) && Current(c2, was, times)
    requires OwnTimes(call1, overrides, times, |call1|)
    ensures forall args :: Holds(call1, args) ==> FirstAfter(c1, c2, args)
  {
    forall args: seq<Arg>, i | Holds(call1, args) && 0 <= i < |c1| && c1[i].Keyword?
      ensures if Override(c2, c1[i].name).Some? then args[i] == c1[i]
              else args[i].Keyword? && args[i].name == c1[i].name && Some(args[i].rhs) == SettledAt(c1, c2, i)
    {
      assert call1[i].assign in Assigns(call1);
      assert Times(c1[i].rhs, Additional(c2, c1[i].name), 0) == Some(c1[i].rhs);
    }
  }

  function SecondValue(c1: seq<Arg>, c2: seq<Arg>, j: nat): Option<Expr>
    requires j < |c2| && c2[j].Keyword?
  {
    var n := c2[j].name;
    if Overrides(c2, j) then Times(c2[j].rhs, Additional(c2, n), OwnCount(c1, n)) else Some(c2[j].rhs)
  }

  lemma AfterSecond(call1: seq<Node>, call2: seq<Node>, c1: seq<Arg>, c2: seq<Arg>, was: map<AssignExpr, Expr>,
                    overrides: Table, additionals: Table, times: Merges)
    requires Setting(call1, c1, c2, was, overrides, additionals) && Current(c2, was, times)
    requires Held(call2, was, c2) && DistinctNodes(call2) && Assigns(call1) !! Assigns(call2)
    requires NewOverrideTimes(c1, overrides, times, {}) && OthersIdle(call1, overrides, times)
    requires LeadsToLast(overrides, call2, c2)
    ensures forall args :: Holds(call2, args) ==> SecondWith(c2, Single(c1), args)
  {
    forall args: seq<Arg>, j | Holds(call2, args) && 0 <= j < |c2| && c2[j].Keyword?
      ensures args[j].Keyword? && args[j].name == c2[j].name
      ensures Some(args[j].rhs) == SecondValue(c1, c2, j)
    {
      SecondNode(call1, call2, c1, c2, was, overrides, additionals, times, j);
    }
  }

  lemma SecondNode(call1: seq<Node>, call2: seq<Node>, c1: seq<Arg>, c2: seq<Arg>, was: map<AssignExpr, Expr>,
                   overrides: Table, additionals: Table, times: Merges, j: nat)
    requires Setting(call1, c1, c2, was, overrides, additionals) && Current(c2, was, times)
    requires Held(call2, was, c2) && DistinctNodes(call2) && Assigns(call1) !! Assigns(call2)
    requires NewOverrideTimes(c1, overrides, times, {}) && OthersIdle(call1, overrides, times)
    requires LeadsToLast(overrides, call2, c2) && j < |c2| && c2[j].Keyword?
    ensures Some(call2[j].assign.rhs) == SecondValue(c1, c2, j)
  {
    var a, n := call2[j].assign, c2[j].name;
    assert a in Assigns(call2);
    assert Times(c2[j].rhs, Additional(c2, n), 0) == Some(c2[j].rhs);
    if Overrides(c2, j) {
      LastOccurs(c2, j);
      assert HasLastNode(overrides, call2, c2, n);
      var k :| IsLastNode(overrides, call2, c2, n, k);
      assert k == j;
    } else {
      if a in overrides.Values {
        var m :| m in overrides && overrides[m] == a;
        assert HasLastNode(overrides, call2, c2, m);
        var k :| IsLastNode(overrides, call2, c2, m, k);
        assert false;
      }
    }
  }

  lemma LastOccurs(args: seq<Arg>, j: nat)
    requires j < |args| && args[j].Keyword?
    ensures Last(args, args[j].name).Some?
  {
    LastIsNamed(args, args[j].name);
  }

  lemma MoreHolds(first: seq<Node>, more: seq<Node>, args: seq<Arg>)
    requires Holds(first + more, args)
    ensures Holds(more, args[|first|..])
  {
    assert forall k :: 0 <= k < |more| ==> (first + more)[|first| + k] == more[k];
  }

  lemma MergeBegins(call1: seq<Node>, c1: seq<Arg>, c2: seq<Arg>, was: map<AssignExpr, Expr>, overrides: Table,
                    additionals: Table, zero: Merges)
    requires Setting(call1, c1, c2, was, overrides, additionals)
    requires forall a :: a in was ==> a.rhs == was[a]
    requires zero.Keys == was.Keys && forall a :: a in zero ==> zero[a] == 0
    ensures MergedSoFar(call1, overrides, additionals, c1, c2, was, [], {}, zero)
  {
    assert c1[..0] == [] && KeywordNames([]) == {};
    assert forall k :: 0 <= k < |call1| && call1[k].KeywordNode? ==> call1[k].assign in Assigns(call1);
  }

  lemma FirstIsOver(call1: seq<Node>, c1: seq<Arg>, c2: seq<Arg>, was: map<AssignExpr, Expr>, overrides: Table,
                    additionals: Table, first: seq<Node>, used: set<string>, times: Merges)
    requires Setting(call1, c1, c2, was, overrides, additionals) && |first| == |c1|
    requires MergedSoFar(call1, overrides, additionals, c1, c2, was, first, used, times)
    ensures OverridesUsed(used, overrides, KeywordNames(c1))
    ensures Appending(call1, c1, c2, was, overrides, additionals, [], used, times, overrides.Keys, KeywordNames(c1))
  {
    assert c1[..|c1|] == c1;
    forall n | n in overrides
      ensures n !in KeywordNames(c1) ==> Uses(c1, n) == 0
    {
      LastIsNamed(c1, n);
    }
  }
}
