/** Merging two calls of the same rule: overrides and `additional_` arguments. */
module BuildCalls {
  import opened Options
  import opened BuildExprs

  /** A keyword argument is an assignment to an identifier; anything else is positional. */
  datatype Arg = Keyword(name: string, rhs: Expr) | Positional(e: Expr)

  const PREFIX := "additional_"

  predicate IsAdditional(name: string) {
    PREFIX <= name
  }

  /** The value of the last keyword argument of that name. */
  function Last(args: seq<Arg>, name: string): Option<Expr> {
    if args == [] then None
    else
      var last := args[|args| - 1];
      if last.Keyword? && last.name == name then Some(last.rhs) else Last(args[..|args| - 1], name)
  }

  function KeywordNames(args: seq<Arg>): set<string> {
    set i | 0 <= i < |args| && args[i].Keyword? :: args[i].name
  }

  ghost predicate DistinctKeywords(args: seq<Arg>) {
    forall i, j :: 0 <= i < j < |args| && args[i].Keyword? && args[j].Keyword? ==> args[i].name != args[j].name
  }

  function Override(call2: seq<Arg>, name: string): Option<Expr> {
    if IsAdditional(name) then None else Last(call2, name)
  }

  function Additional(call2: seq<Arg>, name: string): Option<Expr> {
    Last(call2, PREFIX + name)
  }

  /** The second call's value of the name if it has one, else the first's. */
  function Base(call1: seq<Arg>, call2: seq<Arg>, name: string): Option<Expr> {
    if Override(call2, name).Some? then Override(call2, name) else Last(call1, name)
  }

  /** The base and what the second call adds to it. */
  function Target(call1: seq<Arg>, call2: seq<Arg>, name: string): Option<Expr> {
    match (Base(call1, call2, name), Additional(call2, name))
    case (Some(b), Some(a)) => MergeExpr(b, a)
    case (Some(b), None) => Some(b)
    case (None, more) => more
  }

  /** The expression after the addition was merged into it `m` times. */
  function Times(x: Expr, more: Option<Expr>, m: nat): Option<Expr> {
    if m == 0 || more.None? then Some(x)
    else
      match Times(x, more, m - 1)
      case None => None
      case Some(y) => MergeExpr(y, more.value)
  }

  /** How many keyword arguments have the name. */
  function Uses(args: seq<Arg>, name: string): nat {
    if args == [] then 0
    else
      var last := args[|args| - 1];
      Uses(args[..|args| - 1], name) + if last.Keyword? && last.name == name then 1 else 0
  }

  /** What becomes of a keyword argument of the first call. An override is one node, which every argument of its
      name is replaced by and has the addition merged into once more. */
  function SettledAt(call1: seq<Arg>, call2: seq<Arg>, i: nat): Option<Expr>
    requires i < |call1| && call1[i].Keyword?
  {
    var n := call1[i].name;
    match Override(call2, n)
    case Some(o) => Times(o, Additional(call2, n), Uses(call1, n))
    case None => Times(call1[i].rhs, Additional(call2, n), 1)
  }

  /** No argument that is added to fails to merge. */
  ghost predicate Mergeable(call1: seq<Arg>, call2: seq<Arg>) {
    && (forall i :: 0 <= i < |call1| && call1[i].Keyword? ==> SettledAt(call1, call2, i).Some?)
    && (forall n :: n !in KeywordNames(call1) ==> MergesAt(call1, call2, n))
  }

  ghost predicate MergesAt(call1: seq<Arg>, call2: seq<Arg>, n: string) {
    Base(call1, call2, n).Some? && Additional(call2, n).Some? ==> Target(call1, call2, n).Some?
  }

  ghost predicate StartsWithFirst(call1: seq<Arg>, call2: seq<Arg>, out: seq<Arg>) {
    && |call1| <= |out|
    && forall i :: 0 <= i < |call1| ==>
         if call1[i].Positional? then out[i] == call1[i]
         else out[i].Keyword? && out[i].name == call1[i].name && Some(out[i].rhs) == SettledAt(call1, call2, i)
  }

  /** `out` starts with the first call's arguments, keywords settled, and goes on with the second call's new
      keywords brought to their targets, in any order. */
  ghost predicate MergedCall(call1: seq<Arg>, call2: seq<Arg>, out: seq<Arg>) {
    && StartsWithFirst(call1, call2, out)
    && (forall i :: |call1| <= i < |out| ==>
          && out[i].Keyword? && Some(out[i].rhs) == Target(call1, call2, out[i].name)
          && out[i].name !in KeywordNames(call1))
    && (forall i, j :: |call1| <= i < j < |out| ==> out[i].name != out[j].name)
    && (forall n {:trigger Target(call1, call2, n)} ::
          n !in KeywordNames(call1) && Target(call1, call2, n).Some? ==> n in KeywordNames(out))
  }

  /** The first call afterwards: its own nodes are overwritten where they were not overridden. */
  ghost predicate FirstAfter(call1: seq<Arg>, call2: seq<Arg>, after: seq<Arg>) {
    && |after| == |call1|
    && forall i :: 0 <= i < |call1| ==>
         if call1[i].Positional? || Override(call2, call1[i].name).Some? then after[i] == call1[i]
         else after[i].Keyword? && after[i].name == call1[i].name && Some(after[i].rhs) == SettledAt(call1, call2, i)
  }

  /** The last keyword argument of its name. */
  predicate IsLast(args: seq<Arg>, j: nat) {
    && j < |args| && args[j].Keyword?
    && forall k :: j < k < |args| && args[k].Keyword? ==> args[k].name != args[j].name
  }

  predicate Overrides(call2: seq<Arg>, j: nat) {
    IsLast(call2, j) && !IsAdditional(call2[j].name)
  }

  // ----- several merges with one second call -----

  /** How often the addition to a keyword has been merged into its override. */
  type Counts = string -> nat

  /** One merge does it once for each argument of the first call that the override replaces, or once when it is new. */
  function OwnCount(call1: seq<Arg>, n: string): nat {
    if n in KeywordNames(call1) then Uses(call1, n) else 1
  }

  function Single(call1: seq<Arg>): Counts {
    n => OwnCount(call1, n)
  }

  /** The second call after merges that add up to these counts: its overrides have had their additions merged in. */
  ghost predicate SecondWith(call2: seq<Arg>, m: Counts, now: seq<Arg>) {
    && |now| == |call2|
    && forall j :: 0 <= j < |call2| ==>
         if !Overrides(call2, j) then now[j] == call2[j]
         else
           && now[j].Keyword? && now[j].name == call2[j].name
           && Some(now[j].rhs) == Times(call2[j].rhs, Additional(call2, now[j].name), m(now[j].name))
  }

  /** What becomes of a keyword argument of the first call once the second has been merged that often. */
  function SettledWith(call1: seq<Arg>, call2: seq<Arg>, m: Counts, i: nat): Option<Expr>
    requires i < |call1| && call1[i].Keyword?
  {
    var n := call1[i].name;
    match Override(call2, n)
    case Some(o) => Times(o, Additional(call2, n), m(n))
    case None => Times(call1[i].rhs, Additional(call2, n), 1)
  }

  /** What becomes of a keyword: the override or the first call's value, and the addition. */
  function TargetWith(call1: seq<Arg>, call2: seq<Arg>, m: Counts, n: string): Option<Expr> {
    match (Override(call2, n), Last(call1, n))
    case (Some(o), _) => Times(o, Additional(call2, n), m(n))
    case (None, Some(own)) => Times(own, Additional(call2, n), 1)
    case (None, None) => Additional(call2, n)
  }

  ghost predicate MergeableWith(call1: seq<Arg>, call2: seq<Arg>, m: Counts) {
    && (forall i :: 0 <= i < |call1| && call1[i].Keyword? ==> SettledWith(call1, call2, m, i).Some?)
    && (forall n :: n !in KeywordNames(call1) && Override(call2, n).Some? ==> TargetWith(call1, call2, m, n).Some?)
  }

  ghost predicate FirstWith(call1: seq<Arg>, call2: seq<Arg>, m: Counts, out: seq<Arg>) {
    && |call1| <= |out|
    && forall i :: 0 <= i < |call1| ==>
         if call1[i].Positional? then out[i] == call1[i]
         else out[i].Keyword? && out[i].name == call1[i].name && Some(out[i].rhs) == SettledWith(call1, call2, m, i)
  }

  /** The arguments of a merged call, as they are once the second call has been merged that often: the first call's,
      keywords settled, and then the second call's new keywords, in any order. */
  ghost predicate MergedWith(call1: seq<Arg>, call2: seq<Arg>, m: Counts, out: seq<Arg>) {
    && FirstWith(call1, call2, m, out)
    && (forall i :: |call1| <= i < |out| ==>
          && out[i].Keyword? && Some(out[i].rhs) == TargetWith(call1, call2, m, out[i].name)
          && out[i].name !in KeywordNames(call1))
    && (forall i, j :: |call1| <= i < j < |out| ==> out[i].name != out[j].name)
    && (forall n :: n in KeywordNames(call2) ==> IsThere(call1, call2, out, n))
  }

  /** A keyword that the second call overrides or adds to is there. */
  ghost predicate IsThere(call1: seq<Arg>, call2: seq<Arg>, out: seq<Arg>, n: string) {
    if IsAdditional(n) then n[|PREFIX|..] in KeywordNames(out) else n in KeywordNames(out)
  }

  lemma {:induction false} LastFinds(args: seq<Arg>, i: nat)
    requires DistinctKeywords(args) && i < |args| && args[i].Keyword?
    ensures Last(args, args[i].name) == Some(args[i].rhs)
  {
    if i < |args| - 1 {
      LastFinds(args[..|args| - 1], i);
    }
  }

  lemma {:induction false} LastIsNamed(args: seq<Arg>, name: string)
    ensures Last(args, name).Some? <==> name in KeywordNames(args)
    ensures Uses(args, name) > 0 <==> name in KeywordNames(args)
  {
    if args != [] {
      var rest, last := args[..|args| - 1], args[|args| - 1];
      LastIsNamed(rest, name);
      assert KeywordNames(args) == KeywordNames(rest) + if last.Keyword? then {last.name} else {};
    }
  }

  lemma {:induction false} UsedOnce(args: seq<Arg>, i: nat)
    requires DistinctKeywords(args) && i < |args| && args[i].Keyword?
    ensures Uses(args, args[i].name) == 1
  {
    var rest := args[..|args| - 1];
    if i < |args| - 1 {
      UsedOnce(rest, i);
    } else {
      LastIsNamed(rest, args[i].name);
    }
  }

  lemma {:induction false} UsesGrow(args: seq<Arg>, i: nat, name: string)
    requires i < |args|
    ensures Uses(args[..i + 1], name) ==
            Uses(args[..i], name) + if args[i].Keyword? && args[i].name == name then 1 else 0
    ensures Uses(args[..i + 1], name) <= Uses(args, name)
    decreases |args|
  {
    if i == |args| - 1 {
      assert args[..i + 1] == args;
    } else {
      var rest := args[..|args| - 1];
      assert rest[..i + 1] == args[..i + 1] && rest[..i] == args[..i];
      UsesGrow(rest, i, name);
    }
  }

  /** Once an addition has failed to merge, it goes on failing. */
  lemma {:induction false} FailsForGood(x: Expr, more: Option<Expr>, m: nat, n: nat)
    requires m <= n && Times(x, more, m).None?
    ensures Times(x, more, n).None?
  {
    if m < n {
      FailsForGood(x, more, m, n - 1);
    }
  }

  lemma {:induction false} LastAt(args: seq<Arg>, j: nat)
    requires IsLast(args, j)
    ensures Last(args, args[j].name) == Some(args[j].rhs)
    decreases |args|
  {
    var rest := args[..|args| - 1];
    if j < |args| - 1 {
      assert IsLast(rest, j);
      LastAt(rest, j);
    }
  }

  lemma {:induction false} LastIndex(args: seq<Arg>, n: string) returns (j: nat)
    requires n in KeywordNames(args)
    ensures IsLast(args, j) && args[j].name == n && Last(args, n) == Some(args[j].rhs)
  {
    var rest, last := args[..|args| - 1], args[|args| - 1];
    if last.Keyword? && last.name == n {
      j := |args| - 1;
    } else {
      assert n in KeywordNames(rest) by {
        var k :| 0 <= k < |args| && args[k].Keyword? && args[k].name == n;
        assert rest[k] == args[k];
      }
      j := LastIndex(rest, n);
    }
  }

  lemma {:induction false} TimesAdd(x: Expr, more: Option<Expr>, m: nat, k: nat)
    requires Times(x, more, m).Some?
    ensures Times(Times(x, more, m).value, more, k) == Times(x, more, m + k)
  {
    if k > 0 {
      TimesAdd(x, more, m, k - 1);
    }
  }

  lemma NamesWith(call2: seq<Arg>, m: Counts, now: seq<Arg>)
    requires SecondWith(call2, m, now)
    ensures KeywordNames(now) == KeywordNames(call2)
    ensures forall j :: 0 <= j < |call2| ==> (now[j].Keyword? <==> call2[j].Keyword?)
    ensures forall j :: 0 <= j < |call2| && call2[j].Keyword? ==> now[j].name == call2[j].name
    ensures forall j :: 0 <= j < |call2| ==> (Overrides(now, j) <==> Overrides(call2, j))
  {
    assert forall j :: 0 <= j < |call2| && call2[j].Keyword? ==> now[j].Keyword? && now[j].name == call2[j].name;
    forall n
      ensures n in KeywordNames(now) <==> n in KeywordNames(call2)
    {
      if n in KeywordNames(now) {
        var j :| 0 <= j < |now| && now[j].Keyword? && now[j].name == n;
        assert call2[j].Keyword? && call2[j].name == n;
      }
      if n in KeywordNames(call2) {
        var j :| 0 <= j < |call2| && call2[j].Keyword? && call2[j].name == n;
        assert now[j].Keyword? && now[j].name == n;
      }
    }
  }

  /** After some merges an override has had the additions merged in, and the additions are as they were. */
  lemma LastWith(call2: seq<Arg>, m: Counts, now: seq<Arg>, n: string)
    requires SecondWith(call2, m, now)
    ensures Additional(now, n) == Additional(call2, n)
    ensures match Override(call2, n)
            case None => Override(now, n).None?
            case Some(o) => Override(now, n).Some? && Override(now, n) == Times(o, Additional(call2, n), m(n))
  {
    NamesWith(call2, m, now);
    LastIsNamed(call2, PREFIX + n);
    LastIsNamed(now, PREFIX + n);
    if PREFIX + n in KeywordNames(call2) {
      var j := LastIndex(call2, PREFIX + n);
      assert IsAdditional(PREFIX + n) && now[j] == call2[j];
      LastAt(now, j);
    }
    LastIsNamed(call2, n);
    LastIsNamed(now, n);
    if !IsAdditional(n) && n in KeywordNames(call2) {
      var j := LastIndex(call2, n);
      assert Overrides(call2, j);
      LastAt(now, j);
    }
  }

  /** One more merge, on the second call as it is by then, adds its own counts. */
  lemma SecondAgain(call1: seq<Arg>, call2: seq<Arg>, m: Counts, now: seq<Arg>, after: seq<Arg>, m': Counts)
    requires SecondWith(call2, m, now) && SecondWith(now, Single(call1), after)
    requires forall n :: m'(n) == m(n) + OwnCount(call1, n)
    ensures SecondWith(call2, m', after)
  {
    NamesWith(call2, m, now);
    NamesWith(now, Single(call1), after);
    forall j | 0 <= j < |call2| && Overrides(call2, j)
      ensures Some(after[j].rhs) == Times(call2[j].rhs, Additional(call2, after[j].name), m'(after[j].name))
    {
      var n := call2[j].name;
      LastWith(call2, m, now, n);
      assert Overrides(now, j);
      TimesAdd(call2[j].rhs, Additional(call2, n), m(n), OwnCount(call1, n));
    }
  }

  lemma MergesAgain(call1: seq<Arg>, call2: seq<Arg>, m: Counts, now: seq<Arg>, m': Counts)
    requires SecondWith(call2, m, now) && forall n :: m'(n) == m(n) + OwnCount(call1, n)
    ensures Mergeable(call1, now) <==> MergeableWith(call1, call2, m')
  {
    forall i | 0 <= i < |call1| && call1[i].Keyword?
      ensures SettledAt(call1, now, i) == SettledWith(call1, call2, m', i)
    {
      var n := call1[i].name;
      assert n in KeywordNames(call1);
      LastWith(call2, m, now, n);
      if Override(call2, n).Some? {
        TimesAdd(Override(call2, n).value, Additional(call2, n), m(n), OwnCount(call1, n));
      }
    }
    forall n | n !in KeywordNames(call1)
      ensures MergesAt(call1, now, n) <==> (Override(call2, n).Some? ==> TargetWith(call1, call2, m', n).Some?)
    {
      NewMergesAgain(call1, call2, m, now, m', n);
    }
  }

  lemma NewMergesAgain(call1: seq<Arg>, call2: seq<Arg>, m: Counts, now: seq<Arg>, m': Counts, n: string)
    requires SecondWith(call2, m, now) && n !in KeywordNames(call1) && m'(n) == m(n) + 1
    ensures MergesAt(call1, now, n) <==> (Override(call2, n).Some? ==> TargetWith(call1, call2, m', n).Some?)
  {
    LastWith(call2, m, now, n);
    LastIsNamed(call1, n);
    if Override(call2, n).Some? {
      var o, more := Override(call2, n).value, Additional(call2, n);
      assert Override(now, n) == Times(o, more, m(n));
      assert more.Some? ==> Times(o, more, m'(n)) == MergeExpr(Override(now, n).value, more.value);
    }
  }

  /** A single merge. */
  lemma MergedOnce(call1: seq<Arg>, call2: seq<Arg>, out: seq<Arg>)
    requires MergedCall(call1, call2, out) && Mergeable(call1, call2)
    ensures MergedWith(call1, call2, Single(call1), out)
  {
    assert forall i :: 0 <= i < |call1| && call1[i].Keyword? ==> call1[i].name in KeywordNames(call1);
    forall n | n !in KeywordNames(call1)
      ensures Target(call1, call2, n) == TargetWith(call1, call2, Single(call1), n)
      ensures Override(call2, n).Some? || Additional(call2, n).Some? ==> n in KeywordNames(out)
    {
      LastIsNamed(call1, n);
      assert MergesAt(call1, call2, n);
      if Override(call2, n).Some? {
        assert Times(Override(call2, n).value, Additional(call2, n), 0) == Override(call2, n);
      }
    }
    forall n | n in KeywordNames(call2)
      ensures IsThere(call1, call2, out, n)
    {
      LastIsNamed(call2, n);
      FirstNamesStay(call1, out);
      if IsAdditional(n) {
        assert PREFIX + n[|PREFIX|..] == n;
        assert Additional(call2, n[|PREFIX|..]).Some?;
      }
    }
  }

  lemma FirstNamesStay(call1: seq<Arg>, out: seq<Arg>)
    requires |call1| <= |out|
    requires forall i :: 0 <= i < |call1| && call1[i].Keyword? ==> out[i].Keyword? && out[i].name == call1[i].name
    ensures KeywordNames(call1) <= KeywordNames(out)
  {
    forall n | n in KeywordNames(call1)
      ensures n in KeywordNames(out)
    {
      var i :| 0 <= i < |call1| && call1[i].Keyword? && call1[i].name == n;
      assert out[i].Keyword? && out[i].name == n;
    }
  }

  /** The merged call has distinct keywords exactly when the first call has. */
  lemma MergedKeywordsDistinct(call1: seq<Arg>, call2: seq<Arg>, m: Counts, out: seq<Arg>)
    requires MergedWith(call1, call2, m, out)
    ensures DistinctKeywords(out) <==> DistinctKeywords(call1)
  {
    if DistinctKeywords(call1) {
      forall i, j | 0 <= i < j < |out| && out[i].Keyword? && out[j].Keyword?
        ensures out[i].name != out[j].name
      {
        if i < |call1| <= j {
          assert call1[i].Keyword? && call1[i].name in KeywordNames(call1);
        }
      }
    }
    if DistinctKeywords(out) {
      forall i, j | 0 <= i < j < |call1| && call1[i].Keyword? && call1[j].Keyword?
        ensures call1[i].name != call1[j].name
      {
        assert out[i].name == call1[i].name && out[j].name == call1[j].name;
      }
    }
  }

  /** Every keyword of the merged call, whatever order the maps were walked in: present exactly when it has a
      target, and then with that value. */
  lemma MergedKeyword(call1: seq<Arg>, call2: seq<Arg>, m: Counts, out: seq<Arg>, n: string)
    requires DistinctKeywords(call1) && MergedWith(call1, call2, m, out)
    ensures Last(out, n) == TargetWith(call1, call2, m, n)
  {
    MergedKeywordsDistinct(call1, call2, m, out);
    LastIsNamed(out, n);
    LastIsNamed(call1, n);
    if n in KeywordNames(out) {
      var i :| 0 <= i < |out| && out[i].Keyword? && out[i].name == n;
      LastFinds(out, i);
      if i < |call1| {
        LastFinds(call1, i);
      }
    } else {
      FirstNamesStay(call1, out);
      LastIsNamed(call2, n);
      LastIsNamed(call2, PREFIX + n);
      assert PREFIX + n in KeywordNames(call2) ==> IsThere(call1, call2, out, PREFIX + n);
      assert (PREFIX + n)[|PREFIX|..] == n;
    }
  }

  // ----- meaning -----

  /** An absent argument means the empty list. */
  function Meaning(env: Env, e: Option<Expr>): Option<seq<Value>> {
    match e
    case None => Some([])
    case Some(x) => Eval(env, x)
  }

  /** A list followed by another, `m` times over. */
  function Followed(base: Option<seq<Value>>, more: Option<seq<Value>>, m: nat): (r: Option<seq<Value>>)
    ensures base.Some? && more.Some? ==> r.Some? && |r.value| == |base.value| + m * |more.value|
    ensures base.None? || (more.None? && m > 0) ==> r.None?
  {
    if m == 0 then base else Concat(Followed(base, more, m - 1), more)
  }

  lemma {:induction false} TimesMeaning(env: Env, x: Expr, more: Option<Expr>, m: nat)
    requires Times(x, more, m).Some?
    ensures Eval(env, Times(x, more, m).value) == Followed(Eval(env, x), Meaning(env, more), m)
  {
    if m > 0 {
      if more.None? {
        assert Times(x, more, m - 1) == Some(x);
        TimesMeaning(env, x, more, m - 1);
        assert Eval(env, x).Some? ==> Eval(env, x).value + [] == Eval(env, x).value;
      } else {
        TimesMeaning(env, x, more, m - 1);
        MergeExprMeaning(env, Times(x, more, m - 1).value, more.value);
      }
    }
  }

  /** How often a keyword ends up with the addition to it. */
  function Additions(call2: seq<Arg>, m: Counts, n: string): nat {
    if Override(call2, n).Some? then m(n) else 1
  }

  /** Where that comes to the same as once. */
  predicate AsOnce(base: Option<seq<Value>>, more: Option<seq<Value>>, m: nat) {
    m == 1 || base.None? || more == Some([]) || (more.None? && m > 0)
  }

  lemma OnceIff(base: Option<seq<Value>>, more: Option<seq<Value>>, m: nat)
    ensures Followed(base, more, m) == Concat(base, more) <==> AsOnce(base, more, m)
  {
    if m == 1 {
      assert Followed(base, more, 1) == Concat(Followed(base, more, 0), more);
    } else if base.Some? && more == Some([]) {
      NothingFollows(base, m);
    } else if base.Some? && more.Some? {
      assert |Followed(base, more, m).value| != |Concat(base, more).value|;
    }
  }

  lemma {:induction false} NothingFollows(base: Option<seq<Value>>, m: nat)
    requires base.Some?
    ensures Followed(base, Some([]), m) == base == Concat(base, Some([]))
  {
    assert base.value + [] == base.value;
    if m > 0 {
      NothingFollows(base, m - 1);
    }
  }

  /** Each keyword of the merged call means the second call's value of it if it has one, else the first's, else the
      empty list, followed by the second call's addition as often as that was merged in. */
  lemma MergedCallMeaning(env: Env, call1: seq<Arg>, call2: seq<Arg>, m: Counts, out: seq<Arg>, n: string)
    requires DistinctKeywords(call1) && MergedWith(call1, call2, m, out)
    ensures Meaning(env, Last(out, n)) ==
            Followed(Meaning(env, Base(call1, call2, n)), Meaning(env, Additional(call2, n)), Additions(call2, m, n))
  {
    MergedKeyword(call1, call2, m, out, n);
    LastIsSome(out, n, call1, call2, m);
    var b, a := Base(call1, call2, n), Additional(call2, n);
    if b.Some? {
      TimesMeaning(env, b.value, a, Additions(call2, m, n));
    } else {
      var w := Meaning(env, a);
      assert Followed(Some([]), w, 0) == Some([]);
      assert w.Some? ==> [] + w.value == w.value;
    }
  }

  /** A keyword with a base is in the merged call, so none of its merges failed. */
  lemma LastIsSome(out: seq<Arg>, n: string, call1: seq<Arg>, call2: seq<Arg>, m: Counts)
    requires MergedWith(call1, call2, m, out)
    ensures Base(call1, call2, n).Some? ==> Last(out, n).Some?
  {
    LastIsNamed(out, n);
    LastIsNamed(call1, n);
    LastIsNamed(call2, n);
    FirstNamesStay(call1, out);
    assert n in KeywordNames(call2) ==> IsThere(call1, call2, out, n);
  }

  /** So a keyword means base and addition exactly when the keyword is not overridden, the addition was merged into
      the override once, or that makes no difference. */
  lemma AddedOnceIff(env: Env, call1: seq<Arg>, call2: seq<Arg>, m: Counts, out: seq<Arg>, n: string)
    requires DistinctKeywords(call1) && MergedWith(call1, call2, m, out)
    ensures var base, more := Meaning(env, Base(call1, call2, n)), Meaning(env, Additional(call2, n));
            Meaning(env, Last(out, n)) == Concat(base, more) <==>
            Override(call2, n).None? || AsOnce(base, more, m(n))
  {
    MergedCallMeaning(env, call1, call2, m, out, n);
    OnceIff(Meaning(env, Base(call1, call2, n)), Meaning(env, Additional(call2, n)), Additions(call2, m, n));
  }

  /** The expression the additions go to. */
  function BaseAt(call1: seq<Arg>, call2: seq<Arg>, i: nat): Expr
    requires i < |call1| && call1[i].Keyword?
  {
    match Override(call2, call1[i].name)
    case Some(o) => o
    case None => call1[i].rhs
  }

  /** The same for each keyword argument of any first call, also where that repeats a keyword. */
  lemma SettledMeaning(env: Env, call1: seq<Arg>, call2: seq<Arg>, m: Counts, out: seq<Arg>, i: nat)
    requires MergedWith(call1, call2, m, out) && i < |call1| && call1[i].Keyword?
    ensures var n := call1[i].name;
            Eval(env, out[i].rhs) ==
            Followed(Eval(env, BaseAt(call1, call2, i)), Meaning(env, Additional(call2, n)), Additions(call2, m, n))
  {
    var n := call1[i].name;
    TimesMeaning(env, BaseAt(call1, call2, i), Additional(call2, n), Additions(call2, m, n));
  }

  /** In a single merge an argument means base and addition exactly when the keyword is not overridden, the first call
      has it once, or that makes no difference. */
  lemma SettledOnceIff(env: Env, call1: seq<Arg>, call2: seq<Arg>, out: seq<Arg>, i: nat)
    requires MergedWith(call1, call2, Single(call1), out) && i < |call1| && call1[i].Keyword?
    ensures var n := call1[i].name;
            var base, more := Eval(env, BaseAt(call1, call2, i)), Meaning(env, Additional(call2, n));
            Eval(env, out[i].rhs) == Concat(base, more) <==>
            Override(call2, n).None? || AsOnce(base, more, Uses(call1, n))
  {
    var n := call1[i].name;
    assert n in KeywordNames(call1);
    SettledMeaning(env, call1, call2, Single(call1), out, i);
    OnceIff(Eval(env, BaseAt(call1, call2, i)), Meaning(env, Additional(call2, n)),
            Additions(call2, Single(call1), n));
  }

  /** deps = ["a"], deps = ["b"] with deps = ["c"] and additional_deps = ["d"] comes to ["c"] + ["d"] + ["d"]. */
  lemma RepeatedKeywordAddsTwice(env: Env, a: Expr, b: Expr, c: Expr, d: Expr, out: seq<Arg>)
    requires var call1 := [Keyword("deps", ListExpr([a])), Keyword("deps", ListExpr([b]))];
             MergedWith(call1, [Keyword("deps", ListExpr([c])), Keyword(PREFIX + "deps", ListExpr([d]))],
                        Single(call1), out)
    ensures Eval(env, out[0].rhs) == Some([env.item(c), env.item(d), env.item(d)])
  {
    var call1 := [Keyword("deps", ListExpr([a])), Keyword("deps", ListExpr([b]))];
    var call2 := [Keyword("deps", ListExpr([c])), Keyword(PREFIX + "deps", ListExpr([d]))];
    assert call1[..1] == [Keyword("deps", ListExpr([a]))];
    assert Uses(call1[..1], "deps") == Uses([], "deps") + 1 by {
      assert call1[..1][..0] == [];
    }
    assert Uses(call1, "deps") == 2;
    assert call1[0].name == "deps" && "deps" in KeywordNames(call1);
    DepsOf([], call2, ListExpr([c]), ListExpr([d]));
    SettledMeaning(env, call1, call2, Single(call1), out, 0);
    ListTwice(env, c, d);
  }

  lemma ListTwice(env: Env, c: Expr, d: Expr)
    ensures Followed(Eval(env, ListExpr([c])), Eval(env, ListExpr([d])), 2) ==
            Some([env.item(c), env.item(d), env.item(d)])
  {
    var v, w := [env.item(c)], [env.item(d)];
    assert Items(env, [c]) == v && Items(env, [d]) == w;
    assert Eval(env, ListExpr([c])) == Some(v) && Eval(env, ListExpr([d])) == Some(w);
    assert Followed(Some(v), Some(w), 1) == Concat(Followed(Some(v), Some(w), 0), Some(w)) == Some(v + w);
    assert Followed(Some(v), Some(w), 2) == Some(v + w + w);
    assert v + w + w == [env.item(c), env.item(d), env.item(d)];
  }

  lemma DepsOf(front: seq<Arg>, call2: seq<Arg>, deps: Expr, more: Expr)
    requires call2 == front + [Keyword("deps", deps), Keyword(PREFIX + "deps", more)]
    ensures Override(call2, "deps") == Some(deps) && Additional(call2, "deps") == Some(more)
  {
    assert PREFIX + "deps" != "deps" && !IsAdditional("deps");
    assert call2[..|front| + 1] == front + [Keyword("deps", deps)];
    assert Last(call2, "deps") == Last(call2[..|front| + 1], "deps");
  }
}
