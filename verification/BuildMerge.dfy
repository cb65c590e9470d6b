/** Merging two BUILD files: each stage marks the statements it has dealt with. */
module BuildMerge {
  import opened Graphs
  import opened Options
  import opened Strings
  import opened BuildExprs
  import opened BuildCalls
  import opened BuildCallMerge
  import opened BuildFiles

  // ----- two calls -----

  method MakeNodes(args: seq<Arg>) returns (nodes: seq<Node>)
    ensures Holds(nodes, args) && DistinctNodes(nodes)
    ensures forall a :: a in Assigns(nodes) ==> fresh(a)
  {
    nodes := [];
    for i := 0 to |args|
      invariant Holds(nodes, args[..i]) && DistinctNodes(nodes)
      invariant forall a :: a in Assigns(nodes) ==> fresh(a)
    {
      match args[i] {
        case Positional(e) =>
          assert Assigns(nodes + [PositionalNode(e)]) <= Assigns(nodes);
          nodes := nodes + [PositionalNode(e)];
        case Keyword(name, rhs) =>
          var assign := new AssignExpr(name, rhs);
          assert Assigns(nodes + [KeywordNode(assign)]) <= Assigns(nodes) + {assign};
          assert forall k :: 0 <= k < |nodes| && nodes[k].KeywordNode? ==> nodes[k].assign in Assigns(nodes);
          nodes := nodes + [KeywordNode(assign)];
      }
    }
    assert args[..|args|] == args;
  }

  method ReadNodes(nodes: seq<Node>) returns (args: seq<Arg>)
    ensures Holds(nodes, args)
  {
    args := [];
    for i := 0 to |nodes|
      invariant |args| == i
      invariant forall k :: 0 <= k < i ==>
                  args[k] == if nodes[k].KeywordNode? then Keyword(nodes[k].assign.name, nodes[k].assign.rhs)
                             else Positional(nodes[k].e)
    {
      match nodes[i] {
        case PositionalNode(e) => args := args + [Positional(e)];
        case KeywordNode(assign) => args := args + [Keyword(assign.name, assign.rhs)];
      }
    }
  }

  /** The statement that stands for two calls which no other merge touches; None stands for the error. */
  method MergeCalls(s1: Stmt, s2: Stmt) returns (out: Option<Stmt>)
    requires s1.CallStmt? && s2.CallStmt?
    ensures out.Some? <==> Mergeable(s1.args, s2.args)
    ensures out.Some? ==> IsMergedStmt(s1, s2, Single(s1.args), out.value)
  {
    var call1 := MakeNodes(s1.args);
    var call2 := MakeNodes(s2.args);
    var ok, nodes := MergeCallExpr(call1, call2, s1.args, s2.args);
    if !ok {
      return None;
    }
    var args := ReadNodes(nodes);
    MergedOnce(s1.args, s2.args, args);
    return Some(CallStmt(s1.callee, args, s1.suffix + s2.suffix));
  }

  // ----- marks -----

  /** The `merged` flags of a file's statements are set exactly for `s`. */
  ghost predicate Marked(merged: array<bool>, s: set<nat>)
    reads merged
  {
    forall i :: 0 <= i < merged.Length ==> (merged[i] <==> i in s)
  }

  lemma {:induction false} PickedSame(file: nat, stmts: seq<Stmt>, sel: set<nat>, m: nat, n: nat)
    requires m <= n <= |stmts|
    requires forall i :: m <= i < n ==> i !in sel
    ensures Picked(file, stmts, sel, n) == Picked(file, stmts, sel, m)
    decreases n
  {
    if m < n {
      PickedSame(file, stmts, sel, m, n - 1);
    }
  }

  lemma {:induction false} LeadingAre(stmts: seq<Stmt>)
    ensures forall i :: 0 <= i < Leading(stmts) ==> stmts[i].CommentBlock?
    ensures Leading(stmts) < |stmts| ==> !stmts[Leading(stmts)].CommentBlock?
  {
    if stmts != [] && stmts[0].CommentBlock? {
      LeadingAre(stmts[1..]);
      assert forall i :: 0 < i < |stmts| ==> stmts[i] == stmts[1..][i - 1];
    }
  }

  /** Leading comment blocks go to the top. */
  method CopyLeading(file: nat, p: Parsed, merged: array<bool>) returns (out: seq<Out>)
    requires merged.Length == |p.stmts| && Marked(merged, {})
    modifies merged
    ensures Marked(merged, LeadingSet(p))
    ensures out == Picked(file, p.stmts, LeadingSet(p), |p.stmts|)
  {
    out := [];
    LeadingAre(p.stmts);
    for i := 0 to |p.stmts|
      invariant i <= Leading(p.stmts)
      invariant forall k :: 0 <= k < |p.stmts| ==> (merged[k] <==> k < i)
      invariant out == Picked(file, p.stmts, LeadingSet(p), i)
    {
      if !p.stmts[i].CommentBlock? {
        PickedSame(file, p.stmts, LeadingSet(p), i, |p.stmts|);
        return;
      }
      out := out + [Out(p.stmts[i], [Source(file, i)])];
      merged[i] := true;
    }
  }

  /** Variable assignments stay above the rules. */
  method CopyAssignments(file: nat, p: Parsed, merged: array<bool>, ghost s: set<nat>) returns (out: seq<Out>)
    requires merged.Length == |p.stmts| && Marked(merged, s)
    modifies merged
    ensures Marked(merged, s + AssignSet(p))
    ensures out == Picked(file, p.stmts, AssignSet(p), |p.stmts|)
  {
    out := [];
    for i := 0 to |p.stmts|
      invariant forall k :: 0 <= k < |p.stmts| ==> (merged[k] <==> k in s || (k < i && p.stmts[k].AssignStmt?))
      invariant out == Picked(file, p.stmts, AssignSet(p), i)
    {
      if p.stmts[i].AssignStmt? {
        out := out + [Out(p.stmts[i], [Source(file, i)])];
        merged[i] := true;
      }
    }
  }

  function SetOfOption(o: Option<nat>): set<nat> {
    if o.Some? then {o.value} else {}
  }

  lemma {:induction false} LastCallIs(stmts: seq<Stmt>, name: string, n: nat)
    requires n <= |stmts|
    ensures var i := LastCall(stmts, name, n);
            i.Some? ==> i.value < n && IsCallTo(stmts[i.value], name)
  {
    if n > 0 {
      LastCallIs(stmts, name, n - 1);
    }
  }

  method MergePackages(p1: Parsed, p2: Parsed, merged1: array<bool>, merged2: array<bool>,
                       ghost s1: set<nat>, ghost s2: set<nat>)
    returns (ok: bool, part: seq<Out>)
    requires IsParsed(p1) && IsParsed(p2) && merged1 != merged2
    requires merged1.Length == |p1.stmts| && Marked(merged1, s1)
    requires merged2.Length == |p2.stmts| && Marked(merged2, s2)
    modifies merged1, merged2
    ensures ok ==> Marked(merged1, s1 + SetOfOption(p1.pkg)) && Marked(merged2, s2 + SetOfOption(p2.pkg))
    ensures ok ==> IsPackagePart(p1, p2, part)
    ensures ok <==> (p1.pkg.Some? && p2.pkg.Some? ==> CallsMergeable(p1, p2, p1.pkg.value, p2.pkg.value))
  {
    LastCallIs(p1.stmts, "package", |p1.stmts|);
    LastCallIs(p2.stmts, "package", |p2.stmts|);
    part := [];
    if p1.pkg.Some? && p2.pkg.Some? {
      var i, j := p1.pkg.value, p2.pkg.value;
      var call := MergeCalls(p1.stmts[i], p2.stmts[j]);
      if call.None? {
        return false, [];
      }
      part := [Out(call.value, [Source(1, i), Source(2, j)])];
      merged1[i] := true;
      merged2[j] := true;
    } else if p1.pkg.Some? {
      part := [Out(p1.stmts[p1.pkg.value], [Source(1, p1.pkg.value)])];
      merged1[p1.pkg.value] := true;
    } else if p2.pkg.Some? {
      part := [Out(p2.stmts[p2.pkg.value], [Source(2, p2.pkg.value)])];
      merged2[p2.pkg.value] := true;
    }
    ok := true;
  }

  method SameComments(comments1: seq<string>, comments2: seq<string>) returns (same: bool)
    ensures same <==> comments1 == comments2
  {
    if |comments1| != |comments2| {
      return false;
    }
    for i := 0 to |comments1|
      invariant comments1[..i] == comments2[..i]
    {
      if comments1[i] != comments2[i] {
        return false;
      }
    }
    return true;
  }

  /** The strings of a list of the same strings. */
  method SameStrings(items1: seq<Expr>, items2: seq<Expr>) returns (same: bool, ghost strings: seq<string>)
    ensures same <==> items1 == items2 && forall k :: 0 <= k < |items1| ==> items1[k].StringExpr?
    ensures same ==> |strings| == |items1| && forall k :: 0 <= k < |strings| ==> items1[k] == StringExpr(strings[k])
  {
    strings := [];
    if |items1| != |items2| {
      return false, [];
    }
    for i := 0 to |items1|
      invariant |strings| == i && forall k :: 0 <= k < i ==> items1[k] == items2[k] == StringExpr(strings[k])
    {
      if !items1[i].StringExpr? || !items2[i].StringExpr? || items1[i].value != items2[i].value {
        return false, [];
      }
      strings := strings + [items1[i].value];
    }
    same := true;
  }

  /** `mergeLicenses` on two calls: whether they are the same. Calls of any other shape never are. */
  method CompareLicenses(licenses1: Stmt, licenses2: Stmt) returns (same: bool)
    requires licenses1.CallStmt? && licenses2.CallStmt?
    ensures same <==> LicensesAgree(licenses1, licenses2)
  {
    same := SameComments(licenses1.suffix, licenses2.suffix);
    if !same || |licenses1.args| != 1 || |licenses2.args| != 1 {
      return false;
    }
    if !licenses1.args[0].Positional? || !licenses2.args[0].Positional? {
      return false;
    }
    if !licenses1.args[0].e.ListExpr? || !licenses2.args[0].e.ListExpr? {
      return false;
    }
    ghost var strings;
    same, strings := SameStrings(licenses1.args[0].e.items, licenses2.args[0].e.items);
    if same {
      assert BothLicense(licenses1, licenses2, strings, licenses1.suffix);
    } else if strings, suffix :| BothLicense(licenses1, licenses2, strings, suffix) {
      assert false;
    }
  }

  method MergeLicenses(p1: Parsed, p2: Parsed, merged1: array<bool>, merged2: array<bool>,
                       ghost s1: set<nat>, ghost s2: set<nat>)
    returns (ok: bool, part: seq<Out>)
    requires IsParsed(p1) && IsParsed(p2) && merged1 != merged2
    requires merged1.Length == |p1.stmts| && Marked(merged1, s1)
    requires merged2.Length == |p2.stmts| && Marked(merged2, s2)
    modifies merged1, merged2
    ensures ok ==> Marked(merged1, s1 + SetOfOption(p1.licenses)) && Marked(merged2, s2 + SetOfOption(p2.licenses))
    ensures ok ==> IsLicensePart(p1, p2, part)
    ensures ok <==> (p1.licenses.Some? && p2.licenses.Some? ==>
                       && p1.licenses.value < |p1.stmts| && p2.licenses.value < |p2.stmts|
                       && LicensesAgree(p1.stmts[p1.licenses.value], p2.stmts[p2.licenses.value]))
  {
    LastCallIs(p1.stmts, "licenses", |p1.stmts|);
    LastCallIs(p2.stmts, "licenses", |p2.stmts|);
    part := [];
    if p1.licenses.Some? && p2.licenses.Some? {
      var i, j := p1.licenses.value, p2.licenses.value;
      var same := CompareLicenses(p1.stmts[i], p2.stmts[j]);
      if !same {
        return false, [];
      }
      part := [Out(p1.stmts[i], [Source(1, i), Source(2, j)])];
      merged1[i] := true;
      merged2[j] := true;
    } else if p1.licenses.Some? {
      part := [Out(p1.stmts[p1.licenses.value], [Source(1, p1.licenses.value)])];
      merged1[p1.licenses.value] := true;
    } else if p2.licenses.Some? {
      part := [Out(p2.stmts[p2.licenses.value], [Source(2, p2.licenses.value)])];
      merged2[p2.licenses.value] := true;
    }
    ok := true;
  }

  // ----- loads -----

  /** The symbols of all loads of a module: first local name of each, names in the order met. */
  ghost predicate Gathered(all: seq<Import>, fromTo: map<string, string>, names: seq<string>) {
    && (forall n {:trigger FirstTo(all, n)} ::
          if n in fromTo then FirstTo(all, n) == Some(fromTo[n]) else FirstTo(all, n).None?)
    && SetOf(names) == fromTo.Keys
    && (forall i, j :: 0 <= i < j < |names| ==> names[i] != names[j])
  }

  lemma FirstToGrows(all: seq<Import>, x: Import, n: string)
    ensures FirstTo(all + [x], n) ==
            if FirstTo(all, n).Some? then FirstTo(all, n) else if x.from == n then Some(x.to) else None
  {
    assert (all + [x])[..|all + [x]| - 1] == all;
  }

  method GatherLoad(imports: seq<Import>, ghost all: seq<Import>, fromTo: map<string, string>, names: seq<string>)
    returns (fromTo': map<string, string>, names': seq<string>)
    requires Gathered(all, fromTo, names)
    ensures Gathered(all + imports, fromTo', names')
  {
    fromTo', names' := fromTo, names;
    assert all + imports[..0] == all;
    for i := 0 to |imports|
      invariant Gathered(all + imports[..i], fromTo', names')
    {
      ghost var before := all + imports[..i];
      assert all + imports[..i + 1] == before + [imports[i]];
      forall n
        ensures FirstTo(before + [imports[i]], n) ==
                if FirstTo(before, n).Some? then FirstTo(before, n)
                else if imports[i].from == n then Some(imports[i].to) else None
      {
        FirstToGrows(before, imports[i], n);
      }
      if imports[i].from !in fromTo' {
        assert imports[i].from !in SetOf(names');
        fromTo' := fromTo'[imports[i].from := imports[i].to];
        names' := names' + [imports[i].from];
      }
    }
    assert imports[..|imports|] == imports;
  }

  lemma {:induction false} FirstToFinds(all: seq<Import>, n: string)
    ensures FirstTo(all, n).Some? <==> exists x :: x in all && x.from == n
  {
    if all != [] {
      FirstToFinds(all[..|all| - 1], n);
      assert all == all[..|all| - 1] + [all[|all| - 1]];
    }
  }

  method GatherModule(p1: Parsed, p2: Parsed, entries: seq<Source>)
    returns (fromTo: map<string, string>, names: seq<string>)
    ensures Gathered(AllImports(p1, p2, entries), fromTo, names)
  {
    fromTo, names := map[], [];
    for k := 0 to |entries|
      invariant Gathered(AllImports(p1, p2, entries[..k]), fromTo, names)
    {
      assert entries[..k + 1][..k] == entries[..k];
      var s := StmtAt(p1, p2, entries[k]);
      ghost var all := AllImports(p1, p2, entries[..k]);
      if s.LoadStmt? {
        fromTo, names := GatherLoad(s.imports, all, fromTo, names);
      } else {
        assert all + [] == all;
      }
    }
    assert entries[..|entries|] == entries;
  }

  method ListImports(fromTo: map<string, string>, sorted: seq<string>) returns (imports: seq<Import>)
    requires forall k :: 0 <= k < |sorted| ==> sorted[k] in fromTo
    ensures |imports| == |sorted|
    ensures forall k :: 0 <= k < |sorted| ==> imports[k] == Import(sorted[k], fromTo[sorted[k]])
  {
    imports := [];
    for k := 0 to |sorted|
      invariant |imports| == k
      invariant forall l :: 0 <= l < k ==> imports[l] == Import(sorted[l], fromTo[sorted[l]])
    {
      imports := imports + [Import(sorted[k], fromTo[sorted[k]])];
    }
  }

  /** One load statement for all entries of a module. */
  method MergeModule(p1: Parsed, p2: Parsed, file: string) returns (out: Out)
    ensures IsMergedLoad(p1, p2, file, out)
  {
    var entries := Entries(p1, p2, file);
    var fromTo, names := GatherModule(p1, p2, entries);
    SortAscends(names);
    var sorted := Sort(names);
    assert forall k :: 0 <= k < |sorted| ==> sorted[k] in SetOf(sorted);
    var imports := ListImports(fromTo, sorted);
    UnionFromSorted(AllImports(p1, p2, entries), fromTo, names, sorted, imports);
    out := Out(LoadStmt(file, imports), entries);
  }

  lemma UnionFromSorted(all: seq<Import>, fromTo: map<string, string>, names: seq<string>, sorted: seq<string>,
                        imports: seq<Import>)
    requires Gathered(all, fromTo, names)
    requires Ascending(sorted) && SetOf(sorted) == SetOf(names)
    requires |imports| == |sorted|
    requires forall l :: 0 <= l < |sorted| ==> sorted[l] in fromTo && imports[l] == Import(sorted[l], fromTo[sorted[l]])
    ensures IsLeftBiasedUnion(all, imports)
  {
    assert FromNames(imports) == sorted;
    forall i | i in all
      ensures i.from in FromNames(imports)
    {
      FirstToFinds(all, i.from);
      assert i.from in SetOf(sorted);
    }
  }

  lemma {:induction false} LoadsOfHolds(stmts: seq<Stmt>, file: string, n: nat, i: nat)
    requires n <= |stmts|
    ensures i in LoadsOf(stmts, file, n) <==> i < n && stmts[i].LoadStmt? && stmts[i].file == file
  {
    if n > 0 {
      LoadsOfHolds(stmts, file, n - 1, i);
    }
  }

  function LoadSet(p: Parsed): set<nat> {
    set i: nat | i < |p.stmts| && p.stmts[i].LoadStmt?
  }

  /** The loads of the modules dealt with so far are marked. */
  ghost predicate LoadsMarked(p: Parsed, merged: array<bool>, s: set<nat>, files: set<string>)
    reads merged
  {
    && merged.Length == |p.stmts|
    && forall i :: 0 <= i < |p.stmts| ==>
         (merged[i] <==> i in s || (p.stmts[i].LoadStmt? && p.stmts[i].file in files))
  }

  method MarkLoads(p: Parsed, file: string, merged: array<bool>, ghost s: set<nat>, ghost files: set<string>)
    requires IsParsed(p) && LoadsMarked(p, merged, s, files)
    modifies merged
    ensures LoadsMarked(p, merged, s, files + {file})
  {
    var entries := if file in p.loads then p.loads[file] else [];
    assert entries == LoadsOf(p.stmts, file, |p.stmts|) by {
      assert LoadsOf(p.stmts, file, |p.stmts|) == LoadsOf(p.stmts, file, |p.stmts|);
    }
    forall i: nat
      ensures i in entries <==> i < |p.stmts| && p.stmts[i].LoadStmt? && p.stmts[i].file == file
    {
      LoadsOfHolds(p.stmts, file, |p.stmts|, i);
    }
    for k := 0 to |entries|
      invariant forall i :: 0 <= i < |p.stmts| ==>
                  (merged[i] <==> i in s || (p.stmts[i].LoadStmt? && p.stmts[i].file in files) || i in entries[..k])
    {
      assert entries[k] in entries;
      assert entries[..k + 1] == entries[..k] + [entries[k]];
      merged[entries[k]] := true;
    }
    assert entries[..|entries|] == entries;
  }

  /** All module names of both files, in whatever order the maps yield them. */
  method ModuleNames(p1: Parsed, p2: Parsed) returns (names: seq<string>)
    ensures SetOf(names) == p1.loads.Keys + p2.loads.Keys
    ensures forall i, j :: 0 <= i < j < |names| ==> names[i] != names[j]
  {
    names := [];
    var keys := p1.loads.Keys + p2.loads.Keys;
    while keys != {}
      invariant SetOf(names) + keys == p1.loads.Keys + p2.loads.Keys && SetOf(names) !! keys
      invariant forall i, j :: 0 <= i < j < |names| ==> names[i] != names[j]
      decreases keys
    {
      var key :| key in keys;
      assert key !in SetOf(names) && SetOf(names + [key]) == SetOf(names) + {key};
      keys := keys - {key};
      names := names + [key];
    }
  }

  method MergeAndMark(p1: Parsed, p2: Parsed, file: string, merged1: array<bool>, merged2: array<bool>,
                      ghost s1: set<nat>, ghost s2: set<nat>, ghost listed: set<string>)
    returns (out: Out)
    requires IsParsed(p1) && IsParsed(p2) && merged1 != merged2
    requires LoadsMarked(p1, merged1, s1, listed) && LoadsMarked(p2, merged2, s2, listed)
    modifies merged1, merged2
    ensures LoadsMarked(p1, merged1, s1, listed + {file}) && LoadsMarked(p2, merged2, s2, listed + {file})
    ensures IsMergedLoad(p1, p2, file, out)
  {
    out := MergeModule(p1, p2, file);
    MarkLoads(p1, file, merged1, s1, listed);
    MarkLoads(p2, file, merged2, s2, listed);
  }

  ghost predicate LoadsMerged(p1: Parsed, p2: Parsed, files: seq<string>, part: seq<Out>) {
    |part| <= |files| && forall l :: 0 <= l < |part| ==> IsMergedLoad(p1, p2, files[l], part[l])
  }

  lemma LoadsOneMore(p1: Parsed, p2: Parsed, files: seq<string>, part: seq<Out>, out: Out)
    requires LoadsMerged(p1, p2, files, part) && |part| < |files| && IsMergedLoad(p1, p2, files[|part|], out)
    ensures LoadsMerged(p1, p2, files, part + [out])
  {
    var longer := part + [out];
    forall l | 0 <= l < |longer|
      ensures IsMergedLoad(p1, p2, files[l], longer[l])
    {
      assert longer[l] == if l < |part| then part[l] else out;
    }
  }

  method MergeLoads(p1: Parsed, p2: Parsed, merged1: array<bool>, merged2: array<bool>,
                    ghost s1: set<nat>, ghost s2: set<nat>)
    returns (files: seq<string>, part: seq<Out>)
    requires IsParsed(p1) && IsParsed(p2) && merged1 != merged2
    requires merged1.Length == |p1.stmts| && Marked(merged1, s1)
    requires merged2.Length == |p2.stmts| && Marked(merged2, s2)
    modifies merged1, merged2
    ensures Marked(merged1, s1 + LoadSet(p1)) && Marked(merged2, s2 + LoadSet(p2))
    ensures IsLoadPart(p1, p2, files, part)
  {
    var names := ModuleNames(p1, p2);
    SortAscends(names);
    files := Sort(names);
    part := [];
    ghost var listed: set<string> := {};
    for k := 0 to |files|
      invariant listed == SetOf(files[..k])
      invariant LoadsMarked(p1, merged1, s1, listed) && LoadsMarked(p2, merged2, s2, listed)
      invariant |part| == k && LoadsMerged(p1, p2, files, part)
    {
      assert SetOf(files[..k + 1]) == SetOf(files[..k]) + {files[k]};
      var out := MergeAndMark(p1, p2, files[k], merged1, merged2, s1, s2, listed);
      LoadsOneMore(p1, p2, files, part, out);
      part := part + [out];
      listed := listed + {files[k]};
    }
    assert files[..|files|] == files;
    AllLoadsMarked(p1, merged1, s1, listed);
    AllLoadsMarked(p2, merged2, s2, listed);
  }

  lemma AllLoadsMarked(p: Parsed, merged: array<bool>, s: set<nat>, files: set<string>)
    requires IsParsed(p) && LoadsMarked(p, merged, s, files) && p.loads.Keys <= files
    ensures Marked(merged, s + LoadSet(p))
  {
    EveryLoadListed(p);
  }

  lemma EveryLoadListed(p: Parsed)
    requires IsParsed(p)
    ensures forall i :: 0 <= i < |p.stmts| && p.stmts[i].LoadStmt? ==> p.stmts[i].file in p.loads
  {
    forall i | 0 <= i < |p.stmts| && p.stmts[i].LoadStmt?
      ensures p.stmts[i].file in p.loads
    {
      LoadsOfHolds(p.stmts, p.stmts[i].file, |p.stmts|, i);
      assert i in LoadsOf(p.stmts, p.stmts[i].file, |p.stmts|);
    }
  }

  // ----- rules -----

  /** A statement with a target name is left for the rule section. */
  lemma NamedIsRule(p: Parsed, i: nat)
    requires IsParsed(p) && i < |p.stmts| && TargetName(p.stmts[i]).Some?
    ensures IsRule(p, i)
  {
    LeadingAre(p.stmts);
    LastCallIs(p.stmts, "package", |p.stmts|);
    LastCallIs(p.stmts, "licenses", |p.stmts|);
  }

  predicate PartnerBefore(p1: Parsed, p2: Parsed, n: nat, j: nat) {
    exists i :: 0 <= i < n && Partner(p1, p2, i) == Some(j)
  }

  /** Rules of the first file from `n` on are unmarked, and so are the second file's without a namesake before. */
  ghost predicate RulesMarked(p1: Parsed, p2: Parsed, merged1: array<bool>, merged2: array<bool>, n: nat)
    reads merged1, merged2
  {
    && merged1 != merged2 && merged1.Length == |p1.stmts| && merged2.Length == |p2.stmts|
    && (forall k :: n <= k < |p1.stmts| ==> (merged1[k] <==> !IsRule(p1, k)))
    && (forall j :: 0 <= j < |p2.stmts| ==> (merged2[j] <==> !IsRule(p2, j) || PartnerBefore(p1, p2, n, j)))
  }

  // ----- the argument nodes of the second file, which the merges of its rules overwrite -----

  /** The nodes of each statement, all of them in `theirs`. */
  ghost predicate Apart(nodes2: seq<seq<Node>>, theirs: set<AssignExpr>) {
    && (forall j :: 0 <= j < |nodes2| ==> Assigns(nodes2[j]) <= theirs && DistinctNodes(nodes2[j]))
    && (forall j, k :: 0 <= j < k < |nodes2| ==> Assigns(nodes2[j]) !! Assigns(nodes2[k]))
  }

  ghost predicate IsSecondAt(p1: Parsed, p2: Parsed, nodes: seq<Node>, i: nat, j: nat)
    requires i <= |p1.stmts| && j < |p2.stmts|
    reads Assigns(nodes)
  {
    p2.stmts[j].CallStmt? ==> SecondWith(p2.stmts[j].args, AddedUpTo(p1, p2, i, j), Contents(nodes))
  }

  /** What the second file's nodes hold after the first `i` statements of the first file. */
  ghost predicate NodesAt(p1: Parsed, p2: Parsed, nodes2: seq<seq<Node>>, theirs: set<AssignExpr>, i: nat)
    requires i <= |p1.stmts|
    reads theirs
  {
    && |nodes2| == |p2.stmts| && Apart(nodes2, theirs)
    && forall j :: 0 <= j < |p2.stmts| ==> IsSecondAt(p1, p2, nodes2[j], i, j)
  }

  lemma SecondAtFirst(p1: Parsed, p2: Parsed, nodes: seq<Node>, j: nat)
    requires j < |p2.stmts| && (p2.stmts[j].CallStmt? ==> Holds(nodes, p2.stmts[j].args))
    ensures IsSecondAt(p1, p2, nodes, 0, j)
  {
    if p2.stmts[j].CallStmt? {
      assert Contents(nodes) == p2.stmts[j].args;
    }
  }

  method MakeAllNodes(p1: Parsed, p2: Parsed) returns (nodes2: seq<seq<Node>>, ghost theirs: set<AssignExpr>)
    ensures NodesAt(p1, p2, nodes2, theirs, 0) && fresh(theirs)
  {
    nodes2, theirs := [], {};
    for j := 0 to |p2.stmts|
      invariant |nodes2| == j && Apart(nodes2, theirs) && fresh(theirs)
      invariant forall k :: 0 <= k < j ==> IsSecondAt(p1, p2, nodes2[k], 0, k)
    {
      var nodes := MakeNodes(if p2.stmts[j].CallStmt? then p2.stmts[j].args else []);
      SecondAtFirst(p1, p2, nodes, j);
      nodes2 := nodes2 + [nodes];
      theirs := theirs + Assigns(nodes);
    }
  }

  /** Where nothing is merged into a statement its nodes stay as they are. */
  lemma SecondStays(p1: Parsed, p2: Parsed, nodes: seq<Node>, i: nat, j: nat)
    requires i < |p1.stmts| && j < |p2.stmts| && Partner(p1, p2, i) != Some(j)
    requires IsSecondAt(p1, p2, nodes, i, j)
    ensures IsSecondAt(p1, p2, nodes, i + 1, j)
  {
    assert forall n :: AddedUpTo(p1, p2, i + 1, j)(n) == AddedUpTo(p1, p2, i, j)(n);
  }

  // ----- the rules as they are built -----

  /** A rule of the output whose argument nodes later merges may still overwrite. */
  datatype Built = Copied(out: Out) | Combined(callee: Expr, nodes: seq<Node>, suffix: seq<string>, from: seq<Source>)

  /** What is built for a rule: its nodes are `owned`, but for those of its namesake. */
  ghost predicate IsBuilt(p1: Parsed, p2: Parsed, nodes2: seq<seq<Node>>, owned: set<AssignExpr>, i: nat, b: Built)
    requires i < |p1.stmts|
    reads owned
  {
    match Partner(p1, p2, i)
    case None => b == Copied(Out(p1.stmts[i], [Source(1, i)]))
    case Some(j) =>
      && j < |p2.stmts| && j < |nodes2| && p2.stmts[j].CallStmt?
      && b.Combined? && b.callee == p1.stmts[i].callee && b.suffix == p1.stmts[i].suffix + p2.stmts[j].suffix
      && b.from == [Source(1, i), Source(2, j)]
      && Assigns(b.nodes) - Assigns(nodes2[j]) <= owned
      && OutShape(nodes2[j], p1.stmts[i].args, p2.stmts[j].args, b.nodes)
  }

  ghost predicate IsBuiltPart(p1: Parsed, p2: Parsed, nodes2: seq<seq<Node>>, owned: set<AssignExpr>, n: nat,
                              built: seq<Built>)
    requires n <= |p1.stmts|
    reads owned
  {
    if n == 0 then built == []
    else if IsRule(p1, n - 1) then
      && built != []
      && IsBuilt(p1, p2, nodes2, owned, n - 1, built[|built| - 1])
      && IsBuiltPart(p1, p2, nodes2, owned, n - 1, built[..|built| - 1])
    else IsBuiltPart(p1, p2, nodes2, owned, n - 1, built)
  }

  lemma {:induction false} BuiltGrows(p1: Parsed, p2: Parsed, nodes2: seq<seq<Node>>, owned: set<AssignExpr>, n: nat,
                                      built: seq<Built>, owned': set<AssignExpr>)
    requires n <= |p1.stmts| && IsBuiltPart(p1, p2, nodes2, owned, n, built) && owned <= owned'
    ensures IsBuiltPart(p1, p2, nodes2, owned', n, built)
  {
    if n > 0 {
      BuiltGrows(p1, p2, nodes2, owned, n - 1, if IsRule(p1, n - 1) then built[..|built| - 1] else built, owned');
    }
  }

  ghost predicate ReadsAs(b: Built, out: Out)
    reads if b.Combined? then Assigns(b.nodes) else {}
  {
    match b
    case Copied(o) => out == o
    case Combined(callee, nodes, suffix, from) =>
      && out.from == from && out.stmt.CallStmt? && out.stmt.callee == callee && out.stmt.suffix == suffix
      && Holds(nodes, out.stmt.args)
  }

  /** Read once all merges are over, each rule has all the additions that were merged into its namesake. */
  lemma RuleIsRead(p1: Parsed, p2: Parsed, nodes2: seq<seq<Node>>, theirs: set<AssignExpr>, owned: set<AssignExpr>,
                   i: nat, b: Built, out: Out)
    requires NodesAt(p1, p2, nodes2, theirs, |p1.stmts|)
    requires i < |p1.stmts| && IsBuilt(p1, p2, nodes2, owned, i, b) && ReadsAs(b, out)
    ensures IsRuleOut(p1, p2, i, out)
  {
    if Partner(p1, p2, i).Some? {
      var j := Partner(p1, p2, i).value;
      assert IsSecondAt(p1, p2, nodes2[j], |p1.stmts|, j);
      OutReads(nodes2[j], p1.stmts[i].args, p2.stmts[j].args, AddedUpTo(p1, p2, |p1.stmts|, j), b.nodes,
               out.stmt.args);
    }
  }

  lemma {:induction false} RulesAreRead(p1: Parsed, p2: Parsed, nodes2: seq<seq<Node>>, theirs: set<AssignExpr>,
                                        owned: set<AssignExpr>, n: nat, built: seq<Built>, part: seq<Out>)
    requires NodesAt(p1, p2, nodes2, theirs, |p1.stmts|)
    requires n <= |p1.stmts| && IsBuiltPart(p1, p2, nodes2, owned, n, built)
    requires |part| == |built| && forall k :: 0 <= k < |part| ==> ReadsAs(built[k], part[k])
    ensures IsRulePart(p1, p2, n, part)
    decreases n
  {
    if n > 0 {
      if IsRule(p1, n - 1) {
        var l := |built| - 1;
        RuleIsRead(p1, p2, nodes2, theirs, owned, n - 1, built[l], part[l]);
        RulesAreRead(p1, p2, nodes2, theirs, owned, n - 1, built[..l], part[..l]);
      } else {
        RulesAreRead(p1, p2, nodes2, theirs, owned, n - 1, built, part);
      }
    }
  }

  method ReadRules(built: seq<Built>) returns (part: seq<Out>)
    ensures |part| == |built| && forall k :: 0 <= k < |part| ==> ReadsAs(built[k], part[k])
  {
    part := [];
    for k := 0 to |built|
      invariant |part| == k && forall l :: 0 <= l < k ==> ReadsAs(built[l], part[l])
    {
      match built[k] {
        case Copied(out) => part := part + [out];
        case Combined(callee, nodes, suffix, from) =>
          var args := ReadNodes(nodes);
          part := part + [Out(CallStmt(callee, args, suffix), from)];
      }
    }
  }

  /** A rule merged with its namesake as that is by now. */
  method MergePair(p1: Parsed, p2: Parsed, nodes2: seq<seq<Node>>, ghost theirs: set<AssignExpr>, i: nat, j: nat)
    returns (ok: bool, b: Built, ghost own: set<AssignExpr>)
    requires i < |p1.stmts| && j < |p2.stmts| && p2.stmts[j].CallStmt? && Partner(p1, p2, i) == Some(j)
    requires NodesAt(p1, p2, nodes2, theirs, i)
    modifies theirs
    ensures ok <==> PairMerges(p1, p2, i)
    ensures ok ==> NodesAt(p1, p2, nodes2, theirs, i + 1)
    ensures ok ==> IsBuilt(p1, p2, nodes2, own, i, b) && fresh(own) && own !! theirs
  {
    var s1, s2 := p1.stmts[i], p2.stmts[j];
    ghost var m, m' := AddedUpTo(p1, p2, i, j), AddedUpTo(p1, p2, i + 1, j);
    ghost var now := Contents(nodes2[j]);
    assert IsSecondAt(p1, p2, nodes2[j], i, j);
    var call1 := MakeNodes(s1.args);
    var nodes;
    ok, nodes := MergeCallExpr(call1, nodes2[j], s1.args, now);
    MergesAgain(s1.args, s2.args, m, now, m');
    b, own := Combined(s1.callee, nodes, s1.suffix + s2.suffix, [Source(1, i), Source(2, j)]), {};
    if ok {
      own := Assigns(nodes) - Assigns(nodes2[j]);
      SecondAgain(s1.args, s2.args, m, now, Contents(nodes2[j]), m');
      ShapeFromStart(nodes2[j], s1.args, s2.args, m, now, nodes);
      forall k | 0 <= k < |p2.stmts| && k != j
        ensures IsSecondAt(p1, p2, nodes2[k], i + 1, k)
      {
        SecondStays(p1, p2, nodes2[k], i, k);
      }
    }
  }

  /** What stands before statement `i` of the first file is dealt with. */
  ghost predicate RulesSoFar(p1: Parsed, p2: Parsed, nodes2: seq<seq<Node>>, theirs: set<AssignExpr>,
                             owned: set<AssignExpr>, i: nat, built: seq<Built>)
    requires i <= |p1.stmts|
    reads theirs, owned
  {
    NodesAt(p1, p2, nodes2, theirs, i) && owned !! theirs && IsBuiltPart(p1, p2, nodes2, owned, i, built)
  }

  lemma BuiltOneMore(p1: Parsed, p2: Parsed, nodes2: seq<seq<Node>>, owned: set<AssignExpr>, i: nat,
                     built: seq<Built>, own: set<AssignExpr>, b: Built)
    requires i < |p1.stmts| && IsRule(p1, i) && own <= owned
    requires IsBuiltPart(p1, p2, nodes2, owned, i, built) && IsBuilt(p1, p2, nodes2, own, i, b)
    ensures IsBuiltPart(p1, p2, nodes2, owned, i + 1, built + [b])
  {
    assert (built + [b])[..|built|] == built;
  }

  lemma NoneMerged(p1: Parsed, p2: Parsed, nodes2: seq<seq<Node>>, theirs: set<AssignExpr>, i: nat)
    requires i < |p1.stmts| && Partner(p1, p2, i).None? && NodesAt(p1, p2, nodes2, theirs, i)
    ensures NodesAt(p1, p2, nodes2, theirs, i + 1)
  {
    forall j | 0 <= j < |p2.stmts|
      ensures IsSecondAt(p1, p2, nodes2[j], i + 1, j)
    {
      SecondStays(p1, p2, nodes2[j], i, j);
    }
  }

  lemma OnePartnerMore(p1: Parsed, p2: Parsed, i: nat)
    ensures forall j: nat ::
              PartnerBefore(p1, p2, i + 1, j) <==> PartnerBefore(p1, p2, i, j) || Partner(p1, p2, i) == Some(j)
  {
  }

  lemma RulesOneMore(p1: Parsed, p2: Parsed, nodes2: seq<seq<Node>>, theirs: set<AssignExpr>, owned: set<AssignExpr>,
                     i: nat, built: seq<Built>, own: set<AssignExpr>, b: Built)
    requires i < |p1.stmts| && IsRule(p1, i) && owned !! theirs && own !! theirs
    requires NodesAt(p1, p2, nodes2, theirs, i + 1)
    requires IsBuiltPart(p1, p2, nodes2, owned, i, built) && IsBuilt(p1, p2, nodes2, own, i, b)
    ensures RulesSoFar(p1, p2, nodes2, theirs, owned + own, i + 1, built + [b])
  {
    BuiltGrows(p1, p2, nodes2, owned, i, built, owned + own);
    BuiltOneMore(p1, p2, nodes2, owned + own, i, built, own, b);
  }

  /** A rule of the first file: merged with its namesake, or kept. */
  method BuildRule(p1: Parsed, p2: Parsed, i: nat, nodes2: seq<seq<Node>>, ghost theirs: set<AssignExpr>)
    returns (ok: bool, b: Built, ghost own: set<AssignExpr>)
    requires IsParsed(p2) && i < |p1.stmts| && NodesAt(p1, p2, nodes2, theirs, i)
    modifies theirs
    ensures ok <==> PairMerges(p1, p2, i)
    ensures ok ==> NodesAt(p1, p2, nodes2, theirs, i + 1)
    ensures ok ==> IsBuilt(p1, p2, nodes2, own, i, b) && fresh(own) && own !! theirs
  {
    var partner := Partner(p1, p2, i);
    if partner.Some? {
      ok, b, own := MergePair(p1, p2, nodes2, theirs, i, partner.value);
    } else {
      NoneMerged(p1, p2, nodes2, theirs, i);
      ok, b, own := true, Copied(Out(p1.stmts[i], [Source(1, i)])), {};
    }
  }

  method MarkRule(p1: Parsed, p2: Parsed, merged1: array<bool>, merged2: array<bool>, i: nat)
    requires IsParsed(p2) && i < |p1.stmts| && RulesMarked(p1, p2, merged1, merged2, i)
    modifies merged1, merged2
    ensures RulesMarked(p1, p2, merged1, merged2, i + 1)
  {
    var partner := Partner(p1, p2, i);
    if partner.Some? {
      merged2[partner.value] := true;
    }
    merged1[i] := true;
    OnePartnerMore(p1, p2, i);
  }

  /** One unmarked statement of the first file. */
  method MergeRule(p1: Parsed, p2: Parsed, merged1: array<bool>, merged2: array<bool>, i: nat,
                   nodes2: seq<seq<Node>>, ghost theirs: set<AssignExpr>, ghost owned: set<AssignExpr>,
                   built: seq<Built>)
    returns (ok: bool, built': seq<Built>, ghost owned': set<AssignExpr>)
    requires IsParsed(p1) && IsParsed(p2) && i < |p1.stmts| && RulesMarked(p1, p2, merged1, merged2, i) && !merged1[i]
    requires RulesSoFar(p1, p2, nodes2, theirs, owned, i, built)
    modifies merged1, merged2, theirs
    ensures ok ==> RulesMarked(p1, p2, merged1, merged2, i + 1)
    ensures ok ==> RulesSoFar(p1, p2, nodes2, theirs, owned', i + 1, built') && fresh(owned' - owned)
    ensures ok <==> PairMerges(p1, p2, i)
  {
    var b;
    ghost var own;
    ok, b, own := BuildRule(p1, p2, i, nodes2, theirs);
    built', owned' := built, owned;
    if ok {
      MarkRule(p1, p2, merged1, merged2, i);
      RulesOneMore(p1, p2, nodes2, theirs, owned, i, built, own, b);
      built', owned' := built + [b], owned + own;
    }
  }

  /** A marked statement of the first file has no namesake to merge with. */
  lemma MarkedHasNoPartner(p1: Parsed, p2: Parsed, merged1: array<bool>, merged2: array<bool>, i: nat)
    requires IsParsed(p1) && i < |p1.stmts| && RulesMarked(p1, p2, merged1, merged2, i) && merged1[i]
    ensures !IsRule(p1, i) && Partner(p1, p2, i).None? && RulesMarked(p1, p2, merged1, merged2, i + 1)
  {
    if TargetName(p1.stmts[i]).Some? {
      NamedIsRule(p1, i);
    }
    forall j: nat
      ensures PartnerBefore(p1, p2, i + 1, j) <==> PartnerBefore(p1, p2, i, j)
    {
    }
  }

  /** The next statement of the first file, unless it is marked. */
  method MergeNext(p1: Parsed, p2: Parsed, merged1: array<bool>, merged2: array<bool>, i: nat,
                   nodes2: seq<seq<Node>>, ghost theirs: set<AssignExpr>, ghost owned: set<AssignExpr>,
                   built: seq<Built>)
    returns (ok: bool, built': seq<Built>, ghost owned': set<AssignExpr>)
    requires IsParsed(p1) && IsParsed(p2) && i < |p1.stmts| && RulesMarked(p1, p2, merged1, merged2, i)
    requires RulesSoFar(p1, p2, nodes2, theirs, owned, i, built)
    modifies merged1, merged2, theirs
    ensures ok ==> RulesMarked(p1, p2, merged1, merged2, i + 1)
    ensures ok ==> RulesSoFar(p1, p2, nodes2, theirs, owned', i + 1, built') && fresh(owned' - owned)
    ensures ok <==> PairMerges(p1, p2, i)
  {
    if merged1[i] {
      MarkedHasNoPartner(p1, p2, merged1, merged2, i);
      NoneMerged(p1, p2, nodes2, theirs, i);
      return true, built, owned;
    }
    ok, built', owned' := MergeRule(p1, p2, merged1, merged2, i, nodes2, theirs, owned, built);
  }

  lemma PairsOneMore(p1: Parsed, p2: Parsed, i: nat)
    requires i < |p1.stmts| && PairsMerge(p1, p2, i)
    ensures PairMerges(p1, p2, i) ==> PairsMerge(p1, p2, i + 1)
    ensures !PairMerges(p1, p2, i) ==> !PairsMerge(p1, p2, |p1.stmts|)
  {
  }

  method BuildRules(p1: Parsed, p2: Parsed, merged1: array<bool>, merged2: array<bool>, nodes2: seq<seq<Node>>,
                    ghost theirs: set<AssignExpr>)
    returns (ok: bool, built: seq<Built>, ghost owned: set<AssignExpr>)
    requires IsParsed(p1) && IsParsed(p2) && RulesMarked(p1, p2, merged1, merged2, 0)
    requires NodesAt(p1, p2, nodes2, theirs, 0)
    modifies merged1, merged2, theirs
    ensures ok ==> RulesSoFar(p1, p2, nodes2, theirs, owned, |p1.stmts|, built)
    ensures ok ==> RulesMarked(p1, p2, merged1, merged2, |p1.stmts|)
    ensures ok <==> PairsMerge(p1, p2, |p1.stmts|)
  {
    built, owned := [], {};
    for i := 0 to |p1.stmts|
      invariant RulesSoFar(p1, p2, nodes2, theirs, owned, i, built) && fresh(owned)
      invariant RulesMarked(p1, p2, merged1, merged2, i)
      invariant PairsMerge(p1, p2, i)
    {
      ok, built, owned := MergeNext(p1, p2, merged1, merged2, i, nodes2, theirs, owned, built);
      PairsOneMore(p1, p2, i);
      if !ok {
        return;
      }
    }
    ok := true;
  }

  method MergeRules(p1: Parsed, p2: Parsed, merged1: array<bool>, merged2: array<bool>)
    returns (ok: bool, part: seq<Out>)
    requires IsParsed(p1) && IsParsed(p2) && RulesMarked(p1, p2, merged1, merged2, 0)
    modifies merged1, merged2
    ensures ok ==> IsRulePart(p1, p2, |p1.stmts|, part)
    ensures ok ==> RulesMarked(p1, p2, merged1, merged2, |p1.stmts|)
    ensures ok <==> PairsMerge(p1, p2, |p1.stmts|)
  {
    var nodes2, built;
    ghost var theirs, owned;
    nodes2, theirs := MakeAllNodes(p1, p2);
    ok, built, owned := BuildRules(p1, p2, merged1, merged2, nodes2, theirs);
    part := [];
    if ok {
      part := ReadRules(built);
      RulesAreRead(p1, p2, nodes2, theirs, owned, |p1.stmts|, built, part);
    }
  }

  method CopyUnmatched(p1: Parsed, p2: Parsed, merged2: array<bool>) returns (out: seq<Out>)
    requires merged2.Length == |p2.stmts|
    requires forall j :: 0 <= j < |p2.stmts| ==>
               (merged2[j] <==> !IsRule(p2, j) || PartnerBefore(p1, p2, |p1.stmts|, j))
    modifies merged2
    ensures out == Picked(2, p2.stmts, UnmatchedSet(p1, p2), |p2.stmts|)
  {
    out := [];
    for j := 0 to |p2.stmts|
      invariant forall k :: j <= k < |p2.stmts| ==>
                  (merged2[k] <==> !IsRule(p2, k) || PartnerBefore(p1, p2, |p1.stmts|, k))
      invariant forall k :: 0 <= k < |p2.stmts| ==> (PartnerBefore(p1, p2, |p1.stmts|, k) <==> IsPartner(p1, p2, k))
      invariant out == Picked(2, p2.stmts, UnmatchedSet(p1, p2), j)
    {
      if !merged2[j] {
        out := out + [Out(p2.stmts[j], [Source(2, j)])];
        merged2[j] := true;
      }
    }
  }

  function EarlySet(p: Parsed): set<nat> {
    LeadingSet(p) + SetOfOption(p.pkg) + LoadSet(p) + SetOfOption(p.licenses)
  }

  /** The package, load and license sections. */
  method MergeHeader(p1: Parsed, p2: Parsed, merged1: array<bool>, merged2: array<bool>)
    returns (ok: bool, s: Sections)
    requires IsParsed(p1) && IsParsed(p2) && merged1 != merged2
    requires merged1.Length == |p1.stmts| && Marked(merged1, LeadingSet(p1))
    requires merged2.Length == |p2.stmts| && Marked(merged2, LeadingSet(p2))
    modifies merged1, merged2
    ensures ok ==> Marked(merged1, EarlySet(p1)) && Marked(merged2, EarlySet(p2))
    ensures ok ==> IsPackagePart(p1, p2, s.pkg) && IsLoadPart(p1, p2, s.files, s.loads)
    ensures ok ==> IsLicensePart(p1, p2, s.licenses)
    ensures ok <==> HeadersMerge(p1, p2)
  {
    s := Sections([], [], [], [], []);
    var pkg, files, loads, licenses;
    ok, pkg := MergePackages(p1, p2, merged1, merged2, LeadingSet(p1), LeadingSet(p2));
    if !ok {
      return;
    }
    ghost var s1, s2 := LeadingSet(p1) + SetOfOption(p1.pkg), LeadingSet(p2) + SetOfOption(p2.pkg);
    files, loads := MergeLoads(p1, p2, merged1, merged2, s1, s2);
    ok, licenses := MergeLicenses(p1, p2, merged1, merged2, s1 + LoadSet(p1), s2 + LoadSet(p2));
    s := Sections(pkg, files, loads, licenses, []);
  }

  /** What is not marked when the rules begin is a rule. */
  lemma RulesRemain(p: Parsed, merged: array<bool>)
    requires IsParsed(p) && merged.Length == |p.stmts| && Marked(merged, EarlySet(p) + AssignSet(p))
    ensures forall i :: 0 <= i < |p.stmts| ==> (merged[i] <==> !IsRule(p, i))
  {
    forall i | 0 <= i < |p.stmts|
      ensures merged[i] <==> !IsRule(p, i)
    {
    }
  }

  /** `merge`: fails exactly when two calls that belong together do not merge or the licenses disagree. */
  method Merge(p1: Parsed, p2: Parsed) returns (out: Option<seq<Out>>)
    requires IsParsed(p1) && IsParsed(p2)
    ensures out.Some? <==> FilesMergeable(p1, p2)
    ensures out.Some? ==> IsMergeOf(p1, p2, out.value)
  {
    var merged1 := new bool[|p1.stmts|](_ => false);
    var merged2 := new bool[|p2.stmts|](_ => false);
    var lead1 := CopyLeading(1, p1, merged1);
    var lead2 := CopyLeading(2, p2, merged2);
    var ok, s := MergeHeader(p1, p2, merged1, merged2);
    if !ok {
      return None;
    }
    var assigns1 := CopyAssignments(1, p1, merged1, EarlySet(p1));
    var assigns2 := CopyAssignments(2, p2, merged2, EarlySet(p2));
    RulesRemain(p1, merged1);
    RulesRemain(p2, merged2);
    var rules;
    ok, rules := MergeRules(p1, p2, merged1, merged2);
    if !ok {
      return None;
    }
    var rules2 := CopyUnmatched(p1, p2, merged2);
    s := s.(rules := rules);
    assert AreSections(p1, p2, s);
    out := Some(lead1 + lead2 + s.pkg + s.loads + s.licenses + assigns1 + assigns2 + rules + rules2);
    assert out.value == Assemble(p1, p2, s);
  }
}
