/** BUILD files and what the merge of two of them is. Statements are numbered within their file; every
    statement of the output names the statements it stands for. */
module BuildFiles {
  import opened Graphs
  import opened Options
  import opened Strings
  import opened BuildExprs
  import opened BuildCalls

  datatype Import = Import(from: string, to: string)

  /** `suffix` are the comments behind a call, where the license conventionally stands. */
  datatype Stmt =
    | CommentBlock(text: string)
    | LoadStmt(file: string, imports: seq<Import>)
    | AssignStmt(lhs: Expr, rhs: Expr)
    | CallStmt(callee: Expr, args: seq<Arg>, suffix: seq<string>)
    | OtherStmt(id: nat)

  datatype Source = Source(file: nat, index: nat)

  datatype Out = Out(stmt: Stmt, from: seq<Source>)

  // ----- parse -----

  predicate IsCallTo(s: Stmt, name: string) {
    s.CallStmt? && s.callee == Ident(name)
  }

  /** Calls other than package() and licenses(). */
  predicate IsRuleCall(s: Stmt) {
    s.CallStmt? && s.callee.Ident? && s.callee.name != "package" && s.callee.name != "licenses"
  }

  /** The first string-valued `name` argument. */
  function NameArg(args: seq<Arg>): Option<string> {
    if args == [] then None
    else if args[0].Keyword? && args[0].name == "name" && args[0].rhs.StringExpr? then Some(args[0].rhs.value)
    else NameArg(args[1..])
  }

  function TargetName(s: Stmt): Option<string> {
    if IsRuleCall(s) then NameArg(s.args) else None
  }

  datatype Parsed = Parsed(
    stmts: seq<Stmt>,
    pkg: Option<nat>,
    loads: map<string, seq<nat>>,
    licenses: Option<nat>,
    calls: map<string, nat>)

  /** The last call to `name` among the first `n` statements. */
  function LastCall(stmts: seq<Stmt>, name: string, n: nat): Option<nat>
    requires n <= |stmts|
  {
    if n == 0 then None
    else if IsCallTo(stmts[n - 1], name) then Some(n - 1)
    else LastCall(stmts, name, n - 1)
  }

  /** The load statements of a module among the first `n` statements, in order. */
  function LoadsOf(stmts: seq<Stmt>, file: string, n: nat): seq<nat>
    requires n <= |stmts|
  {
    if n == 0 then []
    else LoadsOf(stmts, file, n - 1) + if stmts[n - 1].LoadStmt? && stmts[n - 1].file == file then [n - 1] else []
  }

  ghost predicate IsParsed(p: Parsed) {
    ParsedUpTo(p, |p.stmts|)
  }

  ghost predicate ParsedUpTo(p: Parsed, n: nat) {
    && n <= |p.stmts|
    && p.pkg == LastCall(p.stmts, "package", n)
    && p.licenses == LastCall(p.stmts, "licenses", n)
    && LoadsUpTo(p.stmts, p.loads, n)
    && CallsUpTo(p.stmts, p.calls, n)
  }

  ghost predicate LoadsUpTo(stmts: seq<Stmt>, loads: map<string, seq<nat>>, n: nat)
    requires n <= |stmts|
  {
    forall f {:trigger LoadsOf(stmts, f, n)} ::
      if f in loads then loads[f] == LoadsOf(stmts, f, n) && loads[f] != [] else LoadsOf(stmts, f, n) == []
  }

  /** Each target name leads to the last rule of that name. */
  ghost predicate CallsUpTo(stmts: seq<Stmt>, calls: map<string, nat>, n: nat)
    requires n <= |stmts|
  {
    && (forall i :: 0 <= i < n && TargetName(stmts[i]).Some? ==>
          TargetName(stmts[i]).value in calls && i <= calls[TargetName(stmts[i]).value])
    && (forall t :: t in calls ==> calls[t] < n && TargetName(stmts[calls[t]]) == Some(t))
  }

  method FindName(args: seq<Arg>) returns (name: Option<string>)
    ensures name == NameArg(args)
  {
    for i := 0 to |args|
      invariant NameArg(args) == NameArg(args[i..])
    {
      if args[i].Keyword? && args[i].name == "name" && args[i].rhs.StringExpr? {
        return Some(args[i].rhs.value);
      }
      assert args[i..][1..] == args[i + 1..];
    }
    return None;
  }

  method ParseCall(stmts: seq<Stmt>, i: nat, calls: map<string, nat>) returns (calls': map<string, nat>)
    requires i < |stmts| && CallsUpTo(stmts, calls, i) && IsRuleCall(stmts[i])
    ensures CallsUpTo(stmts, calls', i + 1)
  {
    calls' := calls;
    var name := FindName(stmts[i].args);
    if name.Some? {
      calls' := calls[name.value := i];
    }
  }

  method ParseLoad(stmts: seq<Stmt>, i: nat, loads: map<string, seq<nat>>) returns (loads': map<string, seq<nat>>)
    requires i < |stmts| && LoadsUpTo(stmts, loads, i) && stmts[i].LoadStmt?
    ensures LoadsUpTo(stmts, loads', i + 1)
  {
    var file := stmts[i].file;
    loads' := loads[file := (if file in loads then loads[file] else []) + [i]];
    forall f
      ensures if f in loads' then loads'[f] == LoadsOf(stmts, f, i + 1) && loads'[f] != []
              else LoadsOf(stmts, f, i + 1) == []
    {
      assert LoadsOf(stmts, f, i + 1) == LoadsOf(stmts, f, i) + if f == file then [i] else [];
    }
  }

  lemma NotLoaded(stmts: seq<Stmt>, i: nat, loads: map<string, seq<nat>>)
    requires i < |stmts| && LoadsUpTo(stmts, loads, i) && !stmts[i].LoadStmt?
    ensures LoadsUpTo(stmts, loads, i + 1)
  {
    forall f
      ensures if f in loads then loads[f] == LoadsOf(stmts, f, i + 1) && loads[f] != []
              else LoadsOf(stmts, f, i + 1) == []
    {
      assert LoadsOf(stmts, f, i + 1) == LoadsOf(stmts, f, i) + [];
    }
  }

  /** The loop of `parse` over the statements of one file. */
  method Parse(stmts: seq<Stmt>) returns (p: Parsed)
    ensures p.stmts == stmts && IsParsed(p)
  {
    var pkg: Option<nat>, licenses: Option<nat> := None, None;
    var loads: map<string, seq<nat>>, calls: map<string, nat> := map[], map[];
    for i := 0 to |stmts|
      invariant pkg == LastCall(stmts, "package", i)
      invariant licenses == LastCall(stmts, "licenses", i)
      invariant LoadsUpTo(stmts, loads, i)
      invariant CallsUpTo(stmts, calls, i)
    {
      if stmts[i].LoadStmt? {
        loads := ParseLoad(stmts, i, loads);
      } else {
        NotLoaded(stmts, i, loads);
        if stmts[i].CallStmt? && stmts[i].callee.Ident? {
          if stmts[i].callee.name == "package" {
            pkg := Some(i);
          } else if stmts[i].callee.name == "licenses" {
            licenses := Some(i);
          } else {
            calls := ParseCall(stmts, i, calls);
          }
        }
      }
    }
    p := Parsed(stmts, pkg, loads, licenses, calls);
  }

  // ----- the classes of statements -----

  function Leading(stmts: seq<Stmt>): (n: nat)
    ensures n <= |stmts|
  {
    if stmts == [] || !stmts[0].CommentBlock? then 0 else 1 + Leading(stmts[1..])
  }

  /** What is left for the rule section. */
  predicate IsRule(p: Parsed, i: nat) {
    && i < |p.stmts| && i >= Leading(p.stmts)
    && !p.stmts[i].LoadStmt? && !p.stmts[i].AssignStmt?
    && p.pkg != Some(i) && p.licenses != Some(i)
  }

  /** The statement of the second file with the same target name. */
  function Partner(p1: Parsed, p2: Parsed, i: nat): Option<nat> {
    if i < |p1.stmts| && TargetName(p1.stmts[i]).Some? && TargetName(p1.stmts[i]) != Some("")
       && TargetName(p1.stmts[i]).value in p2.calls
    then Some(p2.calls[TargetName(p1.stmts[i]).value])
    else None
  }

  predicate IsPartner(p1: Parsed, p2: Parsed, j: nat) {
    exists i :: 0 <= i < |p1.stmts| && Partner(p1, p2, i) == Some(j)
  }

  /** No two statements of the first file have the same namesake in the second. */
  ghost predicate OneNamesake(p1: Parsed, p2: Parsed) {
    forall i, j :: 0 <= i < j < |p1.stmts| && Partner(p1, p2, i).Some? ==> Partner(p1, p2, i) != Partner(p1, p2, j)
  }

  /** How often the first `i` rules of the first file have merged what statement `j` of the second adds to a keyword
      into its override of that. */
  function AddedBy(p1: Parsed, p2: Parsed, i: nat, j: nat, n: string): nat
    requires i <= |p1.stmts|
  {
    if i == 0 then 0
    else
      AddedBy(p1, p2, i - 1, j, n)
      + if Partner(p1, p2, i - 1) == Some(j) then OwnCount(p1.stmts[i - 1].args, n) else 0
  }

  function AddedUpTo(p1: Parsed, p2: Parsed, i: nat, j: nat): Counts
    requires i <= |p1.stmts|
  {
    n => AddedBy(p1, p2, i, j, n)
  }

  // ----- the sections of the output -----

  /** The selected statements of a file, in order, as they are. */
  function Picked(file: nat, stmts: seq<Stmt>, sel: set<nat>, n: nat): seq<Out>
    requires n <= |stmts|
  {
    if n == 0 then []
    else
      Picked(file, stmts, sel, n - 1)
      + if n - 1 in sel then [Out(stmts[n - 1], [Source(file, n - 1)])] else []
  }

  predicate IsLeading(p: Parsed, i: nat) {
    i < Leading(p.stmts)
  }

  function LeadingSet(p: Parsed): set<nat> {
    set i: nat | i < |p.stmts| && IsLeading(p, i)
  }

  function AssignSet(p: Parsed): set<nat> {
    set i: nat | i < |p.stmts| && p.stmts[i].AssignStmt?
  }

  /** The rules of the second file that no rule of the first is a namesake of. */
  function UnmatchedSet(p1: Parsed, p2: Parsed): set<nat> {
    set j: nat | j < |p2.stmts| && IsRule(p2, j) && !IsPartner(p1, p2, j)
  }

  /** One call that stands for a call of each file, once the second has been merged that often. */
  ghost predicate IsMergedStmt(s1: Stmt, s2: Stmt, m: Counts, out: Stmt) {
    && s1.CallStmt? && s2.CallStmt? && out.CallStmt?
    && out.callee == s1.callee && out.suffix == s1.suffix + s2.suffix
    && MergedWith(s1.args, s2.args, m, out.args)
  }

  ghost predicate IsPackagePart(p1: Parsed, p2: Parsed, part: seq<Out>) {
    match (p1.pkg, p2.pkg)
    case (None, None) => part == []
    case (Some(i), None) => i < |p1.stmts| && part == [Out(p1.stmts[i], [Source(1, i)])]
    case (None, Some(j)) => j < |p2.stmts| && part == [Out(p2.stmts[j], [Source(2, j)])]
    case (Some(i), Some(j)) =>
      && i < |p1.stmts| && j < |p2.stmts| && |part| == 1 && part[0].from == [Source(1, i), Source(2, j)]
      && p1.stmts[i].CallStmt? && IsMergedStmt(p1.stmts[i], p2.stmts[j], Single(p1.stmts[i].args), part[0].stmt)
  }

  /** A call whose one argument is the list of these strings, with these comments behind it. */
  ghost predicate IsLicensesCall(s: Stmt, licenses: seq<string>, suffix: seq<string>) {
    && s.CallStmt? && s.suffix == suffix
    && |s.args| == 1 && s.args[0].Positional? && s.args[0].e.ListExpr?
    && |s.args[0].e.items| == |licenses|
    && forall k :: 0 <= k < |licenses| ==> s.args[0].e.items[k] == StringExpr(licenses[k])
  }

  ghost predicate BothLicense(s1: Stmt, s2: Stmt, licenses: seq<string>, suffix: seq<string>) {
    IsLicensesCall(s1, licenses, suffix) && IsLicensesCall(s2, licenses, suffix)
  }

  /** The two licenses() calls say the same. */
  ghost predicate LicensesAgree(s1: Stmt, s2: Stmt) {
    exists licenses, suffix :: BothLicense(s1, s2, licenses, suffix)
  }

  ghost predicate IsLicensePart(p1: Parsed, p2: Parsed, part: seq<Out>) {
    match (p1.licenses, p2.licenses)
    case (None, None) => part == []
    case (Some(i), None) => i < |p1.stmts| && part == [Out(p1.stmts[i], [Source(1, i)])]
    case (None, Some(j)) => j < |p2.stmts| && part == [Out(p2.stmts[j], [Source(2, j)])]
    case (Some(i), Some(j)) =>
      && i < |p1.stmts| && j < |p2.stmts| && LicensesAgree(p1.stmts[i], p2.stmts[j])
      && part == [Out(p1.stmts[i], [Source(1, i), Source(2, j)])]
  }

  function Sources(file: nat, indices: seq<nat>): (r: seq<Source>)
    ensures |r| == |indices|
    ensures forall k :: 0 <= k < |indices| ==> r[k] == Source(file, indices[k])
  {
    seq(|indices|, k requires 0 <= k < |indices| => Source(file, indices[k]))
  }

  /** All loads of a module: the first file's, then the second's. */
  function Entries(p1: Parsed, p2: Parsed, file: string): seq<Source> {
    Sources(1, if file in p1.loads then p1.loads[file] else [])
    + Sources(2, if file in p2.loads then p2.loads[file] else [])
  }

  function StmtAt(p1: Parsed, p2: Parsed, s: Source): Stmt {
    if s.file == 1 && s.index < |p1.stmts| then p1.stmts[s.index]
    else if s.file == 2 && s.index < |p2.stmts| then p2.stmts[s.index]
    else OtherStmt(0)
  }

  function AllImports(p1: Parsed, p2: Parsed, entries: seq<Source>): seq<Import> {
    if entries == [] then []
    else
      var s := StmtAt(p1, p2, entries[|entries| - 1]);
      AllImports(p1, p2, entries[..|entries| - 1]) + if s.LoadStmt? then s.imports else []
  }

  /** The local name of the first import of a symbol. */
  function FirstTo(imports: seq<Import>, from: string): Option<string> {
    if imports == [] then None
    else
      var before := FirstTo(imports[..|imports| - 1], from);
      if before.Some? then before
      else if imports[|imports| - 1].from == from then Some(imports[|imports| - 1].to)
      else None
  }

  function FromNames(imports: seq<Import>): (r: seq<string>)
    ensures |r| == |imports|
    ensures forall k :: 0 <= k < |imports| ==> r[k] == imports[k].from
  {
    seq(|imports|, k requires 0 <= k < |imports| => imports[k].from)
  }

  /** The symbols in ascending order, each once, with the local name that comes first. */
  ghost predicate IsLeftBiasedUnion(all: seq<Import>, imports: seq<Import>) {
    && Ascending(FromNames(imports))
    && (forall i :: i in imports ==> FirstTo(all, i.from) == Some(i.to))
    && (forall i :: i in all ==> i.from in FromNames(imports))
  }

  ghost predicate IsMergedLoad(p1: Parsed, p2: Parsed, file: string, out: Out) {
    && out.from == Entries(p1, p2, file)
    && out.stmt.LoadStmt? && out.stmt.file == file
    && IsLeftBiasedUnion(AllImports(p1, p2, out.from), out.stmt.imports)
  }

  /** One load for each module either file loads, in ascending order of module. */
  ghost predicate IsLoadPart(p1: Parsed, p2: Parsed, files: seq<string>, part: seq<Out>) {
    && Ascending(files) && SetOf(files) == p1.loads.Keys + p2.loads.Keys
    && |part| == |files|
    && forall k :: 0 <= k < |files| ==> IsMergedLoad(p1, p2, files[k], part[k])
  }

  ghost predicate IsRuleOut(p1: Parsed, p2: Parsed, i: nat, out: Out)
    requires i < |p1.stmts|
  {
    match Partner(p1, p2, i)
    case None => out == Out(p1.stmts[i], [Source(1, i)])
    case Some(j) =>
      && j < |p2.stmts| && out.from == [Source(1, i), Source(2, j)]
      && IsMergedStmt(p1.stmts[i], p2.stmts[j], AddedUpTo(p1, p2, |p1.stmts|, j), out.stmt)
  }

  /** The rules among the first `n` statements of the first file, in order, namesakes merged. */
  ghost predicate IsRulePart(p1: Parsed, p2: Parsed, n: nat, part: seq<Out>)
    requires n <= |p1.stmts|
  {
    if n == 0 then part == []
    else if IsRule(p1, n - 1) then
      && part != []
      && IsRuleOut(p1, p2, n - 1, part[|part| - 1])
      && IsRulePart(p1, p2, n - 1, part[..|part| - 1])
    else IsRulePart(p1, p2, n - 1, part)
  }

  datatype Sections = Sections(pkg: seq<Out>, files: seq<string>, loads: seq<Out>, licenses: seq<Out>, rules: seq<Out>)

  function Assemble(p1: Parsed, p2: Parsed, s: Sections): seq<Out> {
    Picked(1, p1.stmts, LeadingSet(p1), |p1.stmts|) + Picked(2, p2.stmts, LeadingSet(p2), |p2.stmts|)
    + s.pkg + s.loads + s.licenses
    + Picked(1, p1.stmts, AssignSet(p1), |p1.stmts|) + Picked(2, p2.stmts, AssignSet(p2), |p2.stmts|)
    + s.rules + Picked(2, p2.stmts, UnmatchedSet(p1, p2), |p2.stmts|)
  }

  ghost predicate AreSections(p1: Parsed, p2: Parsed, s: Sections) {
    && IsPackagePart(p1, p2, s.pkg)
    && IsLoadPart(p1, p2, s.files, s.loads)
    && IsLicensePart(p1, p2, s.licenses)
    && IsRulePart(p1, p2, |p1.stmts|, s.rules)
  }

  /** The output file: leading comments, package, loads, licenses, assignments, then the rules of the first
      file followed by the second file's unmatched ones. */
  ghost predicate IsMergeOf(p1: Parsed, p2: Parsed, out: seq<Out>) {
    exists s :: AreSections(p1, p2, s) && out == Assemble(p1, p2, s)
  }

  /** Whether the files can be merged at all. */
  ghost predicate FilesMergeable(p1: Parsed, p2: Parsed) {
    HeadersMerge(p1, p2) && PairsMerge(p1, p2, |p1.stmts|)
  }

  ghost predicate PairsMerge(p1: Parsed, p2: Parsed, n: nat)
    requires n <= |p1.stmts|
  {
    forall i :: 0 <= i < n ==> PairMerges(p1, p2, i)
  }

  ghost predicate HeadersMerge(p1: Parsed, p2: Parsed) {
    && (p1.pkg.Some? && p2.pkg.Some? ==> CallsMergeable(p1, p2, p1.pkg.value, p2.pkg.value))
    && (p1.licenses.Some? && p2.licenses.Some? ==>
          && p1.licenses.value < |p1.stmts| && p2.licenses.value < |p2.stmts|
          && LicensesAgree(p1.stmts[p1.licenses.value], p2.stmts[p2.licenses.value]))
  }

  /** A rule merges with its namesake as the merges of the rules before it have left that. */
  ghost predicate PairMerges(p1: Parsed, p2: Parsed, i: nat)
    requires i < |p1.stmts|
  {
    match Partner(p1, p2, i)
    case None => true
    case Some(j) =>
      && j < |p2.stmts| && p2.stmts[j].CallStmt?
      && MergeableWith(p1.stmts[i].args, p2.stmts[j].args, AddedUpTo(p1, p2, i + 1, j))
  }

  ghost predicate CallsMergeable(p1: Parsed, p2: Parsed, i: nat, j: nat) {
    && i < |p1.stmts| && j < |p2.stmts| && p1.stmts[i].CallStmt? && p2.stmts[j].CallStmt?
    && Mergeable(p1.stmts[i].args, p2.stmts[j].args)
  }
}
