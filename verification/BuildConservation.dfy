/** The merge of two BUILD files loses no statement and repeats none. */
module BuildConservation {
  import opened Graphs
  import opened Options
  import opened Strings
  import opened BuildExprs
  import opened BuildCalls
  import opened BuildFiles
  import M = BuildMerge

  /** How often the output accounts for a statement. */
  function Count(out: seq<Out>, s: Source): nat {
    if out == [] then 0 else Count(out[..|out| - 1], s) + multiset(out[|out| - 1].from)[s]
  }

  lemma {:induction false} CountJoined(a: seq<Out>, b: seq<Out>, s: Source)
    ensures Count(a + b, s) == Count(a, s) + Count(b, s)
  {
    if b == [] {
      assert a + b == a;
    } else {
      assert (a + b)[..|a + b| - 1] == a + b[..|b| - 1];
      CountJoined(a, b[..|b| - 1], s);
    }
  }

  lemma CountOne(o: Out, s: Source)
    ensures Count([o], s) == multiset(o.from)[s]
  {
    assert [o][..0] == [];
  }

  function One(b: bool): nat {
    if b then 1 else 0
  }

  lemma {:induction false} CountPicked(file: nat, stmts: seq<Stmt>, sel: set<nat>, n: nat, s: Source)
    requires n <= |stmts|
    ensures Count(Picked(file, stmts, sel, n), s) == One(s.file == file && s.index < n && s.index in sel)
  {
    if n > 0 {
      CountPicked(file, stmts, sel, n - 1, s);
      var front := Picked(file, stmts, sel, n - 1);
      if n - 1 in sel {
        var o := Out(stmts[n - 1], [Source(file, n - 1)]);
        assert Picked(file, stmts, sel, n) == front + [o];
        CountJoined(front, [o], s);
        CountOne(o, s);
      } else {
        assert Picked(file, stmts, sel, n) == front;
      }
    }
  }

  /** A part that stands for at most one statement of each file. */
  lemma CountPair(part: seq<Out>, i: Option<nat>, j: Option<nat>, s: Source)
    requires i.None? && j.None? ==> part == []
    requires i.Some? || j.Some? ==> |part| == 1
    requires i.Some? && j.None? ==> part[0].from == [Source(1, i.value)]
    requires i.None? && j.Some? ==> part[0].from == [Source(2, j.value)]
    requires i.Some? && j.Some? ==> part[0].from == [Source(1, i.value), Source(2, j.value)]
    ensures Count(part, s) == One((s.file == 1 && i == Some(s.index)) || (s.file == 2 && j == Some(s.index)))
  {
    if part != [] {
      assert part == [part[0]];
      CountOne(part[0], s);
    }
  }

  lemma {:induction false} CountLoadsOf(file: nat, stmts: seq<Stmt>, f: string, n: nat, s: Source)
    requires n <= |stmts|
    ensures multiset(Sources(file, LoadsOf(stmts, f, n)))[s] ==
            One(s.file == file && s.index < n && stmts[s.index].LoadStmt? && stmts[s.index].file == f)
  {
    if n > 0 {
      CountLoadsOf(file, stmts, f, n - 1, s);
      var before := LoadsOf(stmts, f, n - 1);
      if stmts[n - 1].LoadStmt? && stmts[n - 1].file == f {
        assert Sources(file, before + [n - 1]) == Sources(file, before) + [Source(file, n - 1)];
      } else {
        assert LoadsOf(stmts, f, n) == before;
      }
    }
  }

  predicate IsLoadOf(p1: Parsed, p2: Parsed, s: Source, f: string) {
    StmtAt(p1, p2, s).LoadStmt? && StmtAt(p1, p2, s).file == f
  }

  lemma CountEntries(p1: Parsed, p2: Parsed, f: string, s: Source)
    requires IsParsed(p1) && IsParsed(p2)
    ensures multiset(Entries(p1, p2, f))[s] == One(IsLoadOf(p1, p2, s, f))
  {
    var l1 := if f in p1.loads then p1.loads[f] else [];
    var l2 := if f in p2.loads then p2.loads[f] else [];
    assert l1 == LoadsOf(p1.stmts, f, |p1.stmts|) && l2 == LoadsOf(p2.stmts, f, |p2.stmts|);
    CountLoadsOf(1, p1.stmts, f, |p1.stmts|, s);
    CountLoadsOf(2, p2.stmts, f, |p2.stmts|, s);
  }

  /** Statements of which at most one stands for `s`. */
  lemma {:induction false} CountHits(part: seq<Out>, hits: seq<bool>, s: Source)
    requires |part| == |hits| && forall k :: 0 <= k < |part| ==> multiset(part[k].from)[s] == One(hits[k])
    requires forall i, j :: 0 <= i < j < |hits| ==> !(hits[i] && hits[j])
    ensures Count(part, s) == One(true in hits)
    decreases |part|
  {
    if part != [] {
      var n := |part| - 1;
      CountHits(part[..n], hits[..n], s);
      assert hits == hits[..n] + [hits[n]];
      assert hits[n] ==> true !in hits[..n];
    }
  }

  /** Which modules the statement loads from. */
  function LoadHits(p1: Parsed, p2: Parsed, files: seq<string>, s: Source): (hits: seq<bool>)
    ensures |hits| == |files| && forall k :: 0 <= k < |files| ==> hits[k] == IsLoadOf(p1, p2, s, files[k])
  {
    seq(|files|, k requires 0 <= k < |files| => IsLoadOf(p1, p2, s, files[k]))
  }

  lemma HitsMatch(p1: Parsed, p2: Parsed, files: seq<string>, part: seq<Out>, s: Source)
    requires IsParsed(p1) && IsParsed(p2) && IsLoadPart(p1, p2, files, part)
    ensures forall k :: 0 <= k < |part| ==> multiset(part[k].from)[s] == One(LoadHits(p1, p2, files, s)[k])
  {
    forall k | 0 <= k < |files|
      ensures multiset(part[k].from)[s] == One(LoadHits(p1, p2, files, s)[k])
    {
      CountEntries(p1, p2, files[k], s);
      assert IsMergedLoad(p1, p2, files[k], part[k]);
    }
  }

  lemma HitOnce(p1: Parsed, p2: Parsed, files: seq<string>, s: Source)
    requires Ascending(files)
    ensures var hits := LoadHits(p1, p2, files, s);
            forall i, j :: 0 <= i < j < |hits| ==> !(hits[i] && hits[j])
    ensures true in LoadHits(p1, p2, files, s) <==>
            StmtAt(p1, p2, s).LoadStmt? && StmtAt(p1, p2, s).file in files
  {
    forall i, j | 0 <= i < j < |files|
      ensures files[i] != files[j]
    {
      LessIsStrict(files[i], files[j]);
    }
    if StmtAt(p1, p2, s).LoadStmt? && StmtAt(p1, p2, s).file in files {
      var k :| 0 <= k < |files| && files[k] == StmtAt(p1, p2, s).file;
      assert LoadHits(p1, p2, files, s)[k];
    }
  }

  lemma CountLoads(p1: Parsed, p2: Parsed, files: seq<string>, part: seq<Out>, s: Source)
    requires IsParsed(p1) && IsParsed(p2) && IsLoadPart(p1, p2, files, part)
    ensures Count(part, s) == One(StmtAt(p1, p2, s).LoadStmt? && StmtAt(p1, p2, s).file in files)
  {
    HitsMatch(p1, p2, files, part, s);
    HitOnce(p1, p2, files, s);
    CountHits(part, LoadHits(p1, p2, files, s), s);
  }

  lemma {:induction false} CountRulesOfFirst(p1: Parsed, p2: Parsed, n: nat, part: seq<Out>, s: Source)
    requires n <= |p1.stmts| && IsRulePart(p1, p2, n, part) && s.file == 1
    ensures Count(part, s) == One(s.index < n && IsRule(p1, s.index))
    decreases n
  {
    if n > 0 {
      if IsRule(p1, n - 1) {
        CountRuleOut(p1, p2, n - 1, part[|part| - 1], s);
        CountRulesOfFirst(p1, p2, n - 1, part[..|part| - 1], s);
      } else {
        CountRulesOfFirst(p1, p2, n - 1, part, s);
      }
    }
  }

  /** How many of the first `n` statements of the first file have the statement as their namesake. */
  function PartnerCount(p1: Parsed, p2: Parsed, n: nat, j: nat): nat {
    if n == 0 then 0 else PartnerCount(p1, p2, n - 1, j) + One(Partner(p1, p2, n - 1) == Some(j))
  }

  lemma CountRuleOut(p1: Parsed, p2: Parsed, i: nat, o: Out, s: Source)
    requires i < |p1.stmts| && IsRuleOut(p1, p2, i, o)
    ensures multiset(o.from)[s] ==
            if s.file == 1 then One(s.index == i) else One(s.file == 2 && Partner(p1, p2, i) == Some(s.index))
  {
  }

  ghost predicate OnlyRulesPair(p1: Parsed, p2: Parsed) {
    forall i :: 0 <= i < |p1.stmts| && !IsRule(p1, i) ==> Partner(p1, p2, i).None?
  }

  lemma {:induction false} CountRulesOfSecond(p1: Parsed, p2: Parsed, n: nat, part: seq<Out>, s: Source)
    requires OnlyRulesPair(p1, p2) && n <= |p1.stmts| && IsRulePart(p1, p2, n, part) && s.file == 2
    ensures Count(part, s) == PartnerCount(p1, p2, n, s.index)
    decreases n
  {
    if n > 0 {
      if IsRule(p1, n - 1) {
        CountRuleOut(p1, p2, n - 1, part[|part| - 1], s);
        CountRulesOfSecond(p1, p2, n - 1, part[..|part| - 1], s);
      } else {
        CountRulesOfSecond(p1, p2, n - 1, part, s);
      }
    }
  }

  lemma RulesPair(p1: Parsed, p2: Parsed)
    requires IsParsed(p1)
    ensures OnlyRulesPair(p1, p2)
  {
    forall i | 0 <= i < |p1.stmts| && !IsRule(p1, i)
      ensures Partner(p1, p2, i).None?
    {
      if TargetName(p1.stmts[i]).Some? {
        M.NamedIsRule(p1, i);
      }
    }
  }

  lemma {:induction false} PartnerCounted(p1: Parsed, p2: Parsed, n: nat, j: nat)
    ensures PartnerCount(p1, p2, n, j) > 0 <==> M.PartnerBefore(p1, p2, n, j)
  {
    if n > 0 {
      PartnerCounted(p1, p2, n - 1, j);
    }
  }

  lemma {:induction false} PartnerCountGrows(p1: Parsed, p2: Parsed, m: nat, n: nat, j: nat)
    requires m <= n
    ensures PartnerCount(p1, p2, m, j) <= PartnerCount(p1, p2, n, j)
  {
    if m < n {
      PartnerCountGrows(p1, p2, m, n - 1, j);
    }
  }

  /** A statement is a namesake at most once exactly when no two statements share it. */
  lemma {:induction false} CountedOnce(p1: Parsed, p2: Parsed, n: nat, j: nat)
    requires n <= |p1.stmts|
    ensures PartnerCount(p1, p2, n, j) <= 1 <==>
            forall i, k :: 0 <= i < k < n && Partner(p1, p2, i) == Some(j) ==> Partner(p1, p2, k) != Some(j)
  {
    if n > 0 {
      CountedOnce(p1, p2, n - 1, j);
      PartnerCounted(p1, p2, n - 1, j);
    }
  }

  /** The classes of a statement of the first file exclude each other. */
  lemma OneClass(p: Parsed, i: nat)
    requires IsParsed(p) && i < |p.stmts|
    ensures One(i in LeadingSet(p)) + One(p.pkg == Some(i)) + One(p.stmts[i].LoadStmt?)
            + One(p.licenses == Some(i)) + One(i in AssignSet(p)) + One(IsRule(p, i)) == 1
  {
    M.LeadingAre(p.stmts);
    M.LastCallIs(p.stmts, "package", |p.stmts|);
    M.LastCallIs(p.stmts, "licenses", |p.stmts|);
  }

  lemma CountAssembled(p1: Parsed, p2: Parsed, x: Sections, s: Source)
    ensures Count(Assemble(p1, p2, x), s) ==
            Count(Picked(1, p1.stmts, LeadingSet(p1), |p1.stmts|), s)
            + Count(Picked(2, p2.stmts, LeadingSet(p2), |p2.stmts|), s)
            + Count(x.pkg, s) + Count(x.loads, s) + Count(x.licenses, s)
            + Count(Picked(1, p1.stmts, AssignSet(p1), |p1.stmts|), s)
            + Count(Picked(2, p2.stmts, AssignSet(p2), |p2.stmts|), s)
            + Count(x.rules, s) + Count(Picked(2, p2.stmts, UnmatchedSet(p1, p2), |p2.stmts|), s)
  {
    var a := Picked(1, p1.stmts, LeadingSet(p1), |p1.stmts|);
    var b := Picked(2, p2.stmts, LeadingSet(p2), |p2.stmts|);
    var c := Picked(1, p1.stmts, AssignSet(p1), |p1.stmts|);
    var d := Picked(2, p2.stmts, AssignSet(p2), |p2.stmts|);
    var e := Picked(2, p2.stmts, UnmatchedSet(p1, p2), |p2.stmts|);
    CountJoined(a, b, s);
    CountJoined(a + b, x.pkg, s);
    CountJoined(a + b + x.pkg, x.loads, s);
    CountJoined(a + b + x.pkg + x.loads, x.licenses, s);
    CountJoined(a + b + x.pkg + x.loads + x.licenses, c, s);
    CountJoined(a + b + x.pkg + x.loads + x.licenses + c, d, s);
    CountJoined(a + b + x.pkg + x.loads + x.licenses + c + d, x.rules, s);
    CountJoined(a + b + x.pkg + x.loads + x.licenses + c + d + x.rules, e, s);
  }

  predicate IsSource(p1: Parsed, p2: Parsed, s: Source) {
    (s.file == 1 && s.index < |p1.stmts|) || (s.file == 2 && s.index < |p2.stmts|)
  }

  lemma CountHeaders(p1: Parsed, p2: Parsed, x: Sections, s: Source)
    requires IsPackagePart(p1, p2, x.pkg) && IsLicensePart(p1, p2, x.licenses) && IsSource(p1, p2, s)
    ensures Count(x.pkg, s) == One(if s.file == 1 then p1.pkg == Some(s.index) else p2.pkg == Some(s.index))
    ensures Count(x.licenses, s) ==
            One(if s.file == 1 then p1.licenses == Some(s.index) else p2.licenses == Some(s.index))
  {
    CountPair(x.pkg, p1.pkg, p2.pkg, s);
    CountPair(x.licenses, p1.licenses, p2.licenses, s);
  }

  lemma CountLoadSection(p1: Parsed, p2: Parsed, x: Sections, s: Source)
    requires IsParsed(p1) && IsParsed(p2) && IsLoadPart(p1, p2, x.files, x.loads) && IsSource(p1, p2, s)
    ensures Count(x.loads, s) == One(StmtAt(p1, p2, s).LoadStmt?)
  {
    CountLoads(p1, p2, x.files, x.loads, s);
    M.EveryLoadListed(p1);
    M.EveryLoadListed(p2);
    if StmtAt(p1, p2, s).LoadStmt? {
      assert StmtAt(p1, p2, s).file in SetOf(x.files);
    }
  }

  lemma CountSections(p1: Parsed, p2: Parsed, x: Sections, s: Source)
    requires IsParsed(p1) && IsParsed(p2) && AreSections(p1, p2, x) && IsSource(p1, p2, s)
    ensures Count(x.pkg, s) == One(if s.file == 1 then p1.pkg == Some(s.index) else p2.pkg == Some(s.index))
    ensures Count(x.licenses, s) ==
            One(if s.file == 1 then p1.licenses == Some(s.index) else p2.licenses == Some(s.index))
    ensures Count(x.loads, s) == One(StmtAt(p1, p2, s).LoadStmt?)
  {
    CountHeaders(p1, p2, x, s);
    CountLoadSection(p1, p2, x, s);
  }

  lemma CountCopies(p1: Parsed, p2: Parsed, s: Source)
    ensures Count(Picked(1, p1.stmts, LeadingSet(p1), |p1.stmts|), s) == One(s.file == 1 && s.index in LeadingSet(p1))
    ensures Count(Picked(2, p2.stmts, LeadingSet(p2), |p2.stmts|), s) == One(s.file == 2 && s.index in LeadingSet(p2))
    ensures Count(Picked(1, p1.stmts, AssignSet(p1), |p1.stmts|), s) == One(s.file == 1 && s.index in AssignSet(p1))
    ensures Count(Picked(2, p2.stmts, AssignSet(p2), |p2.stmts|), s) == One(s.file == 2 && s.index in AssignSet(p2))
    ensures Count(Picked(2, p2.stmts, UnmatchedSet(p1, p2), |p2.stmts|), s) ==
            One(s.file == 2 && s.index in UnmatchedSet(p1, p2))
  {
    CountPicked(1, p1.stmts, LeadingSet(p1), |p1.stmts|, s);
    CountPicked(2, p2.stmts, LeadingSet(p2), |p2.stmts|, s);
    CountPicked(1, p1.stmts, AssignSet(p1), |p1.stmts|, s);
    CountPicked(2, p2.stmts, AssignSet(p2), |p2.stmts|, s);
    CountPicked(2, p2.stmts, UnmatchedSet(p1, p2), |p2.stmts|, s);
  }

  lemma CountFirstFile(p1: Parsed, p2: Parsed, x: Sections, s: Source)
    requires IsParsed(p1) && IsParsed(p2) && AreSections(p1, p2, x)
    requires s.file == 1 && s.index < |p1.stmts|
    ensures Count(Assemble(p1, p2, x), s) == 1
  {
    var i := s.index;
    assert Count(Assemble(p1, p2, x), s) ==
           One(i in LeadingSet(p1)) + One(p1.pkg == Some(i)) + One(p1.stmts[i].LoadStmt?)
           + One(p1.licenses == Some(i)) + One(i in AssignSet(p1)) + One(IsRule(p1, i)) by {
      CountAssembled(p1, p2, x, s);
      CountSections(p1, p2, x, s);
      CountCopies(p1, p2, s);
      CountRulesOfFirst(p1, p2, |p1.stmts|, x.rules, s);
    }
    OneClass(p1, i);
  }

  lemma SumSecondFile(p1: Parsed, p2: Parsed, x: Sections, s: Source)
    requires IsParsed(p1) && IsParsed(p2) && AreSections(p1, p2, x)
    requires s.file == 2 && s.index < |p2.stmts|
    ensures var j := s.index;
            Count(Assemble(p1, p2, x), s) ==
            One(j in LeadingSet(p2)) + One(p2.pkg == Some(j)) + One(p2.stmts[j].LoadStmt?)
            + One(p2.licenses == Some(j)) + One(j in AssignSet(p2))
            + PartnerCount(p1, p2, |p1.stmts|, j) + One(j in UnmatchedSet(p1, p2))
  {
    CountAssembled(p1, p2, x, s);
    CountSections(p1, p2, x, s);
    CountCopies(p1, p2, s);
    RulesPair(p1, p2);
    CountRulesOfSecond(p1, p2, |p1.stmts|, x.rules, s);
  }

  lemma CountSecondFile(p1: Parsed, p2: Parsed, x: Sections, s: Source)
    requires IsParsed(p1) && IsParsed(p2) && AreSections(p1, p2, x)
    requires s.file == 2 && s.index < |p2.stmts|
    ensures var partners := PartnerCount(p1, p2, |p1.stmts|, s.index);
            Count(Assemble(p1, p2, x), s) == if partners == 0 then 1 else partners
  {
    SumSecondFile(p1, p2, x, s);
    OneClass(p2, s.index);
    PartnersAreRules(p1, p2, s.index);
    PartnerCounted(p1, p2, |p1.stmts|, s.index);
  }

  lemma PartnersAreRules(p1: Parsed, p2: Parsed, j: nat)
    requires IsParsed(p1) && IsParsed(p2) && j < |p2.stmts|
    ensures One(M.PartnerBefore(p1, p2, |p1.stmts|, j)) + One(j in UnmatchedSet(p1, p2)) == One(IsRule(p2, j))
  {
    if i :| 0 <= i < |p1.stmts| && Partner(p1, p2, i) == Some(j) {
      M.NamedIsRule(p2, j);
    }
  }

  /** How often the output accounts for a statement: once, but for a rule of the second file that is the namesake
      of several rules of the first, which goes into each of them. */
  lemma AccountedFor(p1: Parsed, p2: Parsed, out: seq<Out>, s: Source)
    requires IsParsed(p1) && IsParsed(p2) && IsMergeOf(p1, p2, out) && IsSource(p1, p2, s)
    ensures Count(out, s) ==
            if s.file == 2 && PartnerCount(p1, p2, |p1.stmts|, s.index) > 1
            then PartnerCount(p1, p2, |p1.stmts|, s.index) else 1
  {
    var x :| AreSections(p1, p2, x) && out == Assemble(p1, p2, x);
    if s.file == 1 {
      CountFirstFile(p1, p2, x, s);
    } else {
      CountSecondFile(p1, p2, x, s);
    }
  }

  /** Every statement of either file is accounted for exactly once in the output, for any files at all, exactly
      when no two rules of the first file share a namesake. */
  lemma StatementsConservedIff(p1: Parsed, p2: Parsed, out: seq<Out>)
    requires IsParsed(p1) && IsParsed(p2) && IsMergeOf(p1, p2, out)
    ensures (forall s :: IsSource(p1, p2, s) ==> Count(out, s) == 1) <==> OneNamesake(p1, p2)
  {
    if OneNamesake(p1, p2) {
      forall s | IsSource(p1, p2, s)
        ensures Count(out, s) == 1
      {
        AccountedFor(p1, p2, out, s);
        CountedOnce(p1, p2, |p1.stmts|, s.index);
      }
    } else {
      var i, k :| 0 <= i < k < |p1.stmts| && Partner(p1, p2, i).Some? && Partner(p1, p2, i) == Partner(p1, p2, k);
      var j := Partner(p1, p2, i).value;
      var s := Source(2, j);
      assert IsSource(p1, p2, s);
      AccountedFor(p1, p2, out, s);
      CountedOnce(p1, p2, |p1.stmts|, j);
      assert Count(out, s) > 1;
    }
  }

  /** A local name that a load binds survives the merge exactly when it is the first for its symbol: a second
      local name for a symbol already loaded from the module is dropped. */
  lemma BindingKeptIff(p1: Parsed, p2: Parsed, file: string, out: Out, x: Import)
    requires IsMergedLoad(p1, p2, file, out)
    requires x in AllImports(p1, p2, Entries(p1, p2, file))
    ensures x in out.stmt.imports <==> FirstTo(AllImports(p1, p2, Entries(p1, p2, file)), x.from) == Some(x.to)
  {
    var imports := out.stmt.imports;
    var k :| 0 <= k < |imports| && FromNames(imports)[k] == x.from;
    assert imports[k] in imports;
  }

  /** load("m", "x") and load("m", y = "x") in one file: whatever it is merged with, y is no longer bound. */
  lemma SecondNameDropped(p1: Parsed, p2: Parsed, out: Out)
    requires IsParsed(p1) && IsParsed(p2)
    requires p1.stmts == [LoadStmt("m", [Import("x", "x")]), LoadStmt("m", [Import("x", "y")])]
    requires IsMergedLoad(p1, p2, "m", out)
    ensures Import("x", "x") in out.stmt.imports && Import("x", "y") !in out.stmt.imports
  {
    var all := AllImports(p1, p2, out.from);
    OneModuleTwice(p1, p2);
    BindingKeptIff(p1, p2, "m", out, Import("x", "x"));
    BindingKeptIff(p1, p2, "m", out, Import("x", "y"));
  }

  lemma OneModuleTwice(p1: Parsed, p2: Parsed)
    requires IsParsed(p1)
    requires p1.stmts == [LoadStmt("m", [Import("x", "x")]), LoadStmt("m", [Import("x", "y")])]
    ensures var all := AllImports(p1, p2, Entries(p1, p2, "m"));
            && Import("x", "x") in all && Import("x", "y") in all && FirstTo(all, "x") == Some("x")
  {
    var entries := Entries(p1, p2, "m");
    TwoEntries(p1, p2);
    FirstTwo(p1, p2, entries);
    FirstOfTwo("x", "x", "y");
    PrefixImports(p1, p2, entries, 2, "x");
  }

  lemma TwoEntries(p1: Parsed, p2: Parsed)
    requires IsParsed(p1)
    requires p1.stmts == [LoadStmt("m", [Import("x", "x")]), LoadStmt("m", [Import("x", "y")])]
    ensures var entries := Entries(p1, p2, "m");
            |entries| >= 2 && entries[0] == Source(1, 0) && entries[1] == Source(1, 1)
  {
    BothLoads(p1);
  }

  lemma BothLoads(p: Parsed)
    requires LoadsUpTo(p.stmts, p.loads, |p.stmts|)
    requires p.stmts == [LoadStmt("m", [Import("x", "x")]), LoadStmt("m", [Import("x", "y")])]
    ensures "m" in p.loads && p.loads["m"] == [0, 1]
  {
    assert LoadsOf(p.stmts, "m", 0) == [];
    assert LoadsOf(p.stmts, "m", 1) == [0];
    assert LoadsOf(p.stmts, "m", 2) == [0, 1];
  }

  lemma FirstTwo(p1: Parsed, p2: Parsed, entries: seq<Source>)
    requires p1.stmts == [LoadStmt("m", [Import("x", "x")]), LoadStmt("m", [Import("x", "y")])]
    requires |entries| >= 2 && entries[0] == Source(1, 0) && entries[1] == Source(1, 1)
    ensures AllImports(p1, p2, entries[..2]) == [Import("x", "x"), Import("x", "y")]
  {
    var one, two := entries[..1], entries[..2];
    assert two[..1] == one && one[..0] == [];
    assert AllImports(p1, p2, one) == AllImports(p1, p2, []) + [Import("x", "x")];
    assert AllImports(p1, p2, two) == AllImports(p1, p2, one) + [Import("x", "y")];
  }

  lemma FirstOfTwo(from: string, to: string, other: string)
    ensures FirstTo([Import(from, to), Import(from, other)], from) == Some(to)
  {
    var two := [Import(from, to), Import(from, other)];
    assert two[..1][..0] == [];
    assert FirstTo(two[..1], from) == Some(to);
  }

  /** Loads that come later take nothing away. */
  lemma {:induction false} PrefixImports(p1: Parsed, p2: Parsed, entries: seq<Source>, n: nat, from: string)
    requires n <= |entries|
    ensures AllImports(p1, p2, entries[..n]) <= AllImports(p1, p2, entries)
    ensures FirstTo(AllImports(p1, p2, entries[..n]), from).Some? ==>
              FirstTo(AllImports(p1, p2, entries), from) == FirstTo(AllImports(p1, p2, entries[..n]), from)
    decreases |entries|
  {
    if n == |entries| {
      assert entries[..n] == entries;
    } else {
      var front := entries[..|entries| - 1];
      assert front[..n] == entries[..n];
      PrefixImports(p1, p2, front, n, from);
      assert AllImports(p1, p2, front) <= AllImports(p1, p2, entries);
      if FirstTo(AllImports(p1, p2, front), from).Some? {
        PrefixFirst(AllImports(p1, p2, front), AllImports(p1, p2, entries), from);
      }
    }
  }

  lemma {:induction false} PrefixFirst(a: seq<Import>, b: seq<Import>, from: string)
    requires a <= b && FirstTo(a, from).Some?
    ensures FirstTo(b, from) == FirstTo(a, from)
    decreases |b|
  {
    if |a| < |b| {
      assert a <= b[..|b| - 1];
      PrefixFirst(a, b[..|b| - 1], from);
    } else {
      assert a == b;
    }
  }

  // ----- what a merged rule means -----

  lemma {:induction false} RuleIsOut(p1: Parsed, p2: Parsed, n: nat, part: seq<Out>, i: nat) returns (k: nat)
    requires n <= |p1.stmts| && IsRulePart(p1, p2, n, part) && i < n && IsRule(p1, i)
    ensures k < |part| && IsRuleOut(p1, p2, i, part[k])
    decreases n
  {
    if i == n - 1 {
      k := |part| - 1;
    } else {
      k := RuleIsOut(p1, p2, n - 1, if IsRule(p1, n - 1) then part[..|part| - 1] else part, i);
    }
  }

  /** The arguments that are merged into a rule: its namesake's, if it has one. */
  function NamesakeArgs(p1: Parsed, p2: Parsed, i: nat): seq<Arg> {
    match Partner(p1, p2, i)
    case None => []
    case Some(j) => if j < |p2.stmts| && p2.stmts[j].CallStmt? then p2.stmts[j].args else []
  }

  /** What a keyword of a rule is based on, and what is added to it. */
  function RuleBase(env: Env, p1: Parsed, p2: Parsed, i: nat, n: string): Option<seq<Value>>
    requires i < |p1.stmts| && p1.stmts[i].CallStmt?
  {
    Meaning(env, Base(p1.stmts[i].args, NamesakeArgs(p1, p2, i), n))
  }

  function RuleAddition(env: Env, p1: Parsed, p2: Parsed, i: nat, n: string): Option<seq<Value>> {
    Meaning(env, Additional(NamesakeArgs(p1, p2, i), n))
  }

  /** How often it is added: to an override of the namesake, once for every rule that shares this. */
  function RuleAdditions(p1: Parsed, p2: Parsed, i: nat, n: string): nat {
    match Partner(p1, p2, i)
    case None => 1
    case Some(j) => Additions(NamesakeArgs(p1, p2, i), AddedUpTo(p1, p2, |p1.stmts|, j), n)
  }

  function RuleMeaning(env: Env, p1: Parsed, p2: Parsed, i: nat, n: string): Option<seq<Value>>
    requires i < |p1.stmts| && p1.stmts[i].CallStmt?
  {
    Followed(RuleBase(env, p1, p2, i, n), RuleAddition(env, p1, p2, i, n), RuleAdditions(p1, p2, i, n))
  }

  /** The statement of the output that stands for statement `i` of the first file. */
  predicate IsStandIn(out: seq<Out>, i: nat, k: nat) {
    k < |out| && Source(1, i) in out[k].from
  }

  ghost predicate Means(env: Env, o: Out, callee: Expr, n: string, meaning: Option<seq<Value>>) {
    o.stmt.CallStmt? && o.stmt.callee == callee && Meaning(env, Last(o.stmt.args, n)) == meaning
  }

  lemma RuleOutMeaning(env: Env, p1: Parsed, p2: Parsed, i: nat, n: string, o: Out)
    requires i < |p1.stmts| && p1.stmts[i].CallStmt? && DistinctKeywords(p1.stmts[i].args)
    requires IsRuleOut(p1, p2, i, o)
    ensures Source(1, i) in o.from
    ensures Means(env, o, p1.stmts[i].callee, n, RuleMeaning(env, p1, p2, i, n))
  {
    match Partner(p1, p2, i)
    case Some(j) =>
      MergedCallMeaning(env, p1.stmts[i].args, p2.stmts[j].args, AddedUpTo(p1, p2, |p1.stmts|, j), o.stmt.args, n);
    case None =>
      OnceIff(RuleBase(env, p1, p2, i, n), Some([]), 1);
      NoneAdded(RuleBase(env, p1, p2, i, n));
  }

  lemma NoneAdded(base: Option<seq<Value>>)
    ensures Concat(base, Some([])) == base
  {
    assert base.Some? ==> base.value + [] == base.value;
  }

  lemma {:induction false} StandInCounts(out: seq<Out>, s: Source, k: nat)
    requires k < |out| && s in out[k].from
    ensures Count(out, s) > 0
    ensures forall l :: 0 <= l < |out| && l != k && s in out[l].from ==> Count(out, s) > 1
  {
    var n := |out| - 1;
    if k < n {
      StandInCounts(out[..n], s, k);
      assert out[..n][k] == out[k];
    } else {
      forall l | 0 <= l < n && s in out[l].from
        ensures Count(out, s) > 1
      {
        StandInCounts(out[..n], s, l);
      }
    }
  }

  lemma RuleIsThere(p1: Parsed, p2: Parsed, x: Sections, i: nat)
    requires IsRulePart(p1, p2, |p1.stmts|, x.rules) && IsRule(p1, i)
    ensures exists o :: o in Assemble(p1, p2, x) && IsRuleOut(p1, p2, i, o)
  {
    var r := RuleIsOut(p1, p2, |p1.stmts|, x.rules, i);
    assert x.rules[r] in Assemble(p1, p2, x);
  }

  lemma RuleIsInMerge(p1: Parsed, p2: Parsed, out: seq<Out>, i: nat) returns (l: nat)
    requires IsMergeOf(p1, p2, out) && IsRule(p1, i)
    ensures l < |out| && IsRuleOut(p1, p2, i, out[l])
  {
    var x :| AreSections(p1, p2, x) && out == Assemble(p1, p2, x);
    RuleIsThere(p1, p2, x, i);
    var o :| o in out && IsRuleOut(p1, p2, i, o);
    l :| 0 <= l < |out| && out[l] == o;
  }

  lemma StandIn(p1: Parsed, p2: Parsed, out: seq<Out>, i: nat) returns (l: nat)
    requires IsParsed(p1) && IsParsed(p2) && IsMergeOf(p1, p2, out) && IsRule(p1, i)
    ensures IsStandIn(out, i, l) && IsRuleOut(p1, p2, i, out[l])
    ensures forall k: nat :: IsStandIn(out, i, k) ==> k == l
  {
    l := RuleIsInMerge(p1, p2, out, i);
    assert Count(out, Source(1, i)) == 1 by {
      AccountedFor(p1, p2, out, Source(1, i));
    }
    StandInCounts(out, Source(1, i), l);
  }

  /** In the merged file exactly one statement stands for each rule call of the first file. With the same callee it
      gives every keyword, unless the rule repeats keywords, what the rule or its namesake gives it, followed by what
      the namesake adds, as often as that was merged in. */
  lemma RulesKeepTheirMeaning(env: Env, p1: Parsed, p2: Parsed, out: seq<Out>, i: nat, n: string)
    requires IsParsed(p1) && IsParsed(p2) && IsMergeOf(p1, p2, out)
    requires IsRule(p1, i) && p1.stmts[i].CallStmt? && DistinctKeywords(p1.stmts[i].args)
    ensures exists k: nat :: IsStandIn(out, i, k)
    ensures forall k: nat, l: nat :: IsStandIn(out, i, k) && IsStandIn(out, i, l) ==> k == l
    ensures forall k: nat :: IsStandIn(out, i, k) ==>
              Means(env, out[k], p1.stmts[i].callee, n, RuleMeaning(env, p1, p2, i, n))
  {
    var l := StandIn(p1, p2, out, i);
    RuleOutMeaning(env, p1, p2, i, n, out[l]);
  }

  /** No other rule of the first file has the same namesake. */
  predicate IsAlone(p1: Parsed, p2: Parsed, i: nat) {
    forall k :: 0 <= k < |p1.stmts| && k != i ==> Partner(p1, p2, k) != Partner(p1, p2, i)
  }

  lemma {:induction false} AddedAlone(p1: Parsed, p2: Parsed, m: nat, i: nat, j: nat, n: string)
    requires m <= |p1.stmts| && i < |p1.stmts| && Partner(p1, p2, i) == Some(j) && OwnCount(p1.stmts[i].args, n) == 1
    ensures i < m ==> AddedBy(p1, p2, m, j, n) > 0
    ensures AddedBy(p1, p2, m, j, n) == One(i < m) <==>
            forall k :: 0 <= k < m && k != i ==> Partner(p1, p2, k) != Some(j)
  {
    if m > 0 {
      AddedAlone(p1, p2, m - 1, i, j, n);
      if Partner(p1, p2, m - 1) == Some(j) {
        LastIsNamed(p1.stmts[m - 1].args, n);
      }
    }
  }

  /** So a keyword of a rule means its base followed by the addition exactly when the namesake does not override it,
      nothing is added, one of them is no list, or no other rule has the same namesake. */
  lemma MeaningKeptIff(env: Env, p1: Parsed, p2: Parsed, out: seq<Out>, i: nat, n: string)
    requires IsParsed(p1) && IsParsed(p2) && IsMergeOf(p1, p2, out)
    requires IsRule(p1, i) && p1.stmts[i].CallStmt? && DistinctKeywords(p1.stmts[i].args)
    ensures var base, more := RuleBase(env, p1, p2, i, n), RuleAddition(env, p1, p2, i, n);
            forall k: nat :: IsStandIn(out, i, k) ==>
              (Means(env, out[k], p1.stmts[i].callee, n, Concat(base, more)) <==>
               || Override(NamesakeArgs(p1, p2, i), n).None? || base.None? || more.None? || more == Some([])
               || IsAlone(p1, p2, i))
  {
    var base, more := RuleBase(env, p1, p2, i, n), RuleAddition(env, p1, p2, i, n);
    RulesKeepTheirMeaning(env, p1, p2, out, i, n);
    OnceIff(base, more, RuleAdditions(p1, p2, i, n));
    if Partner(p1, p2, i).Some? {
      UsedAtMostOnce(p1.stmts[i].args, n);
      AddedAlone(p1, p2, |p1.stmts|, i, Partner(p1, p2, i).value, n);
    }
  }

  lemma UsedAtMostOnce(args: seq<Arg>, n: string)
    requires DistinctKeywords(args)
    ensures OwnCount(args, n) == 1
  {
    if n in KeywordNames(args) {
      var i :| 0 <= i < |args| && args[i].Keyword? && args[i].name == n;
      UsedOnce(args, i);
    }
  }

  predicate IsNameArg(a: Arg, name: string) {
    a == Keyword("name", StringExpr(name))
  }

  ghost predicate IsFirstName(args: seq<Arg>, name: string, k: nat) {
    k < |args| && IsNameArg(args[k], name) && forall l, other :: 0 <= l < k ==> !IsNameArg(args[l], other)
  }

  /** The name of a rule is the first string that it has for a `name` argument; package() and licenses() have none. */
  lemma {:induction false} RuleNameIs(s: Stmt, name: string)
    ensures TargetName(s) == Some(name) <==>
            && s.CallStmt? && s.callee.Ident? && s.callee.name !in {"package", "licenses"}
            && exists k: nat :: IsFirstName(s.args, name, k)
  {
    if s.CallStmt? {
      FirstNameIs(s.args, name);
    }
  }

  lemma {:induction false} FirstNameIs(args: seq<Arg>, name: string)
    ensures NameArg(args) == Some(name) <==> exists k: nat :: IsFirstName(args, name, k)
  {
    if args != [] {
      FirstNameIs(args[1..], name);
      assert forall l :: 0 <= l < |args| - 1 ==> args[1..][l] == args[l + 1];
      if args[0].Keyword? && args[0].name == "name" && args[0].rhs.StringExpr? {
        assert IsNameArg(args[0], args[0].rhs.value);
        assert args[0].rhs.value == name ==> IsFirstName(args, name, 0);
      } else {
        if k: nat :| IsFirstName(args[1..], name, k) {
          assert IsFirstName(args, name, k + 1);
        }
        if k: nat :| IsFirstName(args, name, k) {
          assert IsFirstName(args[1..], name, k - 1);
        }
      }
    }
  }

  /** The package and licenses calls of a file are the last ones. */
  lemma HeadersAre(p: Parsed, i: nat)
    requires IsParsed(p)
    ensures p.pkg == Some(i) <==> IsLastCallTo(p, "package", i)
    ensures p.licenses == Some(i) <==> IsLastCallTo(p, "licenses", i)
  {
    LastCallIff(p.stmts, "package", |p.stmts|, i);
    LastCallIff(p.stmts, "licenses", |p.stmts|, i);
  }

  ghost predicate IsLastCallTo(p: Parsed, name: string, i: nat) {
    && i < |p.stmts| && p.stmts[i].CallStmt? && p.stmts[i].callee == Ident(name)
    && forall k :: i < k < |p.stmts| && p.stmts[k].CallStmt? ==> p.stmts[k].callee != Ident(name)
  }

  lemma {:induction false} LastCallIff(stmts: seq<Stmt>, name: string, n: nat, i: nat)
    requires n <= |stmts|
    ensures LastCall(stmts, name, n) == Some(i) <==>
            && i < n && stmts[i].CallStmt? && stmts[i].callee == Ident(name)
            && forall k :: i < k < n && stmts[k].CallStmt? ==> stmts[k].callee != Ident(name)
  {
    if n > 0 {
      LastCallIff(stmts, name, n - 1, i);
    }
  }

  /** The last rule of the name. */
  ghost predicate IsLastNamed(p: Parsed, name: string, j: nat) {
    && j < |p.stmts| && TargetName(p.stmts[j]) == Some(name)
    && forall k :: j < k < |p.stmts| ==> TargetName(p.stmts[k]) != Some(name)
  }

  /** A rule of the first file is merged with the last rule of its name in the second; one with no name, or with the
      empty name, is merged with none. */
  lemma NamesakeIs(p1: Parsed, p2: Parsed, i: nat, j: nat)
    requires IsParsed(p1) && IsParsed(p2) && i < |p1.stmts|
    ensures Partner(p1, p2, i) == Some(j) <==>
            && TargetName(p1.stmts[i]).Some? && TargetName(p1.stmts[i]).value != ""
            && IsLastNamed(p2, TargetName(p1.stmts[i]).value, j)
  {
  }

  // ----- two rules with one namesake -----

  function Rule(args: seq<Arg>): Stmt {
    CallStmt(Ident("go_library"), [Keyword("name", StringExpr("t"))] + args, [])
  }

  /** Two rules named "t" in the first file; in the second, one with deps = [c] and additional_deps = [d]. */
  predicate TwoAndOne(p1: Parsed, p2: Parsed, c: Expr, d: Expr) {
    && p1.stmts == [Rule([]), Rule([])]
    && p2.stmts == [Rule([Keyword("deps", ListExpr([c])), Keyword("additional_deps", ListExpr([d]))])]
  }

  function AddingArgs(c: Expr, d: Expr): seq<Arg> {
    [Keyword("name", StringExpr("t")), Keyword("deps", ListExpr([c])), Keyword("additional_deps", ListExpr([d]))]
  }

  lemma AddingLast(c: Expr, d: Expr, n: string)
    ensures Last(AddingArgs(c, d), n) ==
            if n == "additional_deps" then Some(ListExpr([d])) else if n == "deps" then Some(ListExpr([c]))
            else if n == "name" then Some(StringExpr("t")) else None
  {
    var name, deps := Keyword("name", StringExpr("t")), Keyword("deps", ListExpr([c]));
    LastOneMore([], name, n);
    LastOneMore([name], deps, n);
    LastOneMore([name, deps], Keyword("additional_deps", ListExpr([d])), n);
    assert AddingArgs(c, d) == [name, deps] + [Keyword("additional_deps", ListExpr([d]))];
    assert [name] == [] + [name] && [name, deps] == [name] + [deps];
  }

  lemma LastOneMore(args: seq<Arg>, more: Arg, n: string)
    requires more.Keyword?
    ensures Last(args + [more], n) == if n == more.name then Some(more.rhs) else Last(args, n)
  {
    assert (args + [more])[..|args|] == args;
  }

  lemma RuleIsNamed(args: seq<Arg>)
    ensures TargetName(Rule(args)) == Some("t")
  {
    assert NameArg(Rule(args).args) == Some("t");
    assert "go_library" != "package" && "go_library" != "licenses";
  }

  lemma BothPartners(p1: Parsed, p2: Parsed, c: Expr, d: Expr)
    requires IsParsed(p1) && IsParsed(p2) && TwoAndOne(p1, p2, c, d)
    ensures Partner(p1, p2, 0) == Partner(p1, p2, 1) == Some(0)
    ensures NamesakeArgs(p1, p2, 0) == NamesakeArgs(p1, p2, 1) == AddingArgs(c, d)
    ensures IsRule(p1, 0) && IsRule(p1, 1)
  {
    RuleIsNamed([]);
    RuleIsNamed([Keyword("deps", ListExpr([c])), Keyword("additional_deps", ListExpr([d]))]);
    assert "t" in p2.calls && p2.calls["t"] == 0;
    assert p2.stmts[0].args == AddingArgs(c, d);
    M.NamedIsRule(p1, 0);
    M.NamedIsRule(p1, 1);
  }

  lemma TwiceCounted(p1: Parsed, p2: Parsed, c: Expr, d: Expr, n: string)
    requires TwoAndOne(p1, p2, c, d) && Partner(p1, p2, 0) == Partner(p1, p2, 1) == Some(0) && n != "name"
    ensures PartnerCount(p1, p2, 2, 0) == 2 && AddedBy(p1, p2, 2, 0, n) == 2
  {
    assert p1.stmts[0].args == p1.stmts[1].args == [Keyword("name", StringExpr("t"))];
    assert OwnCount(p1.stmts[0].args, n) == 1;
    assert AddedBy(p1, p2, 0, 0, n) == 0;
    assert PartnerCount(p1, p2, 1, 0) == 1 && AddedBy(p1, p2, 1, 0, n) == 1;
  }

  lemma SharedNamesakeMerges(p1: Parsed, p2: Parsed, c: Expr, d: Expr)
    requires IsParsed(p1) && IsParsed(p2) && TwoAndOne(p1, p2, c, d)
    ensures FilesMergeable(p1, p2)
  {
    BothPartners(p1, p2, c, d);
    M.LastCallIs(p1.stmts, "package", 2);
    M.LastCallIs(p1.stmts, "licenses", 2);
    forall i | 0 <= i < 2
      ensures PairMerges(p1, p2, i)
    {
      PairIsMergeable(c, d, AddedUpTo(p1, p2, i + 1, 0));
    }
  }

  lemma PairIsMergeable(c: Expr, d: Expr, m: Counts)
    ensures MergeableWith(Rule([]).args, AddingArgs(c, d), m)
  {
    forall n
      ensures Override(AddingArgs(c, d), n).Some? ==> n == "deps" || Additional(AddingArgs(c, d), n).None?
    {
      AddingLast(c, d, n);
      AddingLast(c, d, PREFIX + n);
      assert (PREFIX + n)[|PREFIX|..] == n && (PREFIX + "deps")[|PREFIX|..] == "deps";
    }
    AddingLast(c, d, "deps");
    AddingLast(c, d, "additional_deps");
    assert PREFIX + "deps" == "additional_deps";
    assert Rule([]).args == [Keyword("name", StringExpr("t"))];
    assert Override(AddingArgs(c, d), "name").Some? ==>
        Times(Override(AddingArgs(c, d), "name").value, Additional(AddingArgs(c, d), "name"), m("name")).Some? by {
      assert "name" != "deps";
    }
    assert Times(StringExpr("t"), Additional(AddingArgs(c, d), "name"), 1).Some? by {
      AddingLast(c, d, "name");
    }
    ListsGrow(ListExpr([c]), ListExpr([d]), m("deps"));
  }

  lemma {:induction false} ListsGrow(x: Expr, more: Expr, m: nat)
    requires SpineEnd(x).ListExpr? && more.ListExpr?
    ensures Times(x, Some(more), m).Some? && SpineEnd(Times(x, Some(more), m).value).ListExpr?
  {
    if m > 0 {
      ListsGrow(x, more, m - 1);
      MergeEndsInList(Times(x, Some(more), m - 1).value, more);
    }
  }

  lemma {:induction false} MergeEndsInList(x: Expr, more: Expr)
    requires SpineEnd(x).ListExpr? && more.ListExpr?
    ensures MergeExpr(x, more).Some? && SpineEnd(MergeExpr(x, more).value).ListExpr?
  {
    if x.BinaryExpr? {
      MergeEndsInList(x.y, more);
    }
  }

  lemma SharedMeaning(env: Env, p1: Parsed, p2: Parsed, c: Expr, d: Expr, i: nat)
    requires IsParsed(p1) && IsParsed(p2) && TwoAndOne(p1, p2, c, d) && i < 2
    ensures IsRule(p1, i) && p1.stmts[i] == Rule([]) && DistinctKeywords(Rule([]).args)
    ensures RuleMeaning(env, p1, p2, i, "deps") == Some([env.item(c), env.item(d), env.item(d)])
  {
    BothPartners(p1, p2, c, d);
    TwiceCounted(p1, p2, c, d, "deps");
    AddingLast(c, d, "deps");
    AddingLast(c, d, "additional_deps");
    assert PREFIX + "deps" == "additional_deps";
    ListTwice(env, c, d);
  }

  lemma SharedCount(p1: Parsed, p2: Parsed, c: Expr, d: Expr, out: seq<Out>)
    requires IsParsed(p1) && IsParsed(p2) && TwoAndOne(p1, p2, c, d) && IsMergeOf(p1, p2, out)
    ensures Count(out, Source(2, 0)) == 2
  {
    BothPartners(p1, p2, c, d);
    TwiceCounted(p1, p2, c, d, "deps");
    AccountedFor(p1, p2, out, Source(2, 0));
  }

  /** They merge, but the second file's rule goes into both, and the deps of both come to [c] + [d] + [d]. */
  lemma SharedNamesakeAddsTwice(env: Env, p1: Parsed, p2: Parsed, c: Expr, d: Expr, out: seq<Out>, i: nat)
    requires IsParsed(p1) && IsParsed(p2) && TwoAndOne(p1, p2, c, d) && IsMergeOf(p1, p2, out) && i < 2
    ensures FilesMergeable(p1, p2) && Count(out, Source(2, 0)) == 2
    ensures forall k: nat :: IsStandIn(out, i, k) ==>
              Means(env, out[k], Ident("go_library"), "deps", Some([env.item(c), env.item(d), env.item(d)]))
  {
    SharedNamesakeMerges(p1, p2, c, d);
    SharedCount(p1, p2, c, d, out);
    SharedMeaning(env, p1, p2, c, d, i);
    RulesKeepTheirMeaning(env, p1, p2, out, i, "deps");
  }

  /** And a rule of the second file without a namesake in the first is copied as it is. */
  lemma UnmatchedIsCopied(p1: Parsed, p2: Parsed, out: seq<Out>, j: nat)
    requires IsMergeOf(p1, p2, out) && IsRule(p2, j) && !IsPartner(p1, p2, j)
    ensures Out(p2.stmts[j], [Source(2, j)]) in out
  {
    var x :| AreSections(p1, p2, x) && out == Assemble(p1, p2, x);
    PickedIsOut(2, p2.stmts, UnmatchedSet(p1, p2), |p2.stmts|, j);
  }

  lemma {:induction false} PickedIsOut(file: nat, stmts: seq<Stmt>, sel: set<nat>, n: nat, j: nat)
    requires n <= |stmts| && j < n && j in sel
    ensures Out(stmts[j], [Source(file, j)]) in Picked(file, stmts, sel, n)
  {
    if j < n - 1 {
      PickedIsOut(file, stmts, sel, n - 1, j);
    }
  }

  // ----- licenses -----

  /** The rest of what is merged: packages and rules. */
  ghost predicate MergeWithoutLicenses(p1: Parsed, p2: Parsed) {
    FilesMergeable(p1.(licenses := None), p2)
  }

  /** Two files that both have a licenses() call merge exactly if everything else does and both calls have just one
      argument, a list of the same strings in the same order, and the same comments behind them. */
  lemma LicensesMergeIff(p1: Parsed, p2: Parsed)
    requires IsParsed(p1) && IsParsed(p2) && p1.licenses.Some? && p2.licenses.Some?
    ensures p1.licenses.value < |p1.stmts| && p2.licenses.value < |p2.stmts|
    ensures FilesMergeable(p1, p2) <==>
            && MergeWithoutLicenses(p1, p2)
            && exists licenses, suffix ::
                 BothLicense(p1.stmts[p1.licenses.value], p2.stmts[p2.licenses.value], licenses, suffix)
  {
    M.LastCallIs(p1.stmts, "licenses", |p1.stmts|);
    M.LastCallIs(p2.stmts, "licenses", |p2.stmts|);
    SamePairs(p1, p2, p1.(licenses := None), |p1.stmts|);
  }

  lemma SamePairs(p1: Parsed, p2: Parsed, q1: Parsed, n: nat)
    requires n <= |p1.stmts| && q1.stmts == p1.stmts
    ensures PairsMerge(p1, p2, n) <==> PairsMerge(q1, p2, n)
  {
    forall i | 0 <= i < n
      ensures PairMerges(p1, p2, i) <==> PairMerges(q1, p2, i)
    {
      if Partner(p1, p2, i).Some? {
        var j, m := Partner(p1, p2, i).value, i + 1;
        forall k
          ensures AddedBy(p1, p2, m, j, k) == AddedBy(q1, p2, m, j, k)
        {
          SameAdditions(p1, p2, q1, m, j, k);
        }
      }
    }
  }

  lemma {:induction false} SameAdditions(p1: Parsed, p2: Parsed, q1: Parsed, i: nat, j: nat, n: string)
    requires i <= |p1.stmts| && q1.stmts == p1.stmts
    ensures AddedBy(p1, p2, i, j, n) == AddedBy(q1, p2, i, j, n)
  {
    if i > 0 {
      SameAdditions(p1, p2, q1, i - 1, j, n);
    }
  }

  /** licenses(["notice"]) in one file and licenses(["restricted"]) in the other, whatever else they hold. */
  lemma LicensesConflict(p1: Parsed, p2: Parsed, i: nat, j: nat)
    requires IsParsed(p1) && IsParsed(p2) && p1.licenses == Some(i) && p2.licenses == Some(j)
    requires i < |p1.stmts| && j < |p2.stmts|
    requires p1.stmts[i] == CallStmt(Ident("licenses"), [Positional(ListExpr([StringExpr("notice")]))], [])
    requires p2.stmts[j] == CallStmt(Ident("licenses"), [Positional(ListExpr([StringExpr("restricted")]))], [])
    ensures !FilesMergeable(p1, p2)
  {
    LicensesMergeIff(p1, p2);
    assert |"notice"| != |"restricted"|;
    assert p1.stmts[i].args[0].e.items[0] != p2.stmts[j].args[0].e.items[0];
  }
}
