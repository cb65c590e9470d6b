/** In which order the merged file has its statements. */
module BuildOrder {
  import opened Graphs
  import opened Options
  import opened Strings
  import opened BuildFiles
  import M = BuildMerge

  /** Where a statement belongs: leading comments, the package, loads, licenses, assignments, rules; comments,
      assignments and rules of the first file come before those of the second. */
  function Slot(p1: Parsed, p2: Parsed, s: Source): nat {
    var p, second := if s.file == 1 then p1 else p2, if s.file == 1 then 0 else 1;
    if s.index < Leading(p.stmts) then 0 + second
    else if p.pkg == Some(s.index) then 2
    else if StmtAt(p1, p2, s).LoadStmt? then 3
    else if p.licenses == Some(s.index) then 4
    else if StmtAt(p1, p2, s).AssignStmt? then 5 + second
    else 7 + second
  }

  /** Loads go by module, everything else as it stands in its file. */
  ghost predicate Before(p1: Parsed, p2: Parsed, s: Source, t: Source) {
    || Slot(p1, p2, s) < Slot(p1, p2, t)
    || (Slot(p1, p2, s) == Slot(p1, p2, t) &&
        if StmtAt(p1, p2, s).LoadStmt? && StmtAt(p1, p2, t).LoadStmt?
        then Less(StmtAt(p1, p2, s).file, StmtAt(p1, p2, t).file)
        else s.index < t.index)
  }

  /** The statements stand in this order, each where the first of the statements it stands for belongs. */
  ghost predicate InOrder(p1: Parsed, p2: Parsed, out: seq<Out>) {
    && (forall k :: 0 <= k < |out| ==> out[k].from != [])
    && forall k, l :: 0 <= k < l < |out| ==> Before(p1, p2, out[k].from[0], out[l].from[0])
  }

  ghost predicate AllIn(p1: Parsed, p2: Parsed, out: seq<Out>, lo: nat, hi: nat) {
    forall k :: 0 <= k < |out| ==> out[k].from != [] && lo <= Slot(p1, p2, out[k].from[0]) < hi
  }

  /** A part of the output that belongs behind another. */
  lemma Joined(p1: Parsed, p2: Parsed, a: seq<Out>, b: seq<Out>, lo: nat, mid: nat, hi: nat)
    requires InOrder(p1, p2, a) && InOrder(p1, p2, b) && lo <= mid <= hi
    requires AllIn(p1, p2, a, lo, mid) && AllIn(p1, p2, b, mid, hi)
    ensures InOrder(p1, p2, a + b) && AllIn(p1, p2, a + b, lo, hi)
  {
    var out := a + b;
    forall k | 0 <= k < |out|
      ensures out[k] == if k < |a| then a[k] else b[k - |a|]
    {
    }
  }

  lemma {:induction false} PickedInOrder(p1: Parsed, p2: Parsed, file: nat, stmts: seq<Stmt>, sel: set<nat>, n: nat,
                                         slot: nat)
    requires n <= |stmts| && forall i :: i in sel ==> Slot(p1, p2, Source(file, i)) == slot
    requires forall i :: i in sel && i < n ==> !StmtAt(p1, p2, Source(file, i)).LoadStmt?
    ensures InOrder(p1, p2, Picked(file, stmts, sel, n))
    ensures AllIn(p1, p2, Picked(file, stmts, sel, n), slot, slot + 1)
    ensures forall o :: o in Picked(file, stmts, sel, n) ==>
              exists i :: i in sel && i < n && o.from == [Source(file, i)]
  {
    if n > 0 {
      PickedInOrder(p1, p2, file, stmts, sel, n - 1, slot);
      var front := Picked(file, stmts, sel, n - 1);
      assert forall k :: 0 <= k < |front| ==> front[k] in front;
    }
  }

  /** Statements that stand for rules among the first `n` statements of the first file, in order. */
  ghost predicate FromRules(p1: Parsed, part: seq<Out>, n: nat) {
    && (forall k :: 0 <= k < |part| ==>
          && part[k].from != [] && part[k].from[0].file == 1
          && part[k].from[0].index < n && IsRule(p1, part[k].from[0].index))
    && forall k, l :: 0 <= k < l < |part| ==> part[k].from[0].index < part[l].from[0].index
  }

  lemma RuleStandsFirst(p1: Parsed, p2: Parsed, i: nat, o: Out)
    requires i < |p1.stmts| && IsRuleOut(p1, p2, i, o)
    ensures o.from != [] && o.from[0] == Source(1, i)
  {
  }

  /** The rules of the first file, namesakes merged or not. */
  lemma {:induction false} RulesAreFromRules(p1: Parsed, p2: Parsed, n: nat, part: seq<Out>)
    requires n <= |p1.stmts| && IsRulePart(p1, p2, n, part)
    ensures FromRules(p1, part, n)
    decreases n
  {
    if n > 0 {
      if IsRule(p1, n - 1) {
        var l := |part| - 1;
        RulesAreFromRules(p1, p2, n - 1, part[..l]);
        RuleStandsFirst(p1, p2, n - 1, part[l]);
        assert forall k :: 0 <= k < l ==> part[k] == part[..l][k];
      } else {
        RulesAreFromRules(p1, p2, n - 1, part);
      }
    }
  }

  lemma RulesInOrder(p1: Parsed, p2: Parsed, part: seq<Out>, n: nat)
    requires FromRules(p1, part, n)
    ensures InOrder(p1, p2, part) && AllIn(p1, p2, part, 7, 8)
  {
    forall k | 0 <= k < |part|
      ensures Slot(p1, p2, part[k].from[0]) == 7 && !StmtAt(p1, p2, part[k].from[0]).LoadStmt?
    {
    }
  }

  /** The first entry of a module that is loaded at all is a load of it. */
  lemma FirstEntry(p1: Parsed, p2: Parsed, file: string)
    requires IsParsed(p1) && IsParsed(p2) && (file in p1.loads || file in p2.loads)
    ensures Entries(p1, p2, file) != []
    ensures var s := Entries(p1, p2, file)[0];
            && StmtAt(p1, p2, s).LoadStmt? && StmtAt(p1, p2, s).file == file && Slot(p1, p2, s) == 3
  {
    var first := file in p1.loads;
    var p := if first then p1 else p2;
    var loads := LoadsOf(p.stmts, file, |p.stmts|);
    assert p.loads[file] == loads && loads != [];
    M.LoadsOfHolds(p.stmts, file, |p.stmts|, loads[0]);
    NoLoad(p);
    assert Entries(p1, p2, file)[0] == Source(if first then 1 else 2, loads[0]);
  }

  /** Leading comments, the package, licenses and assignments are no loads. */
  lemma NoLoad(p: Parsed)
    requires IsParsed(p)
    ensures forall i :: 0 <= i < |p.stmts| && p.stmts[i].LoadStmt? ==>
              i >= Leading(p.stmts) && p.pkg != Some(i) && p.licenses != Some(i)
    ensures p.pkg.Some? ==> p.pkg.value < |p.stmts| && p.stmts[p.pkg.value].CallStmt?
                            && p.pkg.value >= Leading(p.stmts)
    ensures p.licenses.Some? ==> p.licenses.value < |p.stmts| && p.stmts[p.licenses.value].CallStmt?
                                 && p.licenses.value >= Leading(p.stmts) && p.pkg != p.licenses
    ensures forall i :: 0 <= i < Leading(p.stmts) ==> p.stmts[i].CommentBlock?
  {
    M.LeadingAre(p.stmts);
    M.LastCallIs(p.stmts, "package", |p.stmts|);
    M.LastCallIs(p.stmts, "licenses", |p.stmts|);
  }

  lemma LoadsInOrder(p1: Parsed, p2: Parsed, files: seq<string>, part: seq<Out>)
    requires IsParsed(p1) && IsParsed(p2) && IsLoadPart(p1, p2, files, part)
    ensures InOrder(p1, p2, part) && AllIn(p1, p2, part, 3, 4)
  {
    forall k | 0 <= k < |part|
      ensures part[k].from != [] && Slot(p1, p2, part[k].from[0]) == 3
      ensures StmtAt(p1, p2, part[k].from[0]).LoadStmt? && StmtAt(p1, p2, part[k].from[0]).file == files[k]
    {
      assert files[k] in SetOf(files);
      assert IsMergedLoad(p1, p2, files[k], part[k]);
      FirstEntry(p1, p2, files[k]);
    }
  }

  lemma PackageInOrder(p1: Parsed, p2: Parsed, part: seq<Out>)
    requires IsParsed(p1) && IsParsed(p2) && IsPackagePart(p1, p2, part)
    ensures InOrder(p1, p2, part) && AllIn(p1, p2, part, 2, 3)
  {
    NoLoad(p1);
    NoLoad(p2);
  }

  lemma LicensesInOrder(p1: Parsed, p2: Parsed, part: seq<Out>)
    requires IsParsed(p1) && IsParsed(p2) && IsLicensePart(p1, p2, part)
    ensures InOrder(p1, p2, part) && AllIn(p1, p2, part, 4, 5)
  {
    NoLoad(p1);
    NoLoad(p2);
  }

  /** What is copied as it is. */
  lemma CommentsInOrder(p1: Parsed, p2: Parsed)
    requires IsParsed(p1) && IsParsed(p2)
    ensures InOrder(p1, p2, Picked(1, p1.stmts, LeadingSet(p1), |p1.stmts|))
    ensures AllIn(p1, p2, Picked(1, p1.stmts, LeadingSet(p1), |p1.stmts|), 0, 1)
    ensures InOrder(p1, p2, Picked(2, p2.stmts, LeadingSet(p2), |p2.stmts|))
    ensures AllIn(p1, p2, Picked(2, p2.stmts, LeadingSet(p2), |p2.stmts|), 1, 2)
  {
    NoLoad(p1);
    NoLoad(p2);
    PickedInOrder(p1, p2, 1, p1.stmts, LeadingSet(p1), |p1.stmts|, 0);
    PickedInOrder(p1, p2, 2, p2.stmts, LeadingSet(p2), |p2.stmts|, 1);
  }

  lemma AssignmentsInOrder(p1: Parsed, p2: Parsed)
    requires IsParsed(p1) && IsParsed(p2)
    ensures InOrder(p1, p2, Picked(1, p1.stmts, AssignSet(p1), |p1.stmts|))
    ensures AllIn(p1, p2, Picked(1, p1.stmts, AssignSet(p1), |p1.stmts|), 5, 6)
    ensures InOrder(p1, p2, Picked(2, p2.stmts, AssignSet(p2), |p2.stmts|))
    ensures AllIn(p1, p2, Picked(2, p2.stmts, AssignSet(p2), |p2.stmts|), 6, 7)
  {
    NoLoad(p1);
    NoLoad(p2);
    PickedInOrder(p1, p2, 1, p1.stmts, AssignSet(p1), |p1.stmts|, 5);
    PickedInOrder(p1, p2, 2, p2.stmts, AssignSet(p2), |p2.stmts|, 6);
  }

  lemma UnmatchedInOrder(p1: Parsed, p2: Parsed)
    requires IsParsed(p1) && IsParsed(p2)
    ensures InOrder(p1, p2, Picked(2, p2.stmts, UnmatchedSet(p1, p2), |p2.stmts|))
    ensures AllIn(p1, p2, Picked(2, p2.stmts, UnmatchedSet(p1, p2), |p2.stmts|), 8, 9)
  {
    PickedInOrder(p1, p2, 2, p2.stmts, UnmatchedSet(p1, p2), |p2.stmts|, 8);
  }

  /** The order of the merged file: each statement stands where its kind, its file and its place in that put it. In
      particular every load and every assignment comes before every rule. */
  lemma OutputInOrder(p1: Parsed, p2: Parsed, out: seq<Out>)
    requires IsParsed(p1) && IsParsed(p2) && IsMergeOf(p1, p2, out)
    ensures InOrder(p1, p2, out)
  {
    var x :| AreSections(p1, p2, x) && out == Assemble(p1, p2, x);
    CommentsInOrder(p1, p2);
    AssignmentsInOrder(p1, p2);
    UnmatchedInOrder(p1, p2);
    PackageInOrder(p1, p2, x.pkg);
    LoadsInOrder(p1, p2, x.files, x.loads);
    LicensesInOrder(p1, p2, x.licenses);
    RulesAreFromRules(p1, p2, |p1.stmts|, x.rules);
    RulesInOrder(p1, p2, x.rules, |p1.stmts|);
    JoinedAll(p1, p2, Picked(1, p1.stmts, LeadingSet(p1), |p1.stmts|), Picked(2, p2.stmts, LeadingSet(p2), |p2.stmts|),
              x, Picked(1, p1.stmts, AssignSet(p1), |p1.stmts|), Picked(2, p2.stmts, AssignSet(p2), |p2.stmts|),
              Picked(2, p2.stmts, UnmatchedSet(p1, p2), |p2.stmts|));
  }

  lemma JoinedAll(p1: Parsed, p2: Parsed, a: seq<Out>, b: seq<Out>, x: Sections, c: seq<Out>, d: seq<Out>, e: seq<Out>)
    requires InOrder(p1, p2, a) && AllIn(p1, p2, a, 0, 1) && InOrder(p1, p2, b) && AllIn(p1, p2, b, 1, 2)
    requires InOrder(p1, p2, x.pkg) && AllIn(p1, p2, x.pkg, 2, 3)
    requires InOrder(p1, p2, x.loads) && AllIn(p1, p2, x.loads, 3, 4)
    requires InOrder(p1, p2, x.licenses) && AllIn(p1, p2, x.licenses, 4, 5)
    requires InOrder(p1, p2, c) && AllIn(p1, p2, c, 5, 6) && InOrder(p1, p2, d) && AllIn(p1, p2, d, 6, 7)
    requires InOrder(p1, p2, x.rules) && AllIn(p1, p2, x.rules, 7, 8)
    requires InOrder(p1, p2, e) && AllIn(p1, p2, e, 8, 9)
    ensures InOrder(p1, p2, a + b + x.pkg + x.loads + x.licenses + c + d + x.rules + e)
  {
    Joined(p1, p2, a, b, 0, 1, 2);
    Joined(p1, p2, a + b, x.pkg, 0, 2, 3);
    Joined(p1, p2, a + b + x.pkg, x.loads, 0, 3, 4);
    Joined(p1, p2, a + b + x.pkg + x.loads, x.licenses, 0, 4, 5);
    Joined(p1, p2, a + b + x.pkg + x.loads + x.licenses, c, 0, 5, 6);
    Joined(p1, p2, a + b + x.pkg + x.loads + x.licenses + c, d, 0, 6, 7);
    Joined(p1, p2, a + b + x.pkg + x.loads + x.licenses + c + d, x.rules, 0, 7, 8);
    Joined(p1, p2, a + b + x.pkg + x.loads + x.licenses + c + d + x.rules, e, 0, 8, 9);
  }
}
