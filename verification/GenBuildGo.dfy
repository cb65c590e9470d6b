/** Depth-first generation of BUILD files over the import graph, which may have cycles. */
module GenBuildGo {
  import opened Graphs
  import opened Options

  /** What reading a package directory gives: nothing to build, an error, or the imports. */
  datatype Populated = NoGoFiles | Broken | Package(imports: seq<string>, testImports: seq<string>)

  /** The workspace and the options, fixed for one invocation. */
  datatype Repo = Repo(
    builtin: set<string>,
    present: set<string>,
    populated: map<string, Populated>,
    dbx: set<string>,
    failing: set<string>,
    onlyGenPkgs: Option<set<string>>)
  {
    function Populate(pkg: string): Populated {
      if pkg in populated then populated[pkg] else NoGoFiles
    }

    /** Whether generation may go into the import at all. */
    predicate ShouldVisit(pkg: string, dep: string) {
      dep != pkg && (onlyGenPkgs.Some? ==> dep in onlyGenPkgs.value)
    }

    /** The imports that processing a package goes into; tests only count for dropbox packages. */
    function Visited(pkg: string): set<string> {
      match Populate(pkg)
      case Package(imports, testImports) =>
        set d | d in imports + (if pkg in dbx then testImports else []) && ShouldVisit(pkg, d)
      case _ => {}
    }

    /** The package's files import the other package, or its tests do and tests count. */
    predicate Imports(pkg: string, dep: string) {
      && pkg in populated && populated[pkg].Package?
      && (dep in populated[pkg].imports || (pkg in dbx && dep in populated[pkg].testImports))
    }

    /** A package that can be generated. */
    predicate HasGoFiles(pkg: string) {
      pkg in present && pkg !in builtin && pkg in populated && populated[pkg] != NoGoFiles
    }

    /** Builtin, absent, or without Go files: never generated. */
    predicate Skipped(pkg: string) {
      pkg in builtin || pkg !in present || Populate(pkg).NoGoFiles?
    }

    /** Its directory cannot be read, or its BUILD file not be generated or written. */
    predicate Faulty(pkg: string) {
      !Skipped(pkg) && (Populate(pkg).Broken? || pkg in failing)
    }

    ghost predicate ReachesFaulty(pkgs: set<string>) {
      exists f :: Faulty(f) && Reachable(ImportGraph(), pkgs, f)
    }

    /** The visited imports, from packages that are generated to packages that are. */
    function ImportGraph(): map<string, set<string>> {
      map p | p in present && !Skipped(p) :: set d | d in Visited(p) && !Skipped(d)
    }
  }

  /** Each package on the stack was entered from an import of the one below. */
  ghost predicate StackIsPath(repo: Repo, stack: seq<string>) {
    && (forall i, j :: 0 <= i < j < |stack| ==> stack[i] != stack[j])
    && (forall i :: 0 <= i < |stack| ==> stack[i] in repo.present && !repo.Skipped(stack[i]))
    && Entered(repo, stack)
  }

  ghost predicate Entered(repo: Repo, stack: seq<string>) {
    forall i {:trigger repo.Visited(stack[i])} :: 0 <= i < |stack| - 1 ==> stack[i + 1] in repo.Visited(stack[i])
  }

  /** When the package at `i` was written, each visited import was written before it, is skipped, or leads back
      to it. */
  ghost predicate WrittenInOrder(repo: Repo, written: seq<string>) {
    forall i {:trigger InOrderAt(repo, written[..i], written[i])} :: 0 <= i < |written| ==>
      InOrderAt(repo, written[..i], written[i])
  }

  ghost predicate InOrderAt(repo: Repo, before: seq<string>, pkg: string) {
    forall d :: d in repo.Visited(pkg) ==>
      d in before || repo.Skipped(d) || Reachable(repo.ImportGraph(), {d}, pkg)
  }

  lemma StackIsWalk(repo: Repo, stack: seq<string>)
    requires StackIsPath(repo, stack) && stack != []
    ensures Walk(repo.ImportGraph(), stack)
  {
    var g := repo.ImportGraph();
    forall i | 0 <= i < |stack| - 1
      ensures stack[i + 1] in Succ(g, stack[i])
    {
      assert stack[i + 1] in repo.Visited(stack[i]);
    }
  }

  /** A package on the stack leads to the one on top. */
  lemma StackLeadsToTop(repo: Repo, stack: seq<string>, i: nat)
    requires StackIsPath(repo, stack) && i < |stack|
    ensures Reachable(repo.ImportGraph(), {stack[i]}, stack[|stack| - 1])
  {
    StackIsWalk(repo, stack);
    var p := stack[i..];
    forall k | 0 <= k < |p| - 1
      ensures p[k + 1] in Succ(repo.ImportGraph(), p[k])
    {
      assert stack[i + k + 1] in Succ(repo.ImportGraph(), stack[i + k]);
    }
    assert WalkTo(repo.ImportGraph(), {stack[i]}, p, stack[|stack| - 1]);
  }

  /** `isBuiltin`, already processed, not in the workspace, or on the stack: not to be entered. */
  method ValidateGoPkgPath(isBuiltin: bool, pkg: string, present: set<string>, processed: set<string>,
                           stack: seq<string>)
    returns (isValid: bool)
    ensures isValid <==> !isBuiltin && pkg !in processed && pkg in present && pkg !in stack
  {
    if isBuiltin {
      return false;
    }
    if pkg in processed {
      return false;
    }
    if pkg !in present {
      return false;
    }
    for i := 0 to |stack|
      invariant pkg !in stack[..i]
    {
      if stack[i] == pkg {
        return false;
      }
    }
    assert stack[..|stack|] == stack;
    return true;
  }

  lemma FaultyItself(repo: Repo, pkg: string)
    requires repo.Faulty(pkg)
    ensures repo.ReachesFaulty({pkg})
  {
    ReachableRoot(repo.ImportGraph(), {pkg}, pkg);
  }

  lemma FaultyOfMore(repo: Repo, some: set<string>, all: set<string>)
    requires some <= all
    ensures repo.ReachesFaulty(some) ==> repo.ReachesFaulty(all)
  {
    if f :| repo.Faulty(f) && Reachable(repo.ImportGraph(), some, f) {
      var p :| WalkTo(repo.ImportGraph(), some, p, f);
      assert WalkTo(repo.ImportGraph(), all, p, f);
    }
  }

  /** What an import leads to, the package leads to. */
  lemma FaultyImport(repo: Repo, pkg: string, dep: string)
    requires pkg in repo.present && !repo.Skipped(pkg) && dep in repo.Visited(pkg) && repo.ReachesFaulty({dep})
    ensures repo.ReachesFaulty({pkg})
  {
    var g := repo.ImportGraph();
    var f :| repo.Faulty(f) && Reachable(g, {dep}, f);
    var p :| WalkTo(g, {dep}, p, f);
    if |p| > 1 {
      assert p[1] in Succ(g, p[0]);
    }
    assert dep in Succ(g, pkg);
    var q := [pkg] + p;
    forall i | 0 <= i < |q| - 1
      ensures q[i + 1] in Succ(g, q[i])
    {
      if i > 0 {
        assert p[i] in Succ(g, p[i - 1]);
      }
    }
    assert WalkTo(g, {pkg}, q, f);
  }

  class ConfigGenerator {
    const repo: Repo
    var processedPkgs: set<string>
    var visitStack: seq<string>

    /** The packages whose file was written, in order. */
    ghost var written: seq<string>
    /** The packages Process was asked for from outside. */
    ghost var roots: set<string>
    /** No call has returned an error so far. */
    ghost var clean: bool

    constructor (repo: Repo)
      ensures Valid() && visitStack == [] && written == [] && roots == {} && clean
      ensures this.repo == repo
    {
      this.repo := repo;
      processedPkgs, visitStack, written, roots, clean := {}, [], [], {}, true;
    }

    ghost predicate Valid()
      reads this
    {
      && StackIsPath(repo, visitStack)
      && (forall i, j :: 0 <= i < j < |written| ==> written[i] != written[j])
      && SetOf(written) == processedPkgs
      && processedPkgs !! SetOf(visitStack)
      && (forall p :: p in processedPkgs ==> p in repo.present && !repo.Skipped(p) && !repo.Faulty(p))
      && WrittenInOrder(repo, written)
      && (forall p :: p in processedPkgs || p in visitStack ==> Reachable(repo.ImportGraph(), roots, p))
      && (clean ==> Covered(processedPkgs))
    }

    /** Every visited import of a package in the set has been dealt with or is being dealt with. */
    ghost predicate Covered(ps: set<string>)
      reads this`processedPkgs, this`visitStack
    {
      forall p, d :: p in ps && d in repo.Visited(p) ==> Settled(d)
    }

    ghost predicate Settled(d: string)
      reads this`processedPkgs, this`visitStack
    {
      d in processedPkgs || repo.Skipped(d) || d in visitStack
    }

    /** `Process` from outside, with nothing on the stack. */
    method Process(pkg: string) returns (ok: bool)
      requires Valid() && visitStack == []
      modifies this
      ensures Valid() && visitStack == []
      ensures roots == old(roots) + {pkg} && clean == (old(clean) && ok)
      ensures ok ==> Settled(pkg)
      ensures !ok ==> repo.ReachesFaulty({pkg})
      ensures old(processedPkgs) <= processedPkgs && old(written) <= written
    {
      roots := roots + {pkg};
      forall p | p in processedPkgs
        ensures Reachable(repo.ImportGraph(), roots, p)
      {
        MoreRoots(repo.ImportGraph(), old(roots), roots, p);
      }
      ReachableRoot(repo.ImportGraph(), roots, pkg);
      ok := ProcessPkg(pkg);
    }

    /** The loop over the command line: errors do not stop it, but the last one is reported. Without an error,
        what was written is exactly what the named packages reach. */
    method ProcessAll(packages: seq<string>) returns (ok: bool)
      requires Valid() && visitStack == [] && roots == {} && clean
      modifies this
      ensures Valid() && visitStack == []
      ensures ok ==> forall p :: p in written <==>
                       !repo.Skipped(p) && Reachable(repo.ImportGraph(), SetOf(packages), p)
      ensures ok ==> ImportsAreWritten(packages)
      ensures ok <==> !repo.ReachesFaulty(SetOf(packages))
      ensures forall p :: p in packages && !repo.Skipped(p) && !repo.ReachesFaulty({p}) ==> p in written
      ensures forall p :: p in written ==> !repo.Faulty(p)
    {
      ok := true;
      for i := 0 to |packages|
        invariant Valid() && visitStack == [] && clean == ok
        invariant roots == SetOf(packages[..i])
        invariant ok ==> forall r :: r in roots ==> Settled(r)
        invariant !ok ==> repo.ReachesFaulty(roots)
        invariant forall r :: r in roots && !repo.ReachesFaulty({r}) ==> Settled(r)
      {
        assert SetOf(packages[..i + 1]) == SetOf(packages[..i]) + {packages[i]};
        ghost var before := roots;
        var one := Process(packages[i]);
        FaultyOfMore(repo, before, roots);
        FaultyOfMore(repo, {packages[i]}, roots);
        ok := ok && one;
      }
      assert packages[..|packages|] == packages;
      if ok {
        forall p
          ensures p in written <==> !repo.Skipped(p) && Reachable(repo.ImportGraph(), roots, p)
        {
          ReachableAreWritten(p);
        }
        WrittenWithImports(packages);
      }
      assert forall p :: p in written <==> p in SetOf(written);
    }

    predicate Wanted(dep: string) {
      repo.onlyGenPkgs.Some? ==> dep in repo.onlyGenPkgs.value
    }

    /** Written is every named package that has Go files, whatever a written package imports that has and is wanted,
        and nothing else. */
    ghost predicate ImportsAreWritten(packages: seq<string>)
      reads this`written
    {
      && (forall p :: p in packages && repo.HasGoFiles(p) ==> p in written)
      && (forall p, d :: p in written && repo.Imports(p, d) && Wanted(d) && repo.HasGoFiles(d) ==> d in written)
      && (forall d :: d in written ==> repo.HasGoFiles(d) && (d in packages || ImportedByWritten(d)))
    }

    ghost predicate ImportedByWritten(d: string)
      reads this`written
    {
      Wanted(d) && exists p :: p in written && p != d && repo.Imports(p, d)
    }

    lemma WrittenWithImports(packages: seq<string>)
      requires forall p :: p in written <==>
                 !repo.Skipped(p) && Reachable(repo.ImportGraph(), SetOf(packages), p)
      ensures ImportsAreWritten(packages)
    {
      var g, roots := repo.ImportGraph(), SetOf(packages);
      forall p | p in packages && repo.HasGoFiles(p)
        ensures p in written
      {
        ReachableRoot(g, roots, p);
      }
      forall p, d | p in written && repo.Imports(p, d) && Wanted(d) && repo.HasGoFiles(d)
        ensures d in written
      {
        if d != p {
          assert d in Succ(g, p);
          ReachableStep(g, roots, p, d);
        }
      }
      forall d | d in written && d !in packages
        ensures ImportedByWritten(d)
      {
        var walk :| WalkTo(g, roots, walk, d);
        var n := |walk| - 1;
        var p := walk[n - 1];
        assert d in Succ(g, p);
        assert forall i :: 0 <= i < n - 1 ==> walk[..n][i + 1] in Succ(g, walk[..n][i]);
        assert WalkTo(g, roots, walk[..n], p);
      }
    }

    /** `process`: skip, or push, generate the imports first, write, and pop. */
    method ProcessPkg(pkg: string) returns (ok: bool)
      requires Valid()
      requires visitStack != [] ==> pkg in repo.Visited(visitStack[|visitStack| - 1])
      requires repo.Skipped(pkg) || Reachable(repo.ImportGraph(), roots, pkg)
      modifies this`processedPkgs, this`visitStack, this`written, this`clean
      ensures Valid() && visitStack == old(visitStack)
      ensures clean == (old(clean) && ok)
      ensures ok ==> Settled(pkg)
      ensures !ok ==> repo.ReachesFaulty({pkg})
      ensures old(processedPkgs) <= processedPkgs && old(written) <= written
      decreases repo.present - SetOf(visitStack), 1
    {
      var isValid := ValidateGoPkgPath(pkg in repo.builtin, pkg, repo.present, processedPkgs, visitStack);
      if !isValid {
        return true;
      }
      match repo.Populate(pkg) {
        case NoGoFiles => return true;
        case Broken =>
          FaultyItself(repo, pkg);
          clean := false;
          return false;
        case Package(imports, testImports) =>
          ok := ProcessImports(pkg, imports, testImports);
      }
    }

    method ProcessImports(pkg: string, imports: seq<string>, testImports: seq<string>) returns (ok: bool)
      requires Valid() && pkg in repo.present && !repo.Skipped(pkg) && pkg !in visitStack && pkg !in processedPkgs
      requires visitStack != [] ==> pkg in repo.Visited(visitStack[|visitStack| - 1])
      requires Reachable(repo.ImportGraph(), roots, pkg)
      requires repo.Populate(pkg) == Package(imports, testImports)
      modifies this`processedPkgs, this`visitStack, this`written, this`clean
      ensures Valid() && visitStack == old(visitStack)
      ensures clean == (old(clean) && ok)
      ensures ok ==> pkg in processedPkgs
      ensures !ok ==> repo.ReachesFaulty({pkg})
      ensures old(processedPkgs) <= processedPkgs && old(written) <= written
      decreases repo.present - SetOf(visitStack), 0
    {
      Push(pkg);
      assert pkg in repo.present - SetOf(old(visitStack)) && SetOf(visitStack) == SetOf(old(visitStack)) + {pkg};
      ok := VisitAll(pkg, imports, testImports);
      if ok && pkg !in repo.failing {
        WriteAndPop(pkg);
      } else {
        if ok {
          FaultyItself(repo, pkg);
        }
        ok := false;
        Abandon(pkg);
      }
    }

    /** The imports, and for a dropbox package the test imports. */
    method VisitAll(pkg: string, imports: seq<string>, testImports: seq<string>) returns (ok: bool)
      requires Valid() && visitStack != [] && visitStack[|visitStack| - 1] == pkg
      requires repo.Populate(pkg) == Package(imports, testImports)
      modifies this`processedPkgs, this`visitStack, this`written, this`clean
      ensures Valid() && visitStack == old(visitStack)
      ensures clean == (old(clean) && ok)
      ensures ok ==> forall d :: d in repo.Visited(pkg) ==> Settled(d)
      ensures !ok ==> repo.ReachesFaulty({pkg})
      ensures old(processedPkgs) <= processedPkgs && old(written) <= written
      decreases repo.present - SetOf(visitStack), 3
    {
      ok := Visit(pkg, imports);
      if ok && pkg in repo.dbx {
        ok := Visit(pkg, testImports);
      }
    }

    method Push(pkg: string)
      requires Valid() && pkg in repo.present && !repo.Skipped(pkg) && pkg !in visitStack && pkg !in processedPkgs
      requires visitStack != [] ==> pkg in repo.Visited(visitStack[|visitStack| - 1])
      requires Reachable(repo.ImportGraph(), roots, pkg)
      modifies this`visitStack
      ensures Valid() && visitStack == old(visitStack) + [pkg]
    {
      visitStack := visitStack + [pkg];
      assert SetOf(visitStack) == SetOf(old(visitStack)) + {pkg};
      forall p, d | clean && p in processedPkgs && d in repo.Visited(p)
        ensures Settled(d)
      {
        assert old(Settled(d));
      }
    }

    /** Go into each import on the list, except the package itself and those not to be generated. */
    method Visit(pkg: string, toVisit: seq<string>) returns (ok: bool)
      requires Valid() && visitStack != [] && visitStack[|visitStack| - 1] == pkg
      requires forall d :: d in toVisit && repo.ShouldVisit(pkg, d) ==> d in repo.Visited(pkg)
      modifies this`processedPkgs, this`visitStack, this`written, this`clean
      ensures Valid() && visitStack == old(visitStack)
      ensures clean == (old(clean) && ok)
      ensures ok ==> forall d :: d in toVisit && repo.ShouldVisit(pkg, d) ==> Settled(d)
      ensures !ok ==> repo.ReachesFaulty({pkg})
      ensures old(processedPkgs) <= processedPkgs && old(written) <= written
      decreases repo.present - SetOf(visitStack), 2
    {
      for i := 0 to |toVisit|
        invariant Valid() && visitStack == old(visitStack) && clean == old(clean)
        invariant forall k :: 0 <= k < i && repo.ShouldVisit(pkg, toVisit[k]) ==> Settled(toVisit[k])
        invariant old(processedPkgs) <= processedPkgs && old(written) <= written
      {
        var dep := toVisit[i];
        if dep == pkg {
          continue;
        }
        var shouldGenerate := true;
        if repo.onlyGenPkgs.Some? {
          shouldGenerate := dep in repo.onlyGenPkgs.value;
        }
        if shouldGenerate {
          ImportReachable(pkg, dep);
          ok := ProcessPkg(dep);
          if !ok {
            FaultyImport(repo, pkg, dep);
            return false;
          }
        }
      }
      return true;
    }

    lemma ImportReachable(pkg: string, dep: string)
      requires Valid() && visitStack != [] && visitStack[|visitStack| - 1] == pkg && dep in repo.Visited(pkg)
      ensures repo.Skipped(dep) || Reachable(repo.ImportGraph(), roots, dep)
    {
      assert pkg in visitStack;
      if !repo.Skipped(dep) {
        assert dep in Succ(repo.ImportGraph(), pkg);
        ReachableStep(repo.ImportGraph(), roots, pkg, dep);
      }
    }

    /** The file is written, the package counts as processed, and the deferred pop runs. */
    method WriteAndPop(pkg: string)
      requires Valid() && visitStack != [] && visitStack[|visitStack| - 1] == pkg
      requires forall d :: d in repo.Visited(pkg) ==> Settled(d)
      requires !repo.Faulty(pkg)
      modifies this`processedPkgs, this`visitStack, this`written
      ensures Valid() && visitStack == old(visitStack)[..|old(visitStack)| - 1]
      ensures processedPkgs == old(processedPkgs) + {pkg} && written == old(written) + [pkg]
    {
      assert pkg in SetOf(visitStack);
      SettledLeadsBack(pkg);
      OrderGrows(repo, written, pkg);
      written := written + [pkg];
      processedPkgs := processedPkgs + {pkg};
      assert visitStack == visitStack[..|visitStack| - 1] + [pkg];
      visitStack := visitStack[..|visitStack| - 1];
      assert forall d :: d in old(visitStack) <==> d in visitStack || d == pkg;
      assert SetOf(written) == SetOf(old(written)) + {pkg};
      forall p, d | clean && p in processedPkgs && d in repo.Visited(p)
        ensures Settled(d)
      {
        assert old(Settled(d));
      }
    }

    lemma SettledLeadsBack(pkg: string)
      requires Valid() && visitStack != [] && visitStack[|visitStack| - 1] == pkg
      requires forall d :: d in repo.Visited(pkg) ==> Settled(d)
      ensures InOrderAt(repo, written, pkg)
    {
      forall d | d in repo.Visited(pkg)
        ensures d in written || repo.Skipped(d) || Reachable(repo.ImportGraph(), {d}, pkg)
      {
        if d in visitStack {
          var i :| 0 <= i < |visitStack| && visitStack[i] == d;
          StackLeadsToTop(repo, visitStack, i);
        } else {
          assert d in processedPkgs ==> d in SetOf(written);
        }
      }
    }

    /** An error on the way: nothing is written, and the deferred pop runs. */
    method Abandon(pkg: string)
      requires Valid() && visitStack != [] && visitStack[|visitStack| - 1] == pkg
      modifies this`visitStack, this`clean
      ensures Valid() && visitStack == old(visitStack)[..|old(visitStack)| - 1] && !clean
    {
      clean := false;
      visitStack := visitStack[..|visitStack| - 1];
      assert forall p :: p in visitStack ==> p in old(visitStack);
    }

    /** With no error so far and nothing on the stack, exactly the packages reachable from the roots through
        visited imports have been written, each once. */
    lemma ReachableAreWritten(pkg: string)
      requires Valid() && visitStack == [] && clean
      requires forall r :: r in roots ==> Settled(r)
      ensures pkg in written <==> !repo.Skipped(pkg) && Reachable(repo.ImportGraph(), roots, pkg)
    {
      var g := repo.ImportGraph();
      assert pkg in written <==> pkg in SetOf(written);
      if !repo.Skipped(pkg) && Reachable(g, roots, pkg) {
        var inside := processedPkgs + (set r | r in roots && repo.Skipped(r));
        forall x | x in inside
          ensures Succ(g, x) <= inside
        {
          forall d | d in Succ(g, x)
            ensures d in inside
          {
            assert x in processedPkgs && d in repo.Visited(x);
            assert Settled(d);
          }
        }
        ReachableInside(g, roots, inside, pkg);
      }
    }

    /** Where imports have no cycle, every visited import that is generated at all is written earlier. */
    lemma WriteOrderIsTopological(i: nat, d: string)
      requires Valid() && Acyclic(repo.ImportGraph())
      requires i < |written| && d in repo.Visited(written[i]) && !repo.Skipped(d)
      ensures d in written[..i]
    {
      var g, pkg := repo.ImportGraph(), written[i];
      assert InOrderAt(repo, written[..i], pkg);
      assert pkg in SetOf(written);
      assert d in Succ(g, pkg);
      if Reachable(g, {d}, pkg) {
        ReachingBackIsCycle(g, d, pkg);
      }
    }
  }

  lemma OrderGrows(repo: Repo, written: seq<string>, pkg: string)
    requires WrittenInOrder(repo, written) && InOrderAt(repo, written, pkg)
    ensures WrittenInOrder(repo, written + [pkg])
  {
    var more := written + [pkg];
    forall i | 0 <= i < |more|
      ensures InOrderAt(repo, more[..i], more[i])
    {
      if i < |written| {
        assert more[..i] == written[..i] && more[i] == written[i];
        assert InOrderAt(repo, written[..i], written[i]);
      } else {
        assert more[..i] == written;
      }
    }
  }

  lemma MoreRoots(g: map<string, set<string>>, roots: set<string>, more: set<string>, x: string)
    requires roots <= more && Reachable(g, roots, x)
    ensures Reachable(g, more, x)
  {
    var p :| WalkTo(g, roots, p, x);
    assert WalkTo(g, more, p, x);
  }
}
