/** Import aliases of generated Go files. */
module GoAliases {
  import opened Graphs
  import opened Strings

  /** The file part of `path.Split`: what follows the last slash. */
  function BaseName(path: string): string {
    if path == "" || path[|path| - 1] == '/' then "" else BaseName(path[..|path| - 1]) + [path[|path| - 1]]
  }

  /** What follows the last slash, and the whole path if there is none. */
  lemma {:induction false} BaseNameIs(dir: string, base: string)
    requires '/' !in base
    ensures BaseName(dir + "/" + base) == base && BaseName(base) == base
  {
    if base == "" {
      assert dir + "/" + base == dir + "/";
    } else {
      var front, last := base[..|base| - 1], base[|base| - 1];
      BaseNameIs(dir, front);
      assert (dir + "/" + base)[..|dir + "/" + base| - 1] == dir + "/" + front;
      assert last in base && base == front + [last];
    }
  }

  lemma {:induction false} BaseNameHasNoSlash(path: string)
    ensures '/' !in BaseName(path)
  {
    if path != "" && path[|path| - 1] != '/' {
      BaseNameHasNoSlash(path[..|path| - 1]);
    }
  }

  lemma {:induction false} DecimalHasNoSlash(n: nat)
    ensures '/' !in Decimal(n)
  {
    assert forall d :: 0 <= d < 10 ==> DIGITS[d] != '/';
    if n >= 10 {
      DecimalHasNoSlash(n / 10);
    }
  }

  /** The name itself, then name1, name2, and so on. */
  function Candidate(name: string, count: nat): string {
    if count == 0 then name else name + Decimal(count)
  }

  lemma CandidateInjective(name: string, i: nat, j: nat)
    requires Candidate(name, i) == Candidate(name, j)
    ensures i == j
  {
    assert Candidate(name, i)[|name|..] == if i == 0 then "" else Decimal(i);
    assert Candidate(name, j)[|name|..] == if j == 0 then "" else Decimal(j);
    if i > 0 && j > 0 {
      DecimalInjective(i, j);
    }
  }

  function Tried(name: string, count: nat): set<string> {
    set i | 0 <= i < count :: Candidate(name, i)
  }

  /** The first count from `count` on whose candidate is not taken. Finitely many are taken and all candidates
      differ, so there is one. */
  function FirstFree(name: string, count: nat, taken: set<string>): (free: nat)
    ensures free >= count && Candidate(name, free) !in taken
    ensures forall i :: count <= i < free ==> Candidate(name, i) in taken
    decreases taken - Tried(name, count)
  {
    if Candidate(name, count) !in taken then count
    else
      TriedGrows(name, count, taken);
      FirstFree(name, count + 1, taken)
  }

  lemma TriedGrows(name: string, count: nat, taken: set<string>)
    requires Candidate(name, count) in taken
    ensures taken - Tried(name, count + 1) < taken - Tried(name, count)
  {
    var c := Candidate(name, count);
    if c in Tried(name, count) {
      var i :| 0 <= i < count && Candidate(name, i) == c;
      CandidateInjective(name, i, count);
      assert false;
    }
    assert c in Tried(name, count + 1);
    assert Tried(name, count) <= Tried(name, count + 1);
  }

  function Start(path: string, localPath: string): nat {
    if BaseName(path) == BaseName(localPath) then 1 else 0
  }

  /** The aliases for the paths, taken in the given order. */
  function Aliases(paths: seq<string>, localPath: string, reserved: set<string>): map<string, string> {
    if paths == [] then map[]
    else
      var path, before := paths[|paths| - 1], Aliases(paths[..|paths| - 1], localPath, reserved);
      if path == localPath then before
      else
        var name := BaseName(path);
        before[path := Candidate(name, FirstFree(name, Start(path, localPath), reserved + before.Values))]
  }

  /** Distinct non-local packages have distinct aliases, and none of them is reserved. */
  lemma {:induction false} AliasesAreDistinct(paths: seq<string>, localPath: string, reserved: set<string>)
    requires forall i, j :: 0 <= i < j < |paths| ==> paths[i] != paths[j]
    ensures Aliases(paths, localPath, reserved).Keys == SetOf(paths) - {localPath}
    ensures var a := Aliases(paths, localPath, reserved);
            && (forall p :: p in a ==> a[p] !in reserved)
            && (forall p, q :: p in a && q in a && p != q ==> a[p] != a[q])
  {
    if paths != [] {
      var front, path := paths[..|paths| - 1], paths[|paths| - 1];
      AliasesAreDistinct(front, localPath, reserved);
      assert paths == front + [path];
      var before := Aliases(front, localPath, reserved);
      assert forall p :: p in before ==> before[p] in before.Values;
    }
  }

  /** The alias is the first candidate of the path that is not taken; a package with the local package's name
      never gets the bare name. */
  ghost predicate IsLeastFree(alias: string, path: string, localPath: string, taken: set<string>) {
    exists n :: IsFirstFree(BaseName(path), Start(path, localPath), taken, n) && alias == Candidate(BaseName(path), n)
  }

  ghost predicate IsFirstFree(name: string, start: nat, taken: set<string>, n: nat) {
    && n >= start && Candidate(name, n) !in taken
    && forall k :: start <= k < n ==> Candidate(name, k) in taken
  }

  lemma {:induction false} AliasStays(paths: seq<string>, localPath: string, reserved: set<string>, n: nat, p: string)
    requires forall i, j :: 0 <= i < j < |paths| ==> paths[i] != paths[j]
    requires n <= |paths| && p in Aliases(paths[..n], localPath, reserved)
    ensures p in Aliases(paths, localPath, reserved)
    ensures Aliases(paths, localPath, reserved)[p] == Aliases(paths[..n], localPath, reserved)[p]
    decreases |paths|
  {
    if n == |paths| {
      assert paths[..n] == paths;
    } else {
      var front := paths[..|paths| - 1];
      assert front[..n] == paths[..n];
      AliasStays(front, localPath, reserved, n, p);
      AliasesAreDistinct(front, localPath, reserved);
      assert p in front;
    }
  }

  /** Each alias is the least candidate that is neither reserved nor given to a package that comes before. */
  lemma AliasIsLeastFree(paths: seq<string>, localPath: string, reserved: set<string>, i: nat)
    requires forall i, j :: 0 <= i < j < |paths| ==> paths[i] != paths[j]
    requires i < |paths| && paths[i] != localPath
    ensures paths[i] in Aliases(paths, localPath, reserved)
    ensures IsLeastFree(Aliases(paths, localPath, reserved)[paths[i]], paths[i], localPath,
                        reserved + Aliases(paths[..i], localPath, reserved).Values)
  {
    var upTo := paths[..i + 1];
    assert upTo[..i] == paths[..i];
    var taken := reserved + Aliases(paths[..i], localPath, reserved).Values;
    var n := FirstFree(BaseName(paths[i]), Start(paths[i], localPath), taken);
    assert IsFirstFree(BaseName(paths[i]), Start(paths[i], localPath), taken, n);
    assert Aliases(upTo, localPath, reserved)[paths[i]] == Candidate(BaseName(paths[i]), n);
    AliasStays(paths, localPath, reserved, i + 1, paths[i]);
  }

  /** A package has its last path element for its alias exactly when that is not the local package's, not reserved and
      not the alias of a package that comes before. */
  lemma AliasIsBaseNameIff(paths: seq<string>, localPath: string, reserved: set<string>, i: nat)
    requires forall i, j :: 0 <= i < j < |paths| ==> paths[i] != paths[j]
    requires i < |paths| && paths[i] != localPath
    ensures paths[i] in Aliases(paths, localPath, reserved)
    ensures Aliases(paths, localPath, reserved)[paths[i]] == BaseName(paths[i]) <==>
            && BaseName(paths[i]) != BaseName(localPath)
            && BaseName(paths[i]) !in reserved + Aliases(paths[..i], localPath, reserved).Values
  {
    AliasIsLeastFree(paths, localPath, reserved, i);
    var base := BaseName(paths[i]);
    var taken := reserved + Aliases(paths[..i], localPath, reserved).Values;
    var n :| IsFirstFree(base, Start(paths[i], localPath), taken, n)
             && Aliases(paths, localPath, reserved)[paths[i]] == Candidate(base, n);
    assert Candidate(base, 0) == base;
    if Candidate(base, n) == base {
      CandidateInjective(base, n, 0);
    }
  }

  /** A package that shares its last element with the local package gets that with a 1 exactly when this is free. */
  lemma LocalNameIsNumberedIff(paths: seq<string>, localPath: string, reserved: set<string>, i: nat)
    requires forall i, j :: 0 <= i < j < |paths| ==> paths[i] != paths[j]
    requires i < |paths| && paths[i] != localPath && BaseName(paths[i]) == BaseName(localPath)
    ensures paths[i] in Aliases(paths, localPath, reserved)
    ensures Aliases(paths, localPath, reserved)[paths[i]] == BaseName(paths[i]) + "1" <==>
            BaseName(paths[i]) + "1" !in reserved + Aliases(paths[..i], localPath, reserved).Values
  {
    AliasIsLeastFree(paths, localPath, reserved, i);
    var base := BaseName(paths[i]);
    var taken := reserved + Aliases(paths[..i], localPath, reserved).Values;
    var n :| IsFirstFree(base, Start(paths[i], localPath), taken, n)
             && Aliases(paths, localPath, reserved)[paths[i]] == Candidate(base, n);
    assert Candidate(base, 1) == base + "1";
    if Candidate(base, n) == base + "1" {
      CandidateInjective(base, n, 1);
    }
  }

  /** The alias of a package is one of its candidates, and holds no slash. */
  lemma AliasIsCandidate(paths: seq<string>, localPath: string, reserved: set<string>, p: string)
    requires forall i, j :: 0 <= i < j < |paths| ==> paths[i] != paths[j]
    requires p in Aliases(paths, localPath, reserved)
    ensures exists n :: Aliases(paths, localPath, reserved)[p] == Candidate(BaseName(p), n)
    ensures '/' !in Aliases(paths, localPath, reserved)[p]
  {
    AliasesAreDistinct(paths, localPath, reserved);
    var i :| 0 <= i < |paths| && paths[i] == p;
    AliasIsLeastFree(paths, localPath, reserved, i);
    var n :| Aliases(paths, localPath, reserved)[p] == Candidate(BaseName(p), n);
    BaseNameHasNoSlash(p);
    DecimalHasNoSlash(n);
  }

  /** So it has it in particular when no other package's last element is the same or can be made the same by a
      number. */
  lemma LoneBaseNameStays(paths: seq<string>, localPath: string, reserved: set<string>, i: nat)
    requires forall i, j :: 0 <= i < j < |paths| ==> paths[i] != paths[j]
    requires i < |paths| && paths[i] != localPath
    requires BaseName(paths[i]) != BaseName(localPath) && BaseName(paths[i]) !in reserved
    requires forall j, n :: 0 <= j < i ==> Candidate(BaseName(paths[j]), n) != BaseName(paths[i])
    ensures paths[i] in Aliases(paths, localPath, reserved)
    ensures Aliases(paths, localPath, reserved)[paths[i]] == BaseName(paths[i])
  {
    AliasIsBaseNameIff(paths, localPath, reserved, i);
    var before := Aliases(paths[..i], localPath, reserved);
    AliasesAreDistinct(paths[..i], localPath, reserved);
    forall p | p in before
      ensures before[p] != BaseName(paths[i])
    {
      AliasIsCandidate(paths[..i], localPath, reserved, p);
      var j :| 0 <= j < i && paths[j] == p;
      var n :| before[p] == Candidate(BaseName(p), n);
      assert Candidate(BaseName(paths[j]), n) != BaseName(paths[i]);
    }
  }

  /** Being alone in having the last element is not enough: p/a, q/a and r/a1 get a, a1 and a11. */
  lemma NumberedNameIsTaken(x: string, y: string, z: string, localPath: string)
    requires BaseName(x) == BaseName(y) == "a" && x != y && BaseName(z) == "a1" && BaseName(localPath) == "l"
    ensures Aliases([x, y, z], localPath, {}) == map[x := "a", y := "a1", z := "a11"]
  {
    var m1, m2 := map[x := "a"], map[x := "a", y := "a1"];
    assert Candidate("a", 0) == "a" && Candidate("a1", 0) == "a1";
    assert Candidate("a", 1) == "a" + Decimal(1) == "a1" && Candidate("a1", 1) == "a1" + Decimal(1) == "a11";
    assert m1[x] == "a" && m2[x] == "a" && m2[y] == "a1";
    NextAlias([], x, localPath, map[], 0);
    NextAlias([x], y, localPath, m1, 1);
    NextAlias([x, y], z, localPath, m2, 1);
    assert [] + [x] == [x] && [x] + [y] == [x, y] && [x, y] + [z] == [x, y, z];
  }

  lemma NextAlias(paths: seq<string>, path: string, localPath: string, before: map<string, string>, n: nat)
    requires Aliases(paths, localPath, {}) == before && BaseName(path) != BaseName(localPath)
    requires forall k :: 0 <= k < n ==> Candidate(BaseName(path), k) in before.Values
    requires Candidate(BaseName(path), n) !in before.Values
    ensures Aliases(paths + [path], localPath, {}) == before[path := Candidate(BaseName(path), n)]
  {
    assert (paths + [path])[..|paths|] == paths;
    assert {} + before.Values == before.Values;
    FirstFreeIs(BaseName(path), before.Values, n);
  }

  lemma FirstFreeIs(name: string, taken: set<string>, n: nat)
    requires forall k :: 0 <= k < n ==> Candidate(name, k) in taken
    requires Candidate(name, n) !in taken
    ensures FirstFree(name, 0, taken) == n
  {
    var free := FirstFree(name, 0, taken);
    assert Candidate(name, free) !in taken;
    assert free >= n;
  }

  /** The outcome depends on the set of package paths, the local path and the reserved names only: not on map
      order, and not on earlier aliases, so assigning again changes nothing. */
  lemma SamePathsSameAliases(order: seq<string>, order': seq<string>, localPath: string, reserved: set<string>)
    requires Ascending(order) && Ascending(order') && SetOf(order) == SetOf(order')
    ensures Aliases(order, localPath, reserved) == Aliases(order', localPath, reserved)
  {
    AscendingIsUnique(order, order');
  }

  class GoPkg {
    const path: string
    var alias: string

    constructor (path: string)
      ensures this.path == path && alias == ""
    {
      this.path, alias := path, "";
    }
  }

  datatype GoValue = GoValue(pkg: GoPkg, name: string)

  class GoPkgMap {
    const localPath: string
    var pkgs: map<string, GoPkg>
    var reserved: set<string>

    ghost predicate Valid()
      reads this
    {
      && localPath in pkgs
      && forall p, q :: p in pkgs && q in pkgs && p != q ==> pkgs[p] != pkgs[q]
    }

    constructor (localPath: string)
      ensures Valid() && this.localPath == localPath && reserved == {} && pkgs.Keys == {localPath}
      ensures fresh(pkgs[localPath]) && pkgs[localPath].alias == ""
    {
      var local := new GoPkg("");
      this.localPath, reserved, pkgs := localPath, {}, map[localPath := local];
    }

    method Reserve(name: string)
      requires Valid()
      modifies this`reserved
      ensures Valid() && reserved == old(reserved) + {name}
    {
      reserved := reserved + {name};
    }

    /** A name in a package: all names of a package share its one alias. */
    method Name(path: string, name: string) returns (v: GoValue)
      requires Valid()
      modifies this`pkgs
      ensures Valid() && path in pkgs && v == GoValue(pkgs[path], name)
      ensures pkgs.Keys == old(pkgs.Keys) + {path}
      ensures forall p :: p in old(pkgs) ==> pkgs[p] == old(pkgs)[p]
      ensures path !in old(pkgs) ==> fresh(pkgs[path])
    {
      if path !in pkgs {
        var p := new GoPkg(path);
        pkgs := pkgs[path := p];
      }
      return GoValue(pkgs[path], name);
    }

    /** The package paths, in whatever order the map yields them. */
    method Paths() returns (paths: seq<string>)
      ensures SetOf(paths) == pkgs.Keys
      ensures forall i, j :: 0 <= i < j < |paths| ==> paths[i] != paths[j]
    {
      paths := [];
      var rest := pkgs.Keys;
      while rest != {}
        invariant SetOf(paths) + rest == pkgs.Keys && SetOf(paths) !! rest
        invariant forall i, j :: 0 <= i < j < |paths| ==> paths[i] != paths[j]
        decreases rest
      {
        var p :| p in rest;
        assert p !in SetOf(paths) && SetOf(paths + [p]) == SetOf(paths) + {p};
        paths := paths + [p];
        rest := rest - {p};
      }
    }

    method FindAlias(name: string, start: nat, aliases: set<string>) returns (alias: string)
      ensures alias == Candidate(name, FirstFree(name, start, aliases))
    {
      var count := start;
      while true
        invariant start <= count
        invariant FirstFree(name, start, aliases) == FirstFree(name, count, aliases)
        decreases aliases - Tried(name, count)
      {
        alias := name;
        if count > 0 {
          alias := name + Decimal(count);
        }
        if alias !in aliases {
          return;
        }
        TriedGrows(name, count, aliases);
        count := count + 1;
      }
    }

    /** The packages on the list have the aliases meant for them, and these are what `aliases` adds. */
    ghost predicate Assigned(paths: seq<string>, aliases: set<string>)
      reads this, pkgs.Values
    {
      var a := Aliases(paths, localPath, reserved);
      && aliases == reserved + a.Values
      && forall p :: p in a ==> p in pkgs && pkgs[p].alias == a[p]
    }

    method AssignNext(paths: seq<string>, i: nat, aliases: set<string>) returns (aliases': set<string>)
      requires Valid() && i < |paths| && paths[i] != localPath && paths[i] in pkgs
      requires forall i, j :: 0 <= i < j < |paths| ==> paths[i] != paths[j]
      requires Assigned(paths[..i], aliases)
      modifies pkgs[paths[i]]
      ensures Assigned(paths[..i + 1], aliases')
    {
      var upTo := paths[..i + 1];
      assert upTo[..i] == paths[..i];
      AliasesAreDistinct(paths[..i], localPath, reserved);
      assert paths[i] !in SetOf(paths[..i]);
      var name := BaseName(paths[i]);
      var count := if name == BaseName(localPath) then 1 else 0;
      var alias := FindAlias(name, count, aliases);
      NewValue(Aliases(paths[..i], localPath, reserved), paths[i], alias);
      assert Aliases(upTo, localPath, reserved) == Aliases(paths[..i], localPath, reserved)[paths[i] := alias];
      pkgs[paths[i]].alias := alias;
      aliases' := aliases + {alias};
    }

    /** Give every package but the local one its alias: distinct aliases, none of them reserved, and each the
        least candidate free when the paths are taken in ascending order. */
    method AssignAliases() returns (ghost order: seq<string>)
      requires Valid()
      modifies pkgs.Values
      ensures Ascending(order) && SetOf(order) == pkgs.Keys
      ensures forall p :: p in pkgs && p != localPath ==>
                p in Aliases(order, localPath, reserved) && pkgs[p].alias == Aliases(order, localPath, reserved)[p]
      ensures forall p :: p in pkgs && p != localPath ==> pkgs[p].alias !in reserved && '/' !in pkgs[p].alias
      ensures forall p, q :: p in pkgs && q in pkgs && p != q && p != localPath && q != localPath ==>
                pkgs[p].alias != pkgs[q].alias
      ensures pkgs[localPath].alias == old(pkgs[localPath].alias)
    {
      var unsorted := Paths();
      SortAscends(unsorted);
      var paths := Sort(unsorted);
      PathsDistinct(paths);
      AssignInOrder(paths);
      AliasesAreDistinct(paths, localPath, reserved);
      forall p | p in pkgs && p != localPath
        ensures '/' !in pkgs[p].alias
      {
        AliasIsCandidate(paths, localPath, reserved, p);
      }
      order := paths;
    }

    method AssignInOrder(paths: seq<string>)
      requires Valid() && SetOf(paths) == pkgs.Keys
      requires forall i, j :: 0 <= i < j < |paths| ==> paths[i] != paths[j]
      modifies pkgs.Values
      ensures Assigned(paths, reserved + Aliases(paths, localPath, reserved).Values)
      ensures pkgs[localPath].alias == old(pkgs[localPath].alias)
    {
      var aliases := reserved;
      assert paths[..0] == [];
      for i := 0 to |paths|
        invariant Assigned(paths[..i], aliases)
        invariant pkgs[localPath].alias == old(pkgs[localPath].alias)
      {
        if paths[i] == localPath {
          assert paths[..i + 1][..i] == paths[..i];
          continue;
        }
        assert paths[i] in SetOf(paths);
        aliases := AssignNext(paths, i, aliases);
      }
      assert paths[..|paths|] == paths;
    }
  }

  lemma PathsDistinct(paths: seq<string>)
    requires Ascending(paths)
    ensures forall i, j :: 0 <= i < j < |paths| ==> paths[i] != paths[j]
  {
    forall i, j | 0 <= i < j < |paths|
      ensures paths[i] != paths[j]
    {
      LessIsStrict(paths[i], paths[j]);
    }
  }

  lemma NewValue(m: map<string, string>, k: string, v: string)
    requires k !in m
    ensures m[k := v].Values == m.Values + {v}
  {
    var n := m[k := v];
    assert n[k] == v;
    forall x | x in m.Values
      ensures x in n.Values
    {
      var y :| y in m && m[y] == x;
      assert n[y] == x;
    }
  }
}
