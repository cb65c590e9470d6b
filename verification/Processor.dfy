/** Creating and removing services. Service objects live in creation order in `defs`; the registry maps a
    name to the object created last under it. */
module Processor {
  import opened Graphs
  import opened Options
  import opened Tasks
  import P = Pool
  import S = Scheduler
  import V = ServiceProtocol

  datatype HealthCheck = CommandCheck | HttpCheck | UnsupportedCheck

  /** `filesResolve`: every version file path resolves in the runfiles tree. */
  datatype Request =
    Request(name: string, kind: V.Kind, deps: seq<string>, checks: seq<HealthCheck>, filesResolve: bool)

  /** `dependents` are positions in the list of all service objects. */
  datatype Definition = Definition(name: string, kind: V.Kind, dependents: seq<nat>, verifyCmds: nat, httpChecks: nat)

  predicate WellFormed(r: Request) {
    UnsupportedCheck !in r.checks && r.filesResolve
  }

  /** The request could be created if, besides the names in `base`, those in `s` were registered. */
  predicate Admits(base: set<string>, s: set<string>, r: Request) {
    WellFormed(r) && forall d :: d in r.deps ==> d in base || d in s
  }

  ghost predicate ClosedFor(reqs: seq<Request>, base: set<string>, s: set<string>) {
    forall r :: r in reqs && Admits(base, s, r) ==> r.name in base || r.name in s
  }

  /** `least` is the least set of new names closed under creating whatever can be created. */
  ghost predicate IsLeast(reqs: seq<Request>, base: set<string>, least: set<string>) {
    && least !! base
    && ClosedFor(reqs, base, least)
    && forall s :: ClosedFor(reqs, base, s) ==> least <= s
  }

  /** The registered set depends on which requests there are, not on their order. */
  lemma OrderIrrelevant(reqs: seq<Request>, reqs': seq<Request>, base: set<string>, l: set<string>, l': set<string>)
    requires SetOf(reqs) == SetOf(reqs')
    requires IsLeast(reqs, base, l) && IsLeast(reqs', base, l')
    ensures l == l'
  {
    forall s
      ensures ClosedFor(reqs, base, s) <==> ClosedFor(reqs', base, s)
    {
      assert forall r :: r in reqs <==> r in SetOf(reqs);
      assert forall r :: r in reqs' <==> r in SetOf(reqs');
    }
  }

  lemma {:induction false} EveryCheckCounts(checks: seq<HealthCheck>)
    requires UnsupportedCheck !in checks
    ensures multiset(checks)[CommandCheck] + multiset(checks)[HttpCheck] == |checks|
  {
    if checks != [] {
      var last := |checks| - 1;
      EveryCheckCounts(checks[..last]);
      assert checks == checks[..last] + [checks[last]];
      assert checks[last] == CommandCheck || checks[last] == HttpCheck;
    }
  }

  function Names(reqs: seq<Request>): (names: seq<string>)
    ensures |names| == |reqs|
    ensures forall i :: 0 <= i < |reqs| ==> names[i] == reqs[i].name
  {
    seq(|reqs|, i requires 0 <= i < |reqs| => reqs[i].name)
  }

  lemma NamesJoined(a: seq<Request>, b: seq<Request>)
    ensures Names(a + b) == Names(a) + Names(b)
    ensures forall n :: multiset(Names(a + b))[n] == multiset(Names(a))[n] + multiset(Names(b))[n]
  {
    assert Names(a + b) == Names(a) + Names(b);
  }

  /** Every request has a name of its own, not yet registered, and can be created. */
  ghost predicate AllCreatable(reqs: seq<Request>, base: set<string>, least: set<string>) {
    forall n :: n in Names(reqs) ==> multiset(Names(reqs))[n] == 1 && n !in base && n in least
  }

  /** Every service object was created strictly after all its Dependents. */
  ghost predicate CreatedInOrder(defs: seq<Definition>) {
    forall i, d :: 0 <= i < |defs| && d in defs[i].dependents ==> d < i
  }

  /** No name was ever created twice. */
  ghost predicate NoReuse(defs: seq<Definition>) {
    forall i, j :: 0 <= i < j < |defs| ==> defs[i].name != defs[j].name
  }

  /** The object was made from the request. */
  ghost predicate MadeFrom(defs: seq<Definition>, i: nat, r: Request) {
    && i < |defs| && defs[i].name == r.name && defs[i].kind == r.kind
    && WellFormed(r)
    && |defs[i].dependents| == |r.deps|
    && (forall k :: 0 <= k < |r.deps| ==>
          defs[i].dependents[k] < i && defs[defs[i].dependents[k]].name == r.deps[k])
    && defs[i].verifyCmds == multiset(r.checks)[CommandCheck]
    && defs[i].httpChecks == multiset(r.checks)[HttpCheck]
  }

  /** The registry and the objects, as values. */
  datatype Registry = Registry(services: map<string, nat>, defs: seq<Definition>) {
    ghost predicate Sound() {
      && CreatedInOrder(defs)
      && forall n :: n in services ==> services[n] < |defs| && defs[services[n]].name == n
    }

    /** `later` came about by registering services only: nothing old has changed. */
    ghost predicate GrewInto(later: Registry) {
      && services.Keys <= later.services.Keys
      && (forall n :: n in services ==> later.services[n] == services[n])
      && |defs| <= |later.defs| && later.defs[..|defs|] == defs
    }

    /** `later` is this registry with the service of the request added. */
    ghost predicate Registers(r: Request, later: Registry) {
      && r.name !in services && Admits(services.Keys, {}, r)
      && later.services == services[r.name := |defs|]
      && |later.defs| == |defs| + 1 && later.defs[..|defs|] == defs
      && MadeFrom(later.defs, |defs|, r)
    }
  }

  /** The names registered since `before`. */
  function NewNames(before: Registry, now: Registry): set<string> {
    now.services.Keys - before.services.Keys
  }

  /** Nothing is registered that any closed set could do without. */
  ghost predicate Needed(reqs: seq<Request>, before: Registry, now: Registry) {
    forall s :: ClosedFor(reqs, before.services.Keys, s) ==> NewNames(before, now) <= s
  }

  /** Each request is registered or still to do, and no name is registered twice. */
  ghost predicate Tallied(reqs: seq<Request>, before: Registry, now: Registry, rest: seq<Request>) {
    && (forall r :: r in rest ==> r in reqs)
    && (forall r :: r in reqs ==> r in rest || r.name in now.services)
    && (forall n {:trigger n in NewNames(before, now)} ::
          (if n in NewNames(before, now) then 1 else 0) + multiset(Names(rest))[n] == multiset(Names(reqs))[n])
  }

  /** The new objects are the registered ones, each made from a request. */
  ghost predicate NewObjects(reqs: seq<Request>, before: Registry, now: Registry) {
    forall i :: |before.defs| <= i < |now.defs| ==>
      && now.defs[i].name in NewNames(before, now) && now.services[now.defs[i].name] == i
      && exists r :: r in reqs && MadeFrom(now.defs, i, r)
  }

  /** What a batch has done so far; `rest` is what is left of the requests. */
  ghost predicate Progress(reqs: seq<Request>, before: Registry, now: Registry, rest: seq<Request>) {
    && now.Sound() && before.GrewInto(now)
    && Needed(reqs, before, now)
    && Tallied(reqs, before, now, rest)
    && NewObjects(reqs, before, now)
  }

  lemma NeededStep(reqs: seq<Request>, before: Registry, now: Registry, r: Request, next: Registry)
    requires Needed(reqs, before, now) && before.GrewInto(now) && r in reqs && now.Registers(r, next)
    ensures Needed(reqs, before, next)
  {
    forall s | ClosedFor(reqs, before.services.Keys, s)
      ensures NewNames(before, next) <= s
    {
      assert NewNames(before, now) <= s;
      assert Admits(before.services.Keys, s, r);
    }
  }

  lemma OneRequestLess(front: seq<Request>, r: Request, back: seq<Request>, n: string)
    ensures multiset(Names(front + [r] + back))[n] == multiset(Names(front + back))[n] + if n == r.name then 1 else 0
  {
    NamesJoined(front + [r], back);
    NamesJoined(front, [r]);
    NamesJoined(front, back);
    assert Names([r]) == [r.name];
  }

  lemma TalliedStep(reqs: seq<Request>, before: Registry, now: Registry, front: seq<Request>, r: Request,
                    back: seq<Request>, next: Registry)
    requires Tallied(reqs, before, now, front + [r] + back) && before.GrewInto(now) && now.Registers(r, next)
    ensures Tallied(reqs, before, next, front + back)
  {
    forall n
      ensures (if n in NewNames(before, next) then 1 else 0) + multiset(Names(front + back))[n]
              == multiset(Names(reqs))[n]
    {
      OneRequestLess(front, r, back, n);
      assert n in NewNames(before, next) <==> n in NewNames(before, now) || n == r.name;
    }
  }

  lemma NewObjectsStep(reqs: seq<Request>, before: Registry, now: Registry, r: Request, next: Registry)
    requires NewObjects(reqs, before, now) && before.GrewInto(now) && r in reqs && now.Registers(r, next)
    ensures NewObjects(reqs, before, next)
  {
    forall i | |before.defs| <= i < |next.defs|
      ensures next.defs[i].name in NewNames(before, next) && next.services[next.defs[i].name] == i
      ensures exists q :: q in reqs && MadeFrom(next.defs, i, q)
    {
      if i < |now.defs| {
        assert next.defs[i] == now.defs[i];
        var q :| q in reqs && MadeFrom(now.defs, i, q);
        assert forall k :: 0 <= k < i ==> next.defs[k] == now.defs[k];
        assert MadeFrom(next.defs, i, q);
      } else {
        assert MadeFrom(next.defs, i, r);
      }
    }
  }

  lemma ProgressStep(reqs: seq<Request>, before: Registry, now: Registry, front: seq<Request>, r: Request,
                     back: seq<Request>, next: Registry)
    requires Progress(reqs, before, now, front + [r] + back) && next.Sound() && now.Registers(r, next)
    ensures Progress(reqs, before, next, front + back)
  {
    NeededStep(reqs, before, now, r, next);
    TalliedStep(reqs, before, now, front, r, back, next);
    NewObjectsStep(reqs, before, now, r, next);
    assert next.defs[..|before.defs|] == now.defs[..|before.defs|];
  }

  /** Nothing on the list can be created in the registry. */
  ghost predicate AllRefused(now: Registry, rest: seq<Request>) {
    forall r :: r in rest ==> r.name in now.services || !Admits(now.services.Keys, {}, r)
  }

  /** A round without progress, or with nothing left, has reached the least fixpoint. */
  lemma FixpointReached(reqs: seq<Request>, before: Registry, now: Registry, rest: seq<Request>)
    requires Progress(reqs, before, now, rest) && AllRefused(now, rest)
    ensures IsLeast(reqs, before.services.Keys, NewNames(before, now))
    ensures rest == [] <==> AllCreatable(reqs, before.services.Keys, NewNames(before, now))
  {
    var base, made := before.services.Keys, NewNames(before, now);
    forall r | r in reqs && Admits(base, made, r)
      ensures r.name in base || r.name in made
    {
      assert Admits(now.services.Keys, {}, r);
    }
    if rest == [] {
      forall n | n in Names(reqs)
        ensures multiset(Names(reqs))[n] == 1 && n !in base && n in made
      {
        assert multiset(Names(reqs))[n] > 0;
        assert n in made || n !in made;
      }
    } else {
      var n := rest[0].name;
      assert Names(rest)[0] == n && n in multiset(Names(rest));
      assert n in made || n !in made;
      var i :| 0 <= i < |reqs| && reqs[i] == rest[0];
      assert Names(reqs)[i] == n;
    }
  }

  class SvcCtlProcessor {
    var services: map<string, nat>
    var defs: seq<Definition>

    /** How many times the read lock was taken and not given back. The batches need the write lock, so they wait
        for this to be 0. */
    var readers: nat

    ghost function View(): Registry
      reads this
    {
      Registry(services, defs)
    }

    ghost predicate Valid()
      reads this
    {
      View().Sound()
    }

    constructor ()
      ensures Valid() && services == map[] && defs == [] && readers == 0
    {
      services, defs, readers := map[], [], 0;
    }

    /** NewService: resolve dependencies against the registry, then sort the health checks. */
    method NewService(r: Request) returns (def: Option<Definition>)
      requires Valid()
      ensures def.Some? <==> Admits(services.Keys, {}, r)
      ensures def.None? <==>
              (exists d :: d in r.deps && d !in services) || UnsupportedCheck in r.checks || !r.filesResolve
      ensures def.Some? ==> MadeFrom(defs + [def.value], |defs|, r)
      ensures def.Some? ==> def.value.verifyCmds + def.value.httpChecks == |r.checks|
    {
      var dependents: seq<nat> := [];
      for i := 0 to |r.deps|
        invariant |dependents| == i
        invariant forall k :: 0 <= k < i ==>
                    r.deps[k] in services && dependents[k] < |defs| && defs[dependents[k]].name == r.deps[k]
      {
        if r.deps[i] !in services {
          return None;
        }
        dependents := dependents + [services[r.deps[i]]];
      }
      var cmds, https := 0, 0;
      for i := 0 to |r.checks|
        invariant UnsupportedCheck !in r.checks[..i]
        invariant cmds == multiset(r.checks[..i])[CommandCheck] && https == multiset(r.checks[..i])[HttpCheck]
      {
        assert r.checks[..i + 1] == r.checks[..i] + [r.checks[i]];
        match r.checks[i] {
          case CommandCheck => cmds := cmds + 1;
          case HttpCheck => https := https + 1;
          case UnsupportedCheck => return None;
        }
      }
      assert r.checks[..|r.checks|] == r.checks;
      EveryCheckCounts(r.checks);
      if !r.filesResolve {
        return None;
      }
      return Some(Definition(r.name, r.kind, dependents, cmds, https));
    }

    /** `create`: a fresh name whose service can be built is registered; anything else changes nothing. */
    method Create(r: Request) returns (ok: bool)
      requires Valid()
      modifies this`services, this`defs
      ensures Valid()
      ensures ok <==> r.name !in old(services) && Admits(old(services).Keys, {}, r)
      ensures !ok ==> View() == old(View())
      ensures ok ==> old(View()).Registers(r, View())
    {
      if r.name in services {
        return false;
      }
      var def := NewService(r);
      if def.None? {
        return false;
      }
      services := services[r.name := |defs|];
      defs := defs + [def.value];
      return true;
    }

    /** CreateBatch: rounds over what is left, until a round registers nothing or nothing is left. The names
        it registers are the least set closed under creation, also when it reports an error; and it reports
        one exactly when the requests are not all creatable together. */
    method CreateBatch(reqs: seq<Request>) returns (ok: bool)
      requires Valid()
      modifies this`services, this`defs
      ensures Valid() && old(View()).GrewInto(View())
      ensures IsLeast(reqs, old(services).Keys, services.Keys - old(services).Keys)
      ensures NewObjects(reqs, old(View()), View())
      ensures ok <==> AllCreatable(reqs, old(services).Keys, services.Keys - old(services).Keys)
    {
      ghost var before := View();
      var toAdd := reqs;
      while true
        invariant Progress(reqs, before, View(), toAdd)
        decreases |toAdd|
      {
        var toAddNext := Round(reqs, before, toAdd);
        if |toAddNext| != 0 {
          if |toAddNext| == |toAdd| {
            FixpointReached(reqs, before, View(), toAddNext);
            return false;
          }
          toAdd := toAddNext;
        } else {
          FixpointReached(reqs, before, View(), toAddNext);
          return true;
        }
      }
    }

    /** One pass over the remaining requests; those that cannot be created yet are kept. */
    method Round(ghost reqs: seq<Request>, ghost before: Registry, toAdd: seq<Request>)
      returns (toAddNext: seq<Request>)
      requires Valid() && Progress(reqs, before, View(), toAdd)
      modifies this`services, this`defs
      ensures Valid() && Progress(reqs, before, View(), toAddNext)
      ensures |toAddNext| <= |toAdd|
      ensures |toAddNext| == |toAdd| ==> AllRefused(View(), toAddNext)
    {
      toAddNext := [];
      ghost var rest := toAdd;
      for i := 0 to |toAdd|
        invariant rest == toAddNext + toAdd[i..]
        invariant InRound(reqs, before, toAddNext, rest, i)
      {
        assert rest == toAddNext + [toAdd[i]] + toAdd[i + 1..];
        toAddNext, rest := TryNext(reqs, before, toAddNext, toAdd[i], toAdd[i + 1..], rest, i);
      }
      assert rest == toAddNext;
    }

    /** After `i` requests of a round: `kept` are the ones kept, all of them refused if none was created. */
    ghost predicate InRound(reqs: seq<Request>, before: Registry, kept: seq<Request>, rest: seq<Request>, i: nat)
      reads this
    {
      Valid() && Progress(reqs, before, View(), rest) && |kept| <= i && (|kept| == i ==> AllRefused(View(), kept))
    }

    method TryNext(ghost reqs: seq<Request>, ghost before: Registry, kept: seq<Request>, r: Request,
                   ghost back: seq<Request>, ghost rest: seq<Request>, ghost i: nat)
      returns (kept': seq<Request>, ghost rest': seq<Request>)
      requires rest == kept + [r] + back && InRound(reqs, before, kept, rest, i)
      modifies this`services, this`defs
      ensures rest' == kept' + back && InRound(reqs, before, kept', rest', i + 1)
    {
      ghost var now := View();
      rest', kept' := rest, kept;
      assert r in rest;
      var ok := Create(r);
      if ok {
        rest' := kept + back;
        ProgressStep(reqs, before, now, kept, r, back, View());
      } else {
        kept' := kept + [r];
      }
    }

    /** The first half of Start: the objects registered under the names, in order, for the starter. The read lock
        is given back exactly when every name is registered: after an unknown name no batch gets in any more. */
    method LookUp(serviceNames: seq<string>) returns (svcs: Option<seq<Task>>)
      requires Valid()
      modifies this`readers
      ensures svcs.Some? <==> forall n :: n in serviceNames ==> n in services
      ensures readers == old(readers) + if svcs.Some? then 0 else 1
      ensures svcs.Some? ==> UniverseOf(defs).Known(svcs.value) && |svcs.value| == |serviceNames|
      ensures svcs.Some? ==> forall i :: 0 <= i < |serviceNames| ==>
                svcs.value[i] == services[serviceNames[i]] && UniverseOf(defs).Key(svcs.value[i]) == serviceNames[i]
    {
      readers := readers + 1;
      var found: seq<Task> := [];
      for i := 0 to |serviceNames|
        invariant |found| == i
        invariant forall k :: 0 <= k < i ==> serviceNames[k] in services && found[k] == services[serviceNames[k]]
      {
        if serviceNames[i] !in services {
          return None;
        }
        found := found + [services[serviceNames[i]]];
      }
      readers := readers - 1;
      return Some(found);
    }

    /** A single Start for an unknown name, on a new registry, and the read lock stays taken. */
    static method UnknownNameKeepsLock(name: string) returns (p: SvcCtlProcessor)
      ensures fresh(p) && p.Valid() && p.readers == 1
    {
      p := new SvcCtlProcessor();
      var svcs := p.LookUp([name]);
      assert name in [name];
    }

    /** RemoveBatch: stop and unregister one name after another, up to the first that is unknown or whose
        service does not stop. The objects stay: others may still depend on them. */
    method RemoveBatch(names: seq<string>, stops: map<string, bool>) returns (ok: bool, removed: nat)
      requires Valid()
      modifies this`services
      ensures Valid()
      ensures removed <= |names| && (ok <==> removed == |names|)
      ensures forall i :: 0 <= i < removed ==> names[i] in old(services) && Stops(stops, names[i])
      ensures forall i, j :: 0 <= i < j < removed ==> names[i] != names[j]
      ensures !ok ==>
                || names[removed] !in old(services) || names[removed] in names[..removed]
                || !Stops(stops, names[removed])
      ensures services == old(services) - SetOf(names[..removed])
    {
      removed := 0;
      while removed < |names|
        invariant removed <= |names|
        invariant forall i :: 0 <= i < removed ==> names[i] in old(services) && Stops(stops, names[i])
        invariant forall i, j :: 0 <= i < j < removed ==> names[i] != names[j]
        invariant services == old(services) - SetOf(names[..removed])
      {
        if names[removed] !in services || !Stops(stops, names[removed]) {
          return false, removed;
        }
        services := services - {names[removed]};
        assert SetOf(names[..removed + 1]) == SetOf(names[..removed]) + {names[removed]};
        removed := removed + 1;
      }
      return true, removed;
    }
  }

  /** Whether Stop on the service returned nil. */
  predicate Stops(stops: map<string, bool>, name: string) {
    name in stops ==> stops[name]
  }

  // ----- what creation order gives the scheduler -----

  /** The start tasks of all service objects: the key is the name, the dependents are the objects'. */
  function UniverseOf(defs: seq<Definition>): Universe {
    Universe(map i: nat | i < |defs| :: defs[i].name, map i: nat | i < |defs| :: defs[i].dependents)
  }

  /** Whichever objects have been removed and created again: the runner's list begins with the objects that are
      registered under the requested names, in the order of the request. */
  lemma RequestedAreListed(r: Registry, names: seq<string>, given: seq<Task>, ts: seq<Task>)
    requires r.Sound() && |given| == |names|
    requires forall i :: 0 <= i < |names| ==> names[i] in r.services && given[i] == r.services[names[i]]
    requires IsBreadthFirst(UniverseOf(r.defs), given, ts)
    ensures forall i :: 0 <= i < |names| ==> r.services[names[i]] in ts
    ensures Firsts(UniverseOf(r.defs), given) <= ts
  {
    var u := UniverseOf(r.defs);
    GivenComeFirst(u, given, ts);
    forall i | 0 <= i < |names|
      ensures given[i] in ts
    {
      forall s | s in given && u.Key(s) == u.Key(given[i])
        ensures s == given[i]
      {
        var j :| 0 <= j < |given| && given[j] == s;
        assert u.Key(s) == names[j] && u.Key(given[i]) == names[i];
      }
      GivenIsListed(u, given, ts, given[i]);
    }
  }

  /** After any sequence of batches the object graph has no cycle. */
  lemma ObjectsAcyclic(defs: seq<Definition>)
    requires CreatedInOrder(defs)
    ensures Acyclic(UniverseOf(defs).TaskGraph())
  {
    var g := UniverseOf(defs).TaskGraph();
    RankedIsAcyclic(g, map t | t in g :: t);
  }

  /** A batch of names never used before keeps every name unique. */
  lemma NoReuseKept(reqs: seq<Request>, before: Registry, now: Registry)
    requires before.Sound() && now.Sound() && before.GrewInto(now) && NewObjects(reqs, before, now)
    requires NoReuse(before.defs)
    requires forall r, i :: r in reqs && 0 <= i < |before.defs| ==> before.defs[i].name != r.name
    ensures NoReuse(now.defs)
  {
    forall i, j | 0 <= i < j < |now.defs|
      ensures now.defs[i].name != now.defs[j].name
    {
      if j < |before.defs| {
        assert now.defs[i] == before.defs[i] && now.defs[j] == before.defs[j];
      } else {
        var r :| r in reqs && MadeFrom(now.defs, j, r);
        if i < |before.defs| {
          assert now.defs[i] == before.defs[i];
        }
      }
    }
  }

  /** Without reuse, names identify objects, and the dependency relation between names has no cycle either. */
  lemma NamesAcyclic(defs: seq<Definition>, ts: seq<Task>)
    requires CreatedInOrder(defs) && NoReuse(defs)
    requires UniverseOf(defs).Schedulable(ts)
    ensures UniverseOf(defs).KeysIdentify()
    ensures Acyclic(UniverseOf(defs).KeyGraph(ts))
  {
    var u := UniverseOf(defs);
    var rank: map<string, nat> := u.ByKey(ts);
    u.ByKeyFinds(ts);
    forall x, y | y in Succ(u.KeyGraph(ts), x)
      ensures x in rank && y in rank && rank[y] < rank[x]
    {
      var t := rank[x];
      var d :| d in u.Dependents(t) && u.Key(d) == y;
      assert y in u.KeysOf(ts);
      var s := rank[y];
      assert s == d;
    }
    RankedIsAcyclic(u.KeyGraph(ts), rank);
  }

  /** So the pool of a start of any of the services, with any number of workers, can run to its end as long as the
      tasks it runs return: creation discharges the assumption on which the scheduler is free of deadlock. */
  lemma PoolRunsToItsEnd(defs: seq<Definition>, given: seq<Task>, ts: seq<Task>, n: nat,
                            steps: seq<P.Step>, states: seq<P.Pool>)
    requires CreatedInOrder(defs) && NoReuse(defs)
    requires IsUniqueDeps(UniverseOf(defs), given, ts)
    requires P.Execution(UniverseOf(defs), ts, n, steps, states)
    ensures |steps| <= 2 * (n + 2) * |ts| + n
    ensures S.AllExited(states[|steps|]) || exists step :: P.Enabled(states[|steps|], step)
  {
    NamesAcyclic(defs, ts);
    S.AcyclicRunsEnd(UniverseOf(defs), ts, n, steps, states);
  }

  /** Reuse is what can break it. Create a, then b on a, remove a, create a on b: the new a depends on b, which
      still depends on the old a, and among the names that is a cycle. Starting the new a then never ends
      without an error. */
  lemma ReuseCanCycle(r1: Registry, r2: Registry, r3: Registry)
    requires Registry(map[], []).Registers(Request("a", V.Daemon, [], [], true), r1)
    requires r1.Registers(Request("b", V.Daemon, ["a"], [], true), r2)
    requires Registry(r2.services - {"a"}, r2.defs).Registers(Request("a", V.Daemon, ["b"], [], true), r3)
    ensures IsUniqueDeps(UniverseOf(r3.defs), [2], [2, 1]) && IsBreadthFirst(UniverseOf(r3.defs), [2], [2, 1])
    ensures !Acyclic(UniverseOf(r3.defs).KeyGraph([2, 1]))
  {
    var u, ts := UniverseOf(r3.defs), [2, 1];
    assert u.Key(2) == "a" && u.Key(1) == "b" && u.Key(0) == "a";
    assert u.Dependents(2) == [1] && u.Dependents(1) == [0];
    NewOneFirst(u, [2]);
    ReusedNameCycle(u);
  }

  /** Reuse can also leave a dependency out without any cycle. Create a, then b on a, remove a, create a again:
      starting both then starts the new a, while b depends on the old one. */
  lemma ReuseCanLeaveOut(r1: Registry, r2: Registry, r3: Registry)
    requires Registry(map[], []).Registers(Request("a", V.Daemon, [], [], true), r1)
    requires r1.Registers(Request("b", V.Daemon, ["a"], [], true), r2)
    requires Registry(r2.services - {"a"}, r2.defs).Registers(Request("a", V.Daemon, [], [], true), r3)
    ensures r3.services["a"] == 2 && r3.services["b"] == 1
    ensures IsUniqueDeps(UniverseOf(r3.defs), [2, 1], [2, 1]) && IsBreadthFirst(UniverseOf(r3.defs), [2, 1], [2, 1])
    ensures 0 in UniverseOf(r3.defs).Dependents(1) && !UniverseOf(r3.defs).Coherent([2, 1])
  {
    assert r3.defs[..2] == r2.defs && r2.defs[..1] == r1.defs;
    assert r2.defs[1].dependents[0] == 0;
    var u := UniverseOf(r3.defs);
    assert u.Key(2) == "a" && u.Key(1) == "b" && u.Key(0) == "a";
    assert u.Dependents(2) == [] && u.Dependents(1) == [0];
    NamesakeListed(u);
  }

  /** With the new a visited and b in the queue, the list ends up as the two of them. */
  lemma OldOneLast(u: Universe, given: seq<Task>)
    requires u.Key(2) == "a" && u.Key(1) == "b" && u.Key(0) == "a" && u.Dependents(1) == [0]
    requires InTurn(u, given, [2], [1], [2])
    ensures IsBreadthFirst(u, given, [2, 1])
  {
    InTurnAfterVisit(u, given, [2], [1], [2]);
    var turns: seq<Task>, queue: seq<Task>, deps: seq<Task> := [2, 1], [0], [2, 1];
    assert [2] + [1] == turns && [1][1..] + u.Dependents(1) == queue;
    assert deps[0] in deps;
    InTurnAfterSkip(u, given, turns, queue, deps);
    assert queue[1..] == [];
    InTurnAtEnd(u, given, turns + [0], deps);
  }

  lemma NewOneFirst(u: Universe, given: seq<Task>)
    requires u.Key(2) == "a" && u.Key(1) == "b" && u.Key(0) == "a" && u.Dependents(1) == [0]
    requires (given == [2] && u.Dependents(2) == [1]) || (given == [2, 1] && u.Dependents(2) == [])
    ensures IsBreadthFirst(u, given, [2, 1])
  {
    InTurnAfterVisit(u, given, [], given, []);
    assert [] + [2] == [2] && given[1..] + u.Dependents(2) == [1];
    OldOneLast(u, given);
  }

  lemma NamesakeListed(u: Universe)
    requires 0 in u.key && 1 in u.key && 2 in u.key
    requires u.Key(2) == "a" && u.Key(1) == "b" && u.Key(0) == "a"
    requires u.Dependents(2) == [] && u.Dependents(1) == [0]
    ensures IsUniqueDeps(u, [2, 1], [2, 1]) && IsBreadthFirst(u, [2, 1], [2, 1])
    ensures 0 in u.Dependents(1) && !u.Coherent([2, 1])
  {
    var ts: seq<Task> := [2, 1];
    NewOneFirst(u, ts);
    assert 2 in ts && 1 in ts && "a" in u.KeysOf(ts) && 0 in u.Dependents(1);
    var first: Task := 0;
    assert first !in ts && first in u.Dependents(1);
    forall t | t in ts
      ensures Reachable(u.TaskGraph(), SetOf(ts), t)
    {
      ReachableRoot(u.TaskGraph(), SetOf(ts), t);
    }
  }

  lemma ReusedNameCycle(u: Universe)
    requires 0 in u.key && 1 in u.key && 2 in u.key && 2 in u.dependents && 1 in u.dependents
    requires u.Key(2) == "a" && u.Key(1) == "b" && u.Key(0) == "a"
    requires u.Dependents(2) == [1] && u.Dependents(1) == [0]
    ensures IsUniqueDeps(u, [2], [2, 1])
    ensures !Acyclic(u.KeyGraph([2, 1]))
  {
    var ts: seq<Task> := [2, 1];
    assert 2 in ts && 1 in ts;
    assert "a" in u.KeysOf(ts) && "b" in u.KeysOf(ts);
    var given: seq<Task> := [2];
    var roots := SetOf(given);
    assert 2 in given && 2 in roots;
    ReachableRoot(u.TaskGraph(), roots, 2);
    assert 1 in u.dependents[2] && 1 in Succ(u.TaskGraph(), 2);
    ReachableStep(u.TaskGraph(), roots, 2, 1);
    u.KeyGraphEdges(ts);
    var g := u.KeyGraph(ts);
    assert "b" in Succ(g, "a") && "a" in Succ(g, "b") by {
      assert 1 in u.Dependents(2) && 0 in u.Dependents(1);
    }
    assert Walk(g, ["a", "b", "a"]);
  }
}
