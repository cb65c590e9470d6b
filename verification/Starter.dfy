/** From creation to the end of a start: what the services' owner gets out of CreateBatch and Start together. */
module Starter {
  import opened Tasks
  import S = Scheduler
  import V = ServiceProtocol
  import O = StartOrder
  import E = StartOutcome
  import opened Processor

  function ConfigOf(def: Definition): V.Config {
    V.Config(def.kind, def.verifyCmds, def.httpChecks)
  }

  /** How each service object is launched. */
  function Configs(defs: seq<Definition>): map<Task, V.Config> {
    map i: nat | i < |defs| :: ConfigOf(defs[i])
  }

  /** The service has passed every check its request asked for that is polled at all, and a task has exited with
      success. */
  ghost predicate Healthy(def: Definition, svc: V.Service) {
    && |svc.pollers| == def.verifyCmds + (if def.kind.Daemon? then def.httpChecks else 0)
    && (forall i :: 0 <= i < |svc.pollers| ==> svc.pollers[i].Passed?)
    && (def.kind.OneShot? ==> svc.process == V.Exited(true))
  }

  /** For services created without reuse of names, in every run of a starter on any of them and with any other
      clients about: when Start is called on a service, every service that its request depends on was observed in
      STARTED earlier in the run, and from then on, as long as it is in its first launch, it is healthy. */
  lemma ServicesStartInOrder(
    defs: seq<Definition>, given: seq<Task>, ts: seq<Task>, n: nat,
    steps: seq<O.Step>, states: seq<O.Sys>, i: nat, k: nat, d: Task)
    requires CreatedInOrder(defs) && NoReuse(defs)
    requires UniverseOf(defs).Known(given) && IsUniqueDeps(UniverseOf(defs), given, ts)
    requires O.Execution(UniverseOf(defs), Configs(defs), ts, n, steps, states) && i < |states|
    requires k < |states[i].log| && states[i].log[k].StartCalled?
    requires states[i].log[k].task < |defs| && d in defs[states[i].log[k].task].dependents
    ensures exists j :: 0 <= j < k && states[i].log[j] == O.Observed(d, V.Started)
    ensures d < |defs|
    ensures O.CellOf(states[i].cells, d).InLaunch? ==> Healthy(defs[d], O.CellOf(states[i].cells, d).svc)
  {
    var u := UniverseOf(defs);
    NamesAcyclic(defs, ts);
    IdentifiedIsCoherent(u, ts);
    O.StartOrder(u, Configs(defs), ts, n, steps, states, i, k, d);
    if O.CellOf(states[i].cells, d).InLaunch? {
      O.StartedDependenciesAreHealthy(u, Configs(defs), ts, n, steps, states, i, d);
    }
  }

  /** And no run of such a starter hangs of its own accord: in every state all workers have exited, or the starter or
      a goroutine of some launch can step, or some worker waits for a Stop that holds its service's lock, for a
      task's process, or for a service that has been started again. */
  lemma StartsNeverHang(
    defs: seq<Definition>, ts: seq<Task>, n: nat, steps: seq<O.Step>, states: seq<O.Sys>, i: nat)
    requires CreatedInOrder(defs) && NoReuse(defs) && UniverseOf(defs).Schedulable(ts)
    requires O.Execution(UniverseOf(defs), Configs(defs), ts, n, steps, states) && i < |states|
    ensures S.AllExited(states[i].pool)
            || (exists step :: O.OwnStep(step) && O.Enabled(UniverseOf(defs), Configs(defs), states[i], step))
            || (exists w :: O.Running(states[i], w) && O.HeldUp(Configs(defs), states[i], w))
  {
    NamesAcyclic(defs, ts);
    O.StarterNeverHangs(UniverseOf(defs), Configs(defs), ts, n, steps, states, i);
  }

  /** Whatever was removed and created again: a start that has ended without an error has seen every service that is
      registered under a requested name in STARTED. */
  lemma RequestedWereStarted(
    r: Registry, names: seq<string>, given: seq<Task>, ts: seq<Task>, cfgs: map<Task, V.Config>, n: nat,
    steps: seq<O.Step>, states: seq<O.Sys>, k: nat)
    requires r.Sound() && |given| == |names|
    requires forall i :: 0 <= i < |names| ==> names[i] in r.services && given[i] == r.services[names[i]]
    requires IsUniqueDeps(UniverseOf(r.defs), given, ts)
    requires IsBreadthFirst(UniverseOf(r.defs), given, ts) && n >= 1
    requires O.Execution(UniverseOf(r.defs), cfgs, ts, n, steps, states)
    requires S.AllExited(states[|steps|].pool) && states[|steps|].pool.err.None? && k < |names|
    ensures O.Observed(r.services[names[k]], V.Started) in states[|steps|].log
  {
    RequestedAreListed(r, names, given, ts);
    E.StartSucceedsIff(UniverseOf(r.defs), cfgs, ts, n, steps, states, |steps|);
  }

  /** And services created without reuse of names can be started: there is a run that ends without an error. */
  lemma CreatedCanStart(defs: seq<Definition>, ts: seq<Task>, n: nat) returns (steps: seq<O.Step>, states: seq<O.Sys>)
    requires CreatedInOrder(defs) && NoReuse(defs) && UniverseOf(defs).Schedulable(ts) && n >= 1
    ensures O.Execution(UniverseOf(defs), Configs(defs), ts, n, steps, states) && states[0].cells == map[]
    ensures S.AllExited(states[|steps|].pool) && states[|steps|].pool.err.None?
    ensures forall t :: t in ts ==> O.Observed(t, V.Started) in states[|steps|].log
  {
    NamesAcyclic(defs, ts);
    steps, states := E.StartCanSucceed(UniverseOf(defs), Configs(defs), ts, n);
  }
}
