/** Which states a launch can get to, and so what STARTED does not promise. */
module ServiceReach {
  import opened ServiceProtocol

  ghost predicate EndsIn(cfg: Config, steps: seq<Step>, states: seq<Service>, s: Service) {
    Execution(cfg, steps, states) && states[|steps|] == s
  }

  ghost predicate CanReach(cfg: Config, s: Service) {
    exists steps, states :: EndsIn(cfg, steps, states, s)
  }

  lemma ReachLaunched(cfg: Config)
    ensures CanReach(cfg, Launched(cfg))
  {
    assert EndsIn(cfg, [], [Launched(cfg)], Launched(cfg));
  }

  lemma ReachNext(cfg: Config, s: Service, step: Step)
    requires CanReach(cfg, s) && Enabled(cfg, s, step)
    ensures CanReach(cfg, Next(cfg, s, step))
  {
    var steps, states :| EndsIn(cfg, steps, states, s);
    var t := Next(cfg, s, step);
    assert EndsIn(cfg, steps + [step], states + [t], t);
  }

  /** The pollers of a reachable launch, once spawned, are all looking. */
  lemma ReachSpawned(cfg: Config, s: Service) returns (t: Service)
    requires CanReach(cfg, s) && s.waiter == Spawning(0) && |s.pollers| == cfg.Checks() && s.Status() == Starting
    ensures CanReach(cfg, t) && t.waiter == AwaitingChecks && |t.pollers| == cfg.Checks()
    ensures forall i :: 0 <= i < |t.pollers| ==> t.pollers[i].Looking?
    ensures t.history == s.history && t.process == s.process && t.locked == s.locked
  {
    t := s;
    for i := 0 to |s.pollers|
      invariant CanReach(cfg, t) && t.waiter == Spawning(i) && |t.pollers| == |s.pollers|
      invariant forall k :: 0 <= k < i ==> t.pollers[k].Looking?
      invariant t.history == s.history && t.process == s.process && t.locked == s.locked
    {
      ReachNext(cfg, t, WaiterStep);
      t := Next(cfg, t, WaiterStep);
    }
    ReachNext(cfg, t, WaiterStep);
    t := Next(cfg, t, WaiterStep);
  }

  /** And each of them may pass at once. */
  lemma ReachPassed(cfg: Config, s: Service) returns (t: Service)
    requires CanReach(cfg, s) && s.waiter == AwaitingChecks && s.Status() == Starting
    requires forall i :: 0 <= i < |s.pollers| ==> s.pollers[i].Looking?
    ensures CanReach(cfg, t) && t.waiter == AwaitingChecks && |t.pollers| == |s.pollers|
    ensures forall i :: 0 <= i < |t.pollers| ==> t.pollers[i].Passed?
    ensures t.history == s.history && t.process == s.process && t.locked == s.locked
  {
    t := s;
    for i := 0 to |s.pollers|
      invariant CanReach(cfg, t) && t.waiter == AwaitingChecks && |t.pollers| == |s.pollers|
      invariant forall k :: 0 <= k < i ==> t.pollers[k].Passed?
      invariant forall k :: i <= k < |t.pollers| ==> t.pollers[k].Looking?
      invariant t.history == s.history && t.process == s.process && t.locked == s.locked
    {
      ReachNext(cfg, t, Look(i));
      t := Next(cfg, t, Look(i));
      ReachNext(cfg, t, Result(i, true));
      t := Next(cfg, t, Result(i, true));
    }
  }

  /** Where the pollers of a launch begin: at once, or after a process that exited with success. */
  lemma ReachSpawning(cfg: Config) returns (t: Service)
    ensures CanReach(cfg, t) && t.waiter == Spawning(0) && |t.pollers| == cfg.Checks()
    ensures t.history == [Starting] && !t.locked
    ensures t.process == if cfg.kind.Daemon? then Alive else Exited(true)
  {
    t := Launched(cfg);
    ReachLaunched(cfg);
    ReachNext(cfg, t, WaiterStep);
    t := Next(cfg, t, WaiterStep);
    if cfg.kind.OneShot? {
      ReachNext(cfg, t, ProcessExit(true));
      t := Next(cfg, t, ProcessExit(true));
      ReachNext(cfg, t, WaiterStep);
      t := Next(cfg, t, WaiterStep);
      ReachNext(cfg, t, WaiterStep);
      t := Next(cfg, t, WaiterStep);
    }
  }

  /** Every service can become STARTED: a daemon while its process runs, a task after its process exited. */
  lemma StartedCanBeReached(cfg: Config) returns (steps: seq<Step>, states: seq<Service>)
    ensures Execution(cfg, steps, states)
    ensures states[|steps|].history == [Starting, Started] && |states[|steps|].pollers| == cfg.Checks()
    ensures states[|steps|].process == if cfg.kind.Daemon? then Alive else Exited(true)
  {
    var t := ReachSpawning(cfg);
    t := ReachSpawned(cfg, t);
    t := ReachPassed(cfg, t);
    var passed, states' :| EndsIn(cfg, passed, states', t);
    InvariantAlways(cfg, passed, states', |passed|);
    NonePending(t.pollers);
    ReachNext(cfg, t, WaiterStep);
    t := Next(cfg, t, WaiterStep);
    ReachNext(cfg, t, WaiterStep);
    t := Next(cfg, t, WaiterStep);
    steps, states :| EndsIn(cfg, steps, states, t);
  }

  /** A daemon without health checks is STARTED with its process still running: nothing waits for an exit. */
  lemma UncheckedDaemonStarts(cfg: Config) returns (steps: seq<Step>, states: seq<Service>)
    requires cfg.kind.Daemon? && cfg.Checks() == 0
    ensures Execution(cfg, steps, states)
    ensures states[|steps|].Status() == Started && states[|steps|].process.Alive?
  {
    steps, states := StartedCanBeReached(cfg);
  }

  ghost predicate StartedWhenExited(cfg: Config, steps: seq<Step>, states: seq<Service>) {
    Execution(cfg, steps, states) && Started in states[|steps|].history ==> states[|steps|].process == Exited(true)
  }

  /** Whatever checks it has, STARTED means in every run that the process exited with success, exactly when the
      service is a task. */
  lemma StartedMeansExitedIff(cfg: Config)
    ensures (forall steps, states :: StartedWhenExited(cfg, steps, states)) <==> cfg.kind.OneShot?
  {
    if cfg.kind.OneShot? {
      forall steps: seq<Step>, states: seq<Service>
        | Execution(cfg, steps, states) && Started in states[|steps|].history
        ensures states[|steps|].process == Exited(true)
      {
        StartedIsEarned(cfg, steps, states, |steps|);
      }
      assert forall steps, states :: StartedWhenExited(cfg, steps, states);
    } else {
      var steps, states := StartedCanBeReached(cfg);
      assert states[|steps|].history[1] == Started;
      assert !StartedWhenExited(cfg, steps, states);
    }
  }

  /** A task whose only health checks are HTTP checks is STARTED without a single poller. */
  lemma UnpolledTaskStarts(cfg: Config) returns (steps: seq<Step>, states: seq<Service>)
    requires cfg.kind.OneShot? && cfg.verifyCmds == 0 && cfg.httpChecks > 0
    ensures Execution(cfg, steps, states)
    ensures states[|steps|].Status() == Started && states[|steps|].pollers == []
  {
    steps, states := StartedCanBeReached(cfg);
  }

  predicate PassedAt(s: Service, i: nat) {
    i < |s.pollers| && s.pollers[i].Passed?
  }

  /** Every health check that the service asks for, commands first, has a poller and has passed. */
  ghost predicate AllAskedPassed(cfg: Config, s: Service) {
    forall i :: 0 <= i < cfg.verifyCmds + cfg.httpChecks ==> PassedAt(s, i)
  }

  ghost predicate StartedWhenAllPassed(cfg: Config, steps: seq<Step>, states: seq<Service>) {
    Execution(cfg, steps, states) && Started in states[|steps|].history ==> AllAskedPassed(cfg, states[|steps|])
  }

  /** STARTED means in every run that every check asked for has passed, exactly when the service is a daemon or asks
      for no HTTP check. */
  lemma StartedMeansAllPassedIff(cfg: Config)
    ensures (forall steps, states :: StartedWhenAllPassed(cfg, steps, states))
            <==> cfg.kind.Daemon? || cfg.httpChecks == 0
  {
    if cfg.kind.Daemon? || cfg.httpChecks == 0 {
      forall steps: seq<Step>, states: seq<Service>
        | Execution(cfg, steps, states) && Started in states[|steps|].history
        ensures AllAskedPassed(cfg, states[|steps|])
      {
        StartedIsEarned(cfg, steps, states, |steps|);
      }
      assert forall steps, states :: StartedWhenAllPassed(cfg, steps, states);
    } else {
      var steps, states := StartedCanBeReached(cfg);
      var s := states[|steps|];
      assert s.history[1] == Started;
      assert !PassedAt(s, cfg.verifyCmds);
      assert !StartedWhenAllPassed(cfg, steps, states);
    }
  }
}
