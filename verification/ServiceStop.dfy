/** When a Stop that waits for a daemon's process can end. */
module ServiceStop {
  import opened ServiceProtocol

  /** A stretch of a run in which no Stop ends. */
  ghost predicate Stretch(cfg: Config, s: Service, steps: seq<Step>, states: seq<Service>) {
    && |states| == |steps| + 1
    && states[0] == s
    && forall i {:trigger steps[i]} :: 0 <= i < |steps| ==>
         && !steps[i].StopEnd? && Enabled(cfg, states[i], steps[i])
         && states[i + 1] == Next(cfg, states[i], steps[i])
  }

  ghost predicate LeadsToEnd(cfg: Config, s: Service, steps: seq<Step>, states: seq<Service>) {
    Stretch(cfg, s, steps, states) && Enabled(cfg, states[|steps|], StopEnd(false))
  }

  /** The Stop that holds the lock, its first signal sent, can come to an end. */
  ghost predicate CanEnd(cfg: Config, s: Service) {
    exists steps, states :: LeadsToEnd(cfg, s, steps, states)
  }

  lemma EndsNow(cfg: Config, s: Service)
    requires Enabled(cfg, s, StopEnd(false))
    ensures CanEnd(cfg, s)
  {
    assert LeadsToEnd(cfg, s, [], [s]);
  }

  lemma EndsLater(cfg: Config, s: Service, step: Step)
    requires !step.StopEnd? && Enabled(cfg, s, step) && CanEnd(cfg, Next(cfg, s, step))
    ensures CanEnd(cfg, s)
  {
    var rest, states :| LeadsToEnd(cfg, Next(cfg, s, step), rest, states);
    var steps := [step] + rest;
    assert steps[1..] == rest;
    assert forall i :: 0 < i < |steps| ==> steps[i] == rest[i - 1];
    assert LeadsToEnd(cfg, s, steps, [s] + states);
  }

  /** A daemon is watched, and its exit channel closed by the watcher, once the pollers have been spawned. */
  ghost predicate Watched(cfg: Config, s: Service) {
    Invariant(cfg, s) && ClosedOnce(cfg, s)
    && (cfg.kind.Daemon? && s.watcher.Absent? ==> s.waiter.Entering? || s.waiter.Spawning?)
  }

  lemma {:induction false} WatchedAlways(cfg: Config, steps: seq<Step>, states: seq<Service>, i: nat)
    requires Execution(cfg, steps, states) && i < |states|
    ensures Watched(cfg, states[i])
  {
    ClosedOnceAlways(cfg, steps, states, i);
    if i > 0 {
      WatchedAlways(cfg, steps, states, i - 1);
      var step := steps[i - 1];
      assert states[i] == Next(cfg, states[i - 1], step);
    }
  }

  /** With the watcher there, the process may exit and the watcher close the channel, whoever holds the lock. */
  lemma WatcherLetsEnd(cfg: Config, s: Service)
    requires Watched(cfg, s) && cfg.kind.Daemon? && s.locked && !s.watcher.Absent?
    ensures CanEnd(cfg, s)
    decreases !s.channelClosed, s.watcher.AwaitsExit?, s.process.Alive?
  {
    if s.channelClosed {
      EndsNow(cfg, s);
    } else {
      var step := if s.watcher.AwaitsExit? && s.process.Alive? then ProcessExit(true) else WatcherStep;
      InvariantNext(cfg, s, step, Next(cfg, s, step));
      WatcherLetsEnd(cfg, Next(cfg, s, step));
      EndsLater(cfg, s, step);
    }
  }

  lemma SpawningLetsEnd(cfg: Config, s: Service)
    requires Watched(cfg, s) && cfg.kind.Daemon? && s.locked && s.waiter.Spawning?
    ensures CanEnd(cfg, s)
    decreases |s.pollers| - s.waiter.next
  {
    var t := Next(cfg, s, WaiterStep);
    InvariantNext(cfg, s, WaiterStep, t);
    if s.waiter.next < |s.pollers| {
      SpawningLetsEnd(cfg, t);
    } else {
      WatcherLetsEnd(cfg, t);
    }
    EndsLater(cfg, s, WaiterStep);
  }

  /** A daemon's Stop that got ahead of the waiter: only the process can step, and that changes nothing else. */
  lemma OnlyTheProcess(cfg: Config, s: Service, step: Step)
    requires Watched(cfg, s) && cfg.kind.Daemon? && s.locked && s.waiter.Entering?
    requires Enabled(cfg, s, step) && step != StopEnd(true)
    ensures step.ProcessExit? && Next(cfg, s, step) == s.(process := Exited(step.ok))
  {
  }

  lemma {:induction false} StopGoesOn(cfg: Config, s: Service, steps: seq<Step>, states: seq<Service>, i: nat)
    requires Watched(cfg, s) && cfg.kind.Daemon? && s.locked && s.waiter.Entering?
    requires Stretch(cfg, s, steps, states) && i < |states|
    ensures states[i] == s.(process := states[i].process) && Watched(cfg, states[i])
  {
    if i > 0 {
      StopGoesOn(cfg, s, steps, states, i - 1);
      OnlyTheProcess(cfg, states[i - 1], steps[i - 1]);
      InvariantNext(cfg, states[i - 1], steps[i - 1], states[i]);
    }
  }

  /** In any run, a Stop that holds the lock, its first signal sent, can come to an end exactly when the service is a
      task or the waiter had got hold of the lock before. */
  lemma StopEndsIff(cfg: Config, steps: seq<Step>, states: seq<Service>, i: nat)
    requires Execution(cfg, steps, states) && i < |states| && states[i].locked
    ensures CanEnd(cfg, states[i]) <==> cfg.kind.OneShot? || !states[i].waiter.Entering?
  {
    var s := states[i];
    WatchedAlways(cfg, steps, states, i);
    if cfg.kind.OneShot? {
      EndsNow(cfg, s);
    } else if s.waiter.Spawning? {
      SpawningLetsEnd(cfg, s);
    } else if s.waiter.Entering? {
      forall rest, later | Stretch(cfg, s, rest, later)
        ensures !Enabled(cfg, later[|rest|], StopEnd(false))
      {
        StopGoesOn(cfg, s, rest, later, |rest|);
      }
    } else {
      WatcherLetsEnd(cfg, s);
    }
  }

  /** Every daemon has a run to a Stop that holds the lock with the process dead, and where nothing can happen any
      more unless the first signal had failed. */
  lemma StopCanHang(cfg: Config, ok: bool) returns (steps: seq<Step>, states: seq<Service>)
    requires cfg.kind.Daemon?
    ensures Execution(cfg, steps, states)
    ensures var s := states[|steps|];
            && s.locked && s.process == Exited(ok) && !CanEnd(cfg, s)
            && forall step :: Enabled(cfg, s, step) ==> step == StopEnd(true)
  {
    var first := Launched(cfg);
    var second := Next(cfg, first, StopBegin);
    var third := Next(cfg, second, ProcessExit(ok));
    steps, states := [StopBegin, ProcessExit(ok)], [first, second, third];
    StopEndsIff(cfg, steps, states, 2);
  }

  /** One Stop at a time: between the beginnings of two there is the end of the first. */
  lemma {:induction false} OneStopAtATime(cfg: Config, steps: seq<Step>, states: seq<Service>, i: nat, j: nat)
    requires Execution(cfg, steps, states) && i < j <= |steps| && steps[i].StopBegin?
    ensures states[j].locked || exists k :: i < k < j && steps[k].StopEnd?
    ensures j < |steps| && steps[j].StopBegin? ==> exists k :: i < k < j && steps[k].StopEnd?
  {
    assert states[j] == Next(cfg, states[j - 1], steps[j - 1]);
    if i < j - 1 {
      OneStopAtATime(cfg, steps, states, i, j - 1);
    }
    assert j < |steps| ==> Enabled(cfg, states[j], steps[j]);
  }
}
