/** What the death of the process does to a launch, and what the end of STARTING does to its pollers. */
module ServiceFailure {
  import opened ServiceProtocol
  import opened ServiceStop
  import R = ServiceReach

  predicate Up(st: Status) {
    st == Starting || st == Started
  }

  /** The process has exited as it must have for the launch to fail. */
  predicate Died(cfg: Config, s: Service) {
    s.process.Exited? && (cfg.kind.OneShot? ==> !s.process.ok)
  }

  /** ERROR and STOPPED have their reasons, and whoever saw the process die has said so. */
  ghost predicate FailureSound(cfg: Config, s: Service) {
    && (s.watcher.Closes? || s.watcher.Reports? || s.watcher.Gone? ==> Died(cfg, s))
    && (s.waiter.Failing? ==> Died(cfg, s))
    && (s.watcher.Gone? ==> !Up(s.Status()))
    && (cfg.kind.OneShot? && s.waiter.Finished? && Died(cfg, s) ==> !Up(s.Status()))
    && (Error in s.history ==> Died(cfg, s))
    && (Stopped in s.history ==> Stopping in s.history && (cfg.kind.Daemon? ==> s.process.Exited?))
  }

  lemma FailureSoundNext(cfg: Config, s: Service, step: Step, s': Service)
    requires Watched(cfg, s) && FailureSound(cfg, s) && Enabled(cfg, s, step) && s' == Next(cfg, s, step)
    ensures FailureSound(cfg, s')
  {
    StatusMoves(cfg, s, step, s');
  }

  /** A step adds one status to the history, or none. */
  lemma StatusMoves(cfg: Config, s: Service, step: Step, s': Service)
    requires Invariant(cfg, s) && Enabled(cfg, s, step) && s' == Next(cfg, s, step)
    ensures s'.history == s.history || s'.history == s.history + [s'.Status()]
    ensures !Up(s.Status()) ==> !Up(s'.Status())
    ensures s.Status() != Starting ==> s'.Status() != Starting
  {
  }

  lemma {:induction false} FailureSoundAlways(cfg: Config, steps: seq<Step>, states: seq<Service>, i: nat)
    requires Execution(cfg, steps, states) && i < |states|
    ensures Watched(cfg, states[i]) && FailureSound(cfg, states[i])
  {
    WatchedAlways(cfg, steps, states, i);
    if i > 0 {
      FailureSoundAlways(cfg, steps, states, i - 1);
      FailureSoundNext(cfg, states[i - 1], steps[i - 1], states[i]);
    }
  }

  /** None of the goroutines of the launch can step. */
  ghost predicate Quiet(cfg: Config, s: Service) {
    forall step :: OwnStep(step) ==> !Enabled(cfg, s, step)
  }

  /** Once a daemon's process has exited, or a task's with an error, and the goroutines of the launch have done all
      they can, the service is neither STARTING nor STARTED: it is in ERROR unless somebody has stopped it. */
  lemma DeathEndsStarted(cfg: Config, steps: seq<Step>, states: seq<Service>, i: nat)
    requires Execution(cfg, steps, states) && i < |states|
    requires Died(cfg, states[i]) && Quiet(cfg, states[i])
    ensures states[i].Status() in {Error, Stopping, Stopped}
    ensures states[i].Status() == Error || Stopping in states[i].history
  {
    var s := states[i];
    FailureSoundAlways(cfg, steps, states, i);
    assert !Enabled(cfg, s, WaiterStep) && !Enabled(cfg, s, WatcherStep);
    assert s.Status() in s.history;
  }

  /** And that is the only way to ERROR: the process has exited, and a task's with an error. */
  lemma ErrorIsEarned(cfg: Config, steps: seq<Step>, states: seq<Service>, i: nat)
    requires Execution(cfg, steps, states) && i < |states| && Error in states[i].history
    ensures Died(cfg, states[i])
  {
    FailureSoundAlways(cfg, steps, states, i);
  }

  ghost predicate StoppedWhenExited(cfg: Config, steps: seq<Step>, states: seq<Service>) {
    Execution(cfg, steps, states) && Stopped in states[|steps|].history ==> states[|steps|].process.Exited?
  }

  /** STOPPED means in every run that the process has exited, exactly when the service is a daemon: Stop does not wait
      for a task's process. */
  lemma StoppedMeansExitedIff(cfg: Config)
    ensures (forall steps, states :: StoppedWhenExited(cfg, steps, states)) <==> cfg.kind.Daemon?
  {
    if cfg.kind.Daemon? {
      forall steps: seq<Step>, states: seq<Service>
        | Execution(cfg, steps, states) && Stopped in states[|steps|].history
        ensures states[|steps|].process.Exited?
      {
        FailureSoundAlways(cfg, steps, states, |steps|);
      }
      assert forall steps, states :: StoppedWhenExited(cfg, steps, states);
    } else {
      var first := Launched(cfg);
      var second := Next(cfg, first, StopBegin);
      var third := Next(cfg, second, StopEnd(false));
      assert third.history[2] == Stopped;
      assert !StoppedWhenExited(cfg, [StopBegin, StopEnd(false)], [first, second, third]);
    }
  }

  /** Every daemon, once STARTED, can go on to ERROR. */
  lemma StartedCanFail(cfg: Config, ok: bool) returns (steps: seq<Step>, states: seq<Service>)
    requires cfg.kind.Daemon?
    ensures Execution(cfg, steps, states)
    ensures states[|steps|].history == [Starting, Started, Error]
  {
    steps, states := R.StartedCanBeReached(cfg);
    var s := states[|steps|];
    FailureSoundAlways(cfg, steps, states, |steps|);
    assert Started in s.history by {
      assert s.history[1] == Started;
    }
    assert s.watcher.AwaitsExit? && !s.locked;
    assert R.EndsIn(cfg, steps, states, s);
    R.ReachNext(cfg, s, ProcessExit(ok));
    s := Next(cfg, s, ProcessExit(ok));
    for i := 0 to 3
      invariant R.CanReach(cfg, s) && s.process.Exited? && !s.locked
      invariant s.history == if i == 3 then [Starting, Started, Error] else [Starting, Started]
      invariant s.watcher == if i == 0 then AwaitsExit else if i == 1 then Closes else if i == 2 then Reports else Gone
    {
      R.ReachNext(cfg, s, WatcherStep);
      s := Next(cfg, s, WatcherStep);
    }
    steps, states :| R.EndsIn(cfg, steps, states, s);
  }

  // ----- the pollers -----

  /** Once STARTING is over a poller that is not in the middle of a check never begins one, and a check that fails is
      its last. */
  lemma {:induction false} NoCheckAfterStarting(
    cfg: Config, steps: seq<Step>, states: seq<Service>, i: nat, j: nat, p: nat)
    requires Execution(cfg, steps, states) && i <= j < |states|
    requires states[i].Status() != Starting && p < |states[i].pollers| && !states[i].pollers[p].Checking?
    ensures states[j].Status() != Starting && p < |states[j].pollers| && !states[j].pollers[p].Checking?
    decreases j
  {
    if i < j {
      NoCheckAfterStarting(cfg, steps, states, i, j - 1, p);
      InvariantAlways(cfg, steps, states, j - 1);
      StatusMoves(cfg, states[j - 1], steps[j - 1], states[j]);
    }
  }

  /** A check of the poller has returned with success in the first `i` steps. */
  ghost predicate CheckPassed(steps: seq<Step>, i: nat, p: nat)
    requires i <= |steps|
  {
    exists k :: 0 <= k < i && steps[k] == Result(p, true)
  }

  /** A poller counts as passed only after one of its checks has. */
  lemma {:induction false} PassedIsReported(cfg: Config, steps: seq<Step>, states: seq<Service>, i: nat, p: nat)
    requires Execution(cfg, steps, states) && i < |states| && p < |states[i].pollers| && states[i].pollers[p].Passed?
    ensures CheckPassed(steps, i, p)
  {
    if i > 0 {
      var s, step := states[i - 1], steps[i - 1];
      assert states[i] == Next(cfg, s, step);
      if p < |s.pollers| && s.pollers[p].Passed? {
        PassedIsReported(cfg, steps, states, i - 1, p);
      } else {
        assert step == Result(p, true);
      }
    }
  }

  /** And the process has exited the way it did. */
  lemma {:induction false} ExitIsReported(cfg: Config, steps: seq<Step>, states: seq<Service>, i: nat)
    requires Execution(cfg, steps, states) && i < |states| && states[i].process.Exited?
    ensures exists k :: 0 <= k < i && steps[k] == ProcessExit(states[i].process.ok)
  {
    if i > 0 {
      assert states[i] == Next(cfg, states[i - 1], steps[i - 1]);
      if states[i - 1].process.Exited? {
        ExitIsReported(cfg, steps, states, i - 1);
      } else {
        assert steps[i - 1] == ProcessExit(states[i].process.ok);
      }
    }
  }

  /** So in every run in which a launch is ever STARTED each of its checks has returned with success at some time, and
      the process of a task has exited with success. */
  lemma StartedIsReported(cfg: Config, steps: seq<Step>, states: seq<Service>, i: nat)
    requires Execution(cfg, steps, states) && i < |states| && Started in states[i].history
    ensures forall p: nat :: p < cfg.Checks() ==> CheckPassed(steps, i, p)
    ensures cfg.kind.OneShot? ==> exists k :: 0 <= k < i && steps[k] == ProcessExit(true)
  {
    StartedIsEarned(cfg, steps, states, i);
    forall p: nat | p < cfg.Checks()
      ensures CheckPassed(steps, i, p)
    {
      PassedIsReported(cfg, steps, states, i, p);
    }
    if cfg.kind.OneShot? {
      ExitIsReported(cfg, steps, states, i);
    }
  }

  /** So when STARTING is over and the goroutines of the launch have done all they can, none of its pollers is left in
      the loop. */
  lemma PollersEnd(cfg: Config, s: Service, p: nat)
    requires Quiet(cfg, s) && p < |s.pollers|
    ensures s.pollers[p].Unborn? || s.pollers[p].Passed? || s.pollers[p].GaveUp?
  {
    assert !Enabled(cfg, s, Look(p)) && !Enabled(cfg, s, Result(p, true));
  }
}
