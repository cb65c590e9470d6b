/** What Start and Stop find in `svc.Process`, over the whole life of a service object: any number of launches, with
    whatever the goroutines of earlier ones still do to the state. Each act has the service's lock. */
module ServiceLife {
  import V = ServiceProtocol
  import O = StartOrder

  /** `svc.Process`: nil, a command whose process did not start, or one whose process did. */
  datatype Handle = NoProcess | NotStarted | HasStarted

  /** `crashed`: a nil dereference has ended the program. */
  datatype Life = Life(status: V.Status, handle: Handle, crashed: bool)

  datatype Act = StartCall(launch: O.Launch) | StopCall(fails: bool) | Background(to: V.Status)

  /** A daemon is stopped by signalling `svc.Process.Cmd.Process`, whatever its status, unless that is STOPPED. */
  predicate StopCrashes(kind: V.Kind, s: Life) {
    s.status != V.Stopped && kind.Daemon? && !s.handle.HasStarted?
  }

  predicate Enabled(s: Life, act: Act) {
    && !s.crashed
    && (act.Background? ==>
          || (s.status == V.Starting && act.to in {V.Started, V.Error})
          || (s.status == V.Started && act.to == V.Error))
  }

  function Next(kind: V.Kind, s: Life, act: Act): Life
    requires Enabled(s, act)
  {
    match act
    case StartCall(launch) =>
      if s.status != V.Stopped then s
      else
        (match launch
         case LogFileFails(_) => s
         case ProcessFails(_) => Life(V.Error, NotStarted, false)
         case Succeeds => Life(V.Starting, HasStarted, false))
    case StopCall(fails) =>
      if s.status == V.Stopped then s
      else if StopCrashes(kind, s) then s.(status := V.Stopping, crashed := true)
      else if kind.OneShot? then s.(status := V.Stopped)
      else if fails then s.(status := V.Stopping)
      else Life(V.Stopped, NoProcess, false)
    case Background(to) => s.(status := to)
  }

  const CREATED := Life(V.Stopped, NoProcess, false)

  ghost predicate Run(kind: V.Kind, acts: seq<Act>, states: seq<Life>) {
    && |states| == |acts| + 1
    && states[0] == CREATED
    && forall i {:trigger acts[i]} :: 0 <= i < |acts| ==>
         Enabled(states[i], acts[i]) && states[i + 1] == Next(kind, states[i], acts[i])
  }

  /** A Start that got as far as starting a process. */
  predicate IsAttempt(s: Life, act: Act) {
    act.StartCall? && !act.launch.LogFileFails? && s.status == V.Stopped
  }

  ghost predicate NoAttempt(acts: seq<Act>, states: seq<Life>, from: nat, to: nat)
    requires to <= |acts| < |states|
  {
    forall k :: from <= k < to ==> !IsAttempt(states[k], acts[k])
  }

  /** `j` is the last attempt before `i`. */
  ghost predicate IsLastAttempt(acts: seq<Act>, states: seq<Life>, i: nat, j: nat)
    requires i <= |acts| < |states|
  {
    j < i && IsAttempt(states[j], acts[j]) && NoAttempt(acts, states, j + 1, i)
  }

  /** What is in `svc.Process`, given how the last attempt went. */
  predicate Fits(s: Life, launch: O.Launch) {
    if launch.ProcessFails? then s.handle.NotStarted?
    else s.handle.HasStarted? || (s.handle.NoProcess? && s.status == V.Stopped)
  }

  /** Unless the object is as it was created, some Start has attempted to start a process, and the last attempt
      says what is there. */
  lemma {:induction false} LastAttemptFits(kind: V.Kind, acts: seq<Act>, states: seq<Life>, i: nat) returns (j: nat)
    requires Run(kind, acts, states) && i < |states| && !states[i].crashed
    ensures NoAttempt(acts, states, 0, i) ==> states[i] == CREATED
    ensures !NoAttempt(acts, states, 0, i) ==> IsLastAttempt(acts, states, i, j) && Fits(states[i], acts[j].launch)
  {
    j := 0;
    if i > 0 {
      assert Enabled(states[i - 1], acts[i - 1]);
      j := LastAttemptFits(kind, acts, states, i - 1);
      if IsAttempt(states[i - 1], acts[i - 1]) {
        j := i - 1;
      } else if !NoAttempt(acts, states, 0, i - 1) {
      }
    }
  }

  /** Whatever has happened to a service, a Stop that has anything to stop finds a started process exactly when the
      service is a task, which is not signalled at all, or the last Start that tried did start one. */
  lemma StopCrashesIff(kind: V.Kind, acts: seq<Act>, states: seq<Life>, i: nat) returns (j: nat)
    requires Run(kind, acts, states) && i < |states|
    requires !states[i].crashed && states[i].status != V.Stopped
    ensures IsLastAttempt(acts, states, i, j)
    ensures StopCrashes(kind, states[i]) <==> kind.Daemon? && acts[j].launch.ProcessFails?
  {
    j := LastAttemptFits(kind, acts, states, i);
  }

  /** A Start whose process does not start, and then a Stop: the program ends. */
  lemma StopAfterFailedStart(e: O.P.Error, fails: bool) returns (acts: seq<Act>, states: seq<Life>)
    ensures acts == [StartCall(O.ProcessFails(e)), StopCall(fails)]
    ensures Run(V.Daemon, acts, states) && states[2].crashed
  {
    var failed := Life(V.Error, NotStarted, false);
    acts := [StartCall(O.ProcessFails(e)), StopCall(fails)];
    states := [CREATED, failed, failed.(status := V.Stopping, crashed := true)];
  }

  ghost predicate Survives(kind: V.Kind, acts: seq<Act>, states: seq<Life>) {
    Run(kind, acts, states) ==> !states[|acts|].crashed
  }

  /** No Stop in any life of a service crashes exactly when the service is a task. */
  lemma AlwaysSurvivesIff(kind: V.Kind)
    ensures (forall acts, states :: Survives(kind, acts, states)) <==> kind.OneShot?
  {
    if kind.OneShot? {
      forall acts: seq<Act>, states: seq<Life>
        ensures Survives(kind, acts, states)
      {
        if Run(kind, acts, states) {
          TaskSurvives(acts, states, |acts|);
        }
      }
    } else {
      var acts, states := StopAfterFailedStart("exec", true);
      assert !Survives(kind, acts, states);
    }
  }

  lemma {:induction false} TaskSurvives(acts: seq<Act>, states: seq<Life>, i: nat)
    requires Run(V.OneShot, acts, states) && i < |states|
    ensures !states[i].crashed
  {
    if i > 0 {
      TaskSurvives(acts, states, i - 1);
      assert states[i] == Next(V.OneShot, states[i - 1], acts[i - 1]);
    }
  }

  /** A Stop that could not signal its daemon leaves it STOPPING, and so it stays until a Stop succeeds: no Start and no
      goroutine of an earlier launch changes it. */
  lemma {:induction false} FailedStopSticks(kind: V.Kind, acts: seq<Act>, states: seq<Life>, i: nat, j: nat)
    requires Run(kind, acts, states) && kind.Daemon? && i < j < |states|
    requires acts[i] == StopCall(true) && states[i].status != V.Stopped && !states[i + 1].crashed
    requires forall k :: i < k < j ==> acts[k] != StopCall(false)
    ensures states[j] == Life(V.Stopping, HasStarted, false)
    decreases j
  {
    assert Enabled(states[j - 1], acts[j - 1]) && states[j] == Next(kind, states[j - 1], acts[j - 1]);
    if i < j - 1 {
      FailedStopSticks(kind, acts, states, i, j - 1);
    }
  }
}
