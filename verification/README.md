# Build tools: model and proofs

A Dafny model of the parts of the Dropbox build tools that are hard to get right: the service controller, the BUILD
file merge, the Go BUILD generator, the squashfs preparation, and three small algorithms that others rely on.
`dafny verify dfyconfig.toml` checks all of it.

**The service controller.** Services have names, dependencies and health checks. A start runs one task per service
on a pool of workers that share a task list, a set of completed keys and an error under one mutex and condition
variable; a stop runs the same pool on the reversed dependencies.

- `Tasks`, `Pool`, `Scheduler`: the dependency closure, the pool as a transition system whose steps are the lock-held
  regions, and what holds over all runs. `Runner` is the object itself; its methods are proved to be those steps.
  `LongestPath` defines the critical path over chains of tasks, `Runner` computes it, and `CostCache` says when its
  cache is right.
- `Reversal`, `StopOrder`, `StopRun`: the reversed runner, and the order of an ordered StopAll for the pool alone and
  composed with the services.
- `ServiceProtocol`, `ServiceObject`: one launch of a service, with its pollers, exit watcher and stoppers, as a
  transition system and as the object with its state cell and process. `ServiceReach`: which states a launch can get to.
  `ServiceStop`: when a Stop can end. `ServiceFailure`: what the death of the process does to a launch. `ServiceLife`:
  what Start and Stop find over any number of launches.
- `StartOrder`: the pool composed with the launches of all its services, with other clients free to interfere.
  `StartOutcome` and `StopOutcome`: when a start or a StopAll reports success, and that it can.
- `Processor`, `Starter`: creating, finding and removing services, and what the order of creation gives the scheduler.

**The BUILD file merge.** `BuildExprs` and `BuildCalls` say what merged expressions and calls are and mean;
`BuildCallMerge` merges two calls, whose argument nodes are objects that it overwrites. `BuildFiles` says what the merge
of two files is, `BuildMerge` computes it with one mark per statement, on nodes of the second file that later merges find
as earlier ones left them. `BuildConservation` shows that nothing is lost and what the result means, `BuildOrder` in which
order it is.

**The rest.** `GenBuildGo` (depth-first generation over an import graph with cycles), `SqfsAccounting` and `SqfsBuckets`
(hard links per content file), `Procfs` (process trees), `CommentTrie` (proto comments), `GoAliases` (import aliases).
`Graphs`, `Strings` and `Options` are shared.

Concurrent code is modelled by steps: each step is what one goroutine does between two points where another may run,
and a run is any interleaving. Where the source has an object, there is a class whose methods execute those steps on
its fields. Statements about runs are for all numbers of workers, interleavings and outcomes.

## What the proofs found

- A runner on cyclic dependencies never returns unless a task fails: `Scheduler.StuckMeansEndedIff` gives the exact
  condition. `CreateBatch` cannot build such a cycle unless a removed name is created again
  (`Processor.NamesAcyclic`, `Processor.ReuseCanCycle`).
- Where a removed name was created again, a start can leave out the service that another one depends on: it waits for
  the very dependency exactly when that is on the runner's list (`StartOrder.StartOrder`, `Processor.ReuseCanLeaveOut`),
  and the same condition decides whether costs may be cached by name (`CostCache.CachingByKeyIff`).
- A DAEMON whose process could not be started is left in ERROR with a process that is not there, and the next Stop,
  StopAll or RemoveBatch dereferences nil (service.go:627). It happens exactly when the last Start that tried to start
  the daemon's process failed to (`ServiceLife.StopCrashesIff`, `ServiceLife.StopAfterFailedStart`,
  `ServiceObject.ServiceDef.StopBegin`).
- Start gives the registry's read lock back only if every requested name is registered
  (`Processor.SvcCtlProcessor.LookUp`, `Processor.SvcCtlProcessor.UnknownNameKeepsLock`; processor.go:123-131 returns
  between RLock and RUnlock).
- A CreateBatch that reports an error has still registered everything that could be registered
  (`Processor.SvcCtlProcessor.CreateBatch`).
- The HTTP checks of a TASK are never polled: STARTED means that every check asked for has passed exactly for a DAEMON or
  a service without HTTP checks (`ServiceReach.StartedMeansAllPassedIff`, `ServiceReach.UnpolledTaskStarts`).
- A DAEMON without health checks is STARTED at once, while the comment has Start wait for the process to exit
  successfully in that case (service.go:493-494; `ServiceReach.UncheckedDaemonStarts`,
  `ServiceReach.StartedMeansExitedIff`).
- A Stop on a DAEMON that takes the lock before waitTillHealthyAndMark does (service.go:352) shuts out the goroutine that
  would wait for the process. It waits for ever, holding the lock, even once the process is dead; every other Stop whose
  first signal was sent can end (`ServiceStop.StopEndsIff`, `ServiceStop.StopCanHang`).
- A rule of the second file goes into every rule of that name in the first
  (`BuildConservation.StatementsConservedIff`), and an override of it is one node, into which the addition is merged
  again each time: a keyword then means base and addition exactly when it is not overridden, nothing is added or no
  other rule shares the namesake (`BuildConservation.MeaningKeptIff`, `BuildConservation.SharedNamesakeAddsTwice`).
- The same happens within one merge where an override replaces several arguments of one name
  (`BuildCalls.SettledOnceIff`, `BuildCalls.RepeatedKeywordAddsTwice`).
- Two services of one name can exist after a removal; a start always runs the ones that are registered
  (`Processor.RequestedAreListed`, `Starter.RequestedWereStarted`).
- STOPPED does not mean that a TASK's process has exited (`ServiceFailure.StoppedMeansExitedIff`).
- A package that is alone in having its last path element need not get that for its alias
  (`GoAliases.AliasIsBaseNameIff`, `GoAliases.NumberedNameIsTaken`).
- The merge drops a second local name for a symbol already loaded from the same module, which leaves uses of that
  name unbound (`BuildConservation.BindingKeptIff`, `BuildConservation.SecondNameDropped`).
- The bound on work items in linkOutputTree is not the one its comment gives: 19999 entries make 19999 items
  (`SqfsBuckets.WorkItemsBound`, `SqfsBuckets.TooManyItems`).

## Model

| member | source | states |
|---|---|---|
| Tasks.UniqueDeps | go/src/dropbox/build_tools/svcctl/topological/runner.go:114-134 | ends on every task graph, cyclic ones included; the list has one task for every key that dependencies can reach, no key twice, every dependency of a listed task listed up to its key; in breadth-first order: the first of each key among the given tasks and then the dependents of each listed task in turn |
| Tasks.GivenComeFirst | go/src/dropbox/build_tools/svcctl/topological/runner.go:114-134 | the list begins with the given tasks, the first of each key, in the order given, and what nobody gave comes behind them |
| Tasks.BreadthFirstIsUnique | go/src/dropbox/build_tools/svcctl/topological/runner.go:114-134 | there is only one list in that order |
| Tasks.UniqueDepsIsReachableSet | go/src/dropbox/build_tools/svcctl/topological/runner.go:114-134 | when keys identify tasks, a task is on that list if and only if it is reachable from the given tasks through `Dependents` |
| Pool.InvariantNext | go/src/dropbox/build_tools/svcctl/topological/runner.go:147-203 | every lock-held region of any worker keeps: each task in exactly one stage, tasks taken in dependency order, `completed`/`err`/`die` true to the history, no lost wake-up |
| Pool.InvariantAlways | go/src/dropbox/build_tools/svcctl/topological/runner.go:136-212 | all of that holds in every state of every run, for any number of workers, any interleaving and any task outcomes |
| Pool.FirstReady | go/src/dropbox/build_tools/svcctl/topological/runner.go:147-157 | the position chosen is the least one whose task is ready, and the end of the list when none is |
| Scheduler.StagesPartition | go/src/dropbox/build_tools/svcctl/topological/runner.go:147-203 | in every reachable state each task of the list is exactly one of pending, running in exactly one worker, done and failed; nothing else is in any stage |
| Scheduler.TakenHasDependencies | go/src/dropbox/build_tools/svcctl/topological/runner.go:136-160 | every task that was ever taken has the keys of all its dependents among the completed ones |
| Scheduler.CompletedAlongWalk | go/src/dropbox/build_tools/svcctl/topological/runner.go:136-203 | everything a taken task depends on transitively was completed |
| Scheduler.FailureBlocksDependents | go/src/dropbox/build_tools/svcctl/topological/runner.go:162-203 | a task that transitively depends on a failed one is never taken |
| Scheduler.TakenInOrder | go/src/dropbox/build_tools/svcctl/topological/runner.go:147-203 | at the moment a task is taken each dependency has completed earlier, nothing has failed earlier, and no task of its key was taken earlier |
| Scheduler.CompletedIsRanked | go/src/dropbox/build_tools/svcctl/topological/runner.go:173-179 | the completed keys are closed under dependency and completed in dependency order, even when the whole list has cycles |
| Scheduler.NoDeadlock | go/src/dropbox/build_tools/svcctl/topological/runner.go:147-203 | with acyclic dependencies, as long as some worker has not exited some worker has an enabled step |
| Scheduler.SuccessCompletesAll | go/src/dropbox/build_tools/svcctl/topological/runner.go:181-212 | workers all gone and no error: exactly the listed tasks are done, and `completed` is exactly their keys |
| Scheduler.SuccessNeedsAcyclic | go/src/dropbox/build_tools/svcctl/topological/runner.go:181-212 | a run can end without an error only if the dependencies have no cycle |
| Scheduler.StuckMeansEndedIff | go/src/dropbox/build_tools/svcctl/topological/runner.go:158-203 | a pool that can go no further has ended if and only if a task failed or the dependencies are acyclic: otherwise `Run` waits for ever |
| Scheduler.RunsAreBounded | go/src/dropbox/build_tools/svcctl/topological/runner.go:181-212 | every run over m tasks with n workers makes at most 2(n+2)m+n steps, so wake-ups never keep the pool busy for ever |
| Scheduler.AcyclicRunsEnd | go/src/dropbox/build_tools/svcctl/topological/runner.go:181-212 | on acyclic dependencies a run within that bound can always go on until every worker has exited |
| Scheduler.FirstErrorIsEarliest | go/src/dropbox/build_tools/svcctl/topological/runner.go:162-171 | the recorded error is that of the earliest failure in the history |
| Scheduler.ErrorIsFirstReported | go/src/dropbox/build_tools/svcctl/topological/runner.go:162-201 | in every run the recorded error is the first that any task returned, in the order in which they returned |
| Scheduler.DoneIsReported | go/src/dropbox/build_tools/svcctl/topological/runner.go:173-201 | in every run the done tasks are exactly those that returned nil to the worker that held them |
| Scheduler.RunOutcome | go/src/dropbox/build_tools/svcctl/topological/runner.go:205-212 | `Run` returns nil exactly when each task reachable from the given ones has run and returned nil; otherwise the first error |
| LongestPath.LongestStep | go/src/dropbox/build_tools/svcctl/topological/runner.go:214-240 | one unfolding of the cost recursion yields the maximum over all dependency chains, these being sequences of tasks rather than the recursion |
| LongestPath.LongestIsUnique | go/src/dropbox/build_tools/svcctl/topological/runner.go:234-242 | a task has only one longest-chain total, so a cached cost and a recomputed one cannot differ |
| Runner.Runner.constructor | go/src/dropbox/build_tools/svcctl/topological/runner.go:37-52 | the new runner holds the dependency closure, every invariant of the pool and an empty cache |
| Runner.Runner.NextTask | go/src/dropbox/build_tools/svcctl/topological/runner.go:147-160 | hands out the first ready task and takes just it off the list, or puts the caller to sleep when none is ready |
| Runner.Runner.SetErr | go/src/dropbox/build_tools/svcctl/topological/runner.go:162-171 | only the first error is kept; it sets `die` and wakes every sleeper |
| Runner.Runner.MarkDone | go/src/dropbox/build_tools/svcctl/topological/runner.go:173-179 | adds exactly the key of the task and wakes every sleeper |
| Runner.Runner.Enter | go/src/dropbox/build_tools/svcctl/topological/runner.go:184-190 | the region from the head of the worker loop to where the lock is let go is a step of the transition system and keeps all invariants |
| Runner.Runner.Finish | go/src/dropbox/build_tools/svcctl/topological/runner.go:192-201 | so is the region that follows `task.Run()`, whatever that returned |
| Runner.Runner.HighestCost | go/src/dropbox/build_tools/svcctl/topological/runner.go:214-232 | when every dependency of a listed task is itself listed: the returned task is eligible and no eligible task of the argument has a longer chain; nil exactly when no chain has a positive total |
| Runner.Runner.TaskCost | go/src/dropbox/build_tools/svcctl/topological/runner.go:234-242 | when every dependency of a listed task is itself listed: the memoised cost is the greatest total duration over all dependency chains from the task, and every cache entry agrees with that before and after |
| Runner.Runner.CriticalPath | go/src/dropbox/build_tools/svcctl/topological/runner.go:244-260 | when every dependency of a listed task is itself listed: a real dependency chain of completed tasks, all started after the runner was made, whose total no chain from such a task exceeds; ends even on cyclic task lists |
| CostCache.CachingByKeyIff | go/src/dropbox/build_tools/svcctl/topological/runner.go:234-242 | the condition of the three rows above is exact: on acyclic task objects, tasks that share a cache entry have the same cost for all durations and start times if and only if every dependency of a listed task is itself listed |
| Reversal.NoteDependents | go/src/dropbox/build_tools/svcctl/topological/runner.go:92-95 | files the visited task under exactly the keys of its dependents, and queues these |
| Reversal.CollectDependers | go/src/dropbox/build_tools/svcctl/topological/runner.go:80-96 | the tasks kept are the dependency closure in the same breadth-first order, and the map lists for each key exactly the kept tasks depending on it |
| Reversal.ReversalIsInverse | go/src/dropbox/build_tools/svcctl/topological/runner.go:97-110 | the reversed tasks depend on each other exactly the other way round |
| Reversal.NewReversedRunner | go/src/dropbox/build_tools/svcctl/topological/runner.go:80-112 | the list the pool gets is the kept tasks under the same keys and in the same order, with exactly the inverse dependency relation |
| Reversal.ReversalKeepsAcyclicity | go/src/dropbox/build_tools/svcctl/topological/runner.go:80-112 | the reversed dependencies have a cycle if and only if the original ones do |
| StopOrder.StopOrder | go/src/dropbox/build_tools/svcctl/topological_stopper.go:17-43 | in every run of the ordered StopAll, Stop is called on a service only after Stop returned nil for every service depending on it |
| StopOrder.StopAllEndsIff | go/src/dropbox/build_tools/svcctl/processor.go:295-303 | a StopAll that can go no further has ended if and only if some Stop failed or the services' dependencies are acyclic |
| StopRun.InvariantAlways | go/src/dropbox/build_tools/svcctl/topological_stopper.go:17-43 | in every run of the pool composed with the services and other clients: Stop is called in reversed dependency order, and a done task means that its service was STOPPED when its Stop returned |
| StopRun.DependersStoppedFirst | go/src/dropbox/build_tools/svcctl/service.go:614-688 | in every such run Stop is called on a service only after each service depending on it was STOPPED when its own Stop returned, earlier in the run |
| StopOutcome.StopSucceedsIff | go/src/dropbox/build_tools/svcctl/topological_stopper.go:17-19 | a StopAll that has ended reports success if and only if every listed service was STOPPED when its Stop returned |
| StopOutcome.StopFailsBecause | go/src/dropbox/build_tools/svcctl/service.go:644-661 | if it reports an error, some listed service was not STOPPED when its Stop returned |
| StopOutcome.StopFailsIff | go/src/dropbox/build_tools/svcctl/service.go:644-684 | the Stop of a service found in its first launch returns an error if and only if it is a DAEMON that could not be signalled and is not known to have exited |
| StopOutcome.SuccessLeavesNoProcess | go/src/dropbox/build_tools/svcctl/service.go:614-688 | after a StopAll that reported success each listed DAEMON found anywhere in its first launch has no process any more, unless somebody has started it again |
| StopOutcome.StopAllCanSucceed | go/src/dropbox/build_tools/svcctl/processor.go:295-303 | for services with acyclic dependencies in whatever state, not being stopped and the waiter of each daemon in its first launch past its lock, any number of workers has a run that stops them all and reports success |
| ServiceProtocol.InvariantNext | go/src/dropbox/build_tools/svcctl/service.go:268-418 | every step of a poller, the waiter, the exit watcher, the process or a stopper keeps: status moves forward only, the wait group counts the unfinished pollers, STARTED is earned |
| ServiceProtocol.InvariantAlways | go/src/dropbox/build_tools/svcctl/service.go:268-418 | these hold in every state of every interleaving of a launch |
| ServiceProtocol.NonePending | go/src/dropbox/build_tools/svcctl/service.go:383 | the wait group is at zero exactly when no poller owes it a Done |
| ServiceProtocol.StartedIsEarned | go/src/dropbox/build_tools/svcctl/service.go:268-418 | a DAEMON is ever STARTED only after each command and HTTP check has passed once, a TASK only after a zero exit and each command check |
| ServiceProtocol.StartedNeverAgain | go/src/dropbox/build_tools/svcctl/service.go:268-688 | after ERROR, STOPPING or STOPPED has been entered, STARTED is not entered again in the launch, and it is entered at most once |
| ServiceProtocol.HistoryOnlyGrows | go/src/dropbox/build_tools/svcctl/service.go:268-418 | no step of a launch takes back a status that was set |
| ServiceProtocol.StartingNeverHangs | go/src/dropbox/build_tools/svcctl/service.go:284-418 | while the status is STARTING one of the launch's own goroutines can step, except that a TASK may wait for its process |
| ServiceReach.UncheckedDaemonStarts | go/src/dropbox/build_tools/svcctl/service.go:360-384 | a concrete run in which a DAEMON without health checks is STARTED while its process is still running |
| ServiceReach.StartedMeansExitedIff | go/src/dropbox/build_tools/svcctl/service.go:360-494 | STARTED means in every run that the process has exited with success if and only if the service is a TASK, whatever its checks |
| ServiceStop.StopEndsIff | go/src/dropbox/build_tools/svcctl/service.go:352-675 | in every run, a Stop that holds the lock and whose first signal was sent can still end if and only if the service is a TASK or waitTillHealthyAndMark had got the lock before it |
| ServiceStop.StopCanHang | go/src/dropbox/build_tools/svcctl/service.go:352-675 | the failing run, for every DAEMON: Stop takes the lock right after the launch and the process exits; then nothing can step any more, unless the first signal failed |
| ServiceReach.StartedCanBeReached | go/src/dropbox/build_tools/svcctl/service.go:268-418 | for every service there is a run of its launch that ends STARTED: a DAEMON while its process runs, a TASK after its process exited with success |
| ServiceReach.UnpolledTaskStarts | go/src/dropbox/build_tools/svcctl/service.go:390-415 | for every TASK whose only checks are HTTP checks, a run in which it is STARTED without a single poller |
| ServiceFailure.DeathEndsStarted | go/src/dropbox/build_tools/svcctl/service.go:369-406 | in every run, once a DAEMON's process has exited, or a TASK's with an error, and the launch's goroutines have done all they can, the status is ERROR, or somebody has called Stop and it is ERROR, STOPPING or STOPPED |
| ServiceFailure.ErrorIsEarned | go/src/dropbox/build_tools/svcctl/service.go:369-406 | a launch is ever in ERROR only if its process has exited, and a TASK's with an error |
| ServiceFailure.StartedCanFail | go/src/dropbox/build_tools/svcctl/service.go:369-381 | for every DAEMON a run from STARTED to ERROR |
| ServiceFailure.StoppedMeansExitedIff | go/src/dropbox/build_tools/svcctl/service.go:614-688 | STOPPED means in every run that the process has exited if and only if the service is a DAEMON |
| ServiceFailure.NoCheckAfterStarting | go/src/dropbox/build_tools/svcctl/service.go:284-316 | in every run, once STARTING is over a poller that is not in the middle of a check never begins one |
| ServiceFailure.StartedIsReported | go/src/dropbox/build_tools/svcctl/service.go:284-415 | in every run in which a launch is ever STARTED each polled check has returned with success at some time, and the process of a TASK has exited with success |
| ServiceStop.OneStopAtATime | go/src/dropbox/build_tools/svcctl/service.go:614-616 | between the beginnings of two Stops there is the end of the first |
| ServiceReach.StartedMeansAllPassedIff | go/src/dropbox/build_tools/svcctl/service.go:360-415 | STARTED means in every run that every check asked for, HTTP included, has passed, if and only if the service is a DAEMON or asks for no HTTP check |
| ServiceProtocol.NoPanic | go/src/dropbox/build_tools/svcctl/service.go:298-393 | in no run is the exit channel closed twice or the wait group taken below zero |
| ServiceObject.StateMachine.WaitTillNotState | go/src/dropbox/build_tools/svcctl/state_machine/state_machine.go:45-52 | returns the present state unless it is the one waited out; a goroutine sleeps only as long as the state is still that one |
| ServiceObject.ServiceDef.Start | go/src/dropbox/build_tools/svcctl/service.go:501-570 | launches only a STOPPED service; a process that does not start leaves ERROR and its error, a log file that cannot be opened its error alone; the object then is at the beginning of a launch with all invariants |
| ServiceObject.ServiceDef.WaitTillHealthyAndMark | go/src/dropbox/build_tools/svcctl/service.go:351-418 | each region on the object's fields is the protocol's waiter step; the process is there and the exit channel open whenever they are used |
| ServiceObject.ServiceDef.WatchExit | go/src/dropbox/build_tools/svcctl/service.go:369-382 | each region is the protocol's watcher step, with the same guards on process and channel; the last makes STARTING and STARTED alike ERROR, and no other changes the state |
| ServiceObject.ServiceDef.StopBegin | go/src/dropbox/build_tools/svcctl/service.go:614-641 | for an object in any state, after any number of starts: nothing is done when STOPPED; the program crashes exactly when a DAEMON has no started process; otherwise STOPPING is set under the lock |
| ServiceObject.ServiceDef.StopEnd | go/src/dropbox/build_tools/svcctl/service.go:644-684 | an error if and only if a daemon could not be signalled and has not exited, and then the service stays STOPPING; otherwise it is STOPPED, and a daemon's process forgotten |
| ServiceLife.StopCrashesIff | go/src/dropbox/build_tools/svcctl/service.go:541-641 | in every life of a service, over any sequence of starts, stops and background changes: a Stop that has anything to stop finds no started process if and only if the service is a DAEMON and the last Start that tried failed to start one |
| ServiceLife.AlwaysSurvivesIff | go/src/dropbox/build_tools/svcctl/service.go:501-688 | no life of a service ends in that crash if and only if the service is a TASK |
| ServiceLife.StopAfterFailedStart | go/src/dropbox/build_tools/svcctl/service.go:541-641 | the failing input: one Start whose process does not start, and then a Stop |
| ServiceLife.FailedStopSticks | go/src/dropbox/build_tools/svcctl/service.go:501-661 | a Stop that could not signal its DAEMON leaves it STOPPING, and no Start and no goroutine of an earlier launch changes that until a Stop succeeds |
| StartOrder.InvariantNext | go/src/dropbox/build_tools/svcctl/topological_starter.go:17-31 | every step of the pool, of `startTask.Run`, of any launch and of other clients keeps: Start called in dependency order, done means observed in STARTED, observed STARTED means the launch entered it |
| StartOrder.InvariantAlways | go/src/dropbox/build_tools/svcctl/topological_starter.go:17-47 | these hold in every state of every run of a starter |
| StartOrder.StartOrder | go/src/dropbox/build_tools/svcctl/topological_starter.go:17-31 | in every run, Start is called on a service only after, for each of its Dependents, the listed service of that name was observed in STARTED earlier in that run; that is the very dependent if and only if the dependent is itself listed |
| StartOrder.ObservedIsTask | go/src/dropbox/build_tools/svcctl/topological_starter.go:17-23 | only services of the starter's own list are ever waited for |
| StartOrder.StartedDependenciesAreHealthy | go/src/dropbox/build_tools/svcctl/service.go:478-485 | a service observed in STARTED and still in its first launch has passed all its checks |
| StartOrder.StarterNeverHangs | go/src/dropbox/build_tools/svcctl/topological_starter.go:17-31 | with acyclic dependencies, in every state of every run of the pool composed with the launches: all workers have exited, or a worker or a launch's own goroutine can step, or some worker waits for a Stop that holds its service's lock, a TASK's process, or a service started again |
| StartOutcome.ReturnsNilIff | go/src/dropbox/build_tools/svcctl/service.go:478-485 | in every run a worker is about to return nil for its service if and only if it was observed in STARTED |
| StartOutcome.ObservedIsSettled | go/src/dropbox/build_tools/svcctl/service.go:478-479 | no service is observed while it is STARTING |
| StartOutcome.StartSucceedsIff | go/src/dropbox/build_tools/svcctl/topological_starter.go:17-23 | a start that has ended reports success if and only if every listed service was observed in STARTED |
| StartOutcome.StartFailsBecause | go/src/dropbox/build_tools/svcctl/topological_starter.go:17-23 | its error is what Start returned for a listed service, or that one on which Start succeeded was observed in neither STARTING nor STARTED |
| StartOutcome.FailedLaunchIsReported | go/src/dropbox/build_tools/svcctl/service.go:501-546 | a start task returns without waiting for its service if and only if it found that STOPPED and it could not be launched, and then with the reason |
| StartOutcome.LaunchIsKept | go/src/dropbox/build_tools/svcctl/service.go:501-507 | neither the starter nor another client launches a service again while it is not STOPPED, and no status it has set is lost |
| StartOutcome.StartCanSucceed | go/src/dropbox/build_tools/svcctl/topological_starter.go:17-47 | for every acyclic list of untouched services and any number of workers a run in which all workers exit without an error, every service observed in STARTED |
| Starter.ServicesStartInOrder | go/src/dropbox/build_tools/svcctl/processor.go:108-137 | creation and start together: for services created without reuse of names, every dependency a request names was STARTED, and healthy as that request defines it, before Start is called |
| Starter.StartsNeverHang | go/src/dropbox/build_tools/svcctl/processor.go:108-137 | the same for any services created without reuse of names, whose dependencies cannot have a cycle |
| Starter.RequestedWereStarted | go/src/dropbox/build_tools/svcctl/processor.go:122-137 | whatever was removed and created again: a start that ended without an error has observed each service registered under a requested name in STARTED |
| Starter.CreatedCanStart | go/src/dropbox/build_tools/svcctl/processor.go:122-137 | services created without reuse of names have such a run |
| Processor.SvcCtlProcessor.NewService | go/src/dropbox/build_tools/svcctl/service.go:117-170 | succeeds if and only if every dependency is registered, every health check supported and every version file found; the object then has the request's dependencies in order and all of its checks by kind |
| Processor.SvcCtlProcessor.Create | go/src/dropbox/build_tools/svcctl/processor.go:95-106 | registers exactly the fresh names whose service can be made; a refusal changes nothing |
| Processor.SvcCtlProcessor.CreateBatch | go/src/dropbox/build_tools/svcctl/processor.go:37-73 | ends; the names it registers are the least set closed under creation, also when it reports an error; an error exactly when some request is a duplicate or outside that set; nothing registered before changes |
| Processor.SvcCtlProcessor.Round | go/src/dropbox/build_tools/svcctl/processor.go:44-58 | a round that registers nothing has every remaining request refused, so the next could not do better |
| Processor.FixpointReached | go/src/dropbox/build_tools/svcctl/processor.go:56-70 | a round without progress, or with nothing left, has reached the least fixpoint |
| Processor.OrderIrrelevant | go/src/dropbox/build_tools/svcctl/processor.go:37-73 | the registered set depends on which requests there are, not on their order |
| Processor.SvcCtlProcessor.LookUp | go/src/dropbox/build_tools/svcctl/processor.go:122-131 | finds the registered object of each name in order, or fails if and only if a name is unknown; the read lock is given back exactly when it succeeds |
| Processor.RequestedAreListed | go/src/dropbox/build_tools/svcctl/processor.go:122-134 | the runner's list begins with the objects registered under the requested names, in the order of the request, whichever objects of these names there were before |
| Processor.SvcCtlProcessor.UnknownNameKeepsLock | go/src/dropbox/build_tools/svcctl/processor.go:122-131 | on a new registry one Start for any name leaves the read lock taken |
| Processor.SvcCtlProcessor.RemoveBatch | go/src/dropbox/build_tools/svcctl/processor.go:76-92 | unregisters exactly the longest leading run of distinct known names whose services stop, and says whether that was all of them |
| Processor.ObjectsAcyclic | go/src/dropbox/build_tools/svcctl/service.go:137-143 | the graph of service objects has no cycle after any sequence of batches |
| Processor.NoReuseKept | go/src/dropbox/build_tools/svcctl/processor.go:37-106 | a batch of names never used before keeps every name unique |
| Processor.NamesAcyclic | go/src/dropbox/build_tools/svcctl/processor.go:37-106 | without reuse names identify objects and the dependency relation between names is acyclic |
| Processor.PoolRunsToItsEnd | go/src/dropbox/build_tools/svcctl/processor.go:133-137 | so the pool of any start of any of the services, with any number of workers and tasks that return, can always go on to its end within the step bound |
| Processor.ReuseCanCycle | go/src/dropbox/build_tools/svcctl/processor.go:76-106 | a concrete sequence of creations and a removal after which the names have a cycle, though the objects have none |
| Processor.ReuseCanLeaveOut | go/src/dropbox/build_tools/svcctl/processor.go:76-106 | a concrete sequence after which starting two services leaves out the very service one of them depends on, and starts its successor in name instead |
| BuildExprs.MergeExprSucceedsIff | go/src/dropbox/build_tools/build-merge/main.go:129-194 | a merge succeeds if and only if the last operand on the left is a list or glob and the right a list, or both are dicts |
| BuildExprs.DictIsUpdated | go/src/dropbox/build_tools/build-merge/main.go:143-190 | with a dict the last operand on the left becomes a call of update on it, and nothing before it changes |
| BuildExprs.ListIsAppended | go/src/dropbox/build_tools/build-merge/main.go:131-190 | with a list that becomes the last operand, on a line of its own, and nothing before it changes |
| BuildExprs.MergeExprMeaning | go/src/dropbox/build_tools/build-merge/main.go:129-194 | in every environment, a merge of list-valued expressions denotes the left list followed by the right one; for two dicts it says only that the result denotes no list |
| BuildCallMerge.MaybeMergeAdditionalArg | go/src/dropbox/build_tools/build-merge/main.go:108-127 | the assignment is overwritten exactly when there is an addition to it, with their merge, and the addition is noted as used; an error exactly when the two do not merge |
| BuildCallMerge.CollectArgs | go/src/dropbox/build_tools/build-merge/main.go:218-236 | the tables hold the last node of each keyword of the second call, additions apart from overrides |
| BuildCallMerge.MergeCallExpr | go/src/dropbox/build_tools/build-merge/main.go:196-301 | on any two calls, whose argument nodes are overwritten in place, and for every map order: fails if and only if some addition does not merge; otherwise yields the merged call, and says which nodes it is made of and what all nodes of both calls hold afterwards |
| BuildCallMerge.OutReads | go/src/dropbox/build_tools/build-merge/main.go:238-296 | read after any further merges with the same second call, the nodes of the merged call hold its arguments with all additions merged in until then |
| BuildCalls.SecondAgain | go/src/dropbox/build_tools/build-merge/main.go:108-258 | a further merge with the same second call adds to the overrides as it finds them, so that the counts of the merges add up |
| BuildCalls.MergesAgain | go/src/dropbox/build_tools/build-merge/main.go:108-278 | a further merge succeeds if and only if every addition merges as often as the merges up to it add it |
| BuildCalls.MergedKeywordsDistinct | go/src/dropbox/build_tools/build-merge/main.go:238-296 | the merged call has no keyword twice if and only if the first call has none |
| BuildCalls.MergedKeyword | go/src/dropbox/build_tools/build-merge/main.go:238-296 | for a first call without repeated keywords and any number of merges with the second call, every keyword has exactly its target value, whatever order the maps were walked in, and is absent when it has none |
| BuildCalls.MergedCallMeaning | go/src/dropbox/build_tools/build-merge/main.go:196-301 | for a first call without repeated keywords, each keyword denotes the second call's value if it has one, else the first's, else the empty list, followed by the second call's addition as often as it was merged in |
| BuildCalls.SettledMeaning | go/src/dropbox/build_tools/build-merge/main.go:238-264 | for any first call, each of its keyword arguments denotes its base followed by the addition as often as it was merged in: once, or for an override once for each argument it replaced |
| BuildCalls.AddedOnceIff | go/src/dropbox/build_tools/build-merge/main.go:252-263 | so such a keyword denotes its base followed by the addition if and only if it is not overridden, the addition was merged in once, or that makes no difference because it is empty or one of the two is no list |
| BuildCalls.SettledOnceIff | go/src/dropbox/build_tools/build-merge/main.go:252-263 | in a single merge with any first call, an argument denotes its base followed by the addition if and only if the keyword is not overridden, the first call has it once, or that makes no difference |
| BuildCalls.RepeatedKeywordAddsTwice | go/src/dropbox/build_tools/build-merge/main.go:252-263 | the failing input: two deps in the first call, deps and additional_deps in the second |
| BuildFiles.Parse | go/src/dropbox/build_tools/build-merge/main.go:38-106 | finds the last package and licenses calls, all loads of each module in order, and for each target name the last rule that has it |
| BuildMerge.MergeCalls | go/src/dropbox/build_tools/build-merge/main.go:196-419 | the two package calls, which no other merge touches, become one if and only if all additions merge |
| BuildMerge.MergePair | go/src/dropbox/build_tools/build-merge/main.go:525-533 | a rule merged with its namesake on the nodes as the rules before it have left them: fails if and only if some addition then fails to merge, and otherwise brings those nodes one rule further |
| BuildMerge.MergeLicenses | go/src/dropbox/build_tools/build-merge/main.go:303-489 | two licenses calls become one if and only if both have just one argument, a list of the same strings in the same order, and the same comments; one alone is kept |
| BuildMerge.CompareLicenses | go/src/dropbox/build_tools/build-merge/main.go:314-356 | the comparison says yes if and only if some strings and comments make up both calls |
| BuildConservation.LicensesMergeIff | go/src/dropbox/build_tools/build-merge/main.go:314-489 | two files that both have a licenses call merge if and only if everything else does and both calls have just one argument, a list of the same strings in the same order, and the same comments |
| BuildConservation.LicensesConflict | go/src/dropbox/build_tools/build-merge/main.go:340-354 | licenses(["notice"]) and licenses(["restricted"]) never merge |
| BuildMerge.MergeModule | go/src/dropbox/build_tools/build-merge/main.go:445-475 | one load for the module: symbols ascending, each once, under the local name met first, the first file before the second |
| BuildMerge.MergeLoads | go/src/dropbox/build_tools/build-merge/main.go:428-475 | one load for each module of either file, in ascending order, and exactly the load statements marked as merged |
| BuildMerge.MergeRules | go/src/dropbox/build_tools/build-merge/main.go:519-538 | the first file's remaining statements in order, each merged with its namesake, whose nodes all rules that share it overwrite in turn, and the namesakes marked; fails exactly when a pair does not merge |
| BuildMerge.CopyUnmatched | go/src/dropbox/build_tools/build-merge/main.go:540-547 | exactly the second file's rules without a namesake, in order |
| BuildMerge.Merge | go/src/dropbox/build_tools/build-merge/main.go:359-553 | on any two files: succeeds if and only if packages, namesakes and licenses all merge, and then the output is made of the nine sections in their order |
| BuildConservation.AccountedFor | go/src/dropbox/build_tools/build-merge/main.go:359-553 | for any two files: every statement of either is accounted for exactly once in the output, except that a rule of the second file goes once into each rule of the first that it is the namesake of |
| BuildConservation.StatementsConservedIff | go/src/dropbox/build_tools/build-merge/main.go:519-547 | so every statement is accounted for exactly once if and only if no two rules of the first file share a namesake |
| BuildConservation.BindingKeptIff | go/src/dropbox/build_tools/build-merge/main.go:455-463 | a local name bound by a load survives if and only if it is the first for its symbol |
| BuildConservation.SecondNameDropped | go/src/dropbox/build_tools/build-merge/main.go:455-463 | the failing input: x and y = "x" loaded from one module; y is not bound by the merged load |
| BuildConservation.RulesKeepTheirMeaning | go/src/dropbox/build_tools/build-merge/main.go:519-549 | for any two files: exactly one statement of the output stands for each rule call of the first file; with the rule's callee it gives each keyword, unless the rule repeats keywords, the namesake's override or its own value, followed by the addition, to an override once for every merge of it |
| BuildConservation.MeaningKeptIff | go/src/dropbox/build_tools/build-merge/main.go:252-533 | so a keyword of the rule denotes its base followed by the addition if and only if the namesake does not override it, nothing is added, one of them is no list, or no other rule of the first file has the same namesake |
| BuildConservation.SharedNamesakeAddsTwice | go/src/dropbox/build_tools/build-merge/main.go:258-533 | the failing input of both: two rules named t in the first file, and one with deps and additional_deps in the second, which merge, go into both, and come to the addition twice in each |
| BuildConservation.UnmatchedIsCopied | go/src/dropbox/build_tools/build-merge/main.go:540-550 | a rule of the second file without a namesake is in the output unchanged |
| BuildConservation.NamesakeIs | go/src/dropbox/build_tools/build-merge/main.go:84-526 | a rule is merged with the last rule of its name in the second file, and one without a name or with the empty name with none |
| BuildConservation.RuleNameIs | go/src/dropbox/build_tools/build-merge/main.go:56-98 | the name of a rule is the first string that it has for a name argument; package() and licenses() have none |
| BuildConservation.HeadersAre | go/src/dropbox/build_tools/build-merge/main.go:62-75 | the package and licenses calls of a file are the last ones |
| BuildOrder.OutputInOrder | go/src/dropbox/build_tools/build-merge/main.go:392-549 | every statement of the output stands where its kind, its file and its place in that put it: comments, package, loads by module, licenses, assignments, rules, the first file's before the second's |
| GenBuildGo.ValidateGoPkgPath | go/src/dropbox/build_tools/gen-build-go/lib/genbuildgolib.go:339-396 | a package is entered if and only if it is not builtin, not processed, present, and not on the visit stack |
| GenBuildGo.ConfigGenerator.ProcessPkg | go/src/dropbox/build_tools/gen-build-go/gen-build-go.go:295-356 | ends on every import graph; leaves the stack as it was, never unwrites anything, and without an error has dealt with the package |
| GenBuildGo.ConfigGenerator.ProcessAll | go/src/dropbox/build_tools/gen-build-go/gen-build-go.go:295-615 | reports an error if and only if the named packages reach one that cannot be read, generated or written; a named package that reaches none is written whatever else fails; without an error the packages written, each once, are those named that have Go files and whatever these import that has and is wanted, tests counting for dropbox packages only |
| GenBuildGo.ConfigGenerator.WriteAndPop | go/src/dropbox/build_tools/gen-build-go/gen-build-go.go:345-355 | when a package is written each visited import was written before, is skipped, or leads back to the package |
| GenBuildGo.StackLeadsToTop | go/src/dropbox/build_tools/gen-build-go/gen-build-go.go:303-304 | whatever is on the visit stack reaches the package on top through visited imports |
| GenBuildGo.ConfigGenerator.ReachableAreWritten | go/src/dropbox/build_tools/gen-build-go/gen-build-go.go:295-356 | with nothing on the stack and no error so far, written and reachable are the same |
| GenBuildGo.ConfigGenerator.WriteOrderIsTopological | go/src/dropbox/build_tools/gen-build-go/gen-build-go.go:311-354 | on acyclic imports every visited import that is generated at all was written earlier |
| Procfs.GetChildPidMap | go/src/dropbox/procfs/stat.go:216-223 | the map gives each pid exactly the children the snapshot shows |
| Procfs.ToIntSlice | go/src/dropbox/procfs/stat.go:225-231 | lists each element of the set once, in some order |
| Procfs.WalkedStep | go/src/dropbox/procfs/stat.go:178-187 | one turn of the worklist keeps: found pids are reachable, and a pid off the worklist has its children found |
| Procfs.GetProcessTreePids | go/src/dropbox/procfs/stat.go:158-190 | ESRCH exactly when the session has no process; otherwise each pid of the least set with the session's pids closed under children, exactly once, parent cycles included |
| Procfs.GetProcessDescendents | go/src/dropbox/procfs/stat.go:192-214 | the same closure from a single pid |
| Procfs.ListedIff | go/src/dropbox/procfs/stat.go:178-212 | a pid is listed if and only if it is a root or a line of processes of the snapshot, each the parent of the next, leads from a root to it |
| Procfs.SessionListedIff | go/src/dropbox/procfs/stat.go:158-190 | for a session, if and only if such a line leads to it from a process of the session |
| CommentTrie.Comments.Add | go/src/dropbox/build_tools/codegen/proto/descriptor.go:49-59 | changes the location under exactly that path and keeps the trie a tree |
| CommentTrie.Comments.Get | go/src/dropbox/build_tools/codegen/proto/descriptor.go:61-69 | finds the location filed under exactly that path, and reports absence if and only if there is none |
| CommentTrie.AddAll | go/src/dropbox/build_tools/codegen/proto/descriptor.go:112-115 | after any sequence of locations the trie holds the map of their paths |
| CommentTrie.FiledIsLast | go/src/dropbox/build_tools/codegen/proto/descriptor.go:49-69 | that map has a path if and only if some location has it, and then the last such location |
| GoAliases.FirstFree | go/src/dropbox/build_tools/codegen/go_writer.go:176-195 | the search ends, and finds the least count whose candidate is free |
| GoAliases.CandidateInjective | go/src/dropbox/build_tools/codegen/go_writer.go:182-185 | different counts give different candidates, so finitely many names cannot block the search |
| GoAliases.AliasesAreDistinct | go/src/dropbox/build_tools/codegen/go_writer.go:155-197 | distinct non-local packages get distinct aliases, none of them reserved |
| GoAliases.AliasIsLeastFree | go/src/dropbox/build_tools/codegen/go_writer.go:169-196 | each alias is the least candidate neither reserved nor given to an earlier package; a namesake of the local package never gets the bare name |
| GoAliases.BaseNameIs | go/src/dropbox/build_tools/codegen/go_writer.go:156-174 | the name an alias is made from is what follows the last slash of the path, or the whole path |
| GoAliases.AliasIsBaseNameIff | go/src/dropbox/build_tools/codegen/go_writer.go:174-195 | a package has its last path element for its alias if and only if that is not the local package's, not reserved and not the alias of a package before it |
| GoAliases.LoneBaseNameStays | go/src/dropbox/build_tools/codegen/go_writer.go:174-195 | so in particular when no package before it has a last element that is the same or becomes the same by a number |
| GoAliases.NumberedNameIsTaken | go/src/dropbox/build_tools/codegen/go_writer.go:174-195 | being alone in having the last element is not enough: p/a, q/a and r/a1 get a, a1 and a11 |
| GoAliases.LocalNameIsNumberedIff | go/src/dropbox/build_tools/codegen/go_writer.go:176-187 | a package with the local package's last element gets it with a 1 if and only if that is free |
| GoAliases.SamePathsSameAliases | go/src/dropbox/build_tools/codegen/go_writer.go:155-197 | the outcome depends on path set, local path and reserved names only, so assigning again changes nothing |
| Strings.LessIff | go/src/dropbox/build_tools/codegen/go_writer.go:162 | strings are ordered by the first character in which they differ, a prefix before what it begins |
| GoAliases.GoPkgMap.Name | go/src/dropbox/build_tools/codegen/go_writer.go:140-153 | all names of a package share its one package object |
| GoAliases.GoPkgMap.FindAlias | go/src/dropbox/build_tools/codegen/go_writer.go:176-195 | the loop ends at the first free candidate |
| GoAliases.GoPkgMap.AssignAliases | go/src/dropbox/build_tools/codegen/go_writer.go:155-197 | every package but the local one has the alias meant for it: distinct, not reserved, without a slash, least free in ascending path order |
| SqfsAccounting.InvariantNext | go/src/dropbox/build_tools/build-sqfs/main.go:143-228 | every step of the producer or a worker keeps: a source met is in flight once or stored, and counted for each occurrence but the one in flight |
| SqfsAccounting.InvariantAlways | go/src/dropbox/build_tools/build-sqfs/main.go:128-240 | this holds in every state of every error-free run, for any number of workers |
| SqfsAccounting.AllStoredAndCounted | go/src/dropbox/build_tools/build-sqfs/main.go:128-240 | at the end of an error-free run exactly the non-empty sources are stored, at the paths the content map gives, and counted as often as they occur |
| SqfsAccounting.AccountedAtEnd | go/src/dropbox/build_tools/build-sqfs/main.go:128-240 | once every worker has ended without an error, the accounting has nothing left in flight |
| SqfsAccounting.NeverStuck | go/src/dropbox/build_tools/build-sqfs/main.go:143-233 | until an error occurs the pool always has a step unless every worker has ended |
| SqfsAccounting.Preparation.Produce | go/src/dropbox/build_tools/build-sqfs/main.go:144-156 | the producer's locked region on the shared maps is a step of the transition system and keeps the accounting |
| SqfsAccounting.Preparation.Store | go/src/dropbox/build_tools/build-sqfs/main.go:165-227 | so are a worker's locked regions and its ending with an error |
| SqfsBuckets.RunGivesAccounting | go/src/dropbox/build_tools/build-sqfs/main.go:128-248 | every error-free run hands the counting what it needs |
| SqfsBuckets.CountLinks | go/src/dropbox/build_tools/build-sqfs/main.go:244-248 | the reference count of each content path is the number of manifest entries with a non-empty source filed there |
| SqfsBuckets.CopiesAreLeast | go/src/dropbox/build_tools/build-sqfs/main.go:255 | the rounded-up quotient is the least number of copies that holds all links |
| SqfsBuckets.MakeBuckets | go/src/dropbox/build_tools/build-sqfs/main.go:252-278 | fails if and only if a copy that is needed cannot be made; otherwise a path with more than 30000 references gets the least sufficient number of copies, all of them created, and any other path none |
| SqfsBuckets.ChooseTarget | go/src/dropbox/build_tools/build-sqfs/main.go:367-376 | an entry is linked to the content path it is filed under, or to a copy of it that was created, the latter exactly when the path has more than 30000 references |
| SqfsBuckets.HashesSpread | go/src/dropbox/build_tools/build-sqfs/main.go:369-375 | of any as many consecutive hashes as a path has copies, each copy gets exactly one |
| SqfsBuckets.FirstCopies | go/src/dropbox/build_tools/build-sqfs/main.go:252-256 | 30000 references need no copies, 30001 need two |
| SqfsBuckets.DealOut | go/src/dropbox/build_tools/build-sqfs/main.go:299-319 | the work items cut the entries into consecutive non-empty stretches |
| SqfsBuckets.EntryIsDealt | go/src/dropbox/build_tools/build-sqfs/main.go:308-317 | an index is an entry's if and only if some work item holds it |
| SqfsBuckets.ItemsApart | go/src/dropbox/build_tools/build-sqfs/main.go:308-317 | no two work items overlap |
| SqfsBuckets.WorkItemsBound | go/src/dropbox/build_tools/build-sqfs/main.go:301-307 | fewer than 20000 work items, but at most the intended 10000 if and only if there are at most 10000 entries or a multiple of 10000 |
| SqfsBuckets.TooManyItems | go/src/dropbox/build_tools/build-sqfs/main.go:301-307 | 19999 entries make 19999 work items |

What rows rely on: `KeysIdentify` (no two task objects share a key) for `Tasks.UniqueDepsIsReachableSet`, and
`NoReuse` (no name created twice) where a row says so, from which `Processor.NamesAcyclic` derives it; locations added to
the trie are not nil.

## Left out

- Launching processes, signals, `/proc`, log files, HTTP, gRPC and timing: a process exits with or without success, a
  check passes or fails, a snapshot is given, and backoff is no step of its own.
- What a service does after its first launch, but for status and process: background goroutines carry no launch identity
  and act on the next launch's fields. `StartOrder` and `StopRun` let the state cell hold anything from then on, and
  `ServiceLife` and `ServiceObject` keep track of status and process.
- StopRun.DependersStoppedFirst: a Stop that crashes ends the program, so no step of the run comes after it.
- Processor.PoolRunsToItsEnd: is about the pool alone; `Starter.StartsNeverHang` has the services in it.
- Liveness of stop where the process does not die, and of a start whose health checks never pass.
- ServiceStop.StopEndsIff: promises that a Stop can end, not that the scheduler lets it.
- ServiceProtocol.StartingNeverHangs: promises a possible step, not that a check passes in the end.
- Processor.SvcCtlProcessor.LookUp: counts the read locks taken; that a batch then waits for ever is the meaning of the
  lock, not a step of this model.
- Processor.SvcCtlProcessor.RemoveBatch: whether Stop on a service returns nil is given from outside by name, since each
  name is stopped at most once in a batch; a Stop that crashes is `ServiceLife`'s.
- Runner.Runner.HighestCost: for lists that have every dependency of a listed task; on others it may not end, and
  `CostCache.CachingByKeyIff` shows that there caching by key is wrong for some timing.
- Runner.Runner.TaskCost: for the same lists.
- Runner.Runner.CriticalPath: for the same lists; reads Duration and StartTime once and for all, as unbounded integers; a
  service that is started again while the path is computed would change them.
- Unsafe StopAll, Status, Diagnostics, restart on changed version files, log sampling.
- The loops of topological_starter.go and topological_stopper.go that wrap each dependent in a task object: a task is
  identified with its service object.
- Spurious wake-ups, which Go's condition variables do not have.
- BuildExprs.MergeExprMeaning: a dict denotes no list here, so for two dicts it says only that the result denotes none;
  `BuildExprs.DictIsUpdated` gives the shape of the result.
- Comments of merged statements other than the suffix comments of calls, and the buildifier passes after the merge.
- Module mode of gen-build-go (`moduleName` changing between packages), the cache in IsBuiltinPkg, the attributes and text
  of a BUILD file, and getDepBazelTarget, which only looks names up along a path.
- Content files that change or are half copied while build-sqfs runs, the check for duplicate destinations after linking,
  and how many links a bucket gets: a hash picks the bucket.
- SqfsBuckets.ChooseTarget: the hash is a natural number; on a platform where `int` has 32 bits it could be negative.
- Message and enum tables of descriptor.go, and the text that go_writer.go writes.
- The Python command-line drivers and packaging scripts, generated protobuf code and vendored code.
