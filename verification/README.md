# FlowMesh, verified

A Dafny model of the logic at the heart of FlowMesh, with proofs about it:

- **the dependency graph and the dry run**: building the graph, Kahn's sort over in-degree counters, the
  layer-by-layer phases, longest chains by relaxation, and the critical path;
- **the execution engine** as a step system: each stretch of code between two awaits, of the main loop or of one
  task's future, is one atomic step, and a run is any interleaving of steps; on top of it the checkpoint and resume;
- **the circuit breaker** under overlapping calls, whose completions can arrive in any later state;
- **the limiters and retries**: the token bucket over real time, the sliding-window request limiter, retry with
  backoff, and retry around the breaker.

Run `dafny verify dfyconfig.toml` to check everything.

## How it is organised

| file | content |
|---|---|
| `Prelude.dfy`, `Graphs.dfy` | names, options, paths, cycles, topological orders, longest chains |
| `Dag.dfy`, `Workflows.dfy` | the `DAG` class with Kahn's sort; tasks and `BuildDag` |
| `Planner.dfy`, `CriticalPath.dfy` | phases; relaxation, critical path and `DryRun` |
| `Scheduler.dfy` | the scheduler's sets and the in-memory checkpoint store |
| `EngineModel.dfy` | states and steps of a run |
| `EngineSafety.dfy`, `EngineProgress.dfy` | what every reachable state satisfies; the final state; termination |
| `EngineEval.dfy`, `EngineDeterminism.dfy` | the sequential evaluator; schedule independence |
| `EngineEnding.dfy` | exactly when runs of tasks that behave as defined end |
| `EngineMoves.dfy` | single steps, for lemmas that exhibit runs |
| `EngineResume.dfy` | checkpoint agreement and resume equivalence |
| `EngineRaces.dfy` | exactly which wirings make executions, and resumes, independent of the schedule |
| `EngineResults.dfy` | what a finished run's results are, said of the task list and the results alone |
| `EngineCutoff.dfy` | exactly which wirings can leave an unclosed checkpoint, and what resuming from one comes to |
| `Engine.dfy` | the engine class: every stretch as a method that refines its step; `Execute` and `Resume` |
| `Retry.dfy`, `CircuitBreaker.dfy`, `Invoke.dfy` | retries, the breaker, and retries through the breaker |
| `RateLimiter.dfy`, `SlidingWindow.dfy` | the two limiters |

Code that updates objects in place is a class or a method with a loop (`DAG`, `Scheduler`, `InMemoryCheckpointStore`,
`ExecutionEngine`, `CircuitBreaker`, `RateLimiter`, `RateLimitMiddleware`, `RetryWithBackoff`, `BuildPhases`,
`RelaxFrom`, `WalkBack`); each is proved against a function of its inputs or old state, and the laws are proved about
those functions over whole runs. Sets and dictionaries that Python visits in an unspecified order are visited in an
arbitrary order; `RunLoop` picks what runs next arbitrarily at every turn.

## Where the code and its documentation disagree

The model follows the code.

- The breaker's documentation speaks of consecutive failures. Successes in CLOSED forget nothing: the breaker opens on
  the total since it last closed (`ClosedCountsAllFailures`, `NotConsecutive`).
- `hooks.py` promises that a raising before-hook marks the task failed. It escapes the `try`: the task stays RUNNING for
  ever and the loop never ends (`RaisingMakesOrphan`). A raising condition does the same.
- `max_delay_seconds` is applied before the jitter, so a pause can exceed it by half (`JitterCanExceedCap`).
- The scheduler's semaphore is never acquired; a dispatch starts every ready task at once, and no bound on the number
  of running tasks is claimed.
- `execute` and `resume` do not reset task statuses. A task left over in a non-PENDING status is passed over in silence,
  and the workflow still ends SUCCESS (`LeftoverIsPassedOver` gives such a workflow; `SuccessMeansComplete` states
  exactly when the results are complete).
- An `input_map` entry may name any task. Drawing on a task that comes before or after this one in every order, a
  transitive dependency for instance, is determined; drawing on a task independent of this one is a race
  (`ScheduleIndependentIffOrdered`).
- A run that is cut off can leave a checkpoint that holds a task but not one it depends on, exactly when some task with a
  dependent is independent of a third (`UnclosedIffIndependent`). Resuming from any checkpoint gives the results of one
  uninterrupted run, for whatever the tasks do, exactly when each argument of a task still to be run comes from a
  restored task before it, from one that stands before or after it through tasks still to be run, from the task itself
  or from no task
  (`ResumeDeterminedIffFit`); `UnclosedCheckpointRaces` gives a run and a resume for which it does not.
- `execute` never clears a checkpoint. What an earlier run saved of a task survives even when the task fails this time,
  and a resume would restore it (`OldEntrySurvives`).

## Model

| member | source | states |
|---|---|---|
| Dags.DAG.AddNode | src/flowmesh/core/models.py:115-118 | Registering a node keeps counters exact and appends a new node to the insertion order; a known node changes nothing |
| Dags.DAG.AddEdge | src/flowmesh/core/models.py:120-126 | The graph gains the edge and its end points, the new ones appended to the insertion order, and every in-degree counter still equals the number of distinct predecessors |
| Dags.RepeatedEdge | src/flowmesh/core/models.py:124-126 | Declaring an edge again leaves the graph as it is, so it is never counted twice |
| Dags.FirstSeenOrder | src/flowmesh/core/models.py:115-126 | In the insertion order one node stands before another exactly when it is mentioned first |
| Dags.EmitHead | src/flowmesh/core/models.py:137-140 | Emitting the head of the queue keeps every counter equal to the number of dependencies still waiting, with its successors one too high |
| Dags.LowerSuccessor | src/flowmesh/core/models.py:140-143 | Lowering a successor's counter keeps "seen exactly when zero": the node is queued exactly when its last dependency was emitted |
| Dags.KahnDecidesCycles | src/flowmesh/core/models.py:145-149 | A finished run emitted every node if and only if the graph has no cycle, and then in a topological order |
| Dags.DAG.TopologicalSort | src/flowmesh/core/models.py:128-149 | Succeeds exactly on acyclic graphs with a duplicate-free order of all nodes that points every edge forward; a failure comes with a real cycle |
| Graphs.StuckSetHasCycle | src/flowmesh/core/models.py:145-148 | A non-empty set of nodes each waiting for another of the set contains a concrete cycle |
| Graphs.OrderExistsIffAcyclic | src/flowmesh/core/models.py:128-132 | A dependency-respecting order exists exactly when there is no cycle |
| Dags.DAG.GetReadyNodes | src/flowmesh/core/models.py:151-160 | Returns exactly the uncompleted nodes whose dependencies are all completed, each once, in insertion order |
| Workflows.BuildDag | src/flowmesh/core/models.py:182-194 | Builds exactly the declared graph, its nodes in the order in which the task list first mentions them; succeeds if and only if every dependency names a task and there is no cycle; otherwise names the first unknown dependency or reports the cycle |
| Planner.SortCorrect | src/flowmesh/core/engine.py:119-120 | The priority sort permutes its input into descending priority |
| Planner.SortStable | src/flowmesh/core/engine.py:119-120 | Tasks of equal priority keep their order |
| Planner.SortKeepsOrder | src/flowmesh/core/engine.py:119-120 | Sorting leaves two names of equal priority in the order in which they were given |
| Planner.SomeNodeReady | src/flowmesh/core/engine.py:114-118 | Before all tasks are layered some node is ready: the no-progress break is unreachable |
| Planner.BuildPhases | src/flowmesh/core/engine.py:110-122 | The phases partition the tasks; a task is in phase i exactly when its longest incoming chain has i+1 nodes; each phase is in descending priority, ties in the insertion order of the graph |
| CriticalPaths.PhasesAreEarliest | src/flowmesh/core/engine.py:110-122 | No assignment of layers that puts tasks after their dependencies places any task earlier, and each places some task in its last layer or beyond, so none has fewer layers |
| CriticalPaths.RelaxEdge | src/flowmesh/core/engine.py:129-132 | Relaxing one edge keeps every entry backed by a real chain and every processed edge settled |
| CriticalPaths.DistIsLongest | src/flowmesh/core/engine.py:126-132 | After relaxation each entry is the node count of the longest chain ending at its node |
| CriticalPaths.LongestPaths | src/flowmesh/core/engine.py:125-132 | The relaxation loop over a topological order computes the longest chain into every node |
| CriticalPaths.WalkBack | src/flowmesh/core/engine.py:136-141 | The predecessor walk ends and yields a real chain to the end node, as long as its entry says, from a node of entry one |
| CriticalPaths.WalkIsCritical | src/flowmesh/core/engine.py:134-141 | That chain starts at a task without dependencies, ends at one without dependents, and no chain of the graph is longer |
| CriticalPaths.PlanDuality | src/flowmesh/core/engine.py:143-148 | The number of phases equals the critical path length, though they come from different algorithms |
| CriticalPaths.DryRun | src/flowmesh/core/engine.py:97-148 | The whole dry run: exactly when it succeeds, which error otherwise (also for an empty workflow), and that the plan is correct in all the senses above; in each phase no task comes before one of higher `priority`, and of two with equal `priority` the one mentioned first in the task list comes first |
| Scheduling.Scheduler.MarkCompleted | src/flowmesh/core/scheduler.py:49-51 | The exact new sets |
| Scheduling.Scheduler.MarkFailed | src/flowmesh/core/scheduler.py:53-55 | The exact new sets |
| Scheduling.Scheduler.MarkRunning | src/flowmesh/core/scheduler.py:57-58 | The exact new sets |
| Scheduling.Scheduler.MarkSkipped | src/flowmesh/core/scheduler.py:60-63 | The exact new sets |
| Scheduling.Scheduler.Reset | src/flowmesh/core/scheduler.py:42-47 | All four sets are empty |
| Scheduling.Scheduler.GetReadyTasks | src/flowmesh/core/scheduler.py:65-83 | Exactly the PENDING tasks, neither running nor failed, whose dependencies are all completed or skipped, each once; none before one of higher `priority`, and ties in the graph's insertion order |
| Scheduling.InMemoryCheckpointStore.SaveTaskResult | src/flowmesh/core/checkpoint.py:43-46 | The workflow's entry gains the result and no other workflow's changes |
| Scheduling.InMemoryCheckpointStore.LoadCheckpoint | src/flowmesh/core/checkpoint.py:48-50 | Returns what was stored; None exactly when there is nothing |
| Scheduling.InMemoryCheckpointStore.Clear | src/flowmesh/core/checkpoint.py:52-53 | The workflow's entry is gone and no other changes |
| EngineModel.StepViews | src/flowmesh/core/engine.py:266-376 | A step changes the status, sets, result, future and saved result of the tasks it touches in the stated way and of no other task |
| EngineSafety.StepInv | src/flowmesh/core/engine.py:257-376 | The invariant every step keeps: each task's status, set memberships, result and future tell one consistent story, and started tasks had their dependencies done |
| EngineSafety.RunSafety | src/flowmesh/core/engine.py:266-376 | In every reachable state running, completed, failed and skipped are disjoint and agree with statuses and results; nothing started before its dependencies were done; a condition is shown the recorded result, not a failed one, of every declared dependency; no function was called twice, nor a restored task's |
| EngineSafety.DataFlow | src/flowmesh/core/engine.py:385-391 | In every run each argument of a call in flight is the recorded output of the task its parameter is mapped to, and none is missing whose source was restored or comes before the task through tasks of this run |
| EngineSafety.StartedOnce | src/flowmesh/core/engine.py:267-273 | No task started by a dispatch is started by a later one |
| EngineSafety.DispatchLoop | src/flowmesh/core/engine.py:267-285 | The loop ends only when nothing is in flight, nothing runs and nothing is ready |
| EngineSafety.MissingIffCutOff | src/flowmesh/core/engine.py:266-285 | When the loop has ended, whatever was restored, the tasks without a result are exactly those left over non-PENDING and those that depend on one of them or on a failed task with nothing restored in between |
| EngineSafety.ExactlyMissing | src/flowmesh/core/engine.py:266-285 | When what is restored holds all it depends on, these are the stale tasks and the strict descendants of failed or stale ones |
| EngineSafety.SuccessMeansNoFailure | src/flowmesh/core/engine.py:171-183 | The workflow status is SUCCESS exactly when no task failed |
| EngineSafety.SuccessMeansComplete | src/flowmesh/core/engine.py:152-185 | On SUCCESS the results cover every task if and only if no task was left over in a non-PENDING status |
| EngineSafety.LeftoverIsPassedOver | src/flowmesh/core/engine.py:152-185 | A workflow whose only task was left FAILED ends SUCCESS at once with no result |
| EngineProgress.StepDescends | src/flowmesh/core/engine.py:266-376 | Every step lowers a measure of the work left, except an idle poll, which needs a name stuck in `running` |
| EngineProgress.RunsAreFinite | src/flowmesh/core/engine.py:266-285 | If no condition and no before-hook raises, a run has at most seven steps a task and one more |
| EngineProgress.Progress | src/flowmesh/core/engine.py:266-285 | Until the loop has ended some step is possible, whatever the tasks do; afterwards none is |
| EngineProgress.OrphanForEver | src/flowmesh/core/engine.py:275-285 | A name whose future died stays in `running`, RUNNING, for the rest of every run, and the loop never ends |
| EngineProgress.RaisingMakesOrphan | src/flowmesh/core/engine.py:294-327 | A raising condition or before-hook has that effect: the task is never marked failed and the loop never ends |
| EngineMoves.HookCanRaise | src/flowmesh/core/engine.py:317-327 | Every task without dependencies of any workflow can come to a raising before-hook, which leaves it so |
| EngineProgress.EndedMeansGentle | src/flowmesh/core/engine.py:294-332 | Conversely the loop ends only in runs in which none of them raised |
| EngineEval.EvaluateConsistent | src/flowmesh/core/engine.py:287-401 | The sequential evaluator gives every task the result that follows from its ancestors' results, and blocked tasks none |
| EngineEval.OrderDoesNotMatter | src/flowmesh/core/engine.py:257-285 | It gives the same results in any topological order |
| EngineDeterminism.DetStep | src/flowmesh/core/engine.py:293-376 | Every step of tasks behaving as defined keeps the run in agreement with the evaluation: recorded results are the evaluated ones and calls in flight have the evaluated arguments |
| EngineDeterminism.ScheduleIndependence | src/flowmesh/core/engine.py:257-401 | Every finished execution, under any interleaving, ends with exactly the evaluator's results, when no argument comes from a task independent of the one drawing on it |
| EngineDeterminism.FinishedRunIsEvaluation | src/flowmesh/core/engine.py:257-401 | The same from any start that restores evaluated results, closed under dependencies or not, when every argument of a task still to be run is settled; statuses included |
| EngineEnding.EndsIffNoneRaises | src/flowmesh/core/engine.py:294-296 | The loop can end if and only if no task still to be run has a condition that raises on the results the evaluation shows it |
| EngineEnding.BehavedRunsEnd | src/flowmesh/core/engine.py:266-296 | Then every such run has at most seven steps a task and one more, and from wherever it has got to the loop can be brought to its end |
| EngineEnding.TotalMeansNoneRaises | src/flowmesh/core/engine.py:294-296 | A condition may raise when a declared dependency is missing from what it is shown: it never is |
| EngineRaces.ScheduleIndependentIffOrdered | src/flowmesh/core/engine.py:386-391 | Dependencies and input sources make every execution schedule independent, whatever functions and conditions do, if and only if no input comes from a task independent of the one drawing on it |
| EngineRaces.StartTogether | src/flowmesh/core/engine.py:266-273 | Two tasks still to be run, neither depending on the other through such tasks, can come to start side by side, in an execution or a resume |
| EngineRaces.RaceEnds | src/flowmesh/core/engine.py:386-391 | From there the argument is passed in one schedule and missing in another, and both runs end, with different results |
| EngineRaces.ResumeDeterminedIffFit | src/flowmesh/core/engine.py:203-219 | Dependencies and input sources make every resume from a checkpoint of the given tasks end with the results of one uninterrupted run, whatever functions and conditions do, if and only if every argument of a task still to be run is settled |
| EngineRaces.RestoredTooEarly | src/flowmesh/core/engine.py:386-391 | An argument from a restored task that does not come first is passed in every resume and missing in some uninterrupted run |
| EngineRaces.UnsettledRaces | src/flowmesh/core/engine.py:386-391 | An argument from an unsettled task still to be run is passed in one resume and missing in another |
| EngineEval.DeclaredFits | src/flowmesh/core/engine.py:386-391 | Inputs from declared dependencies are settled whatever is restored |
| EngineEval.OrderedFits | src/flowmesh/core/engine.py:386-391 | When what is restored holds all it depends on, inputs not from independent tasks are settled |
| EngineResume.CheckpointAgreement | src/flowmesh/core/engine.py:303-357 | The checkpoint is always part of the completed and skipped results, with equal values; at loop exit it is all of them and closed under dependencies |
| EngineResume.CheckpointAtExit | src/flowmesh/core/engine.py:303-357 | At loop exit, from any start, the store holds what it held before with the completed and skipped results over it |
| Engine.OldEntrySurvives | src/flowmesh/core/engine.py:150-185 | An entry of an earlier run survives an execution in which its task fails, and a resume would restore it |
| EngineCutoff.UnclosedIffIndependent | src/flowmesh/core/engine.py:342-357 | Some execution leaves, at some moment, a checkpoint that holds a task but not one it depends on, for some functions and conditions, if and only if some task with a dependent is independent of a third |
| EngineCutoff.CutWhileSaving | src/flowmesh/core/engine.py:342-357 | An independent task that ends while another is being saved lets what depends on that other be saved first |
| EngineCutoff.StaysClosed | src/flowmesh/core/engine.py:342-357 | Without such tasks every checkpoint of every run, whatever the tasks do, stays closed under dependencies |
| EngineResume.ResumeEquivalence | src/flowmesh/core/engine.py:187-251 | Resuming after a run, a first one or a resumed one, that ended or was cut off anywhere gives the results of one uninterrupted run; no checkpointed task is called again; the checkpoint is cleared exactly on success |
| EngineResume.ResetSuffices | src/flowmesh/core/engine.py:203-219 | After a run that ended, putting failed tasks back to PENDING is all a resume needs, and the checkpoint it resumes from is closed under dependencies, with inputs that fit, if the one before was closed |
| EngineResume.LeftBehindIsResumable | src/flowmesh/core/engine.py:187-219 | Every checkpoint that a run leaves, a first one or a resumed one, at its end or cut off, meets what a resume asks for, and so on through any chain of resumes |
| EngineResume.FirstRunLeaves | src/flowmesh/core/engine.py:150-185 | A first run is the case of nothing stored |
| EngineCutoff.UnclosedCheckpointRaces | src/flowmesh/core/engine.py:386-391 | A run cut off and resumed from what it left can end with different results, though the workflow is schedule independent |
| EngineResults.TaskMapEntry | src/flowmesh/core/engine.py:154 | The task map holds the last task of every name |
| EngineResults.FlowIsValid | src/flowmesh/core/models.py:182-194 | Whatever build_dag accepts, repeated task names included, is a valid input to the engine |
| EngineResults.ExplainedIffConsistent | src/flowmesh/core/engine.py:287-401 | Results follow from each other along the dependencies, with no condition raising, exactly when each is explained by the task list and the other results alone: a task has one exactly when every declared dependency has one that is not FAILED; it is SKIPPED exactly when its condition says so of its dependencies' results, otherwise SUCCESS with v exactly when within its retries its function, called with the outputs of its sources that come before it, first returns v, and otherwise FAILED |
| EngineResults.ExplanationIsUnique | src/flowmesh/core/engine.py:150-251 | That account, with what was restored, determines all results |
| Engine.ExecutionEngine.DispatchReady | src/flowmesh/core/engine.py:267-285 | One pass of the main loop, in place, is the dispatch step |
| Engine.ExecutionEngine.CheckCondition | src/flowmesh/core/engine.py:293-317 | The condition check, in place, is the check step. The condition is applied to the recorded results of the declared dependencies: when it holds, or there is none, the task is started and nothing is recorded; when it does not, the task is recorded SKIPPED; when it raises, its future is gone and it stays in `running` |
| Engine.ExecutionEngine.BeginCall | src/flowmesh/core/engine.py:385-391 | Reading the arguments, in place, is the begin step: each parameter whose mapped task has a result gets that output |
| Engine.ExecutionEngine.Invoke | src/flowmesh/core/engine.py:329-333 | Comes to the output v exactly when, within the task's own retry count or else the default one, the function first returns v; otherwise to a failure |
| Engine.ExecutionEngine.FinishCall | src/flowmesh/core/engine.py:333-370 | Recording the outcome, in place, is the finish step: SUCCESS with v exactly when the retried function first returns v in time, otherwise FAILED, in result and status alike |
| Engine.ExecutionEngine.SaveResult | src/flowmesh/core/engine.py:356-357 | Saving, in place, is the save step and touches no other workflow's checkpoint |
| Engine.ExecutionEngine.RunLoop | src/flowmesh/core/engine.py:257-285 | Whatever is chosen to run next at every turn, the loop ends, in a state such a run can reach, if no such run meets a raising condition; no other workflow's checkpoint changes |
| Engine.ExecutionEngine.Restore | src/flowmesh/core/engine.py:203-219 | Restoring a checkpoint entry by entry, in any order, gives the start of the resumed run |
| Engine.ExecutionEngine.Execute | src/flowmesh/core/engine.py:150-185 | From a task list to results: fails exactly on a bad graph; otherwise ends with the sequential evaluator's results, which are the explained ones (EngineResults.ExplainedIffConsistent), the right workflow status, and all results that did not fail put into the workflow's checkpoint, over what was there; no other workflow's checkpoint changes |
| Engine.ExecutionEngine.Resume | src/flowmesh/core/engine.py:187-251 | The same from a checkpoint, closed under dependencies or not: checkpointed results are kept and the others explained, no checkpointed task is called and the checkpoint is cleared exactly on success; fails without a store; no other workflow's checkpoint changes |
| CircuitBreakers.CircuitBreaker.RequestAdmission | src/flowmesh/patterns/circuit_breaker.py:76-87 | The locked admission, in place, is the admission function |
| CircuitBreakers.CircuitBreaker.NoteFailure | src/flowmesh/patterns/circuit_breaker.py:109-115 | Recording a failure, in place, is its function |
| CircuitBreakers.CircuitBreaker.NoteSuccess | src/flowmesh/patterns/circuit_breaker.py:117-124 | Recording a success, in place, is its function |
| CircuitBreakers.StepKeepsInvariant | src/flowmesh/patterns/circuit_breaker.py:76-124 | Every event, however late, keeps: CLOSED exactly while fewer failures than the threshold are counted; in HALF_OPEN the call count is the number of live probes of this period, within the limit |
| CircuitBreakers.NeverWedges | src/flowmesh/patterns/circuit_breaker.py:76-124 | After any run of overlapping calls a closed breaker admits, a half-open one admits exactly while fewer probes than its limit are in flight, any completion takes it out of HALF_OPEN, a success to CLOSED with nothing counted, and an open one admits exactly once the timeout has passed since the last failure |
| CircuitBreakers.NoLiveProbeMeansWedged | src/flowmesh/patterns/circuit_breaker.py:84-87 | The hypothesis behind it: with the slots used up and nothing in flight the breaker rejects for ever |
| CircuitBreakers.StuckOnlyThen | src/flowmesh/patterns/circuit_breaker.py:84-87 | In every other half-open state some next event is admitted or leaves HALF_OPEN |
| CircuitBreakers.CoolDown | src/flowmesh/patterns/circuit_breaker.py:101-115 | After a failure that leaves the breaker OPEN at T nothing is admitted before T plus the timeout, whatever completes meanwhile |
| CircuitBreakers.ReopensExactly | src/flowmesh/patterns/circuit_breaker.py:101-115 | With nothing in between, a call after a failure at T that left the breaker OPEN is admitted exactly from T plus the timeout on |
| CircuitBreakers.ClosedCountsAllFailures | src/flowmesh/patterns/circuit_breaker.py:109-124 | A closed breaker stays CLOSED exactly while the failures in all, not in a row, are fewer than the threshold |
| CircuitBreakers.NotConsecutive | src/flowmesh/patterns/circuit_breaker.py:42-46 | Failure, success, failure opens a breaker of threshold two |
| Retry.RetryWithBackoff | src/flowmesh/patterns/retry.py:33-70 | At most retries + 1 attempts; the first success or the last exception; each pause is the capped base delay times the power of the exponential base, times the draw if there is jitter; total sleep at most retries times the longest pause (1.5 times the cap with jitter) |
| Retry.EndingIsUnique | src/flowmesh/patterns/retry.py:48-70 | That description determines the result |
| Retry.DoneIffReturned | src/flowmesh/patterns/retry.py:48-54 | A retried call returns v exactly when some allowed attempt returns it and every earlier one raises |
| Retry.DelaysNeverShrink | src/flowmesh/patterns/retry.py:55-58 | Without jitter the pauses never decrease and stay under the cap |
| Retry.DelaysGrowGeometrically | src/flowmesh/patterns/retry.py:41-58 | The pauses start at the base delay, grow by the exponential base while under the cap, and stay at the cap once there |
| Retry.JitterCanExceedCap | src/flowmesh/patterns/retry.py:55-60 | A pause may exceed max_delay exactly when the policy has jitter and 1.5 times the uncapped delay is over it, and by half at most |
| Invocations.InvokeThroughBreaker | src/flowmesh/core/engine.py:393-401 | With other callers interfering at every await, an attempt is rejected exactly when the breaker as all earlier attempts and callers have left it refuses, else it is the next call; the retry law holds of the attempts and of the pauses between them; the breaker ends as the events of the attempts, among the others', leave it (InvocationIsRun), CLOSED when its last call returned undisturbed, and after one undisturbed probe with nothing counted; a lone caller of a failing function calls it until the threshold and no more |
| Invocations.CallThrough | src/flowmesh/core/engine.py:393-399 | One attempt, in place. Undisturbed it reaches the function exactly when the breaker's fields allow it; a call that returns leaves the breaker CLOSED, with nothing counted if it was not CLOSED before; one that raises counts one failure more at its time and opens the breaker at the threshold |
| Invocations.InvocationIsRun | src/flowmesh/core/engine.py:393-401 | An invocation leaves the breaker as a run of it in which each attempt is a Call, followed if admitted by Succeed when the function returned and by Fail when it raised, among the events of the other callers |
| Invocations.CallsAndRejections | src/flowmesh/core/engine.py:393-401 | Every attempt is one function call or one rejection |
| Invocations.BreakerCapsRetries | src/flowmesh/core/engine.py:393-401 | Among the attempts of a lone caller, a closed breaker lets failing calls through until the threshold and none after, while the cool-down lasts |
| RateLimiters.RateLimiter.Acquire | src/flowmesh/patterns/rate_limiter.py:40-49 | A lone acquirer of n tokens within capacity is granted them at the first pass at which the bucket, with the refill rate times the time since, holds n; it returns after at most ceil(n) sleeps, with the bucket lower by n |
| RateLimiters.WaitEndsIffWithinCapacity | src/flowmesh/patterns/rate_limiter.py:40-49 | A lone acquirer gets its tokens in the end exactly when it asks for no more than the capacity |
| RateLimiters.RateLimiter.AvailableTokens | src/flowmesh/patterns/rate_limiter.py:35-38 | Reports the tokens it had plus the refill rate times the time since, up to the capacity |
| RateLimiters.RateLimiter.TryAcquire | src/flowmesh/patterns/rate_limiter.py:43-47 | One locked pass grants n exactly when n is within the capacity and within the tokens it had plus the refill rate times the time since; a grant takes n and a refusal nothing |
| RateLimiters.GrantedIffEnough | src/flowmesh/patterns/rate_limiter.py:43-58 | A request at t from a bucket last touched at s is granted exactly when it is within the capacity and within the tokens it held plus rate times t - s |
| RateLimiters.BucketWithinBounds | src/flowmesh/patterns/rate_limiter.py:51-58 | After any run the bucket is between zero and its capacity |
| RateLimiters.GrantedInInterval | src/flowmesh/patterns/rate_limiter.py:40-58 | From any moment of any run of concurrent acquirers, the tokens granted in [s, t] are at most capacity plus rate times t - s |
| RateLimiters.ReadsAreUnobservable | src/flowmesh/patterns/rate_limiter.py:35-58 | Inserting a read or a refused attempt anywhere changes no other decision |
| RateLimiters.EffectiveRunAgrees | src/flowmesh/patterns/rate_limiter.py:35-58 | Leaving out all of them at once leaves every grant granted and the bucket indistinguishable |
| SlidingWindows.RateLimitMiddleware.Dispatch | src/flowmesh/auth/__init__.py:276-303 | The dispatch, in place, is the pruning function; exempt are exactly "/health" and "/metrics" |
| SlidingWindows.ExemptExactly | src/flowmesh/auth/__init__.py:278-280 | In every run the requests let through uncounted are exactly those to "/health" and "/metrics" |
| SlidingWindows.PruningRefinesHistory | src/flowmesh/auth/__init__.py:285-303 | With a positive limit every request of every run is decided as the complete history would decide it |
| SlidingWindows.HistoryIsAccepted | src/flowmesh/auth/__init__.py:285-303 | The complete history is that of the requests which the pruning code lets through |
| SlidingWindows.FirstRequestAlwaysAccepted | src/flowmesh/auth/__init__.py:291-303 | Without a positive limit that fails: a client's first request still gets through |
| SlidingWindows.ExemptIsInvisible | src/flowmesh/auth/__init__.py:278-280 | A health or metrics request inserted anywhere is let through and changes no other decision |
| SlidingWindows.AtMostLimitPerMinute | src/flowmesh/auth/__init__.py:285-303 | Any half-open sixty seconds, wherever they start, hold at most the limit of the requests that the pruning code lets through from one host, or from none, which counts as the host "unknown" |
| SlidingWindows.RejectedOnlyWhenFull | src/flowmesh/auth/__init__.py:291-298 | The pruning code rejects a request to any other path exactly when the limit, no more and no fewer, was let through from its host in the last sixty seconds |
| SlidingWindows.ClientsAreIndependent | src/flowmesh/auth/__init__.py:281-303 | A client's decisions are those of the run without the other clients |

## Left out

- REST routes, schemas, app factory, WebSocket, dashboard, logging, decorators, DSL, Prometheus export: I/O, text and field copying.
- SQLite, Postgres and Redis stores: network and SQL wrappers; only the in-memory checkpoint store is modelled.
- API keys, JWT and roles: single-branch lookups over libraries not part of this model.
- Event bus: publishing is only an await; a failing subscriber does not reach the engine.
- Hook bodies: a before-hook passes or raises; after-hooks run once everything is recorded and change nothing modelled.
- Timestamps, task ids and error texts: not part of a result here; a result is a status and an output.
- Task and TaskResult objects: statuses are kept in a map by task name, so aliasing of task objects between workflows is not captured; `task.result` is the entry in the results.
- Cancellation and task timeouts: a timeout is a raised attempt; cancelling a call that is inside the breaker, which would record nothing, is not an event of the model (`NoLiveProbeMeansWedged` says what the breaker does then).
- A failing checkpoint save: saves succeed. In the code a failing save would put the task into both the completed and the failed set.
- One engine running two workflows at once: its scheduler is shared and reset, so one run at a time is modelled.
- The breaker inside the engine's determinism results: outcomes through a breaker depend on other callers; `Invoke.dfy` treats that composition on its own.
- A cap on concurrency: the code enforces none.
- Floating-point rounding: times and tokens are reals.
- Engine.ExecutionEngine.Execute: asks that the evaluation meets no raising condition and that no input comes from an independent task, because exactly otherwise the loop does not end (`EndsIffNoneRaises`) or the schedule decides (`ScheduleIndependentIffOrdered`).
- Engine.ExecutionEngine.Resume: asks that the checkpoint hold evaluated results, that the arguments of tasks still to be run be settled and that the evaluation meet no raising condition among them, because otherwise the results are not determined (`ResumeDeterminedIffFit`) or the loop does not end (`EndsIffNoneRaises`).
- RateLimiters.GrantedInInterval: asks for requests of no negative number of tokens; a negative request would add tokens.
- CircuitBreakers.NeverWedges: asks for a positive threshold and a positive probe limit, as the defaults have.
