/** The engine itself: each stretch between two awaits as a method that does what the step system
    says, and `execute` and `resume` over an adversarial choice of what runs next. */
module Engine {
  import opened Prelude
  import opened Graphs
  import opened Dags
  import opened Workflows
  import opened Planner
  import opened Scheduling
  import opened EngineModel
  import opened EngineSafety
  import opened EngineProgress
  import opened EngineEval
  import opened EngineDeterminism
  import opened EngineEnding
  import opened EngineResults
  import opened EngineResume
  import Retry

  class ExecutionEngine {
    const defaultRetries: int
    const scheduler: Scheduler
    const store: InMemoryCheckpointStore?
    var status: map<Name, TaskStatus>       // the status field of every task
    var results: map<Name, TaskResult>
    var futures: map<Name, Pc>
    var calls: seq<Name>
    var awake: bool
    var exited: bool

    constructor (defaultRetries: int, store: InMemoryCheckpointStore?)
      ensures this.defaultRetries == defaultRetries && this.store == store && fresh(scheduler)
    {
      this.defaultRetries := defaultRetries;
      this.scheduler := new Scheduler();
      this.store := store;
      status, results, futures, calls, awake, exited := map[], map[], map[], [], true, false;
    }

    /** The state of the step system that the engine's fields stand for. */
    ghost function Snapshot(id: WorkflowId): State
      reads this, scheduler, store
    {
      State(status, results, scheduler.completed, scheduler.failed, scheduler.running, scheduler.skipped,
            futures, if store == null then map[] else store.Contents(id), calls, awake, exited)
    }

    /** Marks the given tasks running and creates their futures. */
    method StartAll(ready: seq<Name>, id: WorkflowId)
      requires forall n :: n in ready ==> n in status
      modifies this, scheduler
      ensures Snapshot(id) == StartTasks(old(Snapshot(id)), Elems(ready))
    {
      ghost var before := Snapshot(id);
      NothingStarted(before);
      assert ready[..0] == [];
      hide StartTasks, Elems;
      for i := 0 to |ready|
        invariant Snapshot(id) == StartTasks(before, Elems(ready[..i]))
      {
        StartOneMore(before, ready, i);
        scheduler.MarkRunning(ready[i]);
        status := status[ready[i] := RUNNING];
        futures := futures[ready[i] := Created];
      }
      assert ready[..|ready|] == ready;
    }

    /** One pass of the main loop. */
    method DispatchReady(f: Flow, dag: DAG, id: WorkflowId)
      requires dag.Valid() && dag.adjacency == f.adj && Enabled(f, Snapshot(id), Dispatch)
      modifies this, scheduler
      ensures Snapshot(id) == Apply(f, old(Snapshot(id)), Dispatch)
    {
      ghost var before := Snapshot(id);
      var ready := scheduler.GetReadyTasks(dag, f.tasks, status);
      assert Elems(ready) == Ready(f, before);
      ReadyKnown(f, before, ready);
      hide ReadyTasks, Ready, StartTasks, WellFormed, NoDup, Elems;
      StartAll(ready, id);
      LeaveOrWait(f, before, Snapshot(id));
      if futures == map[] && scheduler.IsComplete() {
        awake, exited := false, true;
      } else if futures != map[] {
        awake := false;
      }
    }

    /** Evaluates the task's condition, if it has one. A condition that raises kills the future: nothing is
        recorded, and the task stays in `running`. */
    method CheckCondition(f: Flow, n: Name, id: WorkflowId)
      requires n in f.tasks && Enabled(f, Snapshot(id), Check(n, VerdictOf(f, results, n)))
      modifies this, scheduler
      ensures Snapshot(id) == Apply(f, old(Snapshot(id)), Check(n, VerdictOf(f, old(results), n)))
      ensures var task := f.tasks[n];
              var shown := map d | d in task.dependsOn && d in old(results) :: old(results)[d];
              match if task.condition.Some? then task.condition.value(shown) else Run
              case Run => futures == old(futures)[n := Started] && status == old(status) && results == old(results)
              case Skip => status == old(status)[n := SKIPPED]
                           && results == old(results)[n := TaskResult(SKIPPED, None)]
                           && scheduler.skipped == old(scheduler.skipped) + {n}
              case Raise => n !in futures && awake && status == old(status) && results == old(results)
                            && scheduler.running == old(scheduler.running)
    {
      var task := f.tasks[n];
      if task.condition.Some? {
        var upstreamResults := Upstream(f, results, n);
        match task.condition.value(upstreamResults) {
          case Raise =>
            futures, awake := futures - {n}, true;
            return;
          case Skip =>
            var result := SkippedResult();
            status := status[n := SKIPPED];
            results := results[n := result];
            scheduler.MarkSkipped(n);
            futures := futures[n := Saving(result)];
            return;
          case Run =>
        }
      }
      futures := futures[n := Started];
    }

    method BeginCall(f: Flow, n: Name, id: WorkflowId)
      requires Enabled(f, Snapshot(id), Begin(n, true))
      modifies this
      ensures Snapshot(id) == Apply(f, old(Snapshot(id)), Begin(n, true))
      ensures var inputs := f.tasks[n].inputMap;
              var kwargs := map p | p in inputs && inputs[p] in results :: results[inputs[p]].output;
              futures == old(futures)[n := Calling(kwargs)]
    {
      var kwargs := KwargsOf(f, results, n);
      calls := calls + [n];
      futures := futures[n := Calling(kwargs)];
    }

    /** Calls the task's function with its retries. */
    method Invoke(f: Flow, n: Name, kwargs: Kwargs, jitterFactor: nat -> real) returns (output: Option<Option<Value>>)
      requires n in f.tasks
      requires forall i :: 0.5 <= jitterFactor(i) <= 1.5
      ensures output == OutcomeOf(f, n, kwargs)
      ensures var retries := if f.tasks[n].retryCount != 0 then f.tasks[n].retryCount else f.defaultRetries;
              forall v :: output == Some(v) <==> ReturnsInTime(f.tasks[n], kwargs, retries, v)
    {
      hide Retry.RetriedFrom, Retry.EndsAfter, ReturnsInTime;
      forall v { OutcomeIsFirstReturn(f, n, kwargs, v); }
      var task := f.tasks[n];
      var retries := if task.retryCount != 0 then task.retryCount else f.defaultRetries;
      var func := (i: nat) => task.func(kwargs, i);
      var policy := Retry.PolicyWithRetries(retries);
      var outcome, attempts, _, _ := Retry.RetryWithBackoff(func, policy, jitterFactor);
      assert policy.maxRetries == retries;
      Retry.EndingIsUnique(func, retries, outcome, attempts);
      output := match outcome case Done(value) => Some(value) case _ => None;
    }

    method FinishCall(f: Flow, n: Name, id: WorkflowId, jitterFactor: nat -> real)
      requires n in f.tasks && n in futures && futures[n].Calling?
      requires forall i :: 0.5 <= jitterFactor(i) <= 1.5
      modifies this, scheduler
      ensures Snapshot(id) == Apply(f, old(Snapshot(id)), Finish(n, OutcomeOf(f, n, old(futures[n].kwargs))))
      ensures var retries := if f.tasks[n].retryCount != 0 then f.tasks[n].retryCount else f.defaultRetries;
              && n in results && results == old(results)[n := results[n]]
              && status == old(status)[n := results[n].status]
              && (forall v :: results[n] == TaskResult(SUCCESS, v)
                              <==> ReturnsInTime(f.tasks[n], old(futures[n].kwargs), retries, v))
              && (results[n].status != SUCCESS ==> results[n] == TaskResult(FAILED, None))
    {
      hide OutcomeOf, ReturnsInTime;
      ghost var kwargs := futures[n].kwargs;
      var output := Invoke(f, n, futures[n].kwargs, jitterFactor);
      ghost var retries := if f.tasks[n].retryCount != 0 then f.tasks[n].retryCount else f.defaultRetries;
      assert forall v :: ReturnsInTime(f.tasks[n], kwargs, retries, v) ==> output == Some(v);
      match output {
        case Some(value) =>
          var result := TaskResult(SUCCESS, value);
          status := status[n := SUCCESS];
          results := results[n := result];
          scheduler.MarkCompleted(n);
          futures := futures[n := Saving(result)];
        case None =>
          var result := TaskResult(FAILED, None);
          status := status[n := FAILED];
          results := results[n := result];
          scheduler.MarkFailed(n);
          futures := futures[n := Ending];
      }
    }

    method SaveResult(f: Flow, n: Name, id: WorkflowId)
      requires Enabled(f, Snapshot(id), Save(n)) && f.hasStore == (store != null)
      modifies this, store
      ensures Snapshot(id) == Apply(f, old(Snapshot(id)), Save(n))
      ensures store != null ==> forall other :: other != id ==> store.Contents(other) == old(store.Contents(other))
    {
      if store != null {
        store.SaveTaskResult(id, n, futures[n].result);
      }
      futures := futures[n := Ending];
    }

    /** Lets one suspended future go on to its next await. */
    method Advance(f: Flow, n: Name, id: WorkflowId, jitterFactor: nat -> real)
      returns (ghost step: Step)
      requires n in f.tasks && n in futures && f.hasStore == (store != null)
      requires forall i :: 0.5 <= jitterFactor(i) <= 1.5
      modifies this, scheduler, store
      ensures Enabled(f, old(Snapshot(id)), step) && Follows(f, old(Snapshot(id)), step)
      ensures Snapshot(id) == Apply(f, old(Snapshot(id)), step)
      ensures store != null ==> forall other :: other != id ==> store.Contents(other) == old(store.Contents(other))
    {
      hide VerdictOf, OutcomeOf, Apply, KwargsOf;
      match futures[n] {
        case Created =>
          step := Check(n, VerdictOf(f, results, n));
          NoConditionRuns(f, results, n);
          CheckCondition(f, n, id);
        case Started =>
          step := Begin(n, true);
          BeginCall(f, n, id);
        case Calling(kwargs) =>
          step := Finish(n, OutcomeOf(f, n, kwargs));
          FinishCall(f, n, id, jitterFactor);
        case Saving(_) =>
          step := Save(n);
          SaveResult(f, n, id);
        case Ending =>
          step := End(n);
          EndFuture(f, n, id);
      }
    }

    /** The main loop. What runs next, a pass of the loop or any of the suspended futures, is chosen
        arbitrarily at every turn. It ends if no run of the tasks meets a raising condition. */
    method RunLoop(f: Flow, dag: DAG, id: WorkflowId, jitterFactor: nat -> real, ghost u: Setup, ghost order: seq<Name>)
      requires dag.Valid() && dag.adjacency == f.adj && f == u.f && f.hasStore == (store != null)
      requires NeverRaises(u) && ValidSetup(u) && Elems(order) == f.tasks.Keys
      requires Snapshot(id) == Initial(u)
      requires forall i :: 0.5 <= jitterFactor(i) <= 1.5
      modifies this, scheduler, store
      ensures exited && DetReachable(u, Snapshot(id))
      ensures store != null ==> forall other :: other != id ==> store.Contents(other) == old(store.Contents(other))
    {
      hide DetReachable, Inv, Apply, Enabled, ValidSetup, Measure, Gentle, Follows, Elems, NeverRaises, Reachable,
        DAG.Valid;
      InitialInv(u);
      DetReachableStart(u);
      while !exited
        invariant DetReachable(u, Snapshot(id)) && Inv(u, Snapshot(id)) && Healthy(Snapshot(id))
        invariant store != null ==> forall other :: other != id ==> store.Contents(other) == old(store.Contents(other))
        decreases Measure(order, Snapshot(id))
      {
        ghost var before, step := Snapshot(id), Dispatch;
        SomethingToDo(u, before);
        if {
          case awake =>
            DispatchFollows(f, before);
            DispatchReady(f, dag, id);
          case futures != map[] =>
            var n :| n in futures;
            FutureIsTask(u, before, n);
            step := Advance(f, n, id, jitterFactor);
        }
        GentleNext(u, before, step);
        DetReachableStep(u, before, step);
        StepInv(u, before, step);
        HealthyStep(u, before, step);
        StepDescends(u, before, step, order);
      }
    }

    /** Clears the scheduler and the run's own variables; the tasks' statuses are left as they are. */
    method Reset(id: WorkflowId)
      modifies this, scheduler
      ensures status == old(status)
      ensures Snapshot(id) == Start(status, map[], if store == null then map[] else store.Contents(id))
    {
      scheduler.Reset();
      results, futures, calls, awake, exited := map[], map[], [], true, false;
      StartFresh(status, if store == null then map[] else store.Contents(id));
    }

    /** Runs a workflow whose tasks are all PENDING, under an arbitrary interleaving, to the results of
        the sequential evaluator. */
    method Execute(tasks: seq<Task>, id: WorkflowId, jitterFactor: nat -> real)
      returns (r: Result<map<Name, TaskResult>, WorkflowError>, outcome: WorkflowStatus)
      requires WellBehaved(tasks, defaultRetries, store != null)
      requires status.Keys == TaskNames(tasks) && forall n :: n in status ==> status[n] == PENDING
      requires forall i :: 0.5 <= jitterFactor(i) <= 1.5
      modifies this, scheduler, store
      ensures r.Success? <==> DepsKnown(tasks) && Acyclic(DeclaredGraph(tasks))
      ensures r.Success? ==> EvaluatesTo(FlowOf(tasks, defaultRetries, store != null), r.value)
      ensures r.Success? ==> Explained(tasks, defaultRetries, r.value, map[])
      ensures r.Success? ==> (outcome == WORKFLOW_SUCCESS <==> forall n :: n in r.value ==> r.value[n].status != FAILED)
      ensures r.Success? && store != null ==>
                store.Contents(id)
                == old(store.Contents(id)) + map n | n in r.value && r.value[n].status != FAILED :: r.value[n]
      ensures store != null ==> forall other :: other != id || r.Failure? ==>
                store.Contents(other) == old(store.Contents(other))
    {
      hide WellBehaved, DepsKnown, Acyclic, DeclaredGraph, WellFormed, ValidSetup, NeverRaises, TaskMap, NoneRaises,
        DetReachable, Evaluate, Orders, AgreeingStart, TaskNames, Elems, IsTopologicalOrder, EvaluatesTo,
        InputsOrdered, Explained;
      outcome := WORKFLOW_FAILED;
      var built := BuildDag(tasks);
      if built.Failure? {
        return Failure(built.error), outcome;
      }
      var dag := built.value;
      var f := Flow(dag.adjacency, TaskMap(tasks), defaultRetries, store != null);
      BehavedFlow(tasks, f);
      ghost var stored := if store == null then map[] else store.Contents(id);
      ghost var u := Execution(f, status, stored);
      Reset(id);
      ExecutionSetup(f, status, stored);
      var sorted := dag.TopologicalSort();
      ghost var order := sorted.value;
      OrderOfFlow(f, order);
      ExecutionNeverRaises(tasks, f, u, order);
      RunLoop(f, dag, id, jitterFactor, u, order);
      if scheduler.HasFailures() {
        outcome := WORKFLOW_FAILED;
      } else {
        outcome := WORKFLOW_SUCCESS;
      }
      ExecutionDone(f, u, order, Snapshot(id));
      ExecutionExplained(tasks, f, order, results);
      return Success(results), outcome;
    }

    method RestoreTask(name: Name, taskResult: TaskResult, taskMap: map<Name, Task>, id: WorkflowId)
      requires status.Keys == taskMap.Keys
      modifies this, scheduler
      ensures Snapshot(id) == WithRestored(old(Snapshot(id)), name, taskResult)
      ensures status.Keys == taskMap.Keys
    {
      if taskResult.status == SUCCESS {
        results := results[name := taskResult];
        if name in taskMap {
          status := status[name := SUCCESS];
        }
        scheduler.MarkCompleted(name);
      } else if taskResult.status == SKIPPED {
        results := results[name := taskResult];
        if name in taskMap {
          status := status[name := SKIPPED];
        }
        scheduler.MarkSkipped(name);
      }
    }

    /** Restores the completed and skipped tasks of a checkpoint, in an arbitrary order. */
    method Restore(checkpoint: map<Name, TaskResult>, taskMap: map<Name, Task>, id: WorkflowId)
      requires Snapshot(id) == Start(status, map[], checkpoint) && status.Keys == taskMap.Keys
      modifies this, scheduler
      ensures Snapshot(id) == ResumeStart(old(status), checkpoint)
    {
      hide Restored, Start, ResumeStart, WithRestored;
      ghost var before := status;
      var rest := checkpoint.Keys;
      RestoredNone(before, checkpoint);
      assert checkpoint.Keys - rest == {};
      while rest != {}
        invariant rest <= checkpoint.Keys && status.Keys == taskMap.Keys == before.Keys
        invariant Snapshot(id) == Restored(before, checkpoint, checkpoint.Keys - rest)
      {
        var name :| name in rest;
        var taskResult := checkpoint[name];
        RestoreOne(before, checkpoint, checkpoint.Keys - rest, name);
        assert checkpoint.Keys - (rest - {name}) == (checkpoint.Keys - rest) + {name};
        RestoreTask(name, taskResult, taskMap, id);
        rest := rest - {name};
      }
      RestoredAll(before, checkpoint);
    }

    /** Resumes a workflow from its checkpoint, under an arbitrary interleaving, to the results of one
        uninterrupted run; no checkpointed task is called, and the checkpoint is cleared on success. */
    method Resume(tasks: seq<Task>, id: WorkflowId, jitterFactor: nat -> real)
      returns (r: Result<map<Name, TaskResult>, ResumeError>, outcome: WorkflowStatus)
      requires store != null ==> CanResume(tasks, defaultRetries, status, store.Contents(id))
      requires forall i :: 0.5 <= jitterFactor(i) <= 1.5
      modifies this, scheduler, store
      ensures r == Failure(NoCheckpointStore) <==> store == null
      ensures r.Success? <==> store != null && DepsKnown(tasks) && Acyclic(DeclaredGraph(tasks))
      ensures r.Success? ==> EvaluatesTo(FlowOf(tasks, defaultRetries, true), r.value)
      ensures r.Success? ==> Explained(tasks, defaultRetries, r.value, old(store.Contents(id)))
      ensures r.Success? ==> forall n :: n in old(store.Contents(id)) ==> n !in calls
      ensures r.Success? ==> (outcome == WORKFLOW_SUCCESS <==> forall n :: n in r.value ==> r.value[n].status != FAILED)
      ensures r.Success? ==>
                store.Contents(id)
                == if outcome == WORKFLOW_SUCCESS then map[]
                   else map n | n in r.value && r.value[n].status != FAILED :: r.value[n]
      ensures store != null ==> forall other :: other != id || r.Failure? ==>
                store.Contents(other) == old(store.Contents(other))
    {
      hide DepsKnown, Acyclic, DeclaredGraph, WellFormed, ValidSetup, NeverRaises, TaskMap, NoneRaises,
        DetReachable, Evaluate, Orders, AgreeingStart, TaskNames, Elems, IsTopologicalOrder, EvaluatesTo,
        CanResume, InputsOrdered, InputsFit, Resumable, Explained;
      outcome := WORKFLOW_FAILED;
      if store == null {
        return Failure(NoCheckpointStore), outcome;
      }
      ghost var stored := store.Contents(id);
      var checkpoint := store.LoadCheckpoint(id);
      var built := BuildDag(tasks);
      if built.Failure? {
        return Failure(BadWorkflow(built.error)), outcome;
      }
      var dag := built.value;
      var f := Flow(dag.adjacency, TaskMap(tasks), defaultRetries, true);
      BuiltFlow(tasks, f);
      ghost var before := status;
      Reset(id);
      ResumableSetup(tasks, f, before, stored);
      if checkpoint.Some? {
        Restore(checkpoint.value, f.tasks, id);
      } else {
        NothingToRestore(before);
      }
      ghost var u := ResumeSetup(f, before, stored);
      var sorted := dag.TopologicalSort();
      ghost var order := sorted.value;
      OrderOfFlow(f, order);
      ResumeNeverRaises(tasks, f, u, order);
      RunLoop(f, dag, id, jitterFactor, u, order);
      ResumeDone(tasks, f, u, order, Snapshot(id));
      ResumeExplained(tasks, f, u, order, results);
      if scheduler.HasFailures() {
        outcome := WORKFLOW_FAILED;
      } else {
        outcome := WORKFLOW_SUCCESS;
        store.Clear(id);
      }
      return Success(results), outcome;
    }

    method EndFuture(f: Flow, n: Name, id: WorkflowId)
      requires Enabled(f, Snapshot(id), End(n))
      modifies this
      ensures Snapshot(id) == Apply(f, old(Snapshot(id)), End(n))
    {
      futures := futures - {n};
      awake := true;
    }
  }

  datatype ResumeError = NoCheckpointStore | BadWorkflow(error: WorkflowError)

  /** The stored checkpoint is one to resume from (see LeftBehindIsResumable), every argument of a task still to be
      run is settled (ResumeDeterminedIffFit), and of those tasks no condition raises on the results that the
      evaluation shows it (EndsIffNoneRaises). */
  ghost predicate CanResume(tasks: seq<Task>, defaultRetries: int, status: map<Name, TaskStatus>,
                            stored: map<Name, TaskResult>)
  {
    var f := FlowOf(tasks, defaultRetries, true);
    DepsKnown(tasks) && Acyclic(DeclaredGraph(tasks)) ==>
      && Resumable(f, status, stored) && InputsFit(f, stored.Keys)
      && forall order :: Orders(f, order) ==> NoneRaises(f, Evaluate(f, order), stored.Keys)
  }

  ghost function Part(cp: map<Name, TaskResult>, names: set<Name>): map<Name, TaskResult>
  {
    map n | n in cp && n in names :: cp[n]
  }

  /** The state in which the given names of a checkpoint have been restored. */
  ghost function Restored(status: map<Name, TaskStatus>, cp: map<Name, TaskResult>, names: set<Name>): State
  {
    Start(status, Restorable(Part(cp, names)), cp)
  }

  lemma RestoredNone(status: map<Name, TaskStatus>, cp: map<Name, TaskResult>)
    ensures Restored(status, cp, {}) == Start(status, map[], cp)
  {
    assert Restorable(Part(cp, {})) == map[];
  }

  lemma RestoredAll(status: map<Name, TaskStatus>, cp: map<Name, TaskResult>)
    ensures Restored(status, cp, cp.Keys - {}) == ResumeStart(status, cp)
  {
    assert Part(cp, cp.Keys - {}) == cp;
  }

  /** Taking over one entry of a checkpoint; entries of other statuses are passed over. */
  ghost function WithRestored(s: State, name: Name, r: TaskResult): State
  {
    if r.status != SUCCESS && r.status != SKIPPED then s
    else s.(
      status := if name in s.status then s.status[name := r.status] else s.status,
      results := s.results[name := r],
      completed := if r.status == SUCCESS then s.completed + {name} else s.completed,
      skipped := if r.status == SKIPPED then s.skipped + {name} else s.skipped,
      running := s.running - {name})
  }

  lemma RestoreOne(status: map<Name, TaskStatus>, cp: map<Name, TaskResult>, names: set<Name>, name: Name)
    requires name in cp && name !in names
    ensures Restored(status, cp, names + {name}) == WithRestored(Restored(status, cp, names), name, cp[name])
  {
    var a, b := Restorable(Part(cp, names)), Restorable(Part(cp, names + {name}));
    hide Start, WithRestored;
    if cp[name].status == SUCCESS || cp[name].status == SKIPPED {
      assert b == a[name := cp[name]];
    } else {
      assert b == a;
    }
    StartOneRestored(status, a, cp, name, cp[name]);
  }

  lemma StartOneRestored(status: map<Name, TaskStatus>, kept: map<Name, TaskResult>, cp: map<Name, TaskResult>,
                         name: Name, r: TaskResult)
    requires name !in kept
    ensures WithRestored(Start(status, kept, cp), name, r)
         == if r.status == SUCCESS || r.status == SKIPPED then Start(status, kept[name := r], cp)
           else Start(status, kept, cp)
  {
    if r.status == SUCCESS || r.status == SKIPPED {
      StatusesRestored(status, kept, name, r);
      AddToRestored(kept, name, r, SUCCESS);
      AddToRestored(kept, name, r, SKIPPED);
    }
  }

  lemma StatusesRestored(status: map<Name, TaskStatus>, kept: map<Name, TaskResult>, name: Name, r: TaskResult)
    ensures RestoredStatuses(status, kept[name := r])
         == if name in status then RestoredStatuses(status, kept)[name := r.status] else RestoredStatuses(status, kept)
  {
  }

  lemma AddToRestored(kept: map<Name, TaskResult>, name: Name, r: TaskResult, st: TaskStatus)
    requires name !in kept
    ensures WithStatus(kept[name := r], st)
         == if r.status == st then WithStatus(kept, st) + {name} else WithStatus(kept, st)
  {
  }

  lemma NothingToRestore(status: map<Name, TaskStatus>)
    ensures Start(status, map[], map[]) == ResumeStart(status, map[])
  {
    assert Restorable(map[]) == map[];
  }

  lemma ResumableFlow(tasks: seq<Task>, f: Flow, status: map<Name, TaskStatus>, stored: map<Name, TaskResult>)
    requires f == FlowOf(tasks, f.defaultRetries, true) && CanResume(tasks, f.defaultRetries, status, stored)
    requires DepsKnown(tasks) && Acyclic(DeclaredGraph(tasks))
    ensures Resumable(f, status, stored) && InputsFit(f, stored.Keys)
    ensures ResumeSetup(f, status, stored).f == f && ResumeSetup(f, status, stored).restored == stored
    ensures forall order :: Orders(f, order) ==> NoneRaises(f, Evaluate(f, order), stored.Keys)
  {
    hide InputsFit, NoneRaises, Evaluate, IsTopologicalOrder, HoldsEvaluated;
  }

  lemma ResumableSetup(tasks: seq<Task>, f: Flow, status: map<Name, TaskStatus>, stored: map<Name, TaskResult>)
    requires f == FlowOf(tasks, f.defaultRetries, true) && CanResume(tasks, f.defaultRetries, status, stored)
    requires DepsKnown(tasks) && Acyclic(DeclaredGraph(tasks)) && ValidFlow(f)
    ensures ValidSetup(ResumeSetup(f, status, stored))
    ensures status.Keys == f.tasks.Keys
    ensures Initial(ResumeSetup(f, status, stored)) == ResumeStart(status, stored)
  {
    ResumableFlow(tasks, f, status, stored);
    hide ValidFlow, Evaluate, Acyclic, InputsFit, CanResume, InputsOrdered;
  }

  lemma ResumeNeverRaises(tasks: seq<Task>, f: Flow, u: Setup, order: seq<Name>)
    requires f == FlowOf(tasks, f.defaultRetries, true) && DepsKnown(tasks) && Acyclic(DeclaredGraph(tasks))
    requires CanResume(tasks, f.defaultRetries, u.status, u.stored)
    requires ValidFlow(f) && Orders(f, order) && u == ResumeSetup(f, u.status, u.stored)
    ensures NeverRaises(u)
  {
    var ev := Evaluate(f, order);
    hide *;
    ResumableFlow(tasks, f, u.status, u.stored);
    ResumableAgrees(f, u.status, u.stored, order);
    EvaluateFitting(f, order, u.stored.Keys);
    NoneRaisesMeansNever(u, ev);
  }

  lemma ResumeDone(tasks: seq<Task>, f: Flow, u: Setup, order: seq<Name>, s: State)
    requires f == FlowOf(tasks, f.defaultRetries, true) && DepsKnown(tasks) && Acyclic(DeclaredGraph(tasks))
    requires CanResume(tasks, f.defaultRetries, u.status, u.stored)
    requires ValidFlow(f) && Orders(f, order)
    requires u == ResumeSetup(f, u.status, u.stored) && DetReachable(u, s) && s.exited
    ensures EvaluatesTo(f, s.results)
    ensures forall n :: n in u.stored ==> n !in s.calls
    ensures s.failed == {} <==> forall n :: n in s.results ==> s.results[n].status != FAILED
    ensures s.checkpoint == map n | n in s.results && s.results[n].status != FAILED :: s.results[n]
  {
    assert f.hasStore;
    hide *;
    ResumableFlow(tasks, f, u.status, u.stored);
    ResumedRun(f, u.status, u.stored, order, s);
    ResumedInAnyOrder(f, u.status, u.stored, order, s);
    FailuresRecorded(u, s);
    DoneIsNotFailed(u, s);
  }

  lemma ResumedInAnyOrder(f: Flow, status: map<Name, TaskStatus>, stored: map<Name, TaskResult>, order: seq<Name>,
                          s: State)
    requires ValidFlow(f) && Orders(f, order) && Resumable(f, status, stored) && InputsFit(f, stored.Keys)
    requires DetReachable(ResumeSetup(f, status, stored), s) && s.exited
    ensures EvaluatesTo(f, s.results)
  {
    hide ValidFlow, InputsFit, Evaluate, IsTopologicalOrder, DetReachable, Resumable;
    forall o | Orders(f, o) ensures s.results == Evaluate(f, o) {
      ResumedResults(f, status, stored, o, s);
    }
  }

  lemma AnyOrder(f: Flow, order: seq<Name>, results: map<Name, TaskResult>)
    requires ValidFlow(f) && InputsOrdered(f) && Orders(f, order) && results == Evaluate(f, order)
    ensures EvaluatesTo(f, results)
  {
    hide ValidFlow, InputsOrdered, Evaluate, IsTopologicalOrder;
    forall o | Orders(f, o) ensures results == Evaluate(f, o) {
      OrderDoesNotMatter(f, order, o);
    }
  }

  /** What the tasks have to be like for a run to end deterministically, if their graph can be built: no argument
      comes from a task independent of the one drawing on it (ScheduleIndependentIffOrdered), and no condition
      raises on the results that the evaluation shows it (EndsIffNoneRaises). */
  ghost predicate WellBehaved(tasks: seq<Task>, defaultRetries: int, hasStore: bool)
  {
    var f := FlowOf(tasks, defaultRetries, hasStore);
    DepsKnown(tasks) && Acyclic(DeclaredGraph(tasks)) ==>
      InputsOrdered(f) && forall order :: Orders(f, order) ==> NoneRaises(f, Evaluate(f, order), {})
  }

  /** The results are those of the sequential evaluator, in any order it may take. */
  ghost predicate EvaluatesTo(f: Flow, results: map<Name, TaskResult>)
  {
    (exists order :: Orders(f, order)) && forall order :: Orders(f, order) ==> results == Evaluate(f, order)
  }

  lemma StartFresh(status: map<Name, TaskStatus>, stored: map<Name, TaskResult>)
    ensures Start(status, map[], stored) == State(status, map[], {}, {}, {}, {}, map[], stored, [], true, false)
  {
    assert Start(status, map[], stored).status == status;
  }

  lemma BuiltFlow(tasks: seq<Task>, f: Flow)
    requires DepsKnown(tasks) && Acyclic(DeclaredGraph(tasks))
    requires f.adj == DeclaredGraph(tasks) && f.tasks == TaskMap(tasks)
    ensures f == FlowOf(tasks, f.defaultRetries, f.hasStore)
    ensures ValidFlow(f) && f.tasks.Keys == TaskNames(tasks)
  {
    FlowIsValid(tasks, f.defaultRetries, f.hasStore);
  }

  lemma BehavedFlow(tasks: seq<Task>, f: Flow)
    requires WellBehaved(tasks, f.defaultRetries, f.hasStore) && DepsKnown(tasks) && Acyclic(DeclaredGraph(tasks))
    requires f.adj == DeclaredGraph(tasks) && f.tasks == TaskMap(tasks)
    ensures f == FlowOf(tasks, f.defaultRetries, f.hasStore)
    ensures ValidFlow(f) && InputsOrdered(f) && f.tasks.Keys == TaskNames(tasks)
  {
    BuiltFlow(tasks, f);
  }

  lemma ExecutionSetup(f: Flow, status: map<Name, TaskStatus>, stored: map<Name, TaskResult>)
    requires ValidFlow(f) && AllPending(f, status)
    ensures ValidSetup(Execution(f, status, stored))
    ensures Initial(Execution(f, status, stored)) == Start(status, map[], stored)
  {
    hide ValidFlow;
  }

  lemma ExecutionNeverRaises(tasks: seq<Task>, f: Flow, u: Setup, order: seq<Name>)
    requires f == FlowOf(tasks, f.defaultRetries, f.hasStore) && DepsKnown(tasks) && Acyclic(DeclaredGraph(tasks))
    requires WellBehaved(tasks, f.defaultRetries, f.hasStore) && AllPending(f, u.status)
    requires ValidFlow(f) && InputsOrdered(f) && Orders(f, order) && u == Execution(f, u.status, u.stored)
    ensures NeverRaises(u)
  {
    assert NoneRaises(f, Evaluate(f, order), {});
    hide *;
    ExecutionFits(f, u.status, u.stored);
    ExecutionAgrees(f, u.status, u.stored, Evaluate(f, order));
    EvaluateConsistent(f, order);
    NoneRaisesMeansNever(u, Evaluate(f, order));
  }

  lemma ExecutionDone(f: Flow, u: Setup, order: seq<Name>, s: State)
    requires ValidFlow(f) && InputsOrdered(f) && Orders(f, order) && AllPending(f, u.status)
    requires u == Execution(f, u.status, u.stored) && DetReachable(u, s) && s.exited
    ensures EvaluatesTo(f, s.results)
    ensures s.failed == {} <==> forall n :: n in s.results ==> s.results[n].status != FAILED
    ensures f.hasStore ==>
              s.checkpoint == u.stored + map n | n in s.results && s.results[n].status != FAILED :: s.results[n]
  {
    assert u.f == f && u.restored == map[];
    hide *;
    ScheduleIndependence(f, u.status, u.stored, order, s);
    AnyOrder(f, order, s.results);
    ExecutionSound(f, u, order, s);
    FailuresRecorded(u, s);
    ExecutionSetup(f, u.status, u.stored);
    CheckpointAtExit(u, s);
    DoneIsNotFailed(u, s);
  }

  lemma ExecutionExplained(tasks: seq<Task>, f: Flow, order: seq<Name>, results: map<Name, TaskResult>)
    requires f == FlowOf(tasks, f.defaultRetries, f.hasStore) && DepsKnown(tasks) && Acyclic(DeclaredGraph(tasks))
    requires WellBehaved(tasks, f.defaultRetries, f.hasStore)
    requires ValidFlow(f) && InputsOrdered(f) && Orders(f, order) && EvaluatesTo(f, results)
    ensures Explained(tasks, f.defaultRetries, results, map[])
  {
    assert NoneRaises(f, Evaluate(f, order), {}) && results == Evaluate(f, order);
    hide *;
    EvaluateConsistent(f, order);
    ExplainedIffConsistent(tasks, f, results, map[]);
  }

  lemma ResumeExplained(tasks: seq<Task>, f: Flow, u: Setup, order: seq<Name>, results: map<Name, TaskResult>)
    requires f == FlowOf(tasks, f.defaultRetries, true) && DepsKnown(tasks) && Acyclic(DeclaredGraph(tasks))
    requires CanResume(tasks, f.defaultRetries, u.status, u.stored)
    requires ValidFlow(f) && Orders(f, order) && u == ResumeSetup(f, u.status, u.stored) && EvaluatesTo(f, results)
    ensures Explained(tasks, f.defaultRetries, results, u.stored)
  {
    assert results == Evaluate(f, order) && f.hasStore;
    hide *;
    ResumableFlow(tasks, f, u.status, u.stored);
    ResumableAgrees(f, u.status, u.stored, order);
    EvaluateFitting(f, order, u.stored.Keys);
    StoredIsEvaluated(u, results);
    ExplainedIffConsistent(tasks, f, results, u.stored);
  }

  lemma StoredIsEvaluated(u: Setup, ev: map<Name, TaskResult>)
    requires AgreeingStart(u, ev) && u.restored == u.stored
    ensures forall n :: n in u.stored ==> n in ev && ev[n] == u.stored[n]
  {
  }

  lemma ExecutionSound(f: Flow, u: Setup, order: seq<Name>, s: State)
    requires ValidFlow(f) && InputsOrdered(f) && Orders(f, order) && AllPending(f, u.status)
    requires u == Execution(f, u.status, u.stored) && DetReachable(u, s)
    ensures Inv(u, s) && Reachable(u, s)
  {
    var ev := Evaluate(f, order);
    hide *;
    ExecutionFits(f, u.status, u.stored);
    ExecutionAgrees(f, u.status, u.stored, ev);
    EvaluateConsistent(f, order);
    DetReachableSound(u, ev, s);
  }

  /** `execute` clears no checkpoint: the entry of a task that an earlier run saved survives even when the task fails
      this time, and a resume would restore it. */
  lemma OldEntrySurvives(f: Flow, status: map<Name, TaskStatus>, stored: map<Name, TaskResult>, s: State, n: Name)
    requires ValidFlow(f) && status.Keys == f.tasks.Keys && Reachable(Execution(f, status, stored), s) && s.exited
    requires n in s.failed && n in Restorable(stored)
    ensures n in s.results && s.results[n].status == FAILED && Lookup(Restorable(s.checkpoint), n) == Some(stored[n])
  {
    var u := Execution(f, status, stored);
    assert u.f == f && u.restored == map[] && ValidSetup(u);
    ReachableInv(u, s);
    assert NodeOk(u, s, n);
    hide Inv, ValidSetup, Reachable, NodeOk;
    CheckpointAtExit(u, s);
  }

  lemma FailuresRecorded(u: Setup, s: State)
    requires Inv(u, s)
    ensures s.failed == {} <==> forall n :: n in s.results ==> s.results[n].status != FAILED
  {
    forall n ensures n in s.failed <==> n in s.results && s.results[n].status == FAILED {
      assert NodeOk(u, s, n);
    }
    if s.failed != {} {
      var n := Pick(s.failed);
    }
  }

  lemma DoneIsNotFailed(u: Setup, s: State)
    requires Inv(u, s)
    ensures DoneResults(s) == map n | n in s.results && s.results[n].status != FAILED :: s.results[n]
  {
    forall n | n in s.results ensures n in DoneSet(s) <==> s.results[n].status != FAILED {
      assert NodeOk(u, s, n);
    }
  }

  lemma NoConditionRuns(f: Flow, results: map<Name, TaskResult>, n: Name)
    requires n in f.tasks
    ensures f.tasks[n].condition.None? ==> VerdictOf(f, results, n) == Run
  {
  }

  lemma SomethingToDo(u: Setup, s: State)
    requires Inv(u, s) && !s.exited
    ensures s.awake || s.futures != map[]
  {
  }

  lemma DispatchFollows(f: Flow, s: State)
    requires s.awake && !s.exited
    ensures Enabled(f, s, Dispatch) && Follows(f, s, Dispatch)
  {
  }

  lemma FutureIsTask(u: Setup, s: State, n: Name)
    requires Inv(u, s) && n in s.futures
    ensures n in u.f.tasks
  {
    assert NodeOk(u, s, n);
  }

  /** How a dispatch leaves the loop, from the state in which all ready tasks have been started. */
  lemma LeaveOrWait(f: Flow, before: State, s: State)
    requires s == StartTasks(before, Ready(f, before))
    ensures DispatchAll(f, before)
         == if s.futures != map[] then s.(awake := false)
            else if s.running == {} then s.(awake := false, exited := true)
            else s
  {
  }

  lemma NothingStarted(s: State)
    ensures StartTasks(s, Elems([])) == s
  {
    assert Elems<Name>([]) == {};
    assert StartTasks(s, {}).status == s.status;
    assert StartTasks(s, {}).futures == s.futures;
  }

  lemma ReadyKnown(f: Flow, s: State, ready: seq<Name>)
    requires Elems(ready) == Ready(f, s)
    ensures forall n :: n in ready ==> n in s.status
  {
    forall n | n in ready ensures n in s.status {
      assert n in Elems(ready);
    }
  }

  lemma StartOneMore(s: State, ready: seq<Name>, i: nat)
    requires i < |ready| && ready[i] in s.status
    ensures var some := StartTasks(s, Elems(ready[..i]));
            StartTasks(s, Elems(ready[..i + 1]))
            == some.(status := some.status[ready[i] := RUNNING],
                     running := some.running + {ready[i]},
                     futures := some.futures[ready[i] := Created])
  {
    var n := ready[i];
    assert ready[..i + 1] == ready[..i] + [n];
    assert Elems(ready[..i + 1]) == Elems(ready[..i]) + {n};
    hide Elems;
    var a, b := StartTasks(s, Elems(ready[..i]) + {n}), StartTasks(s, Elems(ready[..i]));
    assert a.status == b.status[n := RUNNING];
    assert a.futures == b.futures[n := Created];
    assert a.running == b.running + {n};
  }
}
