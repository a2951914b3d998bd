/** What a finished run has recorded of every task, said of the task list and the results alone. */
module EngineResults {
  import opened Prelude
  import opened Graphs
  import opened Workflows
  import opened Retry
  import opened Planner
  import opened EngineModel
  import opened EngineEval
  import opened EngineEnding

  /** The flow that running a task list amounts to. */
  ghost function FlowOf(tasks: seq<Task>, defaultRetries: int, hasStore: bool): Flow
  {
    Flow(DeclaredGraph(tasks), TaskMap(tasks), defaultRetries, hasStore)
  }

  /** The task map holds, for every name, the last task of that name. */
  lemma {:induction false} TaskMapEntry(tasks: seq<Task>, n: Name) returns (i: nat)
    requires n in TaskMap(tasks)
    ensures i < |tasks| && tasks[i].name == n && TaskMap(tasks)[n] == tasks[i]
    ensures forall j :: i < j < |tasks| ==> tasks[j].name != n
  {
    i := |tasks| - 1;
    if tasks[i].name != n {
      var front := tasks[..i];
      i := TaskMapEntry(front, n);
      assert TaskMap(tasks)[n] == front[i];
      forall j | i < j < |tasks| ensures tasks[j].name != n {
        assert j < |front| ==> front[j].name != n;
      }
    }
  }

  /** A task list whose graph can be built makes a valid flow, even when task names repeat. */
  lemma FlowIsValid(tasks: seq<Task>, defaultRetries: int, hasStore: bool)
    requires DepsKnown(tasks) && Acyclic(DeclaredGraph(tasks))
    ensures ValidFlow(FlowOf(tasks, defaultRetries, hasStore))
  {
    var f := FlowOf(tasks, defaultRetries, hasStore);
    DeclaredGraphClosed(tasks);
    forall n, d | n in f.tasks && d in f.tasks[n].dependsOn ensures d in Preds(f.adj, n) {
      DeclaredDependency(tasks, n, d);
    }
  }

  lemma DeclaredDependency(tasks: seq<Task>, n: Name, d: Name)
    requires DepsKnown(tasks) && n in TaskMap(tasks) && d in TaskMap(tasks)[n].dependsOn
    ensures d in Preds(DeclaredGraph(tasks), n)
  {
    var i := TaskMapEntry(tasks, n);
    assert Declares(tasks, d, n);
  }

  lemma OrderOfFlow(f: Flow, order: seq<Name>)
    requires ValidFlow(f) && IsTopologicalOrder(f.adj, order)
    ensures Orders(f, order) && Elems(order) == f.tasks.Keys
  {
    forall n | n in order ensures n in f.tasks { assert n in Elems(order); }
  }

  /** Some attempt of those allowed returns v, and every earlier one raises. */
  ghost predicate ReturnsInTime(task: Task, kwargs: Kwargs, retries: int, v: Option<Value>)
  {
    exists i: nat :: i <= retries && task.func(kwargs, i) == Returned(v)
                     && forall j: nat :: j < i ==> task.func(kwargs, j).Raised?
  }

  /** What a task that was not kept from running has for a result. It is SKIPPED exactly when its condition says so of
      the results of its declared dependencies. Otherwise it is SUCCESS with the output v exactly when, within its own
      retries or else the default ones, its function first returns v, called with the outputs of those of its sources
      that come before it. Otherwise it is FAILED. */
  ghost predicate ResultExplained(tasks: seq<Task>, defaultRetries: int, results: map<Name, TaskResult>, n: Name)
    requires n in TaskMap(tasks) && n in results
  {
    var task := TaskMap(tasks)[n];
    var shown := map d | d in task.dependsOn && d in results :: results[d];
    var retries := if task.retryCount != 0 then task.retryCount else defaultRetries;
    var kwargs := map p |
                    && p in task.inputMap && task.inputMap[p] in results
                    && StrictlyBelow(DeclaredGraph(tasks), task.inputMap[p], n) :: results[task.inputMap[p]].output;
    var skipped := task.condition.Some? && task.condition.value(shown) == Skip;
    && (task.condition.Some? ==> task.condition.value(shown) != Raise)
    && (results[n].status == SKIPPED <==> skipped)
    && (skipped ==> results[n] == TaskResult(SKIPPED, None))
    && (!skipped ==>
          && (forall v :: results[n] == TaskResult(SUCCESS, v) <==> ReturnsInTime(task, kwargs, retries, v))
          && (results[n].status != SUCCESS ==> results[n] == TaskResult(FAILED, None)))
  }

  /** The results of a finished run: what was restored is kept; any other task has a result exactly when every task it
      is declared to depend on has one that is not FAILED; and that result is explained by the others. */
  ghost predicate Explained(tasks: seq<Task>, defaultRetries: int, results: map<Name, TaskResult>,
                            restored: map<Name, TaskResult>)
  {
    && results.Keys <= TaskMap(tasks).Keys
    && (forall n :: n in restored ==> n in results && results[n] == restored[n])
    && forall n :: n in TaskMap(tasks) && n !in restored ==>
         && (n in results <==> forall d :: Declares(tasks, d, n) ==> d in results && results[d].status != FAILED)
         && (n in results ==> ResultExplained(tasks, defaultRetries, results, n))
  }

  lemma OutcomeIsFirstReturn(f: Flow, n: Name, kwargs: Kwargs, v: Option<Value>)
    requires n in f.tasks
    ensures var retries := if f.tasks[n].retryCount != 0 then f.tasks[n].retryCount else f.defaultRetries;
            OutcomeOf(f, n, kwargs) == Some(v) <==> ReturnsInTime(f.tasks[n], kwargs, retries, v)
  {
    var task := f.tasks[n];
    var retries := if task.retryCount != 0 then task.retryCount else f.defaultRetries;
    var func := (i: nat) => task.func(kwargs, i);
    hide Retried;
    DoneIffReturned(func, retries, v);
    forall i: nat ensures func(i) == task.func(kwargs, i) {}
    assert (exists i: nat :: i <= retries && func(i) == Returned(v) && forall j: nat :: j < i ==> func(j).Raised?)
      == ReturnsInTime(task, kwargs, retries, v);
    assert OutcomeOf(f, n, kwargs) == match Retried(func, retries) case Done(output) => Some(output) case _ => None;
  }

  lemma UnblockedIffDeclared(tasks: seq<Task>, f: Flow, m: map<Name, TaskResult>, n: Name)
    requires f == FlowOf(tasks, f.defaultRetries, f.hasStore) && DepsKnown(tasks) && n in f.tasks
    ensures !Blocked(f, m, n) <==> forall d :: Declares(tasks, d, n) ==> d in m && m[d].status != FAILED
  {
    forall d ensures d in Preds(f.adj, n) <==> Declares(tasks, d, n) {
      if Declares(tasks, d, n) {
        assert d in TaskNames(tasks);
      }
    }
  }

  /** The arguments with which a task is called in the evaluation. */
  lemma ArgumentsWritten(tasks: seq<Task>, f: Flow, m: map<Name, TaskResult>, n: Name)
    requires f == FlowOf(tasks, f.defaultRetries, f.hasStore) && n in f.tasks
    ensures var task := TaskMap(tasks)[n];
            KwargsOf(f, Above(f, m, n), n)
            == map p |
                 && p in task.inputMap && task.inputMap[p] in m
                 && StrictlyBelow(DeclaredGraph(tasks), task.inputMap[p], n) :: m[task.inputMap[p]].output
  {
    hide StrictlyBelow, TaskMap, DeclaredGraph;
  }

  lemma VerdictWritten(tasks: seq<Task>, f: Flow, m: map<Name, TaskResult>, n: Name)
    requires f == FlowOf(tasks, f.defaultRetries, f.hasStore) && n in f.tasks
    ensures var task := TaskMap(tasks)[n];
            var shown := map d | d in task.dependsOn && d in m :: m[d];
            && (task.condition.None? ==> VerdictOf(f, m, n) == Run)
            && (task.condition.Some? ==> VerdictOf(f, m, n) == task.condition.value(shown))
  {
    hide TaskMap, DeclaredGraph;
  }

  /** A recorded result follows from the ancestors' exactly when it is explained. */
  lemma RightIffExplained(tasks: seq<Task>, f: Flow, m: map<Name, TaskResult>, n: Name)
    requires f == FlowOf(tasks, f.defaultRetries, f.hasStore) && ValidFlow(f) && n in f.tasks && n in m
    requires !Blocked(f, m, n)
    ensures LocallyRight(f, m, n) && VerdictOf(f, m, n) != Raise
            <==> ResultExplained(tasks, f.defaultRetries, m, n)
  {
    var task, kwargs := TaskMap(tasks)[n], KwargsOf(f, Above(f, m, n), n);
    var retries := if task.retryCount != 0 then task.retryCount else f.defaultRetries;
    AboveIsEnough(f, m, n);
    ArgumentsWritten(tasks, f, m, n);
    VerdictWritten(tasks, f, m, n);
    hide ValidFlow, Above, KwargsOf, VerdictOf, OutcomeOf, StrictlyBelow, Blocked, ReturnsInTime, TaskMap,
      DeclaredGraph;
    forall v ensures OutcomeOf(f, n, kwargs) == Some(v) <==> ReturnsInTime(task, kwargs, retries, v) {
      OutcomeIsFirstReturn(f, n, kwargs, v);
    }
    ResultWritten(m[n], OutcomeOf(f, n, kwargs));
  }

  /** A result is that of an outcome exactly when it says SUCCESS of the outcome's output only and else FAILED. */
  lemma ResultWritten(r: TaskResult, outcome: Option<Option<Value>>)
    ensures r == ResultOf(outcome)
            <==> && (forall v :: r == TaskResult(SUCCESS, v) <==> outcome == Some(v))
                 && (r.status != SUCCESS ==> r == TaskResult(FAILED, None))
  {
    if r.status == SUCCESS {
      assert r == TaskResult(SUCCESS, r.output);
    } else if outcome.Some? {
      assert outcome == Some(outcome.value);
    }
  }

  /** Explained results are the consistent ones of the evaluator, where no condition that is got to raises. */
  lemma ExplainedIffConsistent(tasks: seq<Task>, f: Flow, m: map<Name, TaskResult>, restored: map<Name, TaskResult>)
    requires f == FlowOf(tasks, f.defaultRetries, f.hasStore) && DepsKnown(tasks) && ValidFlow(f)
    requires forall n :: n in restored ==> n in m && m[n] == restored[n]
    ensures Explained(tasks, f.defaultRetries, m, restored)
            <==> Consistent(f, m, restored.Keys) && NoneRaises(f, m, restored.Keys)
  {
    hide ResultExplained, LocallyRight, VerdictOf, Blocked, Declares, TaskMap, DeclaredGraph, ValidFlow, DepsKnown;
    forall n | n in f.tasks
      ensures n in m && !Blocked(f, m, n) ==>
          (LocallyRight(f, m, n) && VerdictOf(f, m, n) != Raise <==> ResultExplained(tasks, f.defaultRetries, m, n))
      ensures !Blocked(f, m, n) <==> forall d :: Declares(tasks, d, n) ==> d in m && m[d].status != FAILED
      ensures n !in m || Blocked(f, m, n) ==>
                (LocallyRight(f, m, n) && (!Blocked(f, m, n) ==> VerdictOf(f, m, n) != Raise)
                 <==> n !in m && Blocked(f, m, n))
    {
      UnblockedIffDeclared(tasks, f, m, n);
      if n in m && !Blocked(f, m, n) {
        RightIffExplained(tasks, f, m, n);
      } else {
        AbsentIffBlocked(f, m, n);
      }
    }
  }

  lemma AbsentIffBlocked(f: Flow, m: map<Name, TaskResult>, n: Name)
    requires ValidFlow(f) && n in f.tasks && (n !in m || Blocked(f, m, n))
    ensures LocallyRight(f, m, n) && (!Blocked(f, m, n) ==> VerdictOf(f, m, n) != Raise)
            <==> n !in m && Blocked(f, m, n)
  {
    AboveIsEnough(f, m, n);
    hide ValidFlow, Above, VerdictOf, Blocked, OutcomeOf, KwargsOf;
  }

  /** The account leaves no choice: with the same tasks restored to the same results, all results are the same. */
  lemma ExplanationIsUnique(tasks: seq<Task>, defaultRetries: int, m1: map<Name, TaskResult>,
                            m2: map<Name, TaskResult>, restored: map<Name, TaskResult>)
    requires DepsKnown(tasks) && Acyclic(DeclaredGraph(tasks))
    requires Explained(tasks, defaultRetries, m1, restored) && Explained(tasks, defaultRetries, m2, restored)
    ensures m1 == m2
  {
    var f := FlowOf(tasks, defaultRetries, false);
    FlowIsValid(tasks, defaultRetries, false);
    OrderExistsIffAcyclic(f.adj);
    var order :| IsTopologicalOrder(f.adj, order);
    OrderOfFlow(f, order);
    hide *;
    KeptAlike(tasks, defaultRetries, m1, m2, restored);
    ExplainedIffConsistent(tasks, f, m1, restored);
    ExplainedIffConsistent(tasks, f, m2, restored);
    ConsistentUnique(f, m1, m2, restored.Keys, order);
  }

  lemma KeptAlike(tasks: seq<Task>, defaultRetries: int, m1: map<Name, TaskResult>, m2: map<Name, TaskResult>,
                  restored: map<Name, TaskResult>)
    requires Explained(tasks, defaultRetries, m1, restored) && Explained(tasks, defaultRetries, m2, restored)
    ensures forall n :: n in restored ==> n in m1 && n in m2 && m1[n] == restored[n] && m2[n] == restored[n]
    ensures forall n :: n in restored ==> Lookup(m1, n) == Lookup(m2, n)
  {
    hide ResultExplained, Declares, TaskMap;
  }
}
