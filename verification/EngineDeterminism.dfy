/** Schedule independence: deterministic task functions and conditions make every finished run,
    under any interleaving, end with the sequential evaluator's results. */
module EngineDeterminism {
  import opened Prelude
  import opened Graphs
  import opened Workflows
  import opened EngineModel
  import opened EngineSafety
  import opened EngineEval

  /** The step does what the task's own condition and function say; before-hooks pass. */
  predicate Follows(f: Flow, s: State, step: Step)
    requires Enabled(f, s, step)
  {
    match step
    case Check(n, verdict) => verdict == VerdictOf(f, s.results, n)
    case Begin(_, hooksPass) => hooksPass
    case Finish(n, output) => output == OutcomeOf(f, n, s.futures[n].kwargs)
    case _ => true
  }

  predicate FollowsAll(f: Flow, s: State, run: seq<Step>)
    requires ValidRun(f, s, run)
    decreases |run|
  {
    run == [] || (Follows(f, s, run[0]) && FollowsAll(f, Apply(f, s, run[0]), run[1..]))
  }

  /** The account of one task agrees with the evaluation: what is recorded is what will be evaluated,
      a started task's condition holds, and a call in flight has the evaluated arguments. */
  ghost predicate DetView(f: Flow, ev: map<Name, TaskResult>, v: View, n: Name)
    requires n in f.tasks
  {
    && (v.result.Some? ==> Lookup(ev, n) == v.result)
    && (v.future.Some? && (v.future.value.Started? || v.future.value.Calling?) ==> VerdictOf(f, ev, n) == Run)
    && (v.future.Some? && v.future.value.Calling? ==> v.future.value.kwargs == KwargsOf(f, Above(f, ev, n), n))
  }

  ghost predicate DetOk(f: Flow, ev: map<Name, TaskResult>, s: State, n: Name)
  {
    if n in f.tasks then DetView(f, ev, ViewOf(s, n), n) else n !in s.results
  }

  ghost predicate Det(u: Setup, ev: map<Name, TaskResult>, s: State)
  {
    Consistent(u.f, ev, u.restored.Keys) && forall n :: DetOk(u.f, ev, s, n)
  }

  lemma DepsAgree(u: Setup, ev: map<Name, TaskResult>, s: State, n: Name)
    requires Inv(u, s) && Det(u, ev, s)
    requires n in u.f.tasks && Preds(u.f.adj, n) <= DoneSet(s)
    ensures SameOnDeps(u.f, s.results, ev, n) && !Blocked(u.f, ev, n)
  {
    forall d | d in Preds(u.f.adj, n)
      ensures Lookup(s.results, d) == Lookup(ev, d) && d in ev && ev[d].status != FAILED
    {
      DependencyAgrees(u, ev, s, d);
    }
  }

  lemma DependencyAgrees(u: Setup, ev: map<Name, TaskResult>, s: State, d: Name)
    requires Inv(u, s) && Det(u, ev, s) && d in DoneSet(s)
    ensures Lookup(s.results, d) == Lookup(ev, d) && d in ev && ev[d].status != FAILED
  {
    assert NodeOk(u, s, d);
    DoneHasResult(u, s, d);
    assert DetOk(u.f, ev, s, d);
  }

  /** What the evaluation holds for a task whose dependencies are done. */
  lemma UnblockedResult(f: Flow, ev: map<Name, TaskResult>, n: Name)
    requires ValidFlow(f) && LocallyRight(f, ev, n) && !Blocked(f, ev, n)
    ensures Lookup(ev, n) == match VerdictOf(f, ev, n)
                             case Skip => Some(SkippedResult())
                             case Raise => None
                             case Run => Some(ResultOf(OutcomeOf(f, n, KwargsOf(f, Above(f, ev, n), n))))
  {
    AboveIsEnough(f, ev, n);
    hide Blocked, VerdictOf, KwargsOf, OutcomeOf, Above;
  }

  /** A touched task keeps agreeing with the evaluation. */
  lemma TouchedDet(f: Flow, ev: map<Name, TaskResult>, v: View, step: Step, kwargs: Kwargs, n: Name)
    requires ValidFlow(f) && LocallyRight(f, ev, n) && !Blocked(f, ev, n)
    requires GoodView(v) && Fits(v, step) && DetView(f, ev, v, n)
    requires step.Check? ==> step.verdict == VerdictOf(f, ev, n)
    requires step.Begin? ==> step.hooksPass && kwargs == KwargsOf(f, Above(f, ev, n), n)
    requires step.Finish? ==> step.output == OutcomeOf(f, n, v.future.value.kwargs)
    ensures DetView(f, ev, ViewAfter(f, v, step, kwargs), n)
  {
    UnblockedResult(f, ev, n);
    hide Blocked, KwargsOf, VerdictOf, OutcomeOf, Above, ValidFlow;
  }

  /** A task about to be called finds the results it draws on as the evaluation has them: those of its
      ancestors are recorded, and no task below it has one yet. */
  lemma ArgumentsAgree(u: Setup, ev: map<Name, TaskResult>, s: State, n: Name)
    requires ValidFlow(u.f) && InputsFit(u.f, u.restored.Keys) && Inv(u, s) && Det(u, ev, s)
    requires n in u.f.tasks && n !in u.restored && n !in s.results && n !in DoneSet(s)
        && Preds(u.f.adj, n) <= DoneSet(s)
    ensures KwargsOf(u.f, s.results, n) == KwargsOf(u.f, Above(u.f, ev, n), n)
  {
    var inputs, above := u.f.tasks[n].inputMap, Above(u.f, ev, n);
    hide Above, Settled, Inv, Det, DoneSet, ValidFlow, KwargsOf;
    forall p | p in inputs ensures Lookup(s.results, inputs[p]) == Lookup(above, inputs[p]) {
      SourceAgrees(u, ev, s, n, inputs[p]);
    }
    hide *;
    SameArguments(u.f, s.results, above, n);
  }

  lemma SameArguments(f: Flow, m1: map<Name, TaskResult>, m2: map<Name, TaskResult>, n: Name)
    requires n in f.tasks
    requires forall p :: p in f.tasks[n].inputMap ==>
        Lookup(m1, f.tasks[n].inputMap[p]) == Lookup(m2, f.tasks[n].inputMap[p])
    ensures KwargsOf(f, m1, n) == KwargsOf(f, m2, n)
  {
  }

  lemma SourceAgrees(u: Setup, ev: map<Name, TaskResult>, s: State, n: Name, source: Name)
    requires ValidFlow(u.f) && Inv(u, s) && Det(u, ev, s)
    requires n in u.f.tasks && n !in s.results && n !in DoneSet(s) && Preds(u.f.adj, n) <= DoneSet(s)
    requires Settled(u.f, u.restored.Keys, source, n)
    ensures Lookup(s.results, source) == Lookup(Above(u.f, ev, n), source)
  {
    assert Acyclic(u.f.adj);
    DetMeansConsistent(u, ev, s);
    NotBelowItself(u.f.adj, n);
    hide Det, Inv, DoneSet, ValidFlow, StrictlyBelow, FreelyBelow, Acyclic;
    if source !in u.f.tasks {
      UnknownHasNone(u, ev, s, source);
    } else if
      || (source in u.restored && StrictlyBelow(u.f.adj, source, n))
      || FreelyBelow(u.f.adj, u.restored.Keys, source, n)
    {
      SourceIsDone(u, s, n, source);
      DependencyAgrees(u, ev, s, source);
      if FreelyBelow(u.f.adj, u.restored.Keys, source, n) {
        FreeIsStrict(u.f.adj, u.restored.Keys, source, n);
      }
    } else {
      NothingBelowHasResult(u, s, n, source);
      NotBothWays(u, n, source);
    }
  }

  lemma NotBothWays(u: Setup, n: Name, x: Name)
    requires Acyclic(u.f.adj) && (x == n || FreelyBelow(u.f.adj, u.restored.Keys, n, x))
    ensures !StrictlyBelow(u.f.adj, x, n)
  {
    NotBelowItself(u.f.adj, n);
    hide StrictlyBelow, FreelyBelow, Acyclic;
    if x != n && StrictlyBelow(u.f.adj, x, n) {
      FreeIsStrict(u.f.adj, u.restored.Keys, n, x);
      StrictlyBelowTransitive(u.f.adj, n, x, n);
    }
  }

  lemma UnknownHasNone(u: Setup, ev: map<Name, TaskResult>, s: State, n: Name)
    requires Det(u, ev, s) && n !in u.f.tasks
    ensures n !in s.results && n !in ev
  {
    assert DetOk(u.f, ev, s, n);
  }

  /** A task on which one depends through tasks of this run, or which is restored, is done before the one is called. */
  lemma SourceIsDone(u: Setup, s: State, n: Name, source: Name)
    requires Inv(u, s) && Preds(u.f.adj, n) <= DoneSet(s)
    requires source in u.restored || FreelyBelow(u.f.adj, u.restored.Keys, source, n)
    ensures source in DoneSet(s)
  {
    if source in u.restored {
      assert NodeOk(u, s, source);
    } else {
      var path :| FreePath(u.f.adj, u.restored.Keys, path, source, n);
      hide Inv, FreePath;
      AboveIsDone(u, s, path, source, n);
    }
  }

  lemma NothingBelowHasResult(u: Setup, s: State, n: Name, x: Name)
    requires ValidFlow(u.f) && Inv(u, s) && n !in DoneSet(s) && n !in s.results
    requires x == n || FreelyBelow(u.f.adj, u.restored.Keys, n, x)
    ensures x !in s.results
  {
    if x != n {
      var path :| FreePath(u.f.adj, u.restored.Keys, path, n, x);
      hide Inv, FreePath;
      BelowNotDone(u, s, path, n, x);
    }
  }

  /** Reading the results now or after the whole evaluation gives a step the same verdict and arguments. */
  lemma FollowsEvaluation(u: Setup, ev: map<Name, TaskResult>, s: State, step: Step, n: Name)
    requires ValidFlow(u.f) && InputsFit(u.f, u.restored.Keys) && Inv(u, s) && Det(u, ev, s)
    requires Enabled(u.f, s, step) && Follows(u.f, s, step) && Touches(u.f, s, step, n) && n in u.f.tasks
    requires GoodView(ViewOf(s, n)) && Fits(ViewOf(s, n), step) && Preds(u.f.adj, n) <= DoneSet(s) && n !in u.restored
    ensures step.Check? ==> step.verdict == VerdictOf(u.f, ev, n)
    ensures step.Begin? ==> step.hooksPass && KwargsOf(u.f, s.results, n) == KwargsOf(u.f, Above(u.f, ev, n), n)
    ensures step.Finish? ==> step.output == OutcomeOf(u.f, n, ViewOf(s, n).future.value.kwargs)
  {
    hide Inv, Det, ValidFlow, InputsFit, VerdictOf, OutcomeOf, KwargsOf, Above, SameOnDeps, Blocked;
    if step.Check? {
      DepsAgree(u, ev, s, n);
      VerdictLocal(u.f, s.results, ev, n);
    } else if step.Begin? {
      assert n !in s.results && n !in DoneSet(s);
      ArgumentsAgree(u, ev, s, n);
    }
  }

  lemma DetStep(u: Setup, ev: map<Name, TaskResult>, s: State, step: Step)
    requires ValidFlow(u.f) && InputsFit(u.f, u.restored.Keys) && Inv(u, s) && Det(u, ev, s)
    requires Enabled(u.f, s, step) && Follows(u.f, s, step)
    ensures Det(u, ev, Apply(u.f, s, step))
  {
    hide Apply, Enabled, Touches, ViewAfter, KwargsOf, VerdictOf, OutcomeOf, Follows, GoodView, Fits, InputsFit;
    forall n ensures DetOk(u.f, ev, Apply(u.f, s, step), n) {
      assert NodeOk(u, s, n) && DetOk(u.f, ev, s, n);
      DetStepOn(u, ev, s, step, n);
    }
  }

  lemma DetStepOn(u: Setup, ev: map<Name, TaskResult>, s: State, step: Step, n: Name)
    requires ValidFlow(u.f) && InputsFit(u.f, u.restored.Keys) && Inv(u, s) && Det(u, ev, s)
    requires Enabled(u.f, s, step) && Follows(u.f, s, step)
    ensures DetOk(u.f, ev, Apply(u.f, s, step), n)
  {
    assert NodeOk(u, s, n) && DetOk(u.f, ev, s, n);
    hide Apply, Enabled, Touches, ViewAfter, ViewOf, KwargsOf, VerdictOf, OutcomeOf, Follows, GoodView, Fits, Inv,
      NodeOk, Det, DetView, Blocked, SameOnDeps, InputsFit, ValidFlow, Above;
    StepViews(u.f, s, step, n);
    if Touches(u.f, s, step, n) {
      TouchedView(u, s, step, n);
      DepsAgree(u, ev, s, n);
      FollowsEvaluation(u, ev, s, step, n);
      assert LocallyRight(u.f, ev, n) by { DetMeansConsistent(u, ev, s); }
      TouchedDet(u.f, ev, ViewOf(s, n), step, KwargsOf(u.f, s.results, n), n);
    } else {
      ResultInView(s, n);
      ResultInView(Apply(u.f, s, step), n);
    }
  }

  lemma DetMeansConsistent(u: Setup, ev: map<Name, TaskResult>, s: State)
    requires Det(u, ev, s)
    ensures Consistent(u.f, ev, u.restored.Keys)
  {
  }

  lemma {:induction false} DetRun(u: Setup, ev: map<Name, TaskResult>, s: State, run: seq<Step>)
    requires ValidFlow(u.f) && InputsFit(u.f, u.restored.Keys) && Inv(u, s) && Det(u, ev, s)
    requires ValidRun(u.f, s, run) && FollowsAll(u.f, s, run)
    ensures Det(u, ev, After(u.f, s, run)) && Inv(u, After(u.f, s, run))
    decreases |run|
  {
    if run != [] {
      hide Inv, Det, Apply, Follows, InputsFit;
      StepInv(u, s, run[0]);
      DetStep(u, ev, s, run[0]);
      DetRun(u, ev, Apply(u.f, s, run[0]), run[1..]);
    }
  }

  /** A start that agrees with the evaluation: everything restored is what would be evaluated, and
      every other task is PENDING. */
  ghost predicate AgreeingStart(u: Setup, ev: map<Name, TaskResult>)
  {
    && ValidSetup(u) && Stale(u) == {}
    && forall n :: n in u.restored ==> n in u.f.tasks && n in ev && ev[n] == u.restored[n]
  }

  lemma AgreeingNotStale(u: Setup, ev: map<Name, TaskResult>)
    requires AgreeingStart(u, ev)
    ensures Stale(u) == {}
  {
  }

  lemma DetInitial(u: Setup, ev: map<Name, TaskResult>)
    requires AgreeingStart(u, ev) && Consistent(u.f, ev, u.restored.Keys)
    ensures Det(u, ev, Initial(u))
  {
    var s := Initial(u);
    hide VerdictOf, KwargsOf, Consistent;
    forall n ensures DetOk(u.f, ev, s, n) {
    }
  }

  /** When the loop has ended, every task the evaluation gives a result has one. */
  lemma {:induction false} EvaluatedIsRecorded(u: Setup, ev: map<Name, TaskResult>, s: State, order: seq<Name>, k: nat)
    requires ValidFlow(u.f) && Orders(u.f, order) && k <= |order| && Stale(u) == {}
    requires Inv(u, s) && Det(u, ev, s) && s.exited
    ensures forall n :: n in order[..k] && n in ev ==> n in s.results
  {
    hide Inv, Det, DoneSet;
    if k > 0 {
      EvaluatedIsRecorded(u, ev, s, order, k - 1);
      var n := order[k - 1];
      assert order[..k] == order[..k - 1] + [n];
      NextOfOrder(u.f, order, k - 1);
      hide Orders, ValidFlow;
      if n in u.restored {
        RestoredIsRecorded(u, s, n);
      } else if n in ev {
        DetMeansConsistent(u, ev, s);
        EvaluatedIsUnblocked(u.f, ev, n);
        forall d | d in Preds(u.f.adj, n) ensures d in DoneSet(s) {
          assert d in Elems(order[..k - 1]);
          RecordedIsDone(u, ev, s, d);
        }
        DoneDepsRecorded(u, s, n);
      }
    }
  }

  lemma EvaluatedIsUnblocked(f: Flow, ev: map<Name, TaskResult>, n: Name)
    requires LocallyRight(f, ev, n) && n in ev
    ensures forall d :: d in Preds(f.adj, n) ==> d in ev && ev[d].status != FAILED
  {
    var above := Above(f, ev, n);
    assert !Blocked(f, above, n);
    forall d | d in Preds(f.adj, n) ensures d in ev && ev[d].status != FAILED {
      assert d in above;
    }
  }

  lemma RestoredIsRecorded(u: Setup, s: State, n: Name)
    requires Inv(u, s) && n in u.restored
    ensures n in s.results
  {
    assert NodeOk(u, s, n);
  }

  lemma RecordedIsDone(u: Setup, ev: map<Name, TaskResult>, s: State, d: Name)
    requires Inv(u, s) && Det(u, ev, s) && d in s.results && d in ev && ev[d].status != FAILED
    ensures d in DoneSet(s)
  {
    assert NodeOk(u, s, d) && DetOk(u.f, ev, s, d);
  }

  lemma DoneDepsRecorded(u: Setup, s: State, n: Name)
    requires ValidFlow(u.f) && Inv(u, s) && s.exited && Stale(u) == {} && n in u.f.tasks
        && Preds(u.f.adj, n) <= DoneSet(s)
    ensures n in s.results
  {
    assert NodeOk(u, s, n);
    if n !in u.restored {
      MissingLocally(u, s, n);
    }
  }

  lemma RecordedIsEvaluated(u: Setup, ev: map<Name, TaskResult>, s: State, n: Name)
    requires Inv(u, s) && Det(u, ev, s) && n in s.results
    ensures n in u.f.tasks && n in ev && s.results[n] == ev[n]
  {
    assert DetOk(u.f, ev, s, n);
    ResultInView(s, n);
  }

  /** Some interleaving in which every task behaves as defined leads from the start to the state. */
  ghost predicate DetReachable(u: Setup, s: State)
  {
    exists run :: ValidRun(u.f, Initial(u), run) && FollowsAll(u.f, Initial(u), run) && After(u.f, Initial(u), run) == s
  }

  lemma {:induction false} FollowsSnoc(f: Flow, s: State, run: seq<Step>, step: Step)
    requires ValidRun(f, s, run) && FollowsAll(f, s, run)
    requires Enabled(f, After(f, s, run), step) && Follows(f, After(f, s, run), step)
    ensures ValidRun(f, s, run + [step]) && FollowsAll(f, s, run + [step])
    decreases |run|
  {
    hide Apply, Enabled, Follows;
    RunSnoc(f, s, run, step);
    if run == [] {
      assert [] + [step] == [step];
      assert [step][1..] == [];
      assert FollowsAll(f, Apply(f, s, step), []);
    } else {
      assert (run + [step])[1..] == run[1..] + [step];
      FollowsSnoc(f, Apply(f, s, run[0]), run[1..], step);
    }
  }

  lemma DetReachableStep(u: Setup, s: State, step: Step)
    requires DetReachable(u, s) && Enabled(u.f, s, step) && Follows(u.f, s, step)
    ensures DetReachable(u, Apply(u.f, s, step))
  {
    hide Apply, Enabled, Follows, Initial;
    var run :| ValidRun(u.f, Initial(u), run) && FollowsAll(u.f, Initial(u), run) && After(u.f, Initial(u), run) == s;
    FollowsSnoc(u.f, Initial(u), run, step);
    RunSnoc(u.f, Initial(u), run, step);
  }

  lemma DetReachableStart(u: Setup)
    ensures DetReachable(u, Initial(u))
  {
    assert ValidRun(u.f, Initial(u), []) && FollowsAll(u.f, Initial(u), []) && After(u.f, Initial(u), []) == Initial(u);
  }

  lemma DetReachableSound(u: Setup, ev: map<Name, TaskResult>, s: State)
    requires AgreeingStart(u, ev) && InputsFit(u.f, u.restored.Keys) && Consistent(u.f, ev, u.restored.Keys)
    requires DetReachable(u, s)
    ensures Inv(u, s) && Det(u, ev, s) && Reachable(u, s)
  {
    InitialInv(u);
    DetInitial(u, ev);
    assert ValidFlow(u.f);
    hide Inv, Det, InputsFit, Consistent, AgreeingStart, ValidFlow, Initial;
    var run :| ValidRun(u.f, Initial(u), run) && FollowsAll(u.f, Initial(u), run) && After(u.f, Initial(u), run) == s;
    DetRun(u, ev, Initial(u), run);
  }

  /** Any start agreeing with the evaluation, any interleaving: once the loop has ended, the results are
      the evaluation's, no more and no fewer, and the statuses say so. */
  lemma FinishedRunIsEvaluation(u: Setup, ev: map<Name, TaskResult>, order: seq<Name>, s: State)
    requires AgreeingStart(u, ev) && InputsFit(u.f, u.restored.Keys) && Consistent(u.f, ev, u.restored.Keys)
    requires Orders(u.f, order) && DetReachable(u, s) && s.exited
    ensures s.results == ev
    ensures s.status == map n | n in u.f.tasks :: if n in ev then ev[n].status else PENDING
  {
    assert ValidFlow(u.f) && Stale(u) == {};
    hide *;
    DetReachableSound(u, ev, s);
    FinishedState(u, ev, order, s);
  }

  lemma FinishedState(u: Setup, ev: map<Name, TaskResult>, order: seq<Name>, s: State)
    requires ValidFlow(u.f) && Orders(u.f, order) && Stale(u) == {} && Inv(u, s) && Det(u, ev, s) && s.exited
    ensures s.results == ev
    ensures s.status == map n | n in u.f.tasks :: if n in ev then ev[n].status else PENDING
  {
    hide Inv, Det, ValidFlow, Stale;
    EvaluatedIsRecorded(u, ev, s, order, |order|);
    assert order[..|order|] == order;
    KeysKnown(u, ev, s, order);
    forall n ensures (n in s.results <==> n in ev) && (n in ev ==> s.results[n] == ev[n]) {
      if n in s.results {
        RecordedIsEvaluated(u, ev, s, n);
      }
    }
    assert s.results == ev;
    forall n | n in u.f.tasks ensures s.status[n] == if n in ev then ev[n].status else PENDING {
      FinalStatus(u, s, n);
    }
  }

  lemma KeysKnown(u: Setup, ev: map<Name, TaskResult>, s: State, order: seq<Name>)
    requires ValidFlow(u.f) && Orders(u.f, order) && Inv(u, s) && Det(u, ev, s)
    ensures s.status.Keys == u.f.tasks.Keys
    ensures forall n :: n in ev ==> n in order
  {
    forall n | n in ev ensures n in order {
      assert n in u.f.tasks;
      assert n in Elems(order);
    }
  }

  lemma FinalStatus(u: Setup, s: State, n: Name)
    requires Inv(u, s) && s.exited && Stale(u) == {} && n in u.f.tasks && n in s.status
    ensures s.status[n] == if n in s.results then s.results[n].status else PENDING
  {
    assert NodeOk(u, s, n);
  }

  // ---------------------------------------------------------------------------
  // Main results
  // ---------------------------------------------------------------------------

  predicate AllPending(f: Flow, status: map<Name, TaskStatus>)
  {
    status.Keys == f.tasks.Keys && forall n :: n in status ==> status[n] == PENDING
  }

  /** The start of `execute` on a workflow, with whatever the store holds. */
  function Execution(f: Flow, status: map<Name, TaskStatus>, stored: map<Name, TaskResult>): Setup
  {
    Setup(f, status, map[], stored)
  }

  lemma ExecutionAgrees(f: Flow, status: map<Name, TaskStatus>, stored: map<Name, TaskResult>,
                        ev: map<Name, TaskResult>)
    requires ValidFlow(f) && AllPending(f, status)
    ensures AgreeingStart(Execution(f, status, stored), ev)
  {
    hide ValidFlow;
  }

  lemma ExecutionFits(f: Flow, status: map<Name, TaskStatus>, stored: map<Name, TaskResult>)
    requires InputsOrdered(f)
    ensures var u := Execution(f, status, stored); u.f == f && u.restored.Keys == {} && InputsFit(f, {})
  {
    OrderedFits(f, {});
  }

  /** Schedule independence: every finished execution of a workflow of PENDING tasks ends with the results
      of the sequential evaluator, whatever the interleaving and whatever order the evaluator takes. */
  lemma ScheduleIndependence(f: Flow, status: map<Name, TaskStatus>, stored: map<Name, TaskResult>, order: seq<Name>,
                             s: State)
    requires ValidFlow(f) && InputsOrdered(f) && Orders(f, order) && AllPending(f, status)
    requires DetReachable(Execution(f, status, stored), s) && s.exited
    ensures s.results == Evaluate(f, order)
  {
    var u, ev := Execution(f, status, stored), Evaluate(f, order);
    assert u.f == f;
    hide *;
    ExecutionAgrees(f, status, stored, ev);
    ExecutionFits(f, status, stored);
    EvaluateConsistent(f, order);
    FinishedRunIsEvaluation(u, ev, order, s);
  }
}
