/** What holds in every state that any run can reach, and what is left when the loop ends. */
module EngineSafety {
  import opened Prelude
  import opened Graphs
  import opened Workflows
  import opened Scheduling
  import opened EngineModel

  /** How a run begins: the tasks' statuses, the restored results, and the stored checkpoint. */
  datatype Setup = Setup(
    f: Flow,
    status: map<Name, TaskStatus>,
    restored: map<Name, TaskResult>,
    stored: map<Name, TaskResult>)

  ghost predicate ValidSetup(u: Setup)
  {
    && ValidFlow(u.f)
    && u.status.Keys == u.f.tasks.Keys
    && forall n :: n in u.restored ==> u.restored[n].status == SUCCESS || u.restored[n].status == SKIPPED
  }

  function Initial(u: Setup): State
  {
    Start(u.status, u.restored, u.stored)
  }

  /** Tasks that are neither restored nor PENDING when the run begins. Nothing resets them. */
  function Stale(u: Setup): set<Name>
  {
    set n | n in u.status && n !in u.restored && u.status[n] != PENDING
  }

  /** The consistent accounts of a task that takes part in the run. */
  predicate GoodView(v: View)
  {
    v.status.Some? &&
    match v.status.value
    case PENDING =>
      !v.completed && !v.failed && !v.running && !v.skipped && v.result == None && v.future == None
    case RUNNING =>
      && !v.completed && !v.failed && v.running && !v.skipped && v.result == None
      && (v.future == None || v.future.value.Created? || v.future.value.Started? || v.future.value.Calling?)
    case SUCCESS =>
      && v.completed && !v.failed && !v.running && !v.skipped
      && v.result.Some? && v.result.value.status == SUCCESS
      && (v.future == None || v.future.value == Saving(v.result.value) || v.future.value == Ending)
    case SKIPPED =>
      && !v.completed && !v.failed && !v.running && v.skipped
      && v.result.Some? && v.result.value.status == SKIPPED
      && (v.future == None || v.future.value == Saving(v.result.value) || v.future.value == Ending)
    case FAILED =>
      && !v.completed && v.failed && !v.running && !v.skipped
      && v.result == Some(TaskResult(FAILED, None))
      && (v.future == None || v.future.value == Ending)
    case CANCELLED => false
  }

  predicate NodeInv(u: Setup, v: View, n: Name, depsDone: bool)
  {
    if n in Stale(u) then
      && v.status == Some(u.status[n])
      && !v.completed && !v.failed && !v.running && !v.skipped && v.result == None && v.future == None
    else if n in u.restored then
      && (u.restored[n].status == SUCCESS || u.restored[n].status == SKIPPED)
      && v.status == (if n in u.f.tasks then Some(u.restored[n].status) else None)
      && v.completed == (u.restored[n].status == SUCCESS) && v.skipped == (u.restored[n].status == SKIPPED)
      && !v.failed && !v.running && v.result == Some(u.restored[n]) && v.future == None
    else if n in u.f.tasks then
      GoodView(v) && (v.status != Some(PENDING) ==> depsDone)
    else
      v.status == None && !v.completed && !v.failed && !v.running && !v.skipped && v.result == None && v.future == None
  }

  ghost predicate NodeOk(u: Setup, s: State, n: Name)
  {
    NodeInv(u, ViewOf(s, n), n, Preds(u.f.adj, n) <= DoneSet(s))
  }

  ghost predicate NodesOk(u: Setup, s: State)
  {
    forall n :: NodeOk(u, s, n)
  }

  /** The main loop waits only for live futures, and ends only when nothing runs and nothing is ready. */
  ghost predicate LoopOk(f: Flow, s: State)
  {
    && (s.exited ==> s.futures == map[] && s.running == {} && !s.awake && Ready(f, s) == {})
    && (!s.awake && !s.exited ==> s.futures != map[])
  }

  predicate CalledView(v: View)
  {
    v.status == Some(SUCCESS) || v.status == Some(FAILED)
    || (v.status == Some(RUNNING) && v.future.Some? && v.future.value.Calling?)
  }

  ghost predicate CallsOk(u: Setup, s: State)
  {
    && NoDup(s.calls)
    && forall n {:trigger n in s.calls} :: n in s.calls ==>
         n in u.f.tasks && n !in u.restored && n !in Stale(u) && CalledView(ViewOf(s, n))
  }

  ghost predicate Inv(u: Setup, s: State)
  {
    s.status.Keys == u.f.tasks.Keys && NodesOk(u, s) && LoopOk(u.f, s) && CallsOk(u, s)
  }

  lemma InitialInv(u: Setup)
    requires ValidSetup(u)
    ensures Inv(u, Initial(u))
  {
    hide ValidFlow;
    var s := Initial(u);
    forall n ensures NodeOk(u, s, n) {
    }
  }

  lemma DoneInView(s: State, n: Name)
    ensures n in DoneSet(s) <==> ViewOf(s, n).completed || ViewOf(s, n).skipped
  {
  }

  lemma DoneStays(f: Flow, v: View, step: Step, kwargs: Kwargs)
    ensures v.completed ==> ViewAfter(f, v, step, kwargs).completed
    ensures v.skipped ==> ViewAfter(f, v, step, kwargs).skipped
  {
  }

  lemma DoneGrows(u: Setup, s: State, step: Step)
    requires Enabled(u.f, s, step)
    ensures DoneSet(s) <= DoneSet(Apply(u.f, s, step))
  {
    hide Apply, Enabled, Touches, ViewOf, ViewAfter, KwargsOf, DoneSet;
    forall n | n in DoneSet(s) ensures n in DoneSet(Apply(u.f, s, step)) {
      DoneInView(s, n);
      DoneInView(Apply(u.f, s, step), n);
      StepViews(u.f, s, step, n);
      if Touches(u.f, s, step, n) {
        DoneStays(u.f, ViewOf(s, n), step, KwargsOf(u.f, s.results, n));
      }
    }
  }

  predicate Fits(v: View, step: Step)
  {
    match step
    case Dispatch => v.status == Some(PENDING)
    case Check(_, _) => v.future == Some(Created)
    case Begin(_, _) => v.future == Some(Started)
    case Finish(_, _) => v.future.Some? && v.future.value.Calling?
    case Save(_) => v.future.Some? && v.future.value.Saving?
    case End(_) => v.future == Some(Ending)
  }

  /** What a task's view must look like for a step to touch it. */
  lemma TouchedView(u: Setup, s: State, step: Step, n: Name)
    requires NodeOk(u, s, n) && Enabled(u.f, s, step) && Touches(u.f, s, step, n)
    ensures n in u.f.tasks && n !in Stale(u) && n !in u.restored && GoodView(ViewOf(s, n))
    ensures Fits(ViewOf(s, n), step) && Preds(u.f.adj, n) <= DoneSet(s)
  {
    hide ValidFlow;
  }

  lemma GoodViewAfter(f: Flow, v: View, step: Step, kwargs: Kwargs)
    requires GoodView(v) && Fits(v, step)
    ensures GoodView(ViewAfter(f, v, step, kwargs))
    ensures ViewAfter(f, v, step, kwargs).status != Some(PENDING)
  {
  }

  lemma NodeStep(u: Setup, s: State, step: Step, n: Name)
    requires NodeOk(u, s, n) && Enabled(u.f, s, step)
    ensures NodeOk(u, Apply(u.f, s, step), n)
  {
    hide Apply, Enabled, Touches, ViewOf, ViewAfter, GoodView, DoneSet, KwargsOf;
    DoneGrows(u, s, step);
    StepViews(u.f, s, step, n);
    if Touches(u.f, s, step, n) {
      TouchedView(u, s, step, n);
      GoodViewAfter(u.f, ViewOf(s, n), step, KwargsOf(u.f, s.results, n));
    }
  }

  lemma LoopStep(u: Setup, s: State, step: Step)
    requires s.status.Keys == u.f.tasks.Keys && LoopOk(u.f, s) && Enabled(u.f, s, step)
    ensures Apply(u.f, s, step).status.Keys == u.f.tasks.Keys
    ensures LoopOk(u.f, Apply(u.f, s, step))
  {
    hide KwargsOf, ReadyTasks;
    if step.Dispatch? {
      hide DispatchAll, Ready;
      DispatchLoop(u.f, s);
    } else {
      OtherLoop(u.f, s, step);
    }
  }

  lemma OtherLoop(f: Flow, s: State, step: Step)
    requires s.status.Keys == f.tasks.Keys && Enabled(f, s, step) && !step.Dispatch?
    requires s.exited ==> s.futures == map[]
    requires !s.awake && !s.exited ==> s.futures != map[]
    ensures var s' := Apply(f, s, step);
            s'.status.Keys == f.tasks.Keys && !s'.exited && (s'.awake || s'.futures != map[])
  {
    hide KwargsOf, Ready;
    assert step.n in s.futures;
  }

  /** A dispatch ends the loop only when it found nothing to start and nothing is in flight; then it changed nothing. */
  lemma DispatchLoop(f: Flow, s: State)
    requires s.awake && !s.exited
    ensures LoopOk(f, DispatchAll(f, s)) && DispatchAll(f, s).status.Keys == s.status.Keys
    ensures DispatchAll(f, s).exited ==> s.futures == map[] && Ready(f, s) == {}
  {
    var ready := Ready(f, s);
    var s' := StartTasks(s, ready);
    hide ReadyTasks;
    if s'.futures == map[] {
      assert s'.futures.Keys == s.futures.Keys + ready;
      assert ready == {};
      assert s'.status == s.status;
      assert s'.running == s.running;
    }
  }

  lemma CallsStep(u: Setup, s: State, step: Step)
    requires NodesOk(u, s) && CallsOk(u, s) && Enabled(u.f, s, step)
    ensures CallsOk(u, Apply(u.f, s, step))
  {
    var s' := Apply(u.f, s, step);
    CallsGrow(u.f, s, step);
    hide Apply, ViewOf, KwargsOf, Enabled;
    forall n | n in s'.calls
      ensures n in u.f.tasks && n !in u.restored && n !in Stale(u) && CalledView(ViewOf(s', n))
    {
      CallStep(u, s, step, n);
    }
    if step.Begin? && step.hooksPass {
      assert NodeOk(u, s, step.n);
      TouchedView(u, s, step, step.n);
      assert step.n !in s.calls;
    }
  }

  lemma CallsGrow(f: Flow, s: State, step: Step)
    requires Enabled(f, s, step)
    ensures Apply(f, s, step).calls == if step.Begin? && step.hooksPass then s.calls + [step.n] else s.calls
  {
  }

  lemma CallStep(u: Setup, s: State, step: Step, n: Name)
    requires NodesOk(u, s) && CallsOk(u, s) && Enabled(u.f, s, step)
    requires n in s.calls || (step.Begin? && step.hooksPass && step.n == n)
    ensures n in u.f.tasks && n !in u.restored && n !in Stale(u) && CalledView(ViewOf(Apply(u.f, s, step), n))
  {
    hide Apply, ViewOf, KwargsOf, Enabled;
    assert NodeOk(u, s, n);
    StepViews(u.f, s, step, n);
    if Touches(u.f, s, step, n) {
      TouchedView(u, s, step, n);
    }
  }

  /** What every step of every future and of the loop keeps. */
  lemma StepInv(u: Setup, s: State, step: Step)
    requires Inv(u, s) && Enabled(u.f, s, step)
    ensures Inv(u, Apply(u.f, s, step))
  {
    hide NodeOk, Apply, Enabled, LoopOk, CallsOk;
    forall n ensures NodeOk(u, Apply(u.f, s, step), n) {
      assert NodeOk(u, s, n);
      NodeStep(u, s, step, n);
    }
    LoopStep(u, s, step);
    CallsStep(u, s, step);
  }

  lemma {:induction false} RunInv(u: Setup, s: State, run: seq<Step>)
    requires Inv(u, s) && ValidRun(u.f, s, run)
    ensures Inv(u, After(u.f, s, run))
    decreases |run|
  {
    if run != [] {
      hide Inv, Apply;
      StepInv(u, s, run[0]);
      RunInv(u, Apply(u.f, s, run[0]), run[1..]);
    }
  }

  /** Some interleaving leads from the start to the state. */
  ghost predicate Reachable(u: Setup, s: State)
  {
    exists run :: ValidRun(u.f, Initial(u), run) && After(u.f, Initial(u), run) == s
  }

  lemma ReachableStart(u: Setup)
    ensures Reachable(u, Initial(u))
  {
    assert ValidRun(u.f, Initial(u), []) && After(u.f, Initial(u), []) == Initial(u);
  }

  lemma ReachableStep(u: Setup, s: State, step: Step)
    requires Reachable(u, s) && Enabled(u.f, s, step)
    ensures Reachable(u, Apply(u.f, s, step))
  {
    hide Apply, Enabled, Initial;
    var run :| ValidRun(u.f, Initial(u), run) && After(u.f, Initial(u), run) == s;
    RunSnoc(u.f, Initial(u), run, step);
  }

  lemma ReachableInv(u: Setup, s: State)
    requires ValidSetup(u) && Reachable(u, s)
    ensures Inv(u, s)
  {
    hide Inv, ValidSetup;
    var run :| ValidRun(u.f, Initial(u), run) && After(u.f, Initial(u), run) == s;
    InitialInv(u);
    RunInv(u, Initial(u), run);
  }

  // ---------------------------------------------------------------------------
  // Run safety
  // ---------------------------------------------------------------------------

  /** The scheduler's sets, the statuses and the results tell one story. */
  ghost predicate Agreement(u: Setup, s: State)
  {
    && s.status.Keys == u.f.tasks.Keys
    && s.running !! s.completed !! s.failed !! s.skipped
    && forall n {:trigger n in s.results} {:trigger n in s.running} :: n in u.f.tasks && n !in Stale(u) ==>
         && (n in s.running <==> s.status[n] == RUNNING)
         && (n in s.completed <==> s.status[n] == SUCCESS)
         && (n in s.failed <==> s.status[n] == FAILED)
         && (n in s.skipped <==> s.status[n] == SKIPPED)
         && (n in s.results <==> n in s.completed + s.failed + s.skipped)
         && (n in s.results ==> s.results[n].status == s.status[n])
  }

  /** A condition would be shown the recorded result, which is not a failed one, of each declared dependency. */
  ghost predicate ShownAll(f: Flow, s: State, n: Name)
    requires n in f.tasks
  {
    var shown := Upstream(f, s.results, n);
    && shown.Keys == (set d | d in f.tasks[n].dependsOn)
    && forall d :: d in shown ==> Lookup(s.results, d) == Some(shown[d]) && shown[d].status != FAILED
  }

  /** Whatever the run has started had all its dependencies completed or skipped, and a condition
      about to be evaluated finds a result for every dependency its task declares. */
  ghost predicate DependenciesRespected(u: Setup, s: State)
  {
    && (forall n :: n in s.running + s.failed || (n in s.completed + s.skipped && n !in u.restored) ==>
          Preds(u.f.adj, n) <= s.completed + s.skipped)
    && (forall n :: n in s.futures && s.futures[n] == Created ==>
          n in u.f.tasks && ShownAll(u.f, s, n))
  }

  lemma InvAgreement(u: Setup, s: State)
    requires Inv(u, s)
    ensures Agreement(u, s)
  {
    assert forall n :: n in u.f.tasks ==> n in s.status;
    hide LoopOk, CallsOk;
    forall n ensures !(n in s.running && (n in s.completed || n in s.failed || n in s.skipped))
                     && !(n in s.completed && (n in s.failed || n in s.skipped)) && !(n in s.failed && n in s.skipped) {
      assert NodeOk(u, s, n);
    }
    forall n | n in u.f.tasks && n !in Stale(u)
      ensures && (n in s.running <==> s.status[n] == RUNNING)
              && (n in s.completed <==> s.status[n] == SUCCESS)
              && (n in s.failed <==> s.status[n] == FAILED)
              && (n in s.skipped <==> s.status[n] == SKIPPED)
              && (n in s.results <==> n in s.completed + s.failed + s.skipped)
              && (n in s.results ==> s.results[n].status == s.status[n])
    {
      AgreementOn(u, s, n);
    }
  }

  lemma AgreementOn(u: Setup, s: State, n: Name)
    requires NodeOk(u, s, n) && n in u.f.tasks && n !in Stale(u) && n in s.status
    ensures && (n in s.running <==> s.status[n] == RUNNING)
            && (n in s.completed <==> s.status[n] == SUCCESS)
            && (n in s.failed <==> s.status[n] == FAILED)
            && (n in s.skipped <==> s.status[n] == SKIPPED)
            && (n in s.results <==> n in s.completed + s.failed + s.skipped)
            && (n in s.results ==> s.results[n].status == s.status[n])
  {
  }

  lemma DoneHasResult(u: Setup, s: State, n: Name)
    requires NodeOk(u, s, n) && n in DoneSet(s)
    ensures n in s.results && n !in Stale(u) && s.results[n].status != FAILED
    ensures s.results[n].status == SUCCESS || s.results[n].status == SKIPPED
  {
  }

  lemma InvDependencies(u: Setup, s: State)
    requires ValidFlow(u.f) && Inv(u, s)
    ensures DependenciesRespected(u, s)
  {
    forall n | n in s.running + s.failed || (n in s.completed + s.skipped && n !in u.restored)
      ensures Preds(u.f.adj, n) <= s.completed + s.skipped
    {
      StartedHasDeps(u, s, n);
    }
    forall n | n in s.futures && s.futures[n] == Created
      ensures n in u.f.tasks && ShownAll(u.f, s, n)
    {
      CreatedHasUpstream(u, s, n);
    }
  }

  lemma StartedHasDeps(u: Setup, s: State, n: Name)
    requires NodesOk(u, s)
    requires n in s.running + s.failed || (n in s.completed + s.skipped && n !in u.restored)
    ensures Preds(u.f.adj, n) <= DoneSet(s)
  {
    assert NodeOk(u, s, n);
  }

  lemma CreatedHasUpstream(u: Setup, s: State, n: Name)
    requires ValidFlow(u.f) && NodesOk(u, s) && n in s.futures && s.futures[n] == Created
    ensures n in u.f.tasks && ShownAll(u.f, s, n)
  {
    assert NodeOk(u, s, n);
    forall d | d in u.f.tasks[n].dependsOn ensures d in s.results && s.results[d].status != FAILED {
      assert d in Preds(u.f.adj, n);
      DoneHasResult(u, s, d);
    }
  }

  /** Run safety, for every start and every interleaving. */
  lemma RunSafety(u: Setup, s: State)
    requires ValidSetup(u) && Reachable(u, s)
    ensures Agreement(u, s) && DependenciesRespected(u, s)
    ensures NoDup(s.calls)
    ensures forall n {:trigger n in s.calls} :: n in s.calls ==> n !in u.restored && n !in Stale(u)
  {
    ReachableInv(u, s);
    InvAgreement(u, s);
    InvDependencies(u, s);
    hide Agreement, DependenciesRespected, NodesOk, Reachable;
  }

  lemma {:induction false} NeverPendingAgain(u: Setup, s: State, run: seq<Step>, n: Name)
    requires Inv(u, s) && ValidRun(u.f, s, run) && ViewOf(s, n).status != Some(PENDING)
    ensures ViewOf(After(u.f, s, run), n).status != Some(PENDING)
    decreases |run|
  {
    if run != [] {
      hide Apply, ViewOf, ViewAfter, Touches, Enabled, KwargsOf;
      StepInv(u, s, run[0]);
      StepViews(u.f, s, run[0], n);
      if Touches(u.f, s, run[0], n) {
        assert NodeOk(u, s, n);
        TouchedView(u, s, run[0], n);
        GoodViewAfter(u.f, ViewOf(s, n), run[0], KwargsOf(u.f, s.results, n));
      }
      NeverPendingAgain(u, Apply(u.f, s, run[0]), run[1..], n);
    }
  }

  /** No task is started twice: once a dispatch has started it, no later dispatch of the run does. */
  lemma StartedOnce(u: Setup, s: State, later: seq<Step>, n: Name)
    requires ValidSetup(u) && Reachable(u, s) && Enabled(u.f, s, Dispatch) && n in Ready(u.f, s)
    requires ValidRun(u.f, Apply(u.f, s, Dispatch), later)
    ensures n !in Ready(u.f, After(u.f, Apply(u.f, s, Dispatch), later))
  {
    hide Apply, Inv, ViewOf, ReadyTasks, ViewAfter, Enabled;
    ReachableInv(u, s);
    StepInv(u, s, Dispatch);
    DispatchViews(u.f, s, n);
    StartedView(u.f, ViewOf(s, n), KwargsOf(u.f, s.results, n));
    NeverPendingAgain(u, Apply(u.f, s, Dispatch), later, n);
    ReadyIsPending(u.f, After(u.f, Apply(u.f, s, Dispatch), later), n);
  }

  lemma StartedView(f: Flow, v: View, kwargs: Kwargs)
    ensures ViewAfter(f, v, Dispatch, kwargs).status == Some(RUNNING)
  {
  }

  lemma ReadyIsPending(f: Flow, s: State, n: Name)
    ensures n in Ready(f, s) ==> n in f.tasks && ViewOf(s, n).status == Some(PENDING)
  {
  }

  // ---------------------------------------------------------------------------
  // Data flow
  // ---------------------------------------------------------------------------

  lemma ResultInView(s: State, n: Name)
    ensures ViewOf(s, n).result == Lookup(s.results, n)
  {
  }

  /** Once recorded, a result stays. */
  lemma ResultStays(u: Setup, s: State, step: Step, n: Name)
    requires Inv(u, s) && Enabled(u.f, s, step) && n in s.results
    ensures Lookup(Apply(u.f, s, step).results, n) == Lookup(s.results, n)
  {
    assert NodeOk(u, s, n);
    hide Apply, Enabled, Touches, KwargsOf;
    StepViews(u.f, s, step, n);
    ResultInView(s, n);
    ResultInView(Apply(u.f, s, step), n);
    if Touches(u.f, s, step, n) {
      TouchedView(u, s, step, n);
    }
  }

  /** The value is the recorded output of the task that supplies the parameter. */
  predicate Supplied(f: Flow, results: map<Name, TaskResult>, n: Name, p: Name, value: Option<Value>)
    requires n in f.tasks
  {
    && p in f.tasks[n].inputMap && f.tasks[n].inputMap[p] in results
    && results[f.tasks[n].inputMap[p]].output == value
  }

  /** The parameter is drawn from a task that is sure to be settled: one on which this task depends through tasks
      of this run, a declared dependency for instance, or one that was restored. */
  ghost predicate Due(u: Setup, n: Name, p: Name)
    requires n in u.f.tasks
  {
    p in u.f.tasks[n].inputMap &&
    var source := u.f.tasks[n].inputMap[p];
    source in u.restored || FreelyBelow(u.f.adj, u.restored.Keys, source, n)
  }

  ghost predicate ArgumentsOk(u: Setup, s: State, n: Name)
  {
    n in u.f.tasks && n in s.futures && s.futures[n].Calling? ==>
      var kwargs := s.futures[n].kwargs;
      && (forall p :: p in kwargs ==> Supplied(u.f, s.results, n, p, kwargs[p]))
      && (forall p :: Due(u, n, p) ==> p in kwargs)
  }

  lemma DueIsThere(u: Setup, s: State, n: Name, p: Name)
    requires Inv(u, s) && n in u.f.tasks && Preds(u.f.adj, n) <= DoneSet(s) && Due(u, n, p)
    ensures u.f.tasks[n].inputMap[p] in s.results
  {
    var source := u.f.tasks[n].inputMap[p];
    assert NodeOk(u, s, source);
    if source !in u.restored {
      var path :| FreePath(u.f.adj, u.restored.Keys, path, source, n);
      hide Inv, NodeOk, FreePath;
      AboveIsDone(u, s, path, source, n);
      DoneHasResult(u, s, source);
    }
  }

  lemma BegunArguments(u: Setup, s: State, n: Name)
    requires Inv(u, s) && Enabled(u.f, s, Begin(n, true))
    ensures ArgumentsOk(u, Apply(u.f, s, Begin(n, true)), n)
  {
    assert NodeOk(u, s, n);
    TouchedView(u, s, Begin(n, true), n);
    hide Inv, NodeOk, Due;
    forall p | Due(u, n, p) ensures p in KwargsOf(u.f, s.results, n) {
      DueIsThere(u, s, n, p);
      assert p in u.f.tasks[n].inputMap by { DueIsDeclared(u, n, p); }
    }
  }

  lemma DueIsDeclared(u: Setup, n: Name, p: Name)
    requires n in u.f.tasks && Due(u, n, p)
    ensures p in u.f.tasks[n].inputMap
  {
  }

  lemma SameCall(u: Setup, s: State, step: Step, n: Name)
    requires NodeOk(u, s, n) && Enabled(u.f, s, step) && !(step.Begin? && step.hooksPass && step.n == n)
    ensures var s' := Apply(u.f, s, step);
            n in s'.futures && s'.futures[n].Calling? ==> Lookup(s'.futures, n) == Lookup(s.futures, n)
  {
    var s' := Apply(u.f, s, step);
    FutureInView(s, n);
    FutureInView(s', n);
    hide Apply, ViewOf, KwargsOf, Enabled, NodeOk;
    StepViews(u.f, s, step, n);
    if Touches(u.f, s, step, n) {
      TouchedView(u, s, step, n);
    }
  }

  lemma ArgumentsStep(u: Setup, s: State, step: Step, n: Name)
    requires Inv(u, s) && Enabled(u.f, s, step) && ArgumentsOk(u, s, n)
    ensures ArgumentsOk(u, Apply(u.f, s, step), n)
  {
    if step.Begin? && step.hooksPass && step.n == n {
      BegunArguments(u, s, n);
    } else {
      var s' := Apply(u.f, s, step);
      assert NodeOk(u, s, n);
      SameCall(u, s, step, n);
      hide Apply, Enabled, Inv, Due, NodeOk;
      if n in u.f.tasks && n in s'.futures && s'.futures[n].Calling? {
        forall p | p in s'.futures[n].kwargs ensures Supplied(u.f, s'.results, n, p, s'.futures[n].kwargs[p]) {
          assert Supplied(u.f, s.results, n, p, s.futures[n].kwargs[p]);
          ResultStays(u, s, step, u.f.tasks[n].inputMap[p]);
        }
      }
    }
  }

  lemma {:induction false} ArgumentsRun(u: Setup, s: State, run: seq<Step>, n: Name)
    requires Inv(u, s) && ValidRun(u.f, s, run) && ArgumentsOk(u, s, n)
    ensures ArgumentsOk(u, After(u.f, s, run), n)
    decreases |run|
  {
    if run != [] {
      hide Inv, Apply, ArgumentsOk;
      StepInv(u, s, run[0]);
      ArgumentsStep(u, s, run[0], n);
      ArgumentsRun(u, Apply(u.f, s, run[0]), run[1..], n);
    }
  }

  /** Data flow, in every run, whatever the functions return: each argument of a call in flight is the recorded
      output of the task its parameter is mapped to, and no argument that a dependency supplies is missing. */
  lemma DataFlow(u: Setup, s: State, n: Name)
    requires ValidSetup(u) && Reachable(u, s) && n in u.f.tasks && n in s.futures && s.futures[n].Calling?
    ensures forall p :: p in s.futures[n].kwargs ==> Supplied(u.f, s.results, n, p, s.futures[n].kwargs[p])
    ensures forall p :: Due(u, n, p) ==> p in s.futures[n].kwargs
  {
    InitialInv(u);
    assert ArgumentsOk(u, Initial(u), n);
    hide Inv, ValidSetup, Initial, Supplied, Due;
    var run :| ValidRun(u.f, Initial(u), run) && After(u.f, Initial(u), run) == s;
    ArgumentsRun(u, Initial(u), run, n);
  }

  // ---------------------------------------------------------------------------
  // The exact final state
  // ---------------------------------------------------------------------------

  ghost predicate DepClosed(f: Flow, names: set<Name>)
  {
    forall n :: n in names ==> Preds(f.adj, n) <= names
  }

  /** When the loop has ended, a task is missing a result exactly when it was stale from the start
      or a dependency failed or is itself missing one. */
  lemma MissingLocally(u: Setup, s: State, n: Name)
    requires Inv(u, s) && s.exited && n in u.f.tasks && n !in u.restored && u.f.adj.Keys == u.f.tasks.Keys
    ensures n !in s.results <==> n in Stale(u) || !(Preds(u.f.adj, n) <= DoneSet(s))
  {
    assert NodeOk(u, s, n);
    assert n !in Ready(u.f, s);
    assert n in s.status;
  }

  lemma NotDoneCauses(u: Setup, s: State, d: Name)
    requires Inv(u, s) && d in u.f.tasks
    ensures s.exited ==> (d !in DoneSet(s) <==> d in s.failed || d !in s.results)
  {
    assert NodeOk(u, s, d);
  }

  ghost predicate Culprit(u: Setup, s: State, c: Name)
  {
    c in s.failed || c in Stale(u)
  }

  /** A failed or stale task on which the given one depends through tasks of this run only: nothing restored
      lies between them. */
  ghost predicate CutOff(u: Setup, s: State, n: Name)
  {
    exists c :: Culprit(u, s, c) && FreelyBelow(u.f.adj, u.restored.Keys, c, n)
  }

  /** A failed or stale task the given one transitively depends on. */
  ghost predicate BelowCulprit(u: Setup, s: State, n: Name)
  {
    exists c :: Culprit(u, s, c) && StrictlyBelow(u.f.adj, c, n)
  }

  lemma {:induction false} MissingIsCutOff(u: Setup, s: State, order: seq<Name>, n: Name)
    requires ValidFlow(u.f) && Inv(u, s) && s.exited && IsTopologicalOrder(u.f.adj, order)
    requires n in u.f.tasks && n !in s.results && n !in Stale(u)
    ensures CutOff(u, s, n)
    decreases IndexIn(order, n)
  {
    var d := UndoneDependency(u, s, n);
    EdgePointsForward(u.f.adj, order, d, n);
    var adj, cut := u.f.adj, u.restored.Keys;
    hide Inv, FreelyBelow;
    if Culprit(u, s, d) {
      FreeEdge(adj, cut, d, n);
    } else {
      MissingIsCutOff(u, s, order, d);
      var c :| Culprit(u, s, c) && FreelyBelow(adj, cut, c, d);
      FreeExtend(adj, cut, c, d, n);
    }
  }

  lemma UndoneDependency(u: Setup, s: State, n: Name) returns (d: Name)
    requires ValidFlow(u.f) && Inv(u, s) && s.exited
    requires n in u.f.tasks && n !in s.results && n !in Stale(u)
    ensures Edge(u.f.adj, d, n) && d in u.f.tasks && (d in s.failed || d !in s.results) && n !in u.restored
  {
    assert NodeOk(u, s, n);
    MissingLocally(u, s, n);
    d :| d in Preds(u.f.adj, n) && d !in DoneSet(s);
    NotDoneCauses(u, s, d);
  }

  function IndexIn(order: seq<Name>, n: Name): nat
  {
    if n in order then IndexOf(order, n) else 0
  }

  /** Nothing that depends, through tasks of this run, on a task that is not done has a result. */
  lemma {:induction false} BelowNotDone(u: Setup, s: State, p: seq<Name>, c: Name, n: Name)
    requires ValidFlow(u.f) && Inv(u, s) && FreePath(u.f.adj, u.restored.Keys, p, c, n) && c !in DoneSet(s)
    ensures n !in DoneSet(s) && n !in s.results
    decreases |p|
  {
    PathDropLast(u.f.adj, p);
    PathNodes(u.f.adj, p);
    var d := p[|p| - 2];
    if |p| > 2 {
      assert FreePath(u.f.adj, u.restored.Keys, p[..|p| - 1], c, d);
      BelowNotDone(u, s, p[..|p| - 1], c, d);
    }
    ChildNotDone(u, s, d, n);
  }

  lemma ChildNotDone(u: Setup, s: State, d: Name, n: Name)
    requires Inv(u, s) && Edge(u.f.adj, d, n) && d !in DoneSet(s) && n !in u.restored
    ensures n !in DoneSet(s) && n !in s.results
  {
    assert d in Preds(u.f.adj, n);
    assert NodeOk(u, s, d) && NodeOk(u, s, n);
  }

  /** All that a task with settled dependencies depends on through tasks of this run is settled. */
  lemma {:induction false} AboveIsDone(u: Setup, s: State, p: seq<Name>, a: Name, n: Name)
    requires Inv(u, s) && FreePath(u.f.adj, u.restored.Keys, p, a, n) && Preds(u.f.adj, n) <= DoneSet(s)
    ensures a in DoneSet(s)
    decreases |p|
  {
    PathDropLast(u.f.adj, p);
    var d := p[|p| - 2];
    assert d in Preds(u.f.adj, n);
    if |p| > 2 {
      assert FreePath(u.f.adj, u.restored.Keys, p[..|p| - 1], a, d);
      DoneHasDeps(u, s, d);
      AboveIsDone(u, s, p[..|p| - 1], a, d);
    }
  }

  lemma DoneHasDeps(u: Setup, s: State, d: Name)
    requires Inv(u, s) && d in DoneSet(s) && d !in u.restored
    ensures Preds(u.f.adj, d) <= DoneSet(s)
  {
    assert NodeOk(u, s, d);
  }

  lemma CutOffNotDone(u: Setup, s: State, n: Name)
    requires ValidFlow(u.f) && Inv(u, s) && CutOff(u, s, n)
    ensures n !in s.results
  {
    var c :| Culprit(u, s, c) && FreelyBelow(u.f.adj, u.restored.Keys, c, n);
    var p :| FreePath(u.f.adj, u.restored.Keys, p, c, n);
    assert NodeOk(u, s, c);
    hide Inv, FreePath;
    BelowNotDone(u, s, p, c, n);
  }

  /** Exact final state, for every start: the tasks without a result are the stale ones, those which depend on a
      failed or stale one with nothing restored in between, and no others. */
  lemma MissingIffCutOff(u: Setup, s: State, n: Name)
    requires ValidSetup(u) && Reachable(u, s) && s.exited && n in u.f.tasks
    ensures n !in s.results <==> n in Stale(u) || CutOff(u, s, n)
  {
    ReachableInv(u, s);
    assert NodeOk(u, s, n);
    hide Inv, CutOff, Reachable;
    if n !in s.results && n !in Stale(u) {
      var order := ExtendOrder(u.f.adj, []);
      MissingIsCutOff(u, s, order, n);
    } else if CutOff(u, s, n) {
      CutOffNotDone(u, s, n);
    }
  }

  /** When what is restored holds all it depends on, as it does when nothing is, the tasks without a result are
      the stale ones and the strict descendants of failed or stale ones. */
  lemma ExactlyMissing(u: Setup, s: State, n: Name)
    requires ValidSetup(u) && Reachable(u, s) && s.exited && DepClosed(u.f, u.restored.Keys)
    requires n in u.f.tasks
    ensures n !in s.results <==> n in Stale(u) || BelowCulprit(u, s, n)
  {
    ReachableInv(u, s);
    MissingIffCutOff(u, s, n);
    forall c | Culprit(u, s, c)
      ensures FreelyBelow(u.f.adj, u.restored.Keys, c, n) <==> StrictlyBelow(u.f.adj, c, n)
    {
      CulpritNotRestored(u, s, c);
      hide Inv, StrictlyBelow, FreelyBelow, Reachable;
      if StrictlyBelow(u.f.adj, c, n) {
        StrictIsFree(u.f.adj, u.restored.Keys, c, n);
      } else if FreelyBelow(u.f.adj, u.restored.Keys, c, n) {
        FreeIsStrict(u.f.adj, u.restored.Keys, c, n);
      }
    }
  }

  lemma CulpritNotRestored(u: Setup, s: State, c: Name)
    requires Inv(u, s) && Culprit(u, s, c)
    ensures c !in u.restored
  {
    assert NodeOk(u, s, c);
  }

  /** The workflow ends SUCCESS exactly when no task of the run failed. */
  lemma SuccessMeansNoFailure(u: Setup, s: State)
    requires ValidSetup(u) && Reachable(u, s)
    ensures s.status.Keys == u.f.tasks.Keys
    ensures Conclude(s) == WORKFLOW_SUCCESS <==> forall n :: n in u.f.tasks && n !in Stale(u) ==> s.status[n] != FAILED
  {
    ReachableInv(u, s);
    assert s.status.Keys == u.f.tasks.Keys;
    hide Inv, Reachable;
    forall n ensures n in s.failed <==> n in u.f.tasks && n !in Stale(u) && s.status[n] == FAILED {
      FailedTakesPart(u, s, n);
    }
    if s.failed != {} {
      var n := Pick(s.failed);
    }
  }

  lemma FailedTakesPart(u: Setup, s: State, n: Name)
    requires Inv(u, s) && s.status.Keys == u.f.tasks.Keys
    ensures n in s.failed <==> n in u.f.tasks && n !in Stale(u) && s.status[n] == FAILED
  {
    assert NodeOk(u, s, n);
  }

  /** When the loop has ended with SUCCESS the results cover every task, except that tasks left over
      in a non-PENDING status are silently passed over: coverage holds exactly when there are none. */
  lemma SuccessMeansComplete(u: Setup, s: State)
    requires ValidSetup(u) && Reachable(u, s) && s.exited && Conclude(s) == WORKFLOW_SUCCESS
    ensures u.f.tasks.Keys <= s.results.Keys <==> Stale(u) == {}
  {
    ReachableInv(u, s);
    hide Inv, Reachable;
    if Stale(u) == {} {
      forall n | n in u.f.tasks ensures n in s.results {
        MissingIffCutOff(u, s, n);
      }
    } else {
      var n := Pick(Stale(u));
      StaleHasNoResult(u, s, n);
    }
  }

  lemma StaleHasNoResult(u: Setup, s: State, n: Name)
    requires ValidSetup(u) && Inv(u, s) && n in Stale(u)
    ensures n in u.f.tasks && n !in s.results
  {
    assert NodeOk(u, s, n);
  }

  /** A task left FAILED by an earlier run, the only one of its workflow: the loop ends at once, the workflow
      is reported a success, and there is no result at all. */
  lemma LeftoverIsPassedOver(task: Task)
    requires task.dependsOn == []
    ensures var name := task.name;
            var u := Setup(Flow(map[name := {}], map[name := task], 3, false), map[name := FAILED], map[], map[]);
            && ValidSetup(u)
            && exists s :: Reachable(u, s) && s.exited && Conclude(s) == WORKFLOW_SUCCESS && s.results == map[]
  {
    var name := task.name;
    var f := Flow(map[name := {}], map[name := task], 3, false);
    var u := Setup(f, map[name := FAILED], map[], map[]);
    NoEdgesNoCycles(f.adj);
    ReachableStart(u);
    ReachableStep(u, Initial(u), Dispatch);
    var s := Initial(u);
    assert Ready(f, s) == {};
    assert StartTasks(s, {}).futures == map[];
    hide Reachable, Ready, StartTasks;
    DispatchLoop(f, s);
    assert DispatchAll(f, s).exited && DispatchAll(f, s).results == map[];
  }

  lemma NoEdgesNoCycles(adj: Adjacency)
    requires forall v :: v in adj ==> adj[v] == {}
    ensures Acyclic(adj)
  {
    forall p ensures !IsCycle(adj, p) {
      if IsCycle(adj, p) {
        PathDropLast(adj, p);
        assert false;
      }
    }
  }
}
