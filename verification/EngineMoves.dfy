/** Driving a run by hand: what single steps do to the accounts of the tasks, for lemmas that exhibit runs. */
module EngineMoves {
  import opened Prelude
  import opened Graphs
  import opened Workflows
  import opened EngineModel
  import opened EngineSafety
  import opened EngineProgress
  import opened EngineEval
  import opened EngineDeterminism

  /** A task not started yet, and one whose future has just been created. */
  const IDLE := View(Some(PENDING), false, false, false, false, None, None, None)
  const STARTED := IDLE.(status := Some(RUNNING), running := true, future := Some(Created))

  /** The second state can be reached if the first can, and by tasks behaving as defined if `behaved`. */
  ghost predicate LeadsTo(u: Setup, s: State, s': State, behaved: bool)
  {
    (Reachable(u, s) ==> Reachable(u, s')) && (DetReachable(u, s) && behaved ==> DetReachable(u, s'))
  }

  lemma StepLeadsTo(u: Setup, s: State, step: Step)
    requires Enabled(u.f, s, step)
    ensures LeadsTo(u, s, Apply(u.f, s, step), Follows(u.f, s, step))
  {
    hide Apply, Enabled, Reachable, DetReachable, Follows;
    if Reachable(u, s) {
      ReachableStep(u, s, step);
    }
    if DetReachable(u, s) && Follows(u.f, s, step) {
      DetReachableStep(u, s, step);
    }
  }

  lemma Reached(u: Setup, s: State, s': State, behaved: bool)
    requires LeadsTo(u, s, s', behaved)
    ensures Reachable(u, s) ==> Reachable(u, s')
    ensures DetReachable(u, s) && behaved ==> DetReachable(u, s')
  {
    hide Reachable, DetReachable;
  }

  /** One step of one future leaves every other task, and whether the loop is awake, alone. */
  lemma Move(u: Setup, s: State, step: Step) returns (s': State)
    requires Enabled(u.f, s, step) && !step.Dispatch? && !step.End? && (step.Check? ==> step.verdict == Run)
    requires step.Begin? ==> step.hooksPass
    ensures s' == Apply(u.f, s, step) && LeadsTo(u, s, s', Follows(u.f, s, step))
    ensures s'.awake == s.awake && s'.exited == s.exited && (step.Check? ==> s'.results == s.results)
    ensures forall m :: m != step.n ==> ViewOf(s', m) == ViewOf(s, m)
    ensures step.n in u.f.tasks
        && ViewOf(s', step.n) == ViewAfter(u.f, ViewOf(s, step.n), step, KwargsOf(u.f, s.results, step.n))
  {
    s' := Apply(u.f, s, step);
    StepLeadsTo(u, s, step);
    FlagsKept(u.f, s, step);
    hide Apply, LeadsTo, ViewOf, ViewAfter, KwargsOf, Follows;
    forall m ensures m != step.n ==> ViewOf(s', m) == ViewOf(s, m) {
      StepViews(u.f, s, step, m);
    }
    StepViews(u.f, s, step, step.n);
  }

  lemma FlagsKept(f: Flow, s: State, step: Step)
    requires Enabled(f, s, step) && !step.Dispatch? && !step.End? && (step.Check? ==> step.verdict == Run)
    requires step.Begin? ==> step.hooksPass
    ensures Apply(f, s, step).awake == s.awake && Apply(f, s, step).exited == s.exited
    ensures step.Check? ==> Apply(f, s, step).results == s.results
  {
    hide KwargsOf;
  }

  /** An unconditional task whose future has been created can be run up to the recording of its outcome. */
  lemma RunCreated(u: Setup, s: State, n: Name, output: Option<Option<Value>>) returns (s': State)
    requires n in u.f.tasks && u.f.tasks[n].condition.None? && n in s.futures && s.futures[n] == Created
    ensures Reachable(u, s) ==> Reachable(u, s')
    ensures DetReachable(u, s) && output == OutcomeOf(u.f, n, KwargsOf(u.f, s.results, n)) ==> DetReachable(u, s')
    ensures s'.awake == s.awake && s'.exited == s.exited
    ensures forall m :: m != n ==> ViewOf(s', m) == ViewOf(s, m)
    ensures ViewOf(s', n).future == Some(if output.Some? then Saving(ResultOf(output)) else Ending)
    ensures ViewOf(s', n).completed == (output.Some? || ViewOf(s, n).completed)
        && ViewOf(s', n).saved == ViewOf(s, n).saved
    ensures ViewOf(s', n).result == Some(ResultOf(output))
  {
    var v := ViewOf(s, n);
    assert VerdictOf(u.f, s.results, n) == Run;
    hide Apply, KwargsOf, OutcomeOf, LeadsTo, VerdictOf;
    var s1 := Move(u, s, Check(n, Run));
    assert ViewOf(s1, n) == v.(future := Some(Started));
    var s2 := Move(u, s1, Begin(n, true));
    assert ViewOf(s2, n) == v.(future := Some(Calling(KwargsOf(u.f, s1.results, n))));
    s' := Move(u, s2, Finish(n, output));
    hide Reachable, DetReachable;
    Reached(u, s, s1, true);
    Reached(u, s1, s2, true);
    Reached(u, s2, s', output == OutcomeOf(u.f, n, KwargsOf(u.f, s.results, n)));
  }

  /** A dispatch starts exactly the ready tasks, and the loop goes on when there is one. */
  lemma MoveDispatch(u: Setup, s: State) returns (s': State)
    requires s.awake && !s.exited && Ready(u.f, s) != {}
    ensures (Reachable(u, s) ==> Reachable(u, s')) && (DetReachable(u, s) ==> DetReachable(u, s'))
    ensures !s'.exited && s'.results == s.results
    ensures forall m :: m !in Ready(u.f, s) ==> ViewOf(s', m) == ViewOf(s, m)
    ensures forall m :: m in Ready(u.f, s) ==>
              ViewOf(s', m) == ViewOf(s, m).(status := Some(RUNNING), running := true, future := Some(Created))
  {
    s' := Apply(u.f, s, Dispatch);
    StepLeadsTo(u, s, Dispatch);
    Reached(u, s, s', true);
    var n := Pick(Ready(u.f, s));
    assert n in StartTasks(s, Ready(u.f, s)).futures;
    hide LeadsTo, Reachable, DetReachable, Ready, ViewOf, StartTasks;
    forall m
      ensures m !in Ready(u.f, s) ==> ViewOf(s', m) == ViewOf(s, m)
      ensures m in Ready(u.f, s) ==>
                ViewOf(s', m) == ViewOf(s, m).(status := Some(RUNNING), running := true, future := Some(Created))
    {
      DispatchViews(u.f, s, m);
    }
  }

  /** The end of a future wakes the loop. */
  lemma MoveEnd(u: Setup, s: State, n: Name) returns (s': State)
    requires !s.exited && n in u.f.tasks && ViewOf(s, n).future == Some(Ending)
    ensures (Reachable(u, s) ==> Reachable(u, s')) && (DetReachable(u, s) ==> DetReachable(u, s'))
    ensures s'.awake && !s'.exited
    ensures forall m :: m != n ==> ViewOf(s', m) == ViewOf(s, m)
    ensures ViewOf(s', n) == ViewOf(s, n).(future := None)
  {
    s' := Apply(u.f, s, End(n));
    StepLeadsTo(u, s, End(n));
    Reached(u, s, s', true);
    hide LeadsTo, Reachable, DetReachable, ViewOf;
    forall m ensures m != n ==> ViewOf(s', m) == ViewOf(s, m) {
      StepViews(u.f, s, End(n), m);
    }
    StepViews(u.f, s, End(n), n);
  }

  lemma ReadyFromViews(u: Setup, s: State, n: Name)
    requires n in u.f.adj && n in u.f.tasks && ViewOf(s, n).status == Some(PENDING)
    requires !ViewOf(s, n).completed && !ViewOf(s, n).skipped && !ViewOf(s, n).running && !ViewOf(s, n).failed
    ensures n in Ready(u.f, s) <==> Preds(u.f.adj, n) <= DoneSet(s)
  {
  }

  lemma StartsIdle(u: Setup, n: Name)
    requires u == Execution(u.f, u.status, map[]) && AllPending(u.f, u.status) && n in u.f.tasks
    ensures ViewOf(Initial(u), n) == IDLE
  {
  }

  /** Every task without dependencies can come to its before-hooks: in any execution of PENDING tasks a raising one
      is met there, and from then on no run ends and the task stays RUNNING (RaisingMakesOrphan). */
  lemma HookCanRaise(f: Flow, status: map<Name, TaskStatus>, n: Name)
    requires ValidFlow(f) && AllPending(f, status) && n in f.tasks && Preds(f.adj, n) == {}
    ensures exists s :: Reachable(Execution(f, status, map[]), s) && HookRaises(f, s, n)
                        && Orphan(Apply(f, s, Begin(n, false)), n)
  {
    var u := Execution(f, status, map[]);
    assert u.f == f && f.adj.Keys == f.tasks.Keys;
    var s0 := Initial(u);
    ReachableStart(u);
    StartsIdle(u, n);
    assert s0.awake && !s0.exited;
    hide Reachable, DetReachable, Initial, AllPending, ViewOf;
    ReadyFromViews(u, s0, n);
    hide Ready;
    var s1 := MoveDispatch(u, s0);
    FutureInView(s1, n);
    var s2 := Move(u, s1, Check(n, Run));
    FutureInView(s2, n);
    Reached(u, s1, s2, Follows(u.f, s1, Check(n, Run)));
    RunningInView(s2, n);
    assert HookRaises(f, s2, n);
    assert Orphan(Apply(f, s2, Begin(n, false)), n);
  }

  /** The task's before-hooks are about to run, and one of them raises. */
  predicate HookRaises(f: Flow, s: State, n: Name)
  {
    Enabled(f, s, Begin(n, false))
  }

  lemma RunningInView(s: State, n: Name)
    ensures ViewOf(s, n).running == (n in s.running)
  {
  }
}
