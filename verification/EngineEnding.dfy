/** When runs of tasks that behave as defined end: exactly when the evaluation meets no condition that raises. */
module EngineEnding {
  import opened Prelude
  import opened Graphs
  import opened Workflows
  import opened EngineModel
  import opened EngineSafety
  import opened EngineProgress
  import opened EngineEval
  import opened EngineDeterminism

  /** Every condition that is got to, that of a task which is neither restored nor blocked, returns a verdict on
      the results it is shown. What it would do with other results does not matter. */
  ghost predicate NoneRaises(f: Flow, ev: map<Name, TaskResult>, restored: set<Name>)
  {
    forall n {:trigger Blocked(f, ev, n)} :: n in f.tasks && n !in restored && !Blocked(f, ev, n) ==>
      VerdictOf(f, ev, n) != Raise
  }

  /** In no run of tasks that behave as defined does anything raise before its `try`. */
  ghost predicate NeverRaises(u: Setup)
  {
    forall s, step :: DetReachable(u, s) && Enabled(u.f, s, step) && Follows(u.f, s, step) ==> Gentle(step)
  }

  /** Every condition returns a verdict when it is shown a result, not a failed one, for each dependency its task
      declares. It may raise when one is missing, as a condition that indexes its argument does. */
  ghost predicate ConditionsTotal(f: Flow)
  {
    forall n, m :: n in f.tasks && f.tasks[n].condition.Some? && AllShown(f.tasks[n], m) ==>
        f.tasks[n].condition.value(m) != Raise
  }

  ghost predicate AllShown(task: Task, m: map<Name, TaskResult>)
  {
    m.Keys == (set d | d in task.dependsOn) && forall d :: d in m ==> m[d].status != FAILED
  }

  lemma TotalMeansNoneRaises(f: Flow, ev: map<Name, TaskResult>, restored: set<Name>)
    requires ValidFlow(f) && ConditionsTotal(f)
    ensures NoneRaises(f, ev, restored)
  {
    hide Acyclic;
    forall n | n in f.tasks && n !in restored && !Blocked(f, ev, n) ensures VerdictOf(f, ev, n) != Raise {
      forall d | d in f.tasks[n].dependsOn ensures d in ev && ev[d].status != FAILED {
        assert d in Preds(f.adj, n);
      }
      assert AllShown(f.tasks[n], Upstream(f, ev, n));
    }
  }

  lemma FollowingIsGentle(u: Setup, ev: map<Name, TaskResult>, s: State, step: Step)
    requires ValidFlow(u.f) && Inv(u, s) && Det(u, ev, s) && NoneRaises(u.f, ev, u.restored.Keys)
    requires Enabled(u.f, s, step) && Follows(u.f, s, step)
    ensures Gentle(step)
  {
    if step.Check? {
      assert NodeOk(u, s, step.n);
      hide Inv, Det, ValidFlow, NodeOk, VerdictOf, Blocked;
      TouchedView(u, s, step, step.n);
      DepsAgree(u, ev, s, step.n);
      VerdictLocal(u.f, s.results, ev, step.n);
    }
  }

  lemma NoneRaisesMeansNever(u: Setup, ev: map<Name, TaskResult>)
    requires AgreeingStart(u, ev) && InputsFit(u.f, u.restored.Keys) && Consistent(u.f, ev, u.restored.Keys)
        && NoneRaises(u.f, ev, u.restored.Keys)
    ensures NeverRaises(u)
  {
    assert ValidFlow(u.f);
    hide AgreeingStart, InputsFit, Consistent, NoneRaises, DetReachable, Enabled, Follows, Gentle, Inv, Det, ValidFlow;
    forall s, step | DetReachable(u, s) && Enabled(u.f, s, step) && Follows(u.f, s, step) ensures Gentle(step) {
      DetReachableSound(u, ev, s);
      FollowingIsGentle(u, ev, s, step);
    }
  }

  /** Until the loop has ended there is a step that does what the tasks' definitions say. */
  lemma NextStep(u: Setup, s: State) returns (step: Step)
    requires Inv(u, s) && !s.exited
    ensures Enabled(u.f, s, step) && Follows(u.f, s, step)
  {
    if s.awake {
      return Dispatch;
    }
    var n := Pick(s.futures.Keys);
    assert NodeOk(u, s, n);
    hide OutcomeOf;
    step := match s.futures[n]
            case Created => Check(n, VerdictOf(u.f, s.results, n))
            case Started => Begin(n, true)
            case Calling(kwargs) => Finish(n, OutcomeOf(u.f, n, kwargs))
            case Saving(_) => Save(n)
            case Ending => End(n);
  }

  lemma ReachableByBehaving(u: Setup, s: State)
    requires ValidSetup(u) && DetReachable(u, s)
    ensures Reachable(u, s) && Inv(u, s)
  {
    var run :| ValidRun(u.f, Initial(u), run) && FollowsAll(u.f, Initial(u), run) && After(u.f, Initial(u), run) == s;
    hide Inv, ValidSetup, Initial;
    assert Reachable(u, s);
    ReachableInv(u, s);
  }

  /** From every state that such a run can get to, the loop can be brought to its end, keeping all results. */
  lemma {:induction false} RunToEnd(u: Setup, s: State, order: seq<Name>) returns (rest: seq<Step>)
    requires ValidSetup(u) && NeverRaises(u) && Elems(order) == u.f.tasks.Keys
    requires DetReachable(u, s) && Healthy(s)
    ensures ValidRun(u.f, s, rest) && FollowsAll(u.f, s, rest)
    ensures DetReachable(u, After(u.f, s, rest)) && After(u.f, s, rest).exited
    ensures forall n :: n in s.results ==> Lookup(After(u.f, s, rest).results, n) == Lookup(s.results, n)
    decreases Measure(order, s)
  {
    ReachableByBehaving(u, s);
    hide DetReachable, Inv, Apply, Enabled, ValidSetup, Measure, Gentle, Follows, Elems, NeverRaises, Reachable;
    if s.exited {
      return [];
    }
    var step := NextStep(u, s);
    var s' := Apply(u.f, s, step);
    GentleNext(u, s, step);
    DetReachableStep(u, s, step);
    HealthyStep(u, s, step);
    StepDescends(u, s, step, order);
    forall n | n in s.results ensures n in s'.results && Lookup(s'.results, n) == Lookup(s.results, n) {
      ResultStays(u, s, step, n);
    }
    var tail := RunToEnd(u, s', order);
    rest := [step] + tail;
    assert rest[1..] == tail;
  }

  lemma GentleNext(u: Setup, s: State, step: Step)
    requires NeverRaises(u) && DetReachable(u, s) && Enabled(u.f, s, step) && Follows(u.f, s, step)
    ensures Gentle(step)
  {
  }

  /** A run of tasks that behave as defined and of which none raises is gentle, and keeps the loop healthy. */
  lemma {:induction false} BehavedRun(u: Setup, s: State, run: seq<Step>)
    requires ValidSetup(u) && NeverRaises(u) && DetReachable(u, s) && Healthy(s)
    requires ValidRun(u.f, s, run) && FollowsAll(u.f, s, run)
    ensures AllGentle(run) && Healthy(After(u.f, s, run))
    decreases |run|
  {
    if run != [] {
      ReachableByBehaving(u, s);
      hide DetReachable, Inv, Apply, Enabled, ValidSetup, Gentle, Follows, NeverRaises, Reachable, Healthy, AllGentle;
      GentleNext(u, s, run[0]);
      DetReachableStep(u, s, run[0]);
      HealthyStep(u, s, run[0]);
      BehavedRun(u, Apply(u.f, s, run[0]), run[1..]);
      GentleCons(run);
    }
  }

  lemma GentleCons(run: seq<Step>)
    requires run != [] && Gentle(run[0]) && AllGentle(run[1..])
    ensures AllGentle(run)
  {
    hide Gentle;
    forall i | 0 <= i < |run| ensures Gentle(run[i]) {
      if i > 0 { assert run[i] == run[1..][i - 1]; }
    }
  }

  lemma StartsHealthy(u: Setup)
    ensures Healthy(Initial(u)) && DetReachable(u, Initial(u))
  {
    DetReachableStart(u);
  }

  lemma StaysHealthy(u: Setup, s: State)
    requires ValidSetup(u) && NeverRaises(u) && DetReachable(u, s)
    ensures Healthy(s)
  {
    StartsHealthy(u);
    hide ValidSetup, NeverRaises, Healthy, Initial;
    var run :| ValidRun(u.f, Initial(u), run) && FollowsAll(u.f, Initial(u), run) && After(u.f, Initial(u), run) == s;
    BehavedRun(u, Initial(u), run);
  }

  /** A task that is not blocked and whose condition raises is never got past. */
  lemma RaisedPreventsEnd(u: Setup, ev: map<Name, TaskResult>, order: seq<Name>, s: State, n: Name)
    requires AgreeingStart(u, ev) && InputsFit(u.f, u.restored.Keys) && Orders(u.f, order)
        && Consistent(u.f, ev, u.restored.Keys) && DetReachable(u, s)
    requires n in u.f.tasks && n !in u.restored && !Blocked(u.f, ev, n) && VerdictOf(u.f, ev, n) == Raise
    ensures !s.exited
  {
    assert ValidFlow(u.f) && Stale(u) == {} && LocallyRight(u.f, ev, n);
    hide *;
    DetReachableSound(u, ev, s);
    RaisedNotEvaluated(u.f, ev, n);
    if s.exited {
      UnblockedRecorded(u, ev, s, order, n);
      RecordedIsEvaluated(u, ev, s, n);
      assert false;
    }
  }

  lemma RaisedNotEvaluated(f: Flow, ev: map<Name, TaskResult>, n: Name)
    requires ValidFlow(f) && LocallyRight(f, ev, n) && !Blocked(f, ev, n) && VerdictOf(f, ev, n) == Raise
    ensures n !in ev
  {
    UnblockedResult(f, ev, n);
  }

  lemma UnblockedRecorded(u: Setup, ev: map<Name, TaskResult>, s: State, order: seq<Name>, n: Name)
    requires ValidFlow(u.f) && Orders(u.f, order) && Stale(u) == {} && Inv(u, s) && Det(u, ev, s) && s.exited
    requires n in u.f.tasks && !Blocked(u.f, ev, n)
    ensures n in s.results
  {
    FinishedState(u, ev, order, s);
    forall d | d in Preds(u.f.adj, n) ensures d in DoneSet(s) {
      assert d in ev && ev[d].status != FAILED;
      RecordedIsDone(u, ev, s, d);
    }
    DoneDepsRecorded(u, s, n);
  }

  /** Exactly when the loop ends. From every start that agrees with the evaluation some run of the tasks as
      defined ends if and only if the evaluation meets no raising condition. */
  lemma EndsIffNoneRaises(u: Setup, ev: map<Name, TaskResult>, order: seq<Name>)
    requires AgreeingStart(u, ev) && InputsFit(u.f, u.restored.Keys) && Orders(u.f, order)
        && Consistent(u.f, ev, u.restored.Keys)
    ensures (exists s :: DetReachable(u, s) && s.exited) <==> NoneRaises(u.f, ev, u.restored.Keys)
  {
    AgreeingIsValid(u, ev);
    OrderCovers(u.f, order);
    hide *;
    if NoneRaises(u.f, ev, u.restored.Keys) {
      NoneRaisesMeansNever(u, ev);
      StartsHealthy(u);
      var run := RunToEnd(u, Initial(u), order);
    } else {
      var n := SomeRaises(u.f, ev, u.restored.Keys);
      forall s | DetReachable(u, s) ensures !s.exited {
        RaisedPreventsEnd(u, ev, order, s, n);
      }
    }
  }

  lemma AgreeingIsValid(u: Setup, ev: map<Name, TaskResult>)
    requires AgreeingStart(u, ev)
    ensures ValidSetup(u) && ValidFlow(u.f)
  {
  }

  lemma OrderCovers(f: Flow, order: seq<Name>)
    requires ValidFlow(f) && Orders(f, order)
    ensures Elems(order) == f.tasks.Keys
  {
  }

  lemma SomeRaises(f: Flow, ev: map<Name, TaskResult>, restored: set<Name>) returns (n: Name)
    requires !NoneRaises(f, ev, restored)
    ensures n in f.tasks && n !in restored && !Blocked(f, ev, n) && VerdictOf(f, ev, n) == Raise
  {
    n :| n in f.tasks && n !in restored && !Blocked(f, ev, n) && VerdictOf(f, ev, n) == Raise;
  }

  /** If the evaluation meets no raising condition, every run of the tasks as defined takes at most seven
      steps a task and one more, and from wherever it has got to the loop can still be brought to its end. */
  lemma BehavedRunsEnd(u: Setup, ev: map<Name, TaskResult>, order: seq<Name>, run: seq<Step>)
    requires AgreeingStart(u, ev) && InputsFit(u.f, u.restored.Keys) && Orders(u.f, order)
        && Consistent(u.f, ev, u.restored.Keys) && NoneRaises(u.f, ev, u.restored.Keys)
    requires ValidRun(u.f, Initial(u), run) && FollowsAll(u.f, Initial(u), run)
    ensures AllGentle(run) && |run| <= 7 * |u.f.tasks| + 1
    ensures var s := After(u.f, Initial(u), run);
            exists rest :: ValidRun(u.f, s, rest) && FollowsAll(u.f, s, rest) && After(u.f, s, rest).exited
  {
    AgreeingIsValid(u, ev);
    OrderCovers(u.f, order);
    assert NoDup(order);
    var s := After(u.f, Initial(u), run);
    assert DetReachable(u, s);
    hide *;
    NoneRaisesMeansNever(u, ev);
    StartsHealthy(u);
    BehavedRun(u, Initial(u), run);
    RunsAreFinite(u, run, order);
    var rest := RunToEnd(u, s, order);
  }
}
