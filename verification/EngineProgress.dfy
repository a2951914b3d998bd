/** Progress and termination of runs, and what a future that dies early does to them. */
module EngineProgress {
  import opened Prelude
  import opened Workflows
  import opened Scheduling
  import opened EngineModel
  import opened EngineSafety

  /** Steps in which no condition and no before-hook raises. */
  predicate Gentle(step: Step)
  {
    !(step.Check? && step.verdict == Raise) && !(step.Begin? && !step.hooksPass)
  }

  /** How many steps a task still has before it. */
  function Weight(v: View): nat
  {
    if v.status == Some(PENDING) then 7
    else match v.future
         case None => 0
         case Some(Created) => 6
         case Some(Started) => 5
         case Some(Calling(_)) => 4
         case Some(Saving(_)) => 3
         case Some(Ending) => 2
  }

  function WeightIn(s: State): Name -> nat
  {
    n => Weight(ViewOf(s, n))
  }

  function Measure(tasks: seq<Name>, s: State): nat
  {
    Sum(tasks, WeightIn(s)) + if s.awake then 1 else 0
  }

  /** Every running task has a live future. */
  ghost predicate Healthy(s: State)
  {
    s.running <= s.futures.Keys
  }

  lemma WeightStep(u: Setup, s: State, step: Step, n: Name)
    requires NodeOk(u, s, n) && Enabled(u.f, s, step)
    ensures Weight(ViewOf(Apply(u.f, s, step), n)) <= Weight(ViewOf(s, n))
    ensures Touches(u.f, s, step, n) ==>
              Weight(ViewOf(Apply(u.f, s, step), n)) + 1 <= Weight(ViewOf(s, n))
    ensures Touches(u.f, s, step, n) && (step.End? || !Gentle(step)) ==>
              Weight(ViewOf(Apply(u.f, s, step), n)) + 2 <= Weight(ViewOf(s, n))
  {
    hide Apply, Enabled, ViewOf, Touches, KwargsOf, ViewAfter, GoodView;
    StepViews(u.f, s, step, n);
    if Touches(u.f, s, step, n) {
      TouchedView(u, s, step, n);
      WeightAfter(u.f, ViewOf(s, n), step, KwargsOf(u.f, s.results, n));
    }
  }

  lemma WeightAfter(f: Flow, v: View, step: Step, kwargs: Kwargs)
    requires GoodView(v) && Fits(v, step)
    ensures Weight(ViewAfter(f, v, step, kwargs)) + (if step.End? || !Gentle(step) then 2 else 1) <= Weight(v)
  {
  }

  lemma AwakeStep(f: Flow, s: State, step: Step)
    requires Enabled(f, s, step)
    ensures !step.Dispatch? && !step.End? && Gentle(step) ==> Apply(f, s, step).awake == s.awake
    ensures step.Dispatch? ==> s.awake && (Apply(f, s, step).awake ==>
              Apply(f, s, step) == s && s.futures == map[] && s.running != {})
  {
    hide KwargsOf, ReadyTasks;
    if step.Dispatch? {
      PollIsIdle(f, s);
    }
  }

  /** Only a loop with nothing in flight and a name left in `running` polls, and polling changes nothing. */
  lemma PollIsIdle(f: Flow, s: State)
    requires s.awake && !s.exited
    ensures DispatchAll(f, s).awake ==> DispatchAll(f, s) == s && s.futures == map[] && s.running != {}
  {
    var ready := Ready(f, s);
    hide ReadyTasks;
    var s' := StartTasks(s, ready);
    if s'.futures == map[] {
      assert s'.futures.Keys == s.futures.Keys + ready;
      assert ready == {};
      assert s'.status == s.status && s'.running == s.running;
    }
  }

  /** Every step brings the run closer to its end, except an idle poll. */
  lemma StepDescends(u: Setup, s: State, step: Step, tasks: seq<Name>)
    requires Inv(u, s) && Enabled(u.f, s, step) && Elems(tasks) == u.f.tasks.Keys
    ensures Measure(tasks, Apply(u.f, s, step)) < Measure(tasks, s)
            || (Apply(u.f, s, step) == s && s.futures == map[] && s.running != {})
  {
    var s' := Apply(u.f, s, step);
    AwakeStep(u.f, s, step);
    assert step.Dispatch? || TouchesOwn(u, s, step, tasks);
    hide Apply, Enabled, ViewOf, Touches, Weight, Gentle;
    forall n ensures WeightIn(s')(n) <= WeightIn(s)(n)
                     && (Touches(u.f, s, step, n) ==> WeightIn(s')(n) + 1 <= WeightIn(s)(n))
                     && (Touches(u.f, s, step, n) && (step.End? || !Gentle(step)) ==>
                         WeightIn(s')(n) + 2 <= WeightIn(s)(n)) {
      assert NodeOk(u, s, n);
      WeightStep(u, s, step, n);
    }
    SumDrops(tasks, WeightIn(s), WeightIn(s'), 1);
    SumDrops(tasks, WeightIn(s), WeightIn(s'), 2);
  }

  ghost predicate TouchesOwn(u: Setup, s: State, step: Step, tasks: seq<Name>)
  {
    !step.Dispatch? && step.n in tasks && Touches(u.f, s, step, step.n)
  }

  lemma HealthyStep(u: Setup, s: State, step: Step)
    requires Inv(u, s) && Healthy(s) && Enabled(u.f, s, step) && Gentle(step)
    ensures Healthy(Apply(u.f, s, step))
  {
    var s' := Apply(u.f, s, step);
    hide Apply, Enabled, Touches, KwargsOf, Gentle;
    forall n | n in s'.running ensures n in s'.futures {
      assert NodeOk(u, s, n);
      StepViews(u.f, s, step, n);
      if Touches(u.f, s, step, n) {
        TouchedView(u, s, step, n);
        GentleView(u.f, ViewOf(s, n), step, KwargsOf(u.f, s.results, n));
      }
      InView(s, n);
      InView(s', n);
    }
  }

  lemma InView(s: State, n: Name)
    ensures ViewOf(s, n).running == (n in s.running) && ViewOf(s, n).future.Some? == (n in s.futures)
  {
  }

  lemma GentleView(f: Flow, v: View, step: Step, kwargs: Kwargs)
    requires GoodView(v) && Fits(v, step) && Gentle(step)
    ensures ViewAfter(f, v, step, kwargs).running ==> ViewAfter(f, v, step, kwargs).future.Some?
  {
  }

  predicate AllGentle(run: seq<Step>)
  {
    forall i :: 0 <= i < |run| ==> Gentle(run[i])
  }

  lemma {:induction false} RunDescends(u: Setup, s: State, run: seq<Step>, tasks: seq<Name>)
    requires Inv(u, s) && Healthy(s) && ValidRun(u.f, s, run) && AllGentle(run) && Elems(tasks) == u.f.tasks.Keys
    ensures Healthy(After(u.f, s, run)) && Inv(u, After(u.f, s, run))
    ensures |run| + Measure(tasks, After(u.f, s, run)) <= Measure(tasks, s)
    decreases |run|
  {
    if run != [] {
      hide Apply, Inv, Gentle, Measure;
      assert Gentle(run[0]);
      StepInv(u, s, run[0]);
      HealthyStep(u, s, run[0]);
      StepDescends(u, s, run[0], tasks);
      assert Healthy(s) ==> !(s.futures == map[] && s.running != {});
      forall i | 0 <= i < |run[1..]| ensures Gentle(run[1..][i]) { assert run[1..][i] == run[i + 1]; }
      RunDescends(u, Apply(u.f, s, run[0]), run[1..], tasks);
    }
  }

  /** Termination: a run in which nothing raises before its `try` takes at most seven steps a task and one more. */
  lemma RunsAreFinite(u: Setup, run: seq<Step>, tasks: seq<Name>)
    requires ValidSetup(u) && ValidRun(u.f, Initial(u), run) && AllGentle(run)
    requires NoDup(tasks) && Elems(tasks) == u.f.tasks.Keys
    ensures |run| <= 7 * |u.f.tasks| + 1
  {
    InitialInv(u);
    assert Healthy(Initial(u)) && Initial(u).awake;
    hide Inv, ValidRun, AllGentle, NoDup, Initial, Elems;
    RunDescends(u, Initial(u), run, tasks);
    NoDupCardinality(tasks);
    MeasureBounded(tasks, Initial(u));
    assert |u.f.tasks| == |u.f.tasks.Keys|;
  }

  lemma MeasureBounded(tasks: seq<Name>, s: State)
    ensures Measure(tasks, s) <= 7 * |tasks| + 1
  {
    SumBounded(tasks, WeightIn(s), 7);
  }

  /** Whatever verdicts and outcomes the tasks will have, some step is possible. */
  ghost predicate SomeStep(f: Flow, s: State, verdict: Verdict, output: Option<Option<Value>>)
  {
    exists step :: Enabled(f, s, step) && (step.Check? ==> step.verdict == verdict || f.tasks[step.n].condition.None?)
                   && (step.Begin? ==> step.hooksPass) && (step.Finish? ==> step.output == output)
  }

  /** Progress: until the loop has ended, some step can be taken; once it has, none can. A run that is
      taken as far as it goes, without raising conditions or before-hooks, therefore ends the loop. */
  lemma Progress(u: Setup, s: State, verdict: Verdict, output: Option<Option<Value>>)
    requires ValidSetup(u) && Reachable(u, s)
    ensures !s.exited ==> SomeStep(u.f, s, verdict, output)
    ensures s.exited ==> forall step :: !Enabled(u.f, s, step)
  {
    ReachableInv(u, s);
    if !s.exited {
      if s.awake {
        assert Enabled(u.f, s, Dispatch);
      } else {
        var n := Pick(s.futures.Keys);
        assert NodeOk(u, s, n);
        FutureHasStep(u.f, s, n, verdict, output);
      }
    }
  }

  lemma FutureHasStep(f: Flow, s: State, n: Name, verdict: Verdict, output: Option<Option<Value>>)
    requires n in f.tasks && n in s.futures
    ensures SomeStep(f, s, verdict, output)
  {
    match s.futures[n]
    case Created => assert Enabled(f, s, Check(n, if f.tasks[n].condition.None? then Run else verdict));
    case Started => assert Enabled(f, s, Begin(n, true));
    case Calling(_) => assert Enabled(f, s, Finish(n, output));
    case Saving(_) => assert Enabled(f, s, Save(n));
    case Ending => assert Enabled(f, s, End(n));
  }

  // ---------------------------------------------------------------------------
  // Futures that die before they record anything
  // ---------------------------------------------------------------------------

  /** A name left in `running` by a future that is gone. */
  ghost predicate Orphan(s: State, n: Name)
  {
    n in s.running && n !in s.futures
  }

  lemma OrphanStep(u: Setup, s: State, step: Step, n: Name)
    requires Inv(u, s) && Orphan(s, n) && Enabled(u.f, s, step)
    ensures Orphan(Apply(u.f, s, step), n) && !s.exited && !Apply(u.f, s, step).exited
    ensures ViewOf(Apply(u.f, s, step), n) == ViewOf(s, n)
  {
    var s' := Apply(u.f, s, step);
    StepInv(u, s, step);
    StepViews(u.f, s, step, n);
    assert NodeOk(u, s, n);
    hide Apply, Enabled, Touches, KwargsOf;
    if Touches(u.f, s, step, n) {
      TouchedView(u, s, step, n);
      assert false;
    }
    InView(s', n);
  }

  /** An orphan stays, RUNNING and neither completed nor failed, for the rest of every run, and the
      loop never ends. */
  lemma {:induction false} OrphanForEver(u: Setup, s: State, run: seq<Step>, n: Name)
    requires Inv(u, s) && Orphan(s, n) && ValidRun(u.f, s, run)
    ensures !After(u.f, s, run).exited
    ensures ViewOf(After(u.f, s, run), n) == ViewOf(s, n)
    decreases |run|
  {
    if run != [] {
      hide Apply, Inv, ViewOf;
      OrphanStep(u, s, run[0], n);
      StepInv(u, s, run[0]);
      OrphanForEver(u, Apply(u.f, s, run[0]), run[1..], n);
    } else {
      assert !s.exited;
    }
  }

  /** A condition or a before-hook that raises leaves an orphan: the task is not marked failed, as the
      hook's documentation promises, but stays RUNNING for ever, and the loop never ends. */
  lemma RaisingMakesOrphan(u: Setup, s: State, step: Step, later: seq<Step>)
    requires ValidSetup(u) && Reachable(u, s) && Enabled(u.f, s, step) && !Gentle(step)
    requires ValidRun(u.f, Apply(u.f, s, step), later)
    ensures var end := After(u.f, Apply(u.f, s, step), later);
            && !end.exited && step.n !in end.failed
            && step.n in end.status && end.status[step.n] == RUNNING
  {
    ReachableInv(u, s);
    StepInv(u, s, step);
    OrphanMade(u, s, step);
    hide Inv, Apply, Enabled, Reachable, ValidSetup, After;
    OrphanForEver(u, Apply(u.f, s, step), later, step.n);
  }

  lemma OrphanMade(u: Setup, s: State, step: Step)
    requires Inv(u, s) && Enabled(u.f, s, step) && !Gentle(step)
    ensures Orphan(Apply(u.f, s, step), step.n)
    ensures var v := ViewOf(Apply(u.f, s, step), step.n); v.status == Some(RUNNING) && !v.failed
  {
    assert NodeOk(u, s, step.n);
    StepViews(u.f, s, step, step.n);
    hide Apply, KwargsOf;
    TouchedView(u, s, step, step.n);
    InView(Apply(u.f, s, step), step.n);
  }

  /** The loop ends only in runs in which nothing raised before its `try`. */
  lemma {:induction false} EndedMeansGentle(u: Setup, s: State, run: seq<Step>)
    requires Inv(u, s) && ValidRun(u.f, s, run) && After(u.f, s, run).exited
    ensures AllGentle(run)
    decreases |run|
  {
    if run != [] {
      var s' := Apply(u.f, s, run[0]);
      StepInv(u, s, run[0]);
      if !Gentle(run[0]) {
        OrphanMade(u, s, run[0]);
        hide Inv, Apply;
        OrphanForEver(u, s', run[1..], run[0].n);
        assert false;
      }
      hide Inv, Apply, Gentle;
      EndedMeansGentle(u, s', run[1..]);
      forall i | 0 <= i < |run| ensures Gentle(run[i]) {
        if i > 0 { assert run[i] == run[1..][i - 1]; }
      }
    }
  }
}
