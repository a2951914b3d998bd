/** What is in the checkpoint at every moment, and why resuming is as good as never having stopped. */
module EngineResume {
  import opened Prelude
  import opened Graphs
  import opened Workflows
  import opened EngineModel
  import opened EngineSafety
  import opened EngineEval
  import opened EngineDeterminism

  /** What is saved of a task: its result, once that is recorded and saved, and what was stored until then. */
  predicate SavedView(u: Setup, v: View, n: Name)
  {
    v.saved == if u.f.hasStore && n !in u.restored && (v.completed || v.skipped)
                  && !(v.future.Some? && v.future.value.Saving?)
               then v.result else Lookup(u.stored, n)
  }

  ghost predicate SavedOk(u: Setup, s: State, n: Name)
  {
    SavedView(u, ViewOf(s, n), n)
  }

  ghost predicate Saved(u: Setup, s: State)
  {
    forall n :: SavedOk(u, s, n)
  }

  lemma SavedInitial(u: Setup)
    ensures Saved(u, Initial(u))
  {
    forall n ensures SavedOk(u, Initial(u), n) {}
  }

  lemma SavedAfter(u: Setup, v: View, step: Step, kwargs: Kwargs, n: Name)
    requires GoodView(v) && Fits(v, step) && SavedView(u, v, n) && n !in u.restored
    ensures SavedView(u, ViewAfter(u.f, v, step, kwargs), n)
  {
  }

  lemma SavedStep(u: Setup, s: State, step: Step)
    requires Inv(u, s) && Saved(u, s) && Enabled(u.f, s, step)
    ensures Saved(u, Apply(u.f, s, step))
  {
    hide Apply, Enabled, Touches, ViewOf, ViewAfter, KwargsOf, GoodView, SavedView;
    forall n ensures SavedOk(u, Apply(u.f, s, step), n) {
      assert NodeOk(u, s, n) && SavedOk(u, s, n);
      StepViews(u.f, s, step, n);
      if Touches(u.f, s, step, n) {
        TouchedView(u, s, step, n);
        SavedAfter(u, ViewOf(s, n), step, KwargsOf(u.f, s.results, n), n);
      }
    }
  }

  lemma {:induction false} SavedRun(u: Setup, s: State, run: seq<Step>)
    requires Inv(u, s) && Saved(u, s) && ValidRun(u.f, s, run)
    ensures Saved(u, After(u.f, s, run)) && Inv(u, After(u.f, s, run))
    decreases |run|
  {
    if run != [] {
      hide Inv, Saved, Apply;
      StepInv(u, s, run[0]);
      SavedStep(u, s, run[0]);
      SavedRun(u, Apply(u.f, s, run[0]), run[1..]);
    }
  }

  lemma ReachableSaved(u: Setup, s: State)
    requires ValidSetup(u) && Reachable(u, s)
    ensures Saved(u, s) && Inv(u, s)
  {
    hide Inv, Saved, ValidSetup;
    var run :| ValidRun(u.f, Initial(u), run) && After(u.f, Initial(u), run) == s;
    InitialInv(u);
    SavedInitial(u);
    SavedRun(u, Initial(u), run);
  }

  /** The results that a checkpoint should hold. */
  function DoneResults(s: State): map<Name, TaskResult>
  {
    map n | n in s.results && n in DoneSet(s) :: s.results[n]
  }

  /** What is left in the store, for every start whose restored results are in it: what was there before, with
      the completed and skipped results of the run over it. An entry that the run has no such result for is
      left alone, that of a task which failed for instance. */
  lemma CheckpointAtExit(u: Setup, s: State)
    requires ValidSetup(u) && Reachable(u, s) && s.exited
    requires forall n :: n in u.restored ==> Lookup(u.stored, n) == Some(u.restored[n])
    ensures s.checkpoint == if u.f.hasStore then u.stored + DoneResults(s) else u.stored
  {
    ReachableSaved(u, s);
    hide Inv, Saved, Reachable, ValidSetup;
    forall n ensures Lookup(s.checkpoint, n)
                  == if u.f.hasStore && n in DoneResults(s) then Some(s.results[n]) else Lookup(u.stored, n) {
      EntryAtExit(u, s, n);
    }
    SameLookups(s.checkpoint, if u.f.hasStore then u.stored + DoneResults(s) else u.stored);
  }

  lemma EntryAtExit(u: Setup, s: State, n: Name)
    requires Inv(u, s) && Saved(u, s) && s.exited
    requires n in u.restored ==> Lookup(u.stored, n) == Some(u.restored[n])
    ensures Lookup(s.checkpoint, n)
         == if u.f.hasStore && n in DoneResults(s) then Some(s.results[n]) else Lookup(u.stored, n)
  {
    assert NodeOk(u, s, n) && SavedOk(u, s, n);
  }

  lemma SameLookups(m1: map<Name, TaskResult>, m2: map<Name, TaskResult>)
    requires forall n :: Lookup(m1, n) == Lookup(m2, n)
    ensures m1 == m2
  {
    forall n ensures (n in m1 <==> n in m2) && (n in m1 ==> m1[n] == m2[n]) {
      assert Lookup(m1, n) == Lookup(m2, n);
    }
  }

  /** A start whose checkpoint holds what is restored from it and nothing else. */
  ghost predicate CleanStart(u: Setup)
  {
    ValidSetup(u) && u.stored == u.restored
  }

  /** Checkpoint agreement: at every moment the checkpoint is part of the completed and skipped results, with
      equal values; when the loop has ended it is all of them, and it is closed under dependencies. */
  lemma CheckpointAgreement(u: Setup, s: State)
    requires CleanStart(u) && Reachable(u, s)
    ensures forall n :: n in s.checkpoint ==> n in DoneResults(s) && s.checkpoint[n] == s.results[n]
    ensures s.exited && u.f.hasStore ==> s.checkpoint == DoneResults(s)
    ensures s.exited && u.f.hasStore && DepClosed(u.f, u.restored.Keys) ==> DepClosed(u.f, s.checkpoint.Keys)
  {
    CleanIsValid(u);
    ReachableSaved(u, s);
    hide Inv, Saved, Reachable, DoneSet;
    forall n ensures (n in s.checkpoint ==> n in DoneResults(s) && s.checkpoint[n] == s.results[n])
                     && (s.exited && u.f.hasStore && n in DoneResults(s) ==> n in s.checkpoint) {
      SavedEntry(u, s, n);
    }
    if s.exited && u.f.hasStore {
      assert s.checkpoint == DoneResults(s);
      if DepClosed(u.f, u.restored.Keys) {
        forall n | n in s.checkpoint ensures Preds(u.f.adj, n) <= s.checkpoint.Keys {
          DoneDepsSaved(u, s, n);
        }
      }
    }
  }

  lemma SavedEntry(u: Setup, s: State, n: Name)
    requires CleanStart(u) && Inv(u, s) && Saved(u, s)
    ensures n in s.checkpoint ==> n in s.results && n in DoneSet(s) && s.checkpoint[n] == s.results[n]
    ensures s.exited && u.f.hasStore && n in DoneSet(s) ==> n in s.checkpoint
  {
    assert NodeOk(u, s, n) && SavedOk(u, s, n);
  }

  lemma DoneDepsSaved(u: Setup, s: State, n: Name)
    requires CleanStart(u) && Inv(u, s) && Saved(u, s) && s.exited && u.f.hasStore
    requires DepClosed(u.f, u.restored.Keys) && n in DoneSet(s)
    ensures Preds(u.f.adj, n) <= s.checkpoint.Keys
  {
    assert NodeOk(u, s, n);
    forall d | d in Preds(u.f.adj, n) ensures d in s.checkpoint {
      assert NodeOk(u, s, d);
      SavedEntry(u, s, d);
    }
  }

  // ---------------------------------------------------------------------------
  // Resume
  // ---------------------------------------------------------------------------

  /** Two definitions of the workflow treat the task alike: on the same results it reaches the same
      verdict and gets the same arguments, and on the same arguments it comes to the same outcome. */
  ghost predicate TreatAlike(f1: Flow, f2: Flow, n: Name)
  {
    && n in f1.tasks && n in f2.tasks
    && (forall m :: VerdictOf(f1, m, n) == VerdictOf(f2, m, n))
    && (forall m :: KwargsOf(f1, m, n) == KwargsOf(f2, m, n))
    && (forall kwargs :: OutcomeOf(f1, n, kwargs) == OutcomeOf(f2, n, kwargs))
  }

  lemma AlikeEval(f1: Flow, f2: Flow, m: map<Name, TaskResult>, n: Name)
    requires f1.adj == f2.adj && TreatAlike(f1, f2, n)
    ensures EvalOne(f1, m, n) == EvalOne(f2, m, n)
  {
    hide VerdictOf, KwargsOf, OutcomeOf;
    assert VerdictOf(f1, m, n) == VerdictOf(f2, m, n);
    assert KwargsOf(f1, m, n) == KwargsOf(f2, m, n);
    assert OutcomeOf(f1, n, KwargsOf(f1, m, n)) == OutcomeOf(f2, n, KwargsOf(f1, m, n));
    assert Blocked(f1, m, n) == Blocked(f2, m, n);
  }

  lemma {:induction false} AncestorInClosed(f: Flow, names: set<Name>, p: seq<Name>)
    requires DepClosed(f, names) && IsPath(f.adj, p) && p[|p| - 1] in names
    ensures p[0] in names
    decreases |p|
  {
    if |p| >= 2 {
      PathDropLast(f.adj, p);
      assert p[|p| - 2] in Preds(f.adj, p[|p| - 1]);
      AncestorInClosed(f, names, p[..|p| - 1]);
    }
  }

  lemma AboveInClosed(f: Flow, names: set<Name>, n: Name)
    requires DepClosed(f, names) && n in names
    ensures forall a :: StrictlyBelow(f.adj, a, n) ==> a in names
  {
    hide DepClosed;
    forall a | StrictlyBelow(f.adj, a, n) ensures a in names {
      var p :| IsPath(f.adj, p) && |p| >= 2 && p[0] == a && p[|p| - 1] == n;
      AncestorInClosed(f, names, p);
    }
  }

  /** Definitions that treat a dependency-closed set of tasks alike evaluate it alike. */
  lemma {:induction false} AlikeEvaluate(f1: Flow, f2: Flow, ev1: map<Name, TaskResult>, ev2: map<Name, TaskResult>,
                                         names: set<Name>, order: seq<Name>, k: nat)
    requires ValidFlow(f1) && f1.adj == f2.adj
    requires Orders(f1, order) && k <= |order| && DepClosed(f1, names)
    requires forall n :: n in names ==> TreatAlike(f1, f2, n)
    requires forall n :: n in names ==> LocallyRight(f1, ev1, n) && LocallyRight(f2, ev2, n)
    ensures forall n :: n in order[..k] && n in names ==> Lookup(ev1, n) == Lookup(ev2, n)
  {
    if k > 0 {
      hide *;
      AlikeEvaluate(f1, f2, ev1, ev2, names, order, k - 1);
      NextOfOrder(f1, order, k - 1);
      if order[k - 1] in names {
        assert TreatAlike(f1, f2, order[k - 1]);
        assert LocallyRight(f1, ev1, order[k - 1]) && LocallyRight(f2, ev2, order[k - 1]);
        AlikeInOrder(f1, f2, ev1, ev2, names, order, k - 1);
      }
    }
  }

  lemma AlikeInOrder(f1: Flow, f2: Flow, ev1: map<Name, TaskResult>, ev2: map<Name, TaskResult>,
                     names: set<Name>, order: seq<Name>, k: nat)
    requires k < |order| && ValidFlow(f1) && f1.adj == f2.adj
    requires LocallyRight(f1, ev1, order[k]) && LocallyRight(f2, ev2, order[k])
    requires Orders(f1, order) && DepClosed(f1, names) && order[k] in names && TreatAlike(f1, f2, order[k])
    requires forall n :: n in order[..k] && n in names ==> Lookup(ev1, n) == Lookup(ev2, n)
    ensures Lookup(ev1, order[k]) == Lookup(ev2, order[k])
  {
    var n := order[k];
    assert n in order && IndexOf(order, n) == k;
    hide TreatAlike, StrictlyBelow, Lookup, LocallyRight, DepClosed;
    AboveInClosed(f1, names, n);
    forall a | StrictlyBelow(f1.adj, a, n) ensures Lookup(ev1, a) == Lookup(ev2, a) {
      AncestorBefore(f1, order, a, n);
      IndexInPrefix(f1, order, k, a);
    }
    AlikeNext(f1, f2, ev1, ev2, n);
  }

  lemma AlikeNext(f1: Flow, f2: Flow, ev1: map<Name, TaskResult>, ev2: map<Name, TaskResult>, n: Name)
    requires f1.adj == f2.adj && TreatAlike(f1, f2, n) && LocallyRight(f1, ev1, n) && LocallyRight(f2, ev2, n)
    requires forall a :: StrictlyBelow(f1.adj, a, n) ==> Lookup(ev1, a) == Lookup(ev2, a)
    ensures Lookup(ev1, n) == Lookup(ev2, n)
  {
    assert n in f1.tasks && n in f2.tasks;
    assert Above(f1, ev2, n) == Above(f2, ev2, n);
    hide TreatAlike, EvalOne, StrictlyBelow, Lookup, Above;
    SameAbove(f1, ev1, ev2, n);
    AlikeEval(f1, f2, Above(f1, ev1, n), n);
  }

  /** The start of a run resumed from what is stored; with nothing stored, of a first run. */
  function ResumeSetup(f: Flow, status: map<Name, TaskStatus>, stored: map<Name, TaskResult>): Setup
  {
    Setup(f, status, Restorable(stored), stored)
  }

  /** A checkpoint from which the workflow can be resumed: it holds what the tasks are evaluated to, for any of
      them, and every task outside it is PENDING. What runs leave behind is such (LeftBehindIsResumable). */
  ghost predicate Resumable(f: Flow, status: map<Name, TaskStatus>, stored: map<Name, TaskResult>)
  {
    && status.Keys == f.tasks.Keys
    && (forall n :: n in status && n !in stored ==> status[n] == PENDING)
    && Restorable(stored) == stored
    && forall order :: Orders(f, order) ==> HoldsEvaluated(f, order, stored)
  }

  ghost predicate HoldsEvaluated(f: Flow, order: seq<Name>, stored: map<Name, TaskResult>)
    requires Orders(f, order)
  {
    forall n :: n in stored ==> n in f.tasks && Lookup(Evaluate(f, order), n) == Some(stored[n])
  }

  /** The states a run of tasks as defined can leave behind, whether it ended or was cut off: a first run,
      with nothing stored, or one resumed from a checkpoint. */
  ghost predicate LeftBehind(f: Flow, status: map<Name, TaskStatus>, stored: map<Name, TaskResult>, s: State)
  {
    && Resumable(f, status, stored) && InputsFit(f, stored.Keys)
    && DetReachable(ResumeSetup(f, status, stored), s)
  }

  /** The states a first run can leave behind are those that `execute` can reach with an empty store. */
  lemma FirstRunLeaves(f: Flow, status: map<Name, TaskStatus>, s: State)
    requires AllPending(f, status) && InputsOrdered(f)
    ensures LeftBehind(f, status, map[], s) <==> DetReachable(Execution(f, status, map[]), s)
  {
    OrderedFits(f, {});
    hide InputsOrdered, InputsFit, DetReachable;
    var none: map<Name, TaskResult> := map[];
    assert none.Keys == {} && Restorable(none) == none;
    assert Resumable(f, status, none);
  }

  /** Two definitions of one workflow. */
  ghost predicate SameShape(f1: Flow, f2: Flow)
  {
    ValidFlow(f1) && ValidFlow(f2) && f1.adj == f2.adj && f1.hasStore && f2.hasStore
  }

  lemma AgreeingResume(u: Setup, ev: map<Name, TaskResult>)
    requires ValidFlow(u.f) && u.status.Keys == u.f.tasks.Keys && u.restored == u.stored == Restorable(u.stored)
    requires forall n :: n in u.stored ==> n in u.f.tasks && n in ev && ev[n] == u.stored[n]
    requires forall n :: n in u.status && n !in u.stored ==> u.status[n] == PENDING
    ensures AgreeingStart(u, ev) && CleanStart(u)
  {
    hide ValidFlow;
    forall n | n in u.restored ensures u.restored[n].status == SUCCESS || u.restored[n].status == SKIPPED {
      assert n in Restorable(u.stored);
    }
  }

  /** What can be resumed starts in agreement with the evaluation. */
  lemma ResumableAgrees(f: Flow, status: map<Name, TaskStatus>, stored: map<Name, TaskResult>, order: seq<Name>)
    requires ValidFlow(f) && Orders(f, order) && Resumable(f, status, stored)
    ensures AgreeingStart(ResumeSetup(f, status, stored), Evaluate(f, order))
        && CleanStart(ResumeSetup(f, status, stored))
  {
    var ev := Evaluate(f, order);
    assert HoldsEvaluated(f, order, stored);
    hide ValidFlow, Evaluate;
    forall n | n in stored ensures n in f.tasks && n in ev && ev[n] == stored[n] {
      assert Lookup(ev, n) == Some(stored[n]);
      LookupSome(ev, n);
    }
    AgreeingResume(ResumeSetup(f, status, stored), ev);
  }

  lemma LookupSome(m: map<Name, TaskResult>, n: Name)
    ensures Lookup(m, n).Some? ==> n in m && m[n] == Lookup(m, n).value
  {
  }

  lemma LeftBehindSound(f: Flow, status: map<Name, TaskStatus>, stored: map<Name, TaskResult>, s: State,
                        order: seq<Name>)
    requires ValidFlow(f) && Orders(f, order) && LeftBehind(f, status, stored, s)
    ensures var u := ResumeSetup(f, status, stored);
            CleanStart(u) && Stale(u) == {} && Reachable(u, s) && Inv(u, s) && Saved(u, s)
              && Det(u, Evaluate(f, order), s)
  {
    var u, ev := ResumeSetup(f, status, stored), Evaluate(f, order);
    assert u.f == f && Resumable(f, status, stored) && InputsFit(f, stored.Keys) && DetReachable(u, s);
    assert u.restored.Keys == stored.Keys;
    hide *;
    ResumableAgrees(f, status, stored, order);
    EvaluateFitting(f, order, stored.Keys);
    DetReachableSound(u, ev, s);
    AgreeingNotStale(u, ev);
    CleanIsValid(u);
    ReachableSaved(u, s);
  }

  /** What a checkpoint left behind holds is what the definition that left it evaluates to. */
  lemma CheckpointIsEvaluated(f: Flow, status: map<Name, TaskStatus>, stored: map<Name, TaskResult>, s: State,
                              order: seq<Name>)
    requires ValidFlow(f) && Orders(f, order) && LeftBehind(f, status, stored, s)
    ensures Restorable(s.checkpoint) == s.checkpoint
    ensures forall n :: n in s.checkpoint ==> n in f.tasks && Lookup(Evaluate(f, order), n) == Some(s.checkpoint[n])
  {
    var u, ev := ResumeSetup(f, status, stored), Evaluate(f, order);
    assert u.f == f;
    hide *;
    LeftBehindSound(f, status, stored, s, order);
    forall n | n in s.checkpoint
      ensures s.checkpoint[n].status == SUCCESS || s.checkpoint[n].status == SKIPPED
      ensures n in f.tasks && Lookup(ev, n) == Some(s.checkpoint[n])
    {
      SavedIsEvaluated(u, ev, s, n);
    }
    AllRestorable(s.checkpoint);
  }

  lemma AllRestorable(cp: map<Name, TaskResult>)
    requires forall n :: n in cp ==> cp[n].status == SUCCESS || cp[n].status == SKIPPED
    ensures Restorable(cp) == cp
  {
  }

  lemma SavedIsEvaluated(u: Setup, ev: map<Name, TaskResult>, s: State, n: Name)
    requires CleanStart(u) && Inv(u, s) && Saved(u, s) && Det(u, ev, s) && n in s.checkpoint
    ensures s.checkpoint[n].status == SUCCESS || s.checkpoint[n].status == SKIPPED
    ensures n in u.f.tasks && Lookup(ev, n) == Some(s.checkpoint[n])
  {
    hide Inv, Saved, Det, DoneSet;
    SavedEntry(u, s, n);
    RecordedIsEvaluated(u, ev, s, n);
    DoneStatus(u, s, n);
  }

  lemma DoneStatus(u: Setup, s: State, n: Name)
    requires Inv(u, s) && n in DoneSet(s)
    ensures n in s.results && (s.results[n].status == SUCCESS || s.results[n].status == SKIPPED)
  {
    assert NodeOk(u, s, n);
    DoneHasResult(u, s, n);
  }

  /** What two definitions agree on: they treat the checkpointed tasks, and all these depend on, alike, and none of
      those draws an argument from a task independent of it. */
  ghost predicate AgreeOn(f1: Flow, f2: Flow, checkpointed: set<Name>)
  {
    exists settled :: Settles(f1, f2, checkpointed, settled)
  }

  ghost predicate Settles(f1: Flow, f2: Flow, checkpointed: set<Name>, settled: set<Name>)
  {
    && checkpointed <= settled && DepClosed(f1, settled)
    && forall n :: n in settled ==> TreatAlike(f1, f2, n) && DrawsInOrder(f1, n) && DrawsInOrder(f2, n)
  }

  ghost predicate DrawsInOrder(f: Flow, n: Name)
    requires n in f.tasks
  {
    forall p :: p in f.tasks[n].inputMap ==> Comparable(f, f.tasks[n].inputMap[p], n)
  }

  lemma SettledAgree(f1: Flow, f2: Flow, names: set<Name>, order: seq<Name>)
    requires SameShape(f1, f2) && Orders(f1, order) && Orders(f2, order) && AgreeOn(f1, f2, names)
    ensures forall n :: n in names ==>
              n in f2.tasks && Lookup(Evaluate(f1, order), n) == Lookup(Evaluate(f2, order), n)
  {
    var ev1, ev2 := Evaluate(f1, order), Evaluate(f2, order);
    var settled :| Settles(f1, f2, names, settled);
    assert order[..|order|] == order;
    hide Evaluate, Comparable, LocallyRight, VerdictOf, KwargsOf, OutcomeOf, ValidFlow;
    forall n | n in settled
      ensures LocallyRight(f1, ev1, n) && LocallyRight(f2, ev2, n) && TreatAlike(f1, f2, n)
      ensures n in order && n in f2.tasks
    {
      assert TreatAlike(f1, f2, n) && DrawsInOrder(f1, n) && DrawsInOrder(f2, n);
      OrderHas(f1, order, n);
      EvaluatedRight(f1, order, n);
      EvaluatedRight(f2, order, n);
    }
    hide TreatAlike;
    AlikeEvaluate(f1, f2, ev1, ev2, settled, order, |order|);
  }

  lemma OrderHas(f: Flow, order: seq<Name>, n: Name)
    requires ValidFlow(f) && Orders(f, order) && n in f.tasks
    ensures n in order
  {
    assert n in Elems(order);
  }

  lemma SameOrders(f1: Flow, f2: Flow, order: seq<Name>)
    requires (SameShape(f1, f2) || SameShape(f2, f1)) && Orders(f1, order)
    ensures Orders(f2, order)
  {
  }

  /** Every checkpoint that a run leaves behind, at its end or cut off, a first run or a resumed one, can be
      resumed with any definition that agrees on it, once every task outside it is PENDING. What that run
      leaves behind can be resumed in turn, and so on. */
  lemma LeftBehindIsResumable(f1: Flow, f2: Flow, status1: map<Name, TaskStatus>, stored1: map<Name, TaskResult>,
                              s1: State,
                              status2: map<Name, TaskStatus>)
    requires SameShape(f1, f2) && LeftBehind(f1, status1, stored1, s1) && AgreeOn(f1, f2, s1.checkpoint.Keys)
    requires status2.Keys == f2.tasks.Keys && forall n :: n in status2 && n !in s1.checkpoint ==> status2[n] == PENDING
    ensures Resumable(f2, status2, s1.checkpoint)
    ensures InputsFit(f2, s1.checkpoint.Keys) ==>
              forall s2 :: DetReachable(ResumeSetup(f2, status2, s1.checkpoint), s2) ==>
                  LeftBehind(f2, status2, s1.checkpoint, s2)
  {
    assert ValidFlow(f1);
    var some := SomeOrder(f1);
    hide LeftBehind, AgreeOn, SameShape, ValidFlow, Orders, HoldsEvaluated, Evaluate, DetReachable, InputsFit,
      Restorable;
    CheckpointIsEvaluated(f1, status1, stored1, s1, some);
    forall order | Orders(f2, order) ensures HoldsEvaluated(f2, order, s1.checkpoint) {
      SameOrders(f2, f1, order);
      CheckpointCarriesOver(f1, f2, status1, stored1, s1, order);
    }
    assert Resumable(f2, status2, s1.checkpoint);
    hide Resumable;
    forall s2 | InputsFit(f2, s1.checkpoint.Keys)
        && DetReachable(ResumeSetup(f2, status2, s1.checkpoint), s2)
      ensures LeftBehind(f2, status2, s1.checkpoint, s2)
    {
      LeftBehindByDefinition(f2, status2, s1.checkpoint, s2);
    }
  }

  lemma LeftBehindByDefinition(f: Flow, status: map<Name, TaskStatus>, stored: map<Name, TaskResult>, s: State)
    requires Resumable(f, status, stored) && InputsFit(f, stored.Keys)
    requires DetReachable(ResumeSetup(f, status, stored), s)
    ensures LeftBehind(f, status, stored, s)
  {
  }

  lemma SomeOrder(f: Flow) returns (order: seq<Name>)
    requires ValidFlow(f)
    ensures Orders(f, order) && Elems(order) == f.tasks.Keys
  {
    order := ExtendOrder(f.adj, []);
    forall n | n in order ensures n in f.tasks { assert n in Elems(order); }
  }

  lemma CheckpointCarriesOver(f1: Flow, f2: Flow, status1: map<Name, TaskStatus>, stored1: map<Name, TaskResult>,
                              s1: State,
                              order: seq<Name>)
    requires SameShape(f1, f2) && LeftBehind(f1, status1, stored1, s1) && Orders(f1, order) && Orders(f2, order)
    requires AgreeOn(f1, f2, s1.checkpoint.Keys)
    ensures HoldsEvaluated(f2, order, s1.checkpoint)
  {
    assert ValidFlow(f1);
    hide LeftBehind, AgreeOn, Evaluate, ValidFlow, Lookup, SameShape;
    CheckpointIsEvaluated(f1, status1, stored1, s1, order);
    SettledAgree(f1, f2, s1.checkpoint.Keys, order);
  }

  /** Resume equivalence. A run of tasks as defined, a first one or itself resumed, ends or is cut off anywhere;
      the workflow is then resumed from its checkpoint, with a definition that agrees on the checkpointed
      tasks. The finished resume has the results of one uninterrupted run of that definition, no checkpointed
      task's function is called again, and the checkpoint is cleared when the resume succeeds and otherwise
      holds every completed and skipped result. */
  lemma ResumeEquivalence(f1: Flow, f2: Flow, status1: map<Name, TaskStatus>, stored1: map<Name, TaskResult>, s1: State,
                          status2: map<Name, TaskStatus>, order: seq<Name>, s2: State)
    requires SameShape(f1, f2) && LeftBehind(f1, status1, stored1, s1) && AgreeOn(f1, f2, s1.checkpoint.Keys)
    requires status2.Keys == f2.tasks.Keys && forall n :: n in status2 && n !in s1.checkpoint ==> status2[n] == PENDING
    requires InputsFit(f2, s1.checkpoint.Keys) && Orders(f2, order)
    requires DetReachable(ResumeSetup(f2, status2, s1.checkpoint), s2) && s2.exited
    ensures s2.results == Evaluate(f2, order)
    ensures forall n :: n in s1.checkpoint ==> n !in s2.calls
    ensures StoredAfterResume(s2) == if Conclude(s2) == WORKFLOW_SUCCESS then map[] else DoneResults(s2)
  {
    assert ValidFlow(f2) && f2.hasStore;
    hide *;
    LeftBehindIsResumable(f1, f2, status1, stored1, s1, status2);
    ResumedRun(f2, status2, s1.checkpoint, order, s2);
    StoredWhenDone(s2);
  }

  /** A finished run from anything that can be resumed, when its inputs fit, ends with the evaluation's results. */
  lemma ResumedResults(f: Flow, status: map<Name, TaskStatus>, stored: map<Name, TaskResult>, order: seq<Name>,
                       s: State)
    requires ValidFlow(f) && Orders(f, order) && Resumable(f, status, stored) && InputsFit(f, stored.Keys)
    requires DetReachable(ResumeSetup(f, status, stored), s) && s.exited
    ensures s.results == Evaluate(f, order)
  {
    var u, ev := ResumeSetup(f, status, stored), Evaluate(f, order);
    assert u.f == f && u.restored == stored;
    hide *;
    ResumableAgrees(f, status, stored, order);
    EvaluateFitting(f, order, stored.Keys);
    FinishedRunIsEvaluation(u, ev, order, s);
  }

  /** Nor does it call a checkpointed task, and its checkpoint holds exactly the completed and skipped results. */
  lemma ResumedRun(f: Flow, status: map<Name, TaskStatus>, stored: map<Name, TaskResult>, order: seq<Name>, s: State)
    requires ValidFlow(f) && f.hasStore && Orders(f, order) && Resumable(f, status, stored)
    requires InputsFit(f, stored.Keys) && DetReachable(ResumeSetup(f, status, stored), s) && s.exited
    ensures Inv(ResumeSetup(f, status, stored), s) && s.results == Evaluate(f, order) && s.checkpoint == DoneResults(s)
    ensures forall n :: n in stored ==> n !in s.calls
  {
    var u, ev := ResumeSetup(f, status, stored), Evaluate(f, order);
    assert u.f == f && u.restored == stored;
    hide *;
    ResumedResults(f, status, stored, order, s);
    ResumableAgrees(f, status, stored, order);
    EvaluateFitting(f, order, stored.Keys);
    DetReachableSound(u, ev, s);
    CleanIsValid(u);
    RunSafety(u, s);
    CheckpointAgreement(u, s);
  }

  lemma StoredWhenDone(s: State)
    ensures s.checkpoint == DoneResults(s) ==>
              StoredAfterResume(s) == if Conclude(s) == WORKFLOW_SUCCESS then map[] else DoneResults(s)
  {
  }

  lemma CleanIsValid(u: Setup)
    requires CleanStart(u)
    ensures ValidSetup(u)
  {
  }

  function ResetFailed(status: map<Name, TaskStatus>): map<Name, TaskStatus>
  {
    map n | n in status :: if status[n] == FAILED then PENDING else status[n]
  }

  /** After a run that ended, a first one or a resumed one, putting the failed tasks back to PENDING is all a
      resume needs: every task without a checkpointed result is PENDING then; and if the run began with a
      checkpoint closed under dependencies, such as none, it leaves one, so that arguments may come from
      any task not independent of the one drawing on it. */
  lemma ResetSuffices(f: Flow, status: map<Name, TaskStatus>, stored: map<Name, TaskResult>, s: State)
    requires ValidFlow(f) && f.hasStore && LeftBehind(f, status, stored, s) && s.exited
    ensures Resumable(f, ResetFailed(s.status), s.checkpoint)
    ensures DepClosed(f, stored.Keys) ==> DepClosed(f, s.checkpoint.Keys) && InputsFit(f, s.checkpoint.Keys)
  {
    var u := ResumeSetup(f, status, stored);
    assert u.f == f && u.restored == stored && InputsFit(f, stored.Keys);
    hide *;
    var some := SomeOrder(f);
    LeftBehindSound(f, status, stored, s, some);
    CheckpointAgreement(u, s);
    StatusKeys(u, s);
    ResetKeys(s.status);
    forall n | n in s.status && n !in s.checkpoint ensures ResetFailed(s.status)[n] == PENDING {
      UnsavedStatus(u, s, n);
    }
    CheckpointIsEvaluated(f, status, stored, s, some);
    assert Resumable(f, ResetFailed(s.status), s.checkpoint) by {
      LeavesResumable(f, status, stored, s, ResetFailed(s.status));
    }
    if DepClosed(f, stored.Keys) {
      RestoredIsKept(u, s);
      StillFits(f, stored.Keys, s.checkpoint.Keys);
    }
  }

  /** Every checkpoint left behind holds what its own definition evaluates to. */
  lemma LeavesResumable(f: Flow, status: map<Name, TaskStatus>, stored: map<Name, TaskResult>, s: State,
                        status2: map<Name, TaskStatus>)
    requires ValidFlow(f) && LeftBehind(f, status, stored, s) && Restorable(s.checkpoint) == s.checkpoint
    requires status2.Keys == f.tasks.Keys && forall n :: n in status2 && n !in s.checkpoint ==> status2[n] == PENDING
    ensures Resumable(f, status2, s.checkpoint)
  {
    hide LeftBehind, ValidFlow, Evaluate, Restorable, IsTopologicalOrder, Lookup;
    forall order | Orders(f, order) ensures HoldsEvaluated(f, order, s.checkpoint) {
      CheckpointIsEvaluated(f, status, stored, s, order);
    }
  }

  lemma RestoredIsKept(u: Setup, s: State)
    requires CleanStart(u) && Inv(u, s) && Saved(u, s)
    ensures u.restored.Keys <= s.checkpoint.Keys
  {
    forall n | n in u.restored ensures n in s.checkpoint {
      assert NodeOk(u, s, n) && SavedOk(u, s, n);
    }
  }

  lemma ResetKeys(status: map<Name, TaskStatus>)
    ensures ResetFailed(status).Keys == status.Keys
    ensures forall n :: n in status && (status[n] == PENDING || status[n] == FAILED) ==>
        ResetFailed(status)[n] == PENDING
  {
  }

  lemma StatusKeys(u: Setup, s: State)
    requires Inv(u, s)
    ensures s.status.Keys == u.f.tasks.Keys
  {
  }

  lemma UnsavedStatus(u: Setup, s: State, n: Name)
    requires CleanStart(u) && Inv(u, s) && Saved(u, s) && s.exited && u.f.hasStore && Stale(u) == {}
    requires n in u.f.tasks && n in s.status && n !in s.checkpoint
    ensures s.status[n] == PENDING || s.status[n] == FAILED
  {
    assert NodeOk(u, s, n) && SavedOk(u, s, n);
  }
}
