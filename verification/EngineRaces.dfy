/** What a workflow's wiring decides. Executions are schedule independent, whatever the tasks do, exactly when no
    argument comes from a task independent of the one that draws on it; and resuming is as good as never having
    stopped exactly when every argument of a task that is still to be run is settled. */
module EngineRaces {
  import opened Prelude
  import opened Graphs
  import opened Retry
  import opened Workflows
  import opened EngineModel
  import opened EngineSafety
  import opened EngineProgress
  import opened EngineEval
  import opened EngineDeterminism
  import opened EngineEnding
  import opened EngineMoves
  import opened EngineResume

  /** The same tasks, dependencies and argument sources; functions, conditions and retries may differ. */
  ghost predicate SameWiring(f: Flow, g: Flow)
  {
    && f.adj == g.adj && f.tasks.Keys == g.tasks.Keys && f.hasStore == g.hasStore
    && forall n :: n in f.tasks ==>
         f.tasks[n].dependsOn == g.tasks[n].dependsOn && f.tasks[n].inputMap == g.tasks[n].inputMap
  }

  lemma SameWiringCarries(f: Flow, g: Flow)
    requires SameWiring(f, g)
    ensures ValidFlow(f) ==> ValidFlow(g)
    ensures InputsOrdered(f) ==> InputsOrdered(g)
    ensures forall restored :: InputsFit(f, restored) ==> InputsFit(g, restored)
  {
    hide Acyclic, StrictlyBelow, FreelyBelow;
    forall n, p | InputsOrdered(f) && n in g.tasks && p in g.tasks[n].inputMap
      ensures Comparable(g, g.tasks[n].inputMap[p], n)
    {
      assert Comparable(f, f.tasks[n].inputMap[p], n);
    }
    forall restored, n, p | InputsFit(f, restored) && n in g.tasks && n !in restored && p in g.tasks[n].inputMap
      ensures Settled(g, restored, g.tasks[n].inputMap[p], n)
    {
      assert Settled(f, restored, f.tasks[n].inputMap[p], n);
    }
  }

  /** Any two finished executions of the workflow have the same results. */
  ghost predicate SchedulesAgree(f: Flow)
  {
    forall status, stored, s1, s2 ::
      FinishedExecution(f, status, stored, s1) && FinishedExecution(f, status, stored, s2) ==>
      s1.results == s2.results
  }

  ghost predicate FinishedExecution(f: Flow, status: map<Name, TaskStatus>, stored: map<Name, TaskResult>, s: State)
  {
    AllPending(f, status) && DetReachable(Execution(f, status, stored), s) && s.exited
  }

  lemma OrderedMeansAgree(f: Flow)
    requires ValidFlow(f) && InputsOrdered(f)
    ensures SchedulesAgree(f)
  {
    var order := SomeOrder(f);
    hide ValidFlow, InputsOrdered, Evaluate, DetReachable, Orders;
    forall status, stored, s1, s2 | FinishedExecution(f, status, stored, s1) && FinishedExecution(f, status, stored, s2)
      ensures s1.results == s2.results
    {
      ScheduleIndependence(f, status, stored, order, s1);
      ScheduleIndependence(f, status, stored, order, s2);
    }
  }

  // ---------------------------------------------------------------------------
  // Tasks that tell what they were given
  // ---------------------------------------------------------------------------

  /** The task returns v when it is given the argument p, and None otherwise. */
  function TellsIfGiven(p: Name, v: Value): (Kwargs, nat) -> Outcome<Option<Value>, Error>
  {
    (kwargs: Kwargs, i: nat) => Returned(if p in kwargs then Some(v) else None)
  }

  function ReturnsNone(): (Kwargs, nat) -> Outcome<Option<Value>, Error>
  {
    (kwargs: Kwargs, i: nat) => Returned(None)
  }

  /** The workflow with its wiring kept and its tasks made unconditional and successful: n tells whether it is
      given p, the others return None. */
  function Racing(f: Flow, n: Name, p: Name, v: Value): Flow
  {
    f.(tasks := map t | t in f.tasks ::
      f.tasks[t].(func := if t == n then TellsIfGiven(p, v) else ReturnsNone(), condition := None, retryCount := 1))
  }

  ghost predicate Unconditional(f: Flow)
  {
    forall t :: t in f.tasks ==> f.tasks[t].condition == None
  }

  /** What the tasks of a race come to. */
  ghost predicate RaceOutcomes(f: Flow, n: Name, p: Name, v: Value)
  {
    forall t, kwargs {:trigger OutcomeOf(f, t, kwargs)} :: t in f.tasks ==>
      OutcomeOf(f, t, kwargs) == Some(if t == n && p in kwargs then Some(v) else None)
  }

  lemma RacingOutcomes(f: Flow, n: Name, p: Name, v: Value)
    ensures SameWiring(f, Racing(f, n, p, v)) && Unconditional(Racing(f, n, p, v))
    ensures RaceOutcomes(Racing(f, n, p, v), n, p, v)
  {
    var g := Racing(f, n, p, v);
    forall t, kwargs | t in g.tasks
      ensures OutcomeOf(g, t, kwargs) == Some(if t == n && p in kwargs then Some(v) else None)
    {
      assert g.tasks[t].retryCount == 1;
      var func := (i: nat) => g.tasks[t].func(kwargs, i);
      assert func(0) == Returned(if t == n && p in kwargs then Some(v) else None);
    }
  }

  lemma UnconditionalNeverRaises(u: Setup)
    requires Unconditional(u.f)
    ensures NeverRaises(u)
  {
    hide DetReachable, OutcomeOf;
    forall s, step | DetReachable(u, s) && Enabled(u.f, s, step) && Follows(u.f, s, step) ensures Gentle(step) {
    }
  }

  lemma DrawsFrom(f: Flow, results: map<Name, TaskResult>, n: Name, p: Name)
    requires n in f.tasks && p in f.tasks[n].inputMap
    ensures p in KwargsOf(f, results, n) <==> f.tasks[n].inputMap[p] in results
  {
  }

  lemma StartedViewIn(s: State, n: Name)
    requires ViewOf(s, n) == STARTED
    ensures n in s.futures && s.futures[n] == Created && n !in s.results
  {
  }

  /** A recorded result is still there when the run has been taken to its end. */
  lemma EndKeeping(u: Setup, s: State, n: Name, r: TaskResult) returns (end: State)
    requires ValidSetup(u) && NeverRaises(u) && DetReachable(u, s) && ViewOf(s, n).result == Some(r)
    ensures DetReachable(u, end) && end.exited && Lookup(end.results, n) == Some(r)
  {
    var order := SomeOrder(u.f);
    ResultInView(s, n);
    hide ValidSetup, ViewOf, DetReachable, NeverRaises;
    StaysHealthy(u, s);
    var rest := RunToEnd(u, s, order);
    end := After(u.f, s, rest);
  }

  /** A started task that draws on another is run at once: it is given the argument exactly when the other has a
      result, and the final results tell. */
  lemma RunAtOnce(u: Setup, s: State, n: Name, p: Name, v: Value) returns (end: State)
    requires ValidSetup(u) && Unconditional(u.f) && RaceOutcomes(u.f, n, p, v)
    requires n in u.f.tasks && p in u.f.tasks[n].inputMap
    requires DetReachable(u, s) && n in s.futures && s.futures[n] == Created
    ensures DetReachable(u, end) && end.exited
    ensures Lookup(end.results, n)
         == Some(TaskResult(SUCCESS, if u.f.tasks[n].inputMap[p] in s.results then Some(v) else None))
  {
    UnconditionalNeverRaises(u);
    DrawsFrom(u.f, s.results, n, p);
    var output := OutcomeOf(u.f, n, KwargsOf(u.f, s.results, n));
    hide ValidSetup, ViewOf, DetReachable, NeverRaises, Reachable, OutcomeOf, KwargsOf;
    var called := RunCreated(u, s, n, output);
    end := EndKeeping(u, called, n, ResultOf(output));
  }

  /** Two tasks started side by side, the one drawing an argument from the other, each outcome of the race is
      possible: the function is called without the argument or with it, and the final results differ. */
  lemma RaceEnds(u: Setup, s: State, n: Name, p: Name, v: Value, source: Name) returns (s1: State, s2: State)
    requires ValidSetup(u) && Unconditional(u.f) && RaceOutcomes(u.f, n, p, v)
    requires n in u.f.tasks && source in u.f.tasks && n != source
    requires p in u.f.tasks[n].inputMap && u.f.tasks[n].inputMap[p] == source
    requires DetReachable(u, s) && ViewOf(s, n) == ViewOf(s, source) == STARTED
    ensures DetReachable(u, s1) && s1.exited && Lookup(s1.results, n) == Some(TaskResult(SUCCESS, None))
    ensures DetReachable(u, s2) && s2.exited && Lookup(s2.results, n) == Some(TaskResult(SUCCESS, Some(v)))
  {
    StartedViewIn(s, n);
    StartedViewIn(s, source);
    assert OutcomeOf(u.f, source, KwargsOf(u.f, s.results, source)) == Some(None);
    hide ValidSetup, ViewOf, DetReachable, Reachable, OutcomeOf, KwargsOf, RaceOutcomes;
    s1 := RunAtOnce(u, s, n, p, v);
    var with := RunCreated(u, s, source, Some(None));
    FutureInView(with, n);
    FutureInView(s, n);
    ResultInView(with, source);
    s2 := RunAtOnce(u, with, n, p, v);
  }

  // ---------------------------------------------------------------------------
  // Getting two independent tasks to start side by side
  // ---------------------------------------------------------------------------

  /** A start from which all that is not restored is still to be run. */
  ghost predicate FreshStart(u: Setup)
  {
    && ValidFlow(u.f) && u.status.Keys == u.f.tasks.Keys && u.stored == u.restored && u.restored.Keys <= u.f.tasks.Keys
    && (forall t :: t in u.restored ==> u.restored[t].status == SUCCESS)
    && (forall t :: t in u.status && t !in u.restored ==> u.status[t] == PENDING)
  }

  predicate QuietView(v: View, isDone: bool)
  {
    if isDone then v.completed else v == IDLE || v == STARTED
  }

  ghost predicate QuietViews(u: Setup, s: State, done: set<Name>)
  {
    forall t :: t in u.f.tasks ==> QuietView(ViewOf(s, t), t in done)
  }

  /** The loop is about to dispatch, the given tasks are completed, and no other has got beyond its creation. */
  ghost predicate Quiet(u: Setup, s: State, done: set<Name>)
  {
    DetReachable(u, s) && s.awake && !s.exited && QuietViews(u, s, done)
  }

  lemma StartsQuiet(u: Setup)
    requires FreshStart(u)
    ensures Quiet(u, Initial(u), u.restored.Keys)
  {
    DetReachableStart(u);
    hide DetReachable, ValidFlow;
    forall t | t in u.f.tasks ensures QuietView(ViewOf(Initial(u), t), t in u.restored.Keys) {
    }
  }

  lemma DoneInQuiet(u: Setup, s: State, done: set<Name>)
    requires QuietViews(u, s, done) && done <= u.f.tasks.Keys
    ensures done <= DoneSet(s)
  {
    forall t | t in done ensures t in DoneSet(s) {
      assert QuietView(ViewOf(s, t), true);
    }
  }

  lemma ReadyIsIdle(u: Setup, s: State, done: set<Name>, t: Name)
    requires QuietViews(u, s, done) && t in Ready(u.f, s)
    ensures t in u.f.tasks && t !in done && ViewOf(s, t) == IDLE
  {
    assert t in u.f.tasks;
    assert QuietView(ViewOf(s, t), t in done);
  }

  /** A dispatch that finds an idle task whose dependencies are done starts it, and all others like it. */
  lemma StartReady(u: Setup, s: State, done: set<Name>, m: Name) returns (s': State)
    requires u.f.adj.Keys == u.f.tasks.Keys && done <= u.f.tasks.Keys && Quiet(u, s, done)
    requires m in u.f.tasks && ViewOf(s, m) == IDLE && Preds(u.f.adj, m) <= done
    ensures DetReachable(u, s') && !s'.exited && QuietViews(u, s', done)
    ensures forall t :: t in u.f.tasks && t !in done && Preds(u.f.adj, t) <= done ==> ViewOf(s', t) == STARTED
    ensures forall t :: t in done ==> ViewOf(s', t) == ViewOf(s, t)
  {
    DoneInQuiet(u, s, done);
    ReadyFromViews(u, s, m);
    hide DetReachable, Reachable, ViewOf, Ready, DoneSet;
    s' := MoveDispatch(u, s);
    forall t | t in u.f.tasks
      ensures QuietView(ViewOf(s', t), t in done)
      ensures t !in done && Preds(u.f.adj, t) <= done ==> ViewOf(s', t) == STARTED
      ensures t in done ==> ViewOf(s', t) == ViewOf(s, t)
    {
      assert QuietView(ViewOf(s, t), t in done);
      if t in Ready(u.f, s) {
        ReadyIsIdle(u, s, done, t);
      } else if ViewOf(s, t) == IDLE {
        ReadyFromViews(u, s, t);
      }
    }
  }

  ghost predicate Succeeds(f: Flow)
  {
    Unconditional(f) && forall t, kwargs {:trigger OutcomeOf(f, t, kwargs)} :: t in f.tasks ==>
      OutcomeOf(f, t, kwargs).Some?
  }

  /** A started task is brought to its end, and its result is saved. */
  lemma Complete(u: Setup, s: State, m: Name) returns (s': State)
    requires Succeeds(u.f) && DetReachable(u, s) && !s.exited && m in u.f.tasks && ViewOf(s, m) == STARTED
    ensures DetReachable(u, s') && s'.awake && !s'.exited
    ensures ViewOf(s', m).completed && (u.f.hasStore ==> ViewOf(s', m).saved.Some?)
    ensures forall t :: t != m ==> ViewOf(s', t) == ViewOf(s, t)
  {
    StartedViewIn(s, m);
    assert u.f.tasks[m].condition == None;
    var output := OutcomeOf(u.f, m, KwargsOf(u.f, s.results, m));
    assert output.Some?;
    hide DetReachable, Reachable, ViewOf, KwargsOf, OutcomeOf, Apply, LeadsTo, Succeeds;
    var s1 := RunCreated(u, s, m, output);
    FutureInView(s1, m);
    var s2 := Move(u, s1, Save(m));
    Reached(u, s1, s2, true);
    s' := MoveEnd(u, s2, m);
  }

  /** One more task, whose dependencies are done, is brought from wherever it is to its end. */
  lemma SettleOne(u: Setup, s: State, done: set<Name>, m: Name) returns (s': State)
    requires u.f.adj.Keys == u.f.tasks.Keys && done <= u.f.tasks.Keys && Quiet(u, s, done) && Succeeds(u.f)
    requires m in u.f.tasks && m !in done && Preds(u.f.adj, m) <= done
    ensures Quiet(u, s', done + {m}) && (u.f.hasStore ==> ViewOf(s', m).saved.Some?)
    ensures forall t :: t in done ==> ViewOf(s', t) == ViewOf(s, t)
  {
    assert QuietView(ViewOf(s, m), false);
    hide DetReachable, Reachable, ViewOf, OutcomeOf, Succeeds;
    var s1 := s;
    if ViewOf(s, m) == IDLE {
      s1 := StartReady(u, s, done, m);
    }
    s' := Complete(u, s1, m);
    forall t | t in u.f.tasks ensures QuietView(ViewOf(s', t), t in done + {m}) {
      assert QuietView(ViewOf(s1, t), t in done);
    }
  }

  /** What is done when the first k tasks of the order have been gone through. */
  function DoneBy(done: set<Name>, names: set<Name>, order: seq<Name>, k: nat): set<Name>
    requires k <= |order|
  {
    done + names * Elems(order[..k])
  }

  /** Task after task in order, all of a set are brought to their ends, and no others, when what they depend on is
      in the set or done. */
  lemma {:induction false} SettleAll(u: Setup, s: State, done: set<Name>, order: seq<Name>, names: set<Name>, k: nat)
    returns (s': State)
    requires ValidFlow(u.f) && Orders(u.f, order) && k <= |order| && Succeeds(u.f)
    requires done <= u.f.tasks.Keys && Quiet(u, s, done)
    requires forall t :: t in names ==> Preds(u.f.adj, t) <= done + names
    ensures Quiet(u, s', DoneBy(done, names, order, k))
    ensures forall t :: t in done ==> ViewOf(s', t) == ViewOf(s, t)
  {
    if k == 0 {
      assert DoneBy(done, names, order, 0) == done;
      s' := s;
    } else {
      hide *;
      var s1 := SettleAll(u, s, done, order, names, k - 1);
      s' := SettleStep(u, s1, done, order, names, k - 1);
    }
  }

  lemma SettleStep(u: Setup, s: State, done: set<Name>, order: seq<Name>, names: set<Name>, k: nat) returns (s': State)
    requires ValidFlow(u.f) && Orders(u.f, order) && k < |order| && Succeeds(u.f) && done <= u.f.tasks.Keys
    requires Quiet(u, s, DoneBy(done, names, order, k))
    requires forall t :: t in names ==> Preds(u.f.adj, t) <= done + names
    ensures Quiet(u, s', DoneBy(done, names, order, k + 1))
    ensures forall t :: t in done ==> ViewOf(s', t) == ViewOf(s, t)
  {
    BeforeNext(u.f, done, names, order, k);
    hide *;
    s' := s;
    if order[k] in names {
      s' := SettleNext(u, s, DoneBy(done, names, order, k), order[k]);
    }
  }

  lemma BeforeNext(f: Flow, done: set<Name>, names: set<Name>, order: seq<Name>, k: nat)
    requires ValidFlow(f) && Orders(f, order) && k < |order| && done <= f.tasks.Keys
    requires forall t :: t in names ==> Preds(f.adj, t) <= done + names
    ensures f.adj.Keys == f.tasks.Keys && done <= DoneBy(done, names, order, k) <= f.tasks.Keys && order[k] in f.tasks
    ensures order[k] in names ==> Preds(f.adj, order[k]) <= DoneBy(done, names, order, k)
    ensures DoneBy(done, names, order, k + 1)
         == if order[k] in names then DoneBy(done, names, order, k) + {order[k]} else DoneBy(done, names, order, k)
  {
    NextOfOrder(f, order, k);
    forall t | t in Elems(order[..k]) ensures t in f.tasks { assert t in order; }
  }

  lemma SettleNext(u: Setup, s: State, done: set<Name>, m: Name) returns (s': State)
    requires u.f.adj.Keys == u.f.tasks.Keys && done <= u.f.tasks.Keys && Quiet(u, s, done) && Succeeds(u.f)
    requires m in u.f.tasks && Preds(u.f.adj, m) <= done
    ensures Quiet(u, s', done + {m})
    ensures forall t :: t in done ==> ViewOf(s', t) == ViewOf(s, t)
  {
    hide *;
    if m in done {
      assert done + {m} == done;
      s' := s;
    } else {
      s' := SettleOne(u, s, done, m);
    }
  }

  lemma SettleSet(u: Setup, s: State, done: set<Name>, names: set<Name>) returns (s': State)
    requires ValidFlow(u.f) && Succeeds(u.f) && done + names <= u.f.tasks.Keys && Quiet(u, s, done)
    requires forall t :: t in names ==> Preds(u.f.adj, t) <= done + names
    ensures Quiet(u, s', done + names)
    ensures forall t :: t in done ==> ViewOf(s', t) == ViewOf(s, t)
  {
    var order := SomeOrder(u.f);
    hide Quiet, Succeeds, ValidFlow;
    s' := SettleAll(u, s, done, order, names, |order|);
    assert order[..|order|] == order;
    assert DoneBy(done, names, order, |order|) == done + names;
  }

  /** All that is still to be run and on which two tasks depend through tasks still to be run. */
  ghost function OpenAncestors(f: Flow, restored: set<Name>, n: Name, m: Name): set<Name>
  {
    set a | a in f.tasks && a !in restored && (FreelyBelow(f.adj, restored, a, n) || FreelyBelow(f.adj, restored, a, m))
  }

  lemma OpenAncestorsClosed(f: Flow, restored: set<Name>, n: Name, m: Name)
    requires ValidFlow(f) && n !in restored && m !in restored
    ensures forall x :: x in OpenAncestors(f, restored, n, m) + {n, m} ==>
              Preds(f.adj, x) <= restored + OpenAncestors(f, restored, n, m)
    ensures !FreelyBelow(f.adj, restored, n, m) ==> n !in OpenAncestors(f, restored, n, m)
    ensures !FreelyBelow(f.adj, restored, m, n) ==> m !in OpenAncestors(f, restored, n, m)
  {
    var open := OpenAncestors(f, restored, n, m);
    NotFreelyBelowItself(f, restored, n);
    NotFreelyBelowItself(f, restored, m);
    hide FreelyBelow, Acyclic;
    forall x, a | x in open + {n, m} && a in Preds(f.adj, x) && a !in restored ensures a in open {
      forall t | (t == n || t == m) && (x == t || FreelyBelow(f.adj, restored, x, t))
        ensures FreelyBelow(f.adj, restored, a, t)
      {
        if x == t {
          FreeEdge(f.adj, restored, a, t);
        } else {
          FreePrepend(f.adj, restored, a, x, t);
        }
      }
    }
  }

  lemma NotFreelyBelowItself(f: Flow, restored: set<Name>, n: Name)
    requires ValidFlow(f)
    ensures !FreelyBelow(f.adj, restored, n, n)
  {
    NotBelowItself(f.adj, n);
    hide FreelyBelow, StrictlyBelow, Acyclic;
    if FreelyBelow(f.adj, restored, n, n) {
      FreeIsStrict(f.adj, restored, n, n);
    }
  }

  /** Two tasks still to be run, neither depending on the other through such tasks, can come to start side by side. */
  lemma StartTogether(u: Setup, n: Name, m: Name) returns (s: State)
    requires FreshStart(u) && Succeeds(u.f)
    requires n in u.f.tasks && n !in u.restored && m in u.f.tasks && m !in u.restored
    requires !FreelyBelow(u.f.adj, u.restored.Keys, n, m) && !FreelyBelow(u.f.adj, u.restored.Keys, m, n)
    ensures DetReachable(u, s) && !s.exited && ViewOf(s, n) == ViewOf(s, m) == STARTED
    ensures QuietViews(u, s, u.restored.Keys + OpenAncestors(u.f, u.restored.Keys, n, m))
  {
    var restored, open := u.restored.Keys, OpenAncestors(u.f, u.restored.Keys, n, m);
    OpenAncestorsClosed(u.f, restored, n, m);
    assert open <= u.f.tasks.Keys && u.f.adj.Keys == u.f.tasks.Keys;
    StartsQuiet(u);
    hide Succeeds, DetReachable, ViewOf, OpenAncestors, FreelyBelow, ValidFlow, Initial;
    s := SettleSet(u, Initial(u), restored, open);
    var done := restored + open;
    assert QuietView(ViewOf(s, n), false) && QuietView(ViewOf(s, m), false);
    if ViewOf(s, n) == IDLE {
      s := StartReady(u, s, done, n);
    } else if ViewOf(s, m) == IDLE {
      s := StartReady(u, s, done, m);
    }
  }

  lemma RaceSucceeds(f: Flow, n: Name, p: Name, v: Value)
    requires Unconditional(f) && RaceOutcomes(f, n, p, v)
    ensures Succeeds(f)
  {
    hide OutcomeOf;
  }

  // ---------------------------------------------------------------------------
  // Executions
  // ---------------------------------------------------------------------------

  /** An argument that comes from a task independent of the one drawing on it makes the results depend on the
      schedule, once the tasks are such that it matters. */
  lemma UnorderedRaces(f: Flow, n: Name, p: Name, v: Value)
    requires ValidFlow(f) && n in f.tasks && p in f.tasks[n].inputMap && !Comparable(f, f.tasks[n].inputMap[p], n)
    ensures SameWiring(f, Racing(f, n, p, v)) && !SchedulesAgree(Racing(f, n, p, v))
  {
    var g, source := Racing(f, n, p, v), f.tasks[n].inputMap[p];
    RacingOutcomes(f, n, p, v);
    RaceSucceeds(g, n, p, v);
    SameWiringCarries(f, g);
    var status := map t | t in g.tasks :: PENDING;
    var u := Execution(g, status, map[]);
    assert u.f == g && u.restored.Keys == {} && AllPending(g, status) && FreshStart(u) && ValidSetup(u);
    assert g.adj == f.adj && g.tasks.Keys == f.tasks.Keys && g.tasks[n].inputMap[p] == source && n != source;
    hide Racing, RaceOutcomes, Unconditional, Succeeds, DetReachable, ViewOf, ValidFlow, SameWiring, ValidSetup,
      FreshStart,
      Execution, StrictlyBelow, FreelyBelow;
    IndependentIsOpen(f, {}, n, source);
    var s := StartTogether(u, n, source);
    var s1, s2 := RaceEnds(u, s, n, p, v, source);
    assert FinishedExecution(g, status, map[], s1) && FinishedExecution(g, status, map[], s2);
    assert s1.results != s2.results;
  }

  lemma IndependentIsOpen(f: Flow, restored: set<Name>, n: Name, m: Name)
    requires !StrictlyBelow(f.adj, n, m) && !StrictlyBelow(f.adj, m, n)
    ensures !FreelyBelow(f.adj, restored, n, m) && !FreelyBelow(f.adj, restored, m, n)
  {
    hide StrictlyBelow, FreelyBelow;
    if FreelyBelow(f.adj, restored, n, m) {
      FreeIsStrict(f.adj, restored, n, m);
    } else if FreelyBelow(f.adj, restored, m, n) {
      FreeIsStrict(f.adj, restored, m, n);
    }
  }

  /** Schedule independence, exactly: a workflow's dependencies and argument sources make every execution end
      with the same results under every schedule, whatever its tasks' functions and conditions do, if and
      only if no argument comes from a task independent of the one that draws on it. */
  lemma ScheduleIndependentIffOrdered(f: Flow)
    requires ValidFlow(f)
    ensures InputsOrdered(f) <==> forall g :: SameWiring(f, g) ==> SchedulesAgree(g)
  {
    hide ValidFlow, SameWiring, SchedulesAgree, Comparable, Racing, InputsFit;
    if InputsOrdered(f) {
      hide InputsOrdered;
      forall g | SameWiring(f, g) ensures SchedulesAgree(g) {
        SameWiringCarries(f, g);
        OrderedMeansAgree(g);
      }
    } else {
      var n, p :| n in f.tasks && p in f.tasks[n].inputMap && !Comparable(f, f.tasks[n].inputMap[p], n);
      var v: Value :| true;
      UnorderedRaces(f, n, p, v);
    }
  }

  // ---------------------------------------------------------------------------
  // Resumes
  // ---------------------------------------------------------------------------

  /** A finished run of the workflow, resumed from a checkpoint of evaluated results. */
  ghost predicate FinishedResume(f: Flow, status: map<Name, TaskStatus>, stored: map<Name, TaskResult>, s: State)
  {
    Resumable(f, status, stored) && DetReachable(ResumeSetup(f, status, stored), s) && s.exited
  }

  /** Whenever the given tasks are checkpointed, resuming ends with the results of one uninterrupted run. */
  ghost predicate ResumesAgree(f: Flow, restored: set<Name>)
  {
    forall status, stored, s, order ::
      FinishedResume(f, status, stored, s) && stored.Keys == restored && Orders(f, order) ==>
      s.results == Evaluate(f, order)
  }

  lemma FitMeansAgree(f: Flow, restored: set<Name>)
    requires ValidFlow(f) && InputsFit(f, restored)
    ensures ResumesAgree(f, restored)
  {
    hide ValidFlow, InputsFit, Evaluate, DetReachable, Resumable, IsTopologicalOrder;
    forall status, stored, s, order | FinishedResume(f, status, stored, s) && stored.Keys == restored
        && Orders(f, order)
      ensures s.results == Evaluate(f, order)
    {
      ResumedResults(f, status, stored, order, s);
    }
  }

  /** When every task succeeds, so does every evaluation, and only the one that tells can tell. */
  lemma {:induction false} AllSucceed(g: Flow, n: Name, p: Name, v: Value, order: seq<Name>, k: nat)
    requires ValidFlow(g) && Unconditional(g) && RaceOutcomes(g, n, p, v) && Orders(g, order) && k <= |order|
    ensures forall i :: 0 <= i < k ==> TellsOnly(EvalPrefix(g, order, k), order[i], n)
  {
    if k > 0 {
      AllSucceed(g, n, p, v, order, k - 1);
      OneMoreSucceeds(g, n, p, v, order, k - 1);
    }
  }

  lemma OneMoreSucceeds(g: Flow, n: Name, p: Name, v: Value, order: seq<Name>, k: nat)
    requires ValidFlow(g) && Unconditional(g) && RaceOutcomes(g, n, p, v) && Orders(g, order) && k < |order|
    requires forall i :: 0 <= i < k ==> TellsOnly(EvalPrefix(g, order, k), order[i], n)
    ensures forall i :: 0 <= i < k + 1 ==> TellsOnly(EvalPrefix(g, order, k + 1), order[i], n)
  {
    var m, t := EvalPrefix(g, order, k), order[k];
    EvalPrefixStep(g, order, k);
    DepsSucceeded(g, m, order, k, n);
    hide ValidFlow, Orders, EvalPrefix, WithOutcome, TellsOnly, RaceOutcomes, Unconditional;
    NextSucceeds(g, n, p, v, m, t);
    forall i | 0 <= i < k + 1 ensures TellsOnly(WithOutcome(g, m, t), order[i], n) {
      if i < k {
        KeepsTelling(g, m, t, order[i], n);
      }
    }
  }

  lemma DepsSucceeded(g: Flow, m: map<Name, TaskResult>, order: seq<Name>, k: nat, n: Name)
    requires Orders(g, order) && k < |order| && forall i :: 0 <= i < k ==> TellsOnly(m, order[i], n)
    ensures forall d :: d in Preds(g.adj, order[k]) ==> d in m && m[d].status == SUCCESS
  {
    NextOfOrder(g, order, k);
    hide Orders;
    forall d | d in Preds(g.adj, order[k]) ensures d in m && m[d].status == SUCCESS {
      assert d in Elems(order[..k]);
      var i :| 0 <= i < k && order[i] == d;
      assert TellsOnly(m, order[i], n);
    }
  }

  /** The task has succeeded, and returned None unless it is the one that tells. */
  predicate TellsOnly(m: map<Name, TaskResult>, t: Name, n: Name)
  {
    t in m && m[t].status == SUCCESS && (t != n ==> m[t].output == None)
  }

  lemma NextSucceeds(g: Flow, n: Name, p: Name, v: Value, m: map<Name, TaskResult>, t: Name)
    requires Unconditional(g) && RaceOutcomes(g, n, p, v) && t in g.tasks
    requires forall d :: d in Preds(g.adj, t) ==> d in m && m[d].status == SUCCESS
    ensures EvalOne(g, m, t) == Some(TaskResult(SUCCESS, if t == n && p in KwargsOf(g, m, t) then Some(v) else None))
    ensures TellsOnly(WithOutcome(g, m, t), t, n)
  {
    assert !Blocked(g, m, t) && g.tasks[t].condition == None;
    hide OutcomeOf, KwargsOf;
  }

  lemma KeepsTelling(g: Flow, m: map<Name, TaskResult>, t: Name, other: Name, n: Name)
    requires t in g.tasks && TellsOnly(m, other, n) && TellsOnly(WithOutcome(g, m, t), t, n)
    ensures TellsOnly(WithOutcome(g, m, t), other, n)
  {
    hide EvalOne;
  }

  /** A checkpoint that holds None for each of the given tasks. */
  function NoneFor(names: set<Name>): map<Name, TaskResult>
  {
    map t | t in names :: TaskResult(SUCCESS, None)
  }

  /** Such a checkpoint of tasks other than the one that tells is one to resume from. */
  lemma NonesResumable(g: Flow, status: map<Name, TaskStatus>, restored: set<Name>, n: Name, p: Name, v: Value)
    requires ValidFlow(g) && Unconditional(g) && RaceOutcomes(g, n, p, v) && restored <= g.tasks.Keys && n !in restored
    requires status.Keys == g.tasks.Keys && forall t :: t in status && t !in restored ==> status[t] == PENDING
    ensures Resumable(g, status, NoneFor(restored)) && FreshStart(ResumeSetup(g, status, NoneFor(restored)))
  {
    var stored := NoneFor(restored);
    assert Restorable(stored) == stored;
    hide RaceOutcomes, Unconditional, EvalPrefix;
    forall order | Orders(g, order) ensures HoldsEvaluated(g, order, stored) {
      AllSucceed(g, n, p, v, order, |order|);
      forall t | t in stored ensures Lookup(Evaluate(g, order), t) == Some(stored[t]) {
        assert t in Elems(order);
        var i :| 0 <= i < |order| && order[i] == t;
        assert TellsOnly(EvalPrefix(g, order, |order|), order[i], n);
      }
    }
  }

  /** Two tasks still to be run race. */
  lemma UnsettledRaces(g: Flow, status: map<Name, TaskStatus>, stored: map<Name, TaskResult>, n: Name, p: Name,
                       v: Value)
    returns (s1: State, s2: State)
    requires ValidFlow(g) && Unconditional(g) && RaceOutcomes(g, n, p, v)
    requires Resumable(g, status, stored) && FreshStart(ResumeSetup(g, status, stored))
    requires n in g.tasks && n !in stored && p in g.tasks[n].inputMap
    requires g.tasks[n].inputMap[p] !in stored && !Settled(g, stored.Keys, g.tasks[n].inputMap[p], n)
    ensures FinishedResume(g, status, stored, s1) && FinishedResume(g, status, stored, s2)
    ensures Lookup(s1.results, n) == Some(TaskResult(SUCCESS, None))
    ensures Lookup(s2.results, n) == Some(TaskResult(SUCCESS, Some(v)))
  {
    var u, source := ResumeSetup(g, status, stored), g.tasks[n].inputMap[p];
    assert u.f == g && u.restored == stored && ValidSetup(u);
    RaceSucceeds(g, n, p, v);
    hide RaceOutcomes, Unconditional, Succeeds, DetReachable, ViewOf, ValidFlow, ValidSetup, FreshStart, Resumable,
      FreelyBelow,
      StrictlyBelow;
    var s := StartTogether(u, n, source);
    s1, s2 := RaceEnds(u, s, n, p, v, source);
  }

  /** A restored source that does not come before the task is there in every resume, and in no evaluation that
      takes the task first. */
  lemma RestoredTooEarly(g: Flow, status: map<Name, TaskStatus>, stored: map<Name, TaskResult>, n: Name, p: Name,
                         v: Value)
    returns (s: State, order: seq<Name>)
    requires ValidFlow(g) && Unconditional(g) && RaceOutcomes(g, n, p, v)
    requires Resumable(g, status, stored) && FreshStart(ResumeSetup(g, status, stored))
    requires n in g.tasks && n !in stored && p in g.tasks[n].inputMap
    requires g.tasks[n].inputMap[p] in stored && !Settled(g, stored.Keys, g.tasks[n].inputMap[p], n)
    ensures FinishedResume(g, status, stored, s) && Lookup(s.results, n) == Some(TaskResult(SUCCESS, Some(v)))
    ensures Orders(g, order) && Lookup(Evaluate(g, order), n) == Some(TaskResult(SUCCESS, None))
  {
    var u, source := ResumeSetup(g, status, stored), g.tasks[n].inputMap[p];
    assert u.f == g && u.restored == stored && ValidSetup(u) && source in g.tasks;
    RaceSucceeds(g, n, p, v);
    NotFreelyBelowItself(g, stored.Keys, n);
    order := NotYetEvaluated(g, n, p, v, source);
    hide RaceOutcomes, Unconditional, Succeeds, DetReachable, ViewOf, ValidFlow, ValidSetup, FreshStart, Resumable,
      FreelyBelow,
      StrictlyBelow, Orders, Evaluate;
    var start := StartTogether(u, n, n);
    StartedViewIn(start, n);
    RestoredInResults(u, start, source);
    s := RunAtOnce(u, start, n, p, v);
  }

  lemma RestoredInResults(u: Setup, s: State, n: Name)
    requires ValidSetup(u) && DetReachable(u, s) && n in u.restored
    ensures n in s.results
  {
    hide ValidSetup, DetReachable;
    ReachableByBehaving(u, s);
    RestoredIsRecorded(u, s, n);
  }

  /** Some order takes a task before another that it does not depend on. */
  lemma NotYetEvaluated(g: Flow, n: Name, p: Name, v: Value, source: Name) returns (order: seq<Name>)
    requires ValidFlow(g) && Unconditional(g) && RaceOutcomes(g, n, p, v)
    requires n in g.tasks && p in g.tasks[n].inputMap && g.tasks[n].inputMap[p] == source
    requires source in g.tasks && source != n && !StrictlyBelow(g.adj, source, n)
    ensures Orders(g, order) && Lookup(Evaluate(g, order), n) == Some(TaskResult(SUCCESS, None))
  {
    var k: nat;
    order, k := OrderWithout(g, n, source);
    hide StrictlyBelow;
    AllSucceed(g, n, p, v, order, k);
    EvaluatedInTurn(g, order, k);
    PrefixKeys(g, order, k);
    var m := EvalPrefix(g, order, k);
    DepsSucceeded(g, m, order, k, n);
    NextSucceeds(g, n, p, v, m, n);
    DrawsFrom(g, m, n, p);
  }

  lemma OrderWithout(g: Flow, n: Name, source: Name) returns (order: seq<Name>, k: nat)
    requires ValidFlow(g) && n in g.tasks && source in g.tasks && source != n && !StrictlyBelow(g.adj, source, n)
    ensures Orders(g, order) && k < |order| && order[k] == n && source !in Elems(order[..k])
  {
    var early := set a | a in g.adj && (a == n || StrictlyBelow(g.adj, a, n));
    forall x, a | x in early && a in Preds(g.adj, x) ensures a in early {
      hide StrictlyBelow;
      if x == n {
        EdgeIsBelow(g.adj, a, n);
      } else {
        StrictlyBelowPrepend(g.adj, a, x, n);
      }
    }
    hide StrictlyBelow;
    var prefix := ExtendWithin(g.adj, early, []);
    order := ExtendOrder(g.adj, prefix);
    assert n in Elems(prefix);
    k :| 0 <= k < |prefix| && prefix[k] == n;
    forall t | t in order ensures t in g.tasks { assert t in Elems(order); }
    forall i | 0 <= i < k ensures order[i] != source { assert order[i] == prefix[i] && prefix[i] in Elems(prefix); }
  }

  /** An argument that is not settled makes resuming differ from an uninterrupted run, once the tasks are such
      that it matters. */
  lemma UnfitDiffers(f: Flow, restored: set<Name>, n: Name, p: Name, v: Value)
    requires ValidFlow(f) && restored <= f.tasks.Keys && n in f.tasks && n !in restored && p in f.tasks[n].inputMap
    requires !Settled(f, restored, f.tasks[n].inputMap[p], n)
    ensures SameWiring(f, Racing(f, n, p, v)) && !ResumesAgree(Racing(f, n, p, v), restored)
  {
    var g, source := Racing(f, n, p, v), f.tasks[n].inputMap[p];
    var stored := NoneFor(restored);
    RacingOutcomes(f, n, p, v);
    SameWiringCarries(f, g);
    var status := map t | t in g.tasks :: PENDING;
    assert g.tasks.Keys == f.tasks.Keys && g.adj == f.adj && g.tasks[n].inputMap == f.tasks[n].inputMap;
    assert !Settled(g, restored, source, n) && stored.Keys == restored;
    hide Racing, RaceOutcomes, Unconditional, ValidFlow, SameWiring, Settled, Resumable, FreshStart, Evaluate,
      DetReachable,
      InputsFit, NoneFor;
    NonesResumable(g, status, restored, n, p, v);
    if source in restored {
      var s, order := RestoredTooEarly(g, status, stored, n, p, v);
      assert FinishedResume(g, status, stored, s) && Orders(g, order) && s.results != Evaluate(g, order);
    } else {
      var order := SomeOrder(g);
      var s1, s2 := UnsettledRaces(g, status, stored, n, p, v);
      assert s1.results != s2.results;
      assert s1.results != Evaluate(g, order) || s2.results != Evaluate(g, order);
    }
  }

  /** Resuming, exactly: with the given tasks checkpointed, a workflow's dependencies and argument sources make every
      resume end with the results of one uninterrupted run, under every schedule and whatever its tasks' functions
      and conditions do, if and only if every argument of a task still to be run is settled. */
  lemma ResumeDeterminedIffFit(f: Flow, restored: set<Name>)
    requires ValidFlow(f) && restored <= f.tasks.Keys
    ensures InputsFit(f, restored) <==> forall g :: SameWiring(f, g) ==> ResumesAgree(g, restored)
  {
    hide ValidFlow, SameWiring, ResumesAgree, Settled, Racing, InputsOrdered;
    if InputsFit(f, restored) {
      hide InputsFit;
      forall g | SameWiring(f, g) ensures ResumesAgree(g, restored) {
        SameWiringCarries(f, g);
        FitMeansAgree(g, restored);
      }
    } else {
      var n, p :| n in f.tasks && n !in restored && p in f.tasks[n].inputMap
        && !Settled(f, restored, f.tasks[n].inputMap[p], n);
      var v: Value :| true;
      UnfitDiffers(f, restored, n, p, v);
    }
  }
}
