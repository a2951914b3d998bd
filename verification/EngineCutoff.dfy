/** What a run that is cut off leaves in the store: exactly which workflows can leave a task's result without that of
    one it depends on, and what resuming from there can come to. */
module EngineCutoff {
  import opened Prelude
  import opened Graphs
  import opened Workflows
  import opened EngineModel
  import opened EngineSafety
  import opened EngineEval
  import opened EngineDeterminism
  import opened EngineEnding
  import opened EngineMoves
  import opened EngineResume
  import opened EngineRaces

  // ---------------------------------------------------------------------------
  // A task saved before one it depends on
  // ---------------------------------------------------------------------------

  /** All on which a task depends. */
  ghost function AllAbove(f: Flow, n: Name): set<Name>
  {
    set t | t in f.tasks && StrictlyBelow(f.adj, t, n)
  }

  lemma AllAboveClosed(f: Flow, n: Name)
    requires ValidFlow(f)
    ensures Preds(f.adj, n) <= AllAbove(f, n) && n !in AllAbove(f, n)
    ensures forall t :: t in AllAbove(f, n) ==> Preds(f.adj, t) <= AllAbove(f, n)
  {
    NotBelowItself(f.adj, n);
    hide StrictlyBelow, Acyclic;
    forall x, t | (x == n || x in AllAbove(f, n)) && t in Preds(f.adj, x) ensures t in AllAbove(f, n) {
      if x == n {
        EdgeIsBelow(f.adj, t, n);
      } else {
        StrictlyBelowPrepend(f.adj, t, x, n);
      }
    }
  }

  /** A task that depends on a neither is d nor comes before a or d, when these two are independent. */
  lemma DependentIsLater(f: Flow, a: Name, d: Name, b: Name)
    requires ValidFlow(f) && !Comparable(f, d, a) && StrictlyBelow(f.adj, a, b)
    ensures b != a && b != d && !StrictlyBelow(f.adj, b, a) && !StrictlyBelow(f.adj, b, d)
  {
    NotBelowItself(f.adj, a);
    hide StrictlyBelow, Acyclic;
    if StrictlyBelow(f.adj, b, a) {
      StrictlyBelowTransitive(f.adj, a, b, a);
    } else if StrictlyBelow(f.adj, b, d) {
      StrictlyBelowTransitive(f.adj, a, b, d);
    }
  }

  /** What is done when a and d have been brought to their ends and then all that b depends on. */
  ghost predicate BeforeCut(f: Flow, a: Name, b: Name, d: Name, t: Name)
  {
    t == a || t == d || StrictlyBelow(f.adj, t, a) || StrictlyBelow(f.adj, t, d) || StrictlyBelow(f.adj, t, b)
  }

  /** An independent task that ends while a is being saved lets the loop go on to what depends on a: b, and all it
      depends on, can be saved before a is. */
  lemma CutWhileSaving(u: Setup, a: Name, b: Name, d: Name) returns (s: State)
    requires FreshStart(u) && u.restored == map[] && Succeeds(u.f) && u.f.hasStore
    requires Edge(u.f.adj, a, b) && d in u.f.tasks && !Comparable(u.f, d, a)
    ensures DetReachable(u, s) && b in s.checkpoint && a !in s.checkpoint
    ensures forall t :: t in u.f.tasks && t in s.checkpoint ==> t == b || BeforeCut(u.f, a, b, d, t)
  {
    assert u.restored.Keys == {} && a in u.f.tasks && b in u.f.tasks && ValidFlow(u.f);
    var open := OpenAncestors(u.f, {}, a, d);
    CutIsPossible(u.f, a, b, d);
    hide *;
    var s0 := StartTogether(u, a, d);
    assert {} + open == open;
    var s1 := EndWhileSaving(u, s0, open, a, d);
    s := SaveDependent(u, s1, open + {a, d}, a, b);
    assert DetReachable(u, s) by { QuietReached(u, s, open + {a, d} + AllAbove(u.f, b) + {b}); }
    forall t | t in u.f.tasks && t in s.checkpoint ensures t == b || BeforeCut(u.f, a, b, d, t) {
      SavedInQuiet(u, s, open + {a, d} + AllAbove(u.f, b) + {b}, t);
      DoneBeforeCut(u.f, a, b, d, t);
    }
  }

  lemma QuietReached(u: Setup, s: State, done: set<Name>)
    requires Quiet(u, s, done)
    ensures DetReachable(u, s)
  {
  }

  lemma CutIsPossible(f: Flow, a: Name, b: Name, d: Name)
    requires ValidFlow(f) && Edge(f.adj, a, b) && d in f.tasks && !Comparable(f, d, a)
    ensures a != d && !FreelyBelow(f.adj, {}, a, d) && !FreelyBelow(f.adj, {}, d, a)
    ensures b !in OpenAncestors(f, {}, a, d) + {a, d} && OpenAncestors(f, {}, a, d) + {a, d} <= f.tasks.Keys
  {
    EdgeIsBelow(f.adj, a, b);
    DependentIsLater(f, a, d, b);
    IndependentIsOpen(f, {}, a, d);
    OpenAreAbove(f, a, d);
    hide StrictlyBelow, FreelyBelow, OpenAncestors, Acyclic;
  }

  lemma DoneBeforeCut(f: Flow, a: Name, b: Name, d: Name, t: Name)
    requires ValidFlow(f) && t in OpenAncestors(f, {}, a, d) + {a, d} + AllAbove(f, b) + {b}
    ensures t == b || BeforeCut(f, a, b, d, t)
  {
    OpenAreAbove(f, a, d);
    hide StrictlyBelow, FreelyBelow, OpenAncestors, Acyclic;
  }

  lemma OpenAreAbove(f: Flow, a: Name, d: Name)
    requires ValidFlow(f)
    ensures OpenAncestors(f, {}, a, d) <= f.tasks.Keys
    ensures forall t :: t in OpenAncestors(f, {}, a, d) ==> StrictlyBelow(f.adj, t, a) || StrictlyBelow(f.adj, t, d)
    ensures forall t :: t in OpenAncestors(f, {}, a, d) ==> Preds(f.adj, t) <= OpenAncestors(f, {}, a, d)
  {
    OpenAncestorsClosed(f, {}, a, d);
    hide FreelyBelow, StrictlyBelow, Acyclic;
    forall t | t in OpenAncestors(f, {}, a, d) ensures StrictlyBelow(f.adj, t, a) || StrictlyBelow(f.adj, t, d) {
      if FreelyBelow(f.adj, {}, t, a) {
        FreeIsStrict(f.adj, {}, t, a);
      } else {
        FreeIsStrict(f.adj, {}, t, d);
      }
    }
  }

  /** Of two tasks started side by side, d is brought to its end while a is being saved. */
  lemma EndWhileSaving(u: Setup, s: State, done: set<Name>, a: Name, d: Name) returns (s': State)
    requires DetReachable(u, s) && !s.exited && QuietViews(u, s, done) && Succeeds(u.f)
    requires a in u.f.tasks && d in u.f.tasks && a != d && ViewOf(s, a) == ViewOf(s, d) == STARTED
    ensures Quiet(u, s', done + {a, d}) && ViewOf(s', a).saved == None
  {
    StartedViewIn(s, a);
    assert u.f.tasks[a].condition == None;
    var output := OutcomeOf(u.f, a, KwargsOf(u.f, s.results, a));
    assert output.Some?;
    hide DetReachable, Reachable, ViewOf, KwargsOf, OutcomeOf, Succeeds;
    var s1 := RunCreated(u, s, a, output);
    s' := Complete(u, s1, d);
    hide QuietView;
    assert ViewOf(s', a) == ViewOf(s1, a);
    QuietAfterTwo(u, s, s', done, a, d);
  }

  lemma QuietAfterTwo(u: Setup, s: State, s': State, done: set<Name>, a: Name, d: Name)
    requires QuietViews(u, s, done) && ViewOf(s', a).completed && ViewOf(s', d).completed
    requires forall t :: t != a && t != d ==> ViewOf(s', t) == ViewOf(s, t)
    ensures QuietViews(u, s', done + {a, d})
  {
    hide ViewOf;
    forall t | t in u.f.tasks ensures QuietView(ViewOf(s', t), t in done + {a, d}) {
      assert QuietView(ViewOf(s, t), t in done);
    }
  }

  /** All that b depends on and then b are brought to their ends, which leaves what was done before alone. */
  lemma SaveDependent(u: Setup, s: State, done: set<Name>, a: Name, b: Name) returns (s': State)
    requires ValidFlow(u.f) && Succeeds(u.f) && u.f.hasStore && Quiet(u, s, done) && done <= u.f.tasks.Keys
    requires a in done && ViewOf(s, a).saved == None && b in u.f.tasks && b !in done
    ensures Quiet(u, s', done + AllAbove(u.f, b) + {b}) && b in s'.checkpoint && a !in s'.checkpoint
  {
    var names := AllAbove(u.f, b);
    AllAboveClosed(u.f, b);
    assert done + names <= u.f.tasks.Keys && u.f.adj.Keys == u.f.tasks.Keys;
    hide Quiet, Succeeds, ViewOf, AllAbove, ValidFlow;
    var s1 := SettleSet(u, s, done, names);
    s' := SettleOne(u, s1, done + names, b);
    SavedInView(s', a);
    SavedInView(s', b);
  }

  lemma SavedInView(s: State, n: Name)
    ensures ViewOf(s, n).saved == Lookup(s.checkpoint, n)
  {
  }

  lemma SavedInQuiet(u: Setup, s: State, done: set<Name>, t: Name)
    requires Quiet(u, s, done) && t in u.f.tasks && t in s.checkpoint
    ensures t in done
  {
    hide DetReachable;
    assert QuietView(ViewOf(s, t), t in done);
  }

  // ---------------------------------------------------------------------------
  // When that cannot happen
  // ---------------------------------------------------------------------------

  ghost predicate HasDependent(f: Flow, a: Name)
  {
    exists b :: Edge(f.adj, a, b)
  }

  /** Some task that another depends on is independent of a third. */
  ghost predicate SomeIndependent(f: Flow)
  {
    exists a, b, d :: Edge(f.adj, a, b) && d in f.tasks && !Comparable(f, d, a)
  }

  /** While a task that others depend on is in flight it is so alone, the loop waits for it, and nothing that
      depends on it is done. */
  ghost predicate Alone(u: Setup, s: State, a: Name)
  {
    a in s.futures && HasDependent(u.f, a) ==>
      s.futures.Keys == {a} && !s.awake && forall b :: Edge(u.f.adj, a, b) ==> b !in DoneSet(s)
  }

  ghost predicate Solo(u: Setup, s: State)
  {
    forall a :: Alone(u, s, a)
  }

  lemma AloneOtherStep(u: Setup, s: State, step: Step, a: Name)
    requires ValidFlow(u.f) && Inv(u, s) && Solo(u, s) && Enabled(u.f, s, step) && !step.Dispatch?
    ensures Alone(u, Apply(u.f, s, step), a)
  {
    var s' := Apply(u.f, s, step);
    FuturesAfter(u.f, s, step);
    hide Apply, Inv, ValidFlow;
    if a in s'.futures && HasDependent(u.f, a) {
      assert Alone(u, s, a);
      assert step.n == a;
      forall b | Edge(u.f.adj, a, b) ensures b !in DoneSet(s') {
        NoSelfEdge(u.f, a);
        DoneAfter(u, s, step, b);
      }
    }
  }

  lemma NoSelfEdge(f: Flow, a: Name)
    requires ValidFlow(f)
    ensures !Edge(f.adj, a, a)
  {
    if Edge(f.adj, a, a) {
      EdgeIsBelow(f.adj, a, a);
      NotBelowItself(f.adj, a);
    }
  }

  lemma FuturesAfter(f: Flow, s: State, step: Step)
    requires Enabled(f, s, step) && !step.Dispatch?
    ensures var s' := Apply(f, s, step);
            && step.n in s.futures
            && (if step.n in s'.futures then s'.futures.Keys == s.futures.Keys && s'.awake == s.awake
                else s'.futures.Keys == s.futures.Keys - {step.n})
  {
    hide KwargsOf;
  }

  lemma DoneAfter(u: Setup, s: State, step: Step, b: Name)
    requires Enabled(u.f, s, step) && !step.Dispatch? && step.n != b
    ensures b in DoneSet(Apply(u.f, s, step)) ==> b in DoneSet(s)
  {
    hide KwargsOf;
  }

  /** What a task whose dependencies are done depends on is done, when the restored tasks' dependencies are. */
  lemma AncestorsDone(u: Setup, s: State, x: Name, y: Name)
    requires Inv(u, s) && DepClosed(u.f, u.restored.Keys) && StrictlyBelow(u.f.adj, x, y)
        && Preds(u.f.adj, y) <= DoneSet(s)
    ensures x in DoneSet(s)
  {
    assert NodeOk(u, s, x);
    if x !in u.restored {
      assert forall w :: w in u.restored.Keys ==> Preds(u.f.adj, w) <= u.restored.Keys;
      StrictIsFree(u.f.adj, u.restored.Keys, x, y);
      var p :| FreePath(u.f.adj, u.restored.Keys, p, x, y);
      hide Inv, FreePath, NodeOk;
      AboveIsDone(u, s, p, x, y);
    }
  }

  lemma BelowHasDependent(f: Flow, x: Name, y: Name)
    requires StrictlyBelow(f.adj, x, y)
    ensures HasDependent(f, x)
  {
    var p :| IsPath(f.adj, p) && |p| >= 2 && p[0] == x && p[|p| - 1] == y;
    assert Edge(f.adj, p[0], p[0 + 1]);
  }

  lemma InFlightDeps(u: Setup, s: State, d: Name)
    requires Inv(u, s) && (d in s.futures || d in Ready(u.f, s))
    ensures d in u.f.tasks && Preds(u.f.adj, d) <= DoneSet(s)
    ensures d in Ready(u.f, s) ==> d !in DoneSet(s)
  {
    assert NodeOk(u, s, d);
  }

  lemma NotInFlight(u: Setup, s: State, d: Name)
    requires Solo(u, s) && s.awake && HasDependent(u.f, d)
    ensures d !in s.futures
  {
    assert Alone(u, s, d);
  }

  /** A dispatch that starts a task others depend on finds nothing else in flight and starts nothing else. */
  lemma NothingBeside(u: Setup, s: State, a: Name, d: Name)
    requires ValidFlow(u.f) && Inv(u, s) && Solo(u, s) && DepClosed(u.f, u.restored.Keys) && !SomeIndependent(u.f)
    requires s.awake && a in Ready(u.f, s) && HasDependent(u.f, a) && (d in s.futures || d in Ready(u.f, s))
    ensures d == a
  {
    InFlightDeps(u, s, a);
    InFlightDeps(u, s, d);
    assert Comparable(u.f, d, a);
    hide StrictlyBelow, Inv, Ready, ValidFlow, DepClosed;
    if StrictlyBelow(u.f.adj, d, a) {
      AncestorsDone(u, s, d, a);
      BelowHasDependent(u.f, d, a);
      NotInFlight(u, s, d);
    } else if StrictlyBelow(u.f.adj, a, d) {
      AncestorsDone(u, s, a, d);
    }
  }

  lemma AloneDispatch(u: Setup, s: State, a: Name)
    requires ValidFlow(u.f) && Inv(u, s) && Solo(u, s) && DepClosed(u.f, u.restored.Keys) && !SomeIndependent(u.f)
    requires Enabled(u.f, s, Dispatch)
    ensures Alone(u, Apply(u.f, s, Dispatch), a)
  {
    var s' := DispatchAll(u.f, s);
    assert s'.futures.Keys == s.futures.Keys + Ready(u.f, s) && DoneSet(s') == DoneSet(s);
    hide Ready, Inv, ValidFlow, DepClosed, SomeIndependent;
    if a in s'.futures && HasDependent(u.f, a) {
      assert Alone(u, s, a);
      assert a in Ready(u.f, s);
      forall d | d in s'.futures ensures d == a {
        NothingBeside(u, s, a, d);
      }
      forall b | Edge(u.f.adj, a, b) ensures b !in DoneSet(s) {
        DependentNotDone(u, s, a, b);
      }
    }
  }

  lemma DependentNotDone(u: Setup, s: State, a: Name, b: Name)
    requires Inv(u, s) && DepClosed(u.f, u.restored.Keys) && a in Ready(u.f, s) && Edge(u.f.adj, a, b)
    ensures b !in DoneSet(s)
  {
    assert a in Preds(u.f.adj, b);
    assert NodeOk(u, s, a) && NodeOk(u, s, b);
  }

  lemma SoloStep(u: Setup, s: State, step: Step)
    requires ValidFlow(u.f) && Inv(u, s) && Solo(u, s) && DepClosed(u.f, u.restored.Keys) && !SomeIndependent(u.f)
    requires Enabled(u.f, s, step)
    ensures Solo(u, Apply(u.f, s, step))
  {
    hide Inv, Apply, Enabled, ValidFlow, DepClosed, SomeIndependent, Alone;
    forall a ensures Alone(u, Apply(u.f, s, step), a) {
      if step.Dispatch? {
        AloneDispatch(u, s, a);
      } else {
        AloneOtherStep(u, s, step, a);
      }
    }
  }

  lemma {:induction false} SoloRun(u: Setup, s: State, run: seq<Step>)
    requires ValidFlow(u.f) && Inv(u, s) && Solo(u, s) && DepClosed(u.f, u.restored.Keys) && !SomeIndependent(u.f)
    requires ValidRun(u.f, s, run)
    ensures Solo(u, After(u.f, s, run))
    decreases |run|
  {
    if run != [] {
      hide Inv, Apply, ValidFlow, DepClosed, SomeIndependent, Solo;
      StepInv(u, s, run[0]);
      SoloStep(u, s, run[0]);
      SoloRun(u, Apply(u.f, s, run[0]), run[1..]);
    }
  }

  /** If every task that others depend on is comparable with all tasks, whatever the tasks do, every checkpoint that a
      run leaves at any moment holds all its tasks depend on, if it did when the run began. */
  lemma StaysClosed(u: Setup, s: State)
    requires CleanStart(u) && u.f.hasStore && DepClosed(u.f, u.restored.Keys) && !SomeIndependent(u.f)
        && Reachable(u, s)
    ensures DepClosed(u.f, s.checkpoint.Keys)
  {
    CleanIsValid(u);
    ReachableSaved(u, s);
    InitialInv(u);
    assert ValidFlow(u.f) && Solo(u, Initial(u));
    hide Inv, Saved, Initial, ValidSetup, ValidFlow, SomeIndependent, Solo, CleanStart;
    var run :| ValidRun(u.f, Initial(u), run) && After(u.f, Initial(u), run) == s;
    SoloRun(u, Initial(u), run);
    forall b, a | b in s.checkpoint && a in Preds(u.f.adj, b) ensures a in s.checkpoint {
      SavedAfterDependency(u, s, a, b);
    }
  }

  lemma SavedAfterDependency(u: Setup, s: State, a: Name, b: Name)
    requires CleanStart(u) && Inv(u, s) && Saved(u, s) && Solo(u, s) && u.f.hasStore && DepClosed(u.f, u.restored.Keys)
    requires b in s.checkpoint && a in Preds(u.f.adj, b)
    ensures a in s.checkpoint
  {
    SavedEntry(u, s, b);
    assert NodeOk(u, s, a) && NodeOk(u, s, b) && SavedOk(u, s, a);
    assert Edge(u.f.adj, a, b) && Alone(u, s, a);
  }

  // ---------------------------------------------------------------------------
  // Main results
  // ---------------------------------------------------------------------------

  /** Some execution of the workflow gets to a moment at which the checkpoint holds a task but not one it depends on. */
  ghost predicate LeavesUnclosed(g: Flow)
  {
    exists status, s ::
      AllPending(g, status) && Reachable(Execution(g, status, map[]), s) && !DepClosed(g, s.checkpoint.Keys)
  }

  /** Checkpoints closed under dependencies, exactly: with a store, the wiring keeps every checkpoint of every
      execution closed, whatever the tasks do, unless some task that another depends on is independent of a third. */
  lemma UnclosedIffIndependent(f: Flow)
    requires ValidFlow(f) && f.hasStore
    ensures (exists g :: SameWiring(f, g) && LeavesUnclosed(g)) <==> SomeIndependent(f)
  {
    hide SameWiring, LeavesUnclosed, SomeIndependent, ValidFlow;
    if SomeIndependent(f) {
      IndependentLeavesUnclosed(f);
    }
    forall g | SameWiring(f, g) && LeavesUnclosed(g) ensures SomeIndependent(f) {
      UnclosedMeansIndependent(f, g);
    }
  }

  lemma UnclosedMeansIndependent(f: Flow, g: Flow)
    requires ValidFlow(f) && f.hasStore && SameWiring(f, g) && LeavesUnclosed(g)
    ensures SomeIndependent(f)
  {
    SameWiringCarries(f, g);
    assert SomeIndependent(g) ==> SomeIndependent(f) by { hide StrictlyBelow; }
    hide SomeIndependent, ValidFlow;
    var status, s :| AllPending(g, status) && Reachable(Execution(g, status, map[]), s)
      && !DepClosed(g, s.checkpoint.Keys);
    var u := Execution(g, status, map[]);
    assert u.f == g && g.hasStore && u.restored.Keys == {} && DepClosed(g, u.restored.Keys) && CleanStart(u);
    hide CleanStart, Execution, Reachable, DepClosed;
    if !SomeIndependent(g) {
      StaysClosed(u, s);
      assert false;
    }
  }

  lemma IndependentLeavesUnclosed(f: Flow)
    requires ValidFlow(f) && f.hasStore && SomeIndependent(f)
    ensures exists g :: SameWiring(f, g) && LeavesUnclosed(g)
  {
    var a, b, d :| Edge(f.adj, a, b) && d in f.tasks && !Comparable(f, d, a);
    var v: Value :| true;
    var g := Racing(f, a, a, v);
    RacingOutcomes(f, a, a, v);
    RaceSucceeds(g, a, a, v);
    SameWiringCarries(f, g);
    var status := map t | t in g.tasks :: PENDING;
    var u := Execution(g, status, map[]);
    assert u.f == g && u.restored == map[] && AllPending(g, status) && FreshStart(u) && ValidSetup(u);
    assert Edge(g.adj, a, b) && d in g.tasks && !Comparable(g, d, a) && g.hasStore;
    hide Racing, RaceOutcomes, Unconditional, Succeeds, DetReachable, ValidFlow, SameWiring, ValidSetup, FreshStart,
      StrictlyBelow, Comparable, Execution;
    var s := CutWhileSaving(u, a, b, d);
    ReachableByBehaving(u, s);
    assert a in Preds(g.adj, b) && !DepClosed(g, s.checkpoint.Keys);
    assert LeavesUnclosed(g);
  }

  /** Why a resume needs settled inputs. Let b depend on a, c on b alone, and d be independent of a, and let c draw an
      argument from a, which is settled before c in every execution. A run can be cut off at a moment when b is
      saved and a is not; resumed from what it leaves, c runs beside a, with the argument or without it. */
  lemma UnclosedCheckpointRaces(f: Flow, a: Name, b: Name, c: Name, d: Name, p: Name, v: Value)
    returns (status: map<Name, TaskStatus>, cut: State, s1: State, s2: State)
    requires ValidFlow(f) && InputsOrdered(f) && f.hasStore
    requires Edge(f.adj, a, b) && c in f.tasks && Preds(f.adj, c) == {b} && d in f.tasks && !Comparable(f, d, a)
    requires p in f.tasks[c].inputMap && f.tasks[c].inputMap[p] == a
    ensures var g := Racing(f, c, p, v);
            && SchedulesAgree(g) && LeftBehind(g, status, map[], cut)
            && FinishedResume(g, status, cut.checkpoint, s1) && FinishedResume(g, status, cut.checkpoint, s2)
            && s1.results != s2.results
  {
    var g := Racing(f, c, p, v);
    RacingOutcomes(f, c, p, v);
    RaceSucceeds(g, c, p, v);
    SameWiringCarries(f, g);
    OrderedMeansAgree(g);
    status := map t | t in g.tasks :: PENDING;
    var u := Execution(g, status, map[]);
    assert u.f == g && u.restored == map[] && AllPending(g, status) && FreshStart(u) && ValidSetup(u);
    assert g.adj == f.adj && g.tasks.Keys == f.tasks.Keys && g.hasStore && g.tasks[c].inputMap == f.tasks[c].inputMap;
    assert !Comparable(g, d, a) && Edge(g.adj, b, c);
    hide Racing, RaceOutcomes, Unconditional, Succeeds, DetReachable, ValidFlow, SameWiring, ValidSetup, FreshStart,
      StrictlyBelow, Comparable, InputsOrdered, InputsFit, SchedulesAgree, LeftBehind, Resumable, Execution;
    cut := CutWhileSaving(u, a, b, d);
    FirstRunLeaves(g, status, cut);
    LastIsUnsaved(g, a, b, c, d);
    assert c !in cut.checkpoint;
    CutIsResumable(g, status, cut, c, p, v);
    ChainIsUnsettled(g, cut.checkpoint.Keys, a, b, c);
    s1, s2 := UnsettledRaces(g, status, cut.checkpoint, c, p, v);
  }

  lemma LastIsUnsaved(g: Flow, a: Name, b: Name, c: Name, d: Name)
    requires ValidFlow(g) && Edge(g.adj, a, b) && Edge(g.adj, b, c) && !Comparable(g, d, a)
    ensures c != b && !BeforeCut(g, a, b, d, c)
  {
    EdgeIsBelow(g.adj, a, b);
    EdgeIsBelow(g.adj, b, c);
    NotBelowItself(g.adj, b);
    hide StrictlyBelow, Acyclic;
    StrictlyBelowTransitive(g.adj, a, b, c);
    DependentIsLater(g, a, d, c);
    if StrictlyBelow(g.adj, c, b) {
      StrictlyBelowTransitive(g.adj, b, c, b);
    }
  }

  /** What such a run leaves can be resumed, and holds successes only. */
  lemma CutIsResumable(g: Flow, status: map<Name, TaskStatus>, cut: State, n: Name, p: Name, v: Value)
    requires ValidFlow(g) && Unconditional(g) && RaceOutcomes(g, n, p, v) && AllPending(g, status)
    requires LeftBehind(g, status, map[], cut)
    ensures Resumable(g, status, cut.checkpoint) && FreshStart(ResumeSetup(g, status, cut.checkpoint))
  {
    var order := SomeOrder(g);
    CheckpointIsEvaluated(g, status, map[], cut, order);
    AllSucceed(g, n, p, v, order, |order|);
    hide Unconditional, RaceOutcomes, LeftBehind, EvalPrefix;
    LeavesResumable(g, status, map[], cut, status);
    forall t | t in cut.checkpoint ensures cut.checkpoint[t].status == SUCCESS {
      assert t in Elems(order);
      var i :| 0 <= i < |order| && order[i] == t;
      assert TellsOnly(EvalPrefix(g, order, |order|), order[i], n);
      assert Lookup(Evaluate(g, order), t) == Some(cut.checkpoint[t]);
    }
  }

  lemma ChainIsUnsettled(g: Flow, restored: set<Name>, a: Name, b: Name, c: Name)
    requires ValidFlow(g) && Edge(g.adj, a, b) && Preds(g.adj, c) == {b} && b in restored && a !in restored
    ensures a in g.tasks && !Settled(g, restored, a, c)
  {
    NoSelfEdge(g, b);
    EdgeIsBelow(g.adj, a, b);
    assert b in Preds(g.adj, c);
    EdgeIsBelow(g.adj, b, c);
    NotBelowItself(g.adj, a);
    StrictlyBelowTransitive(g.adj, a, b, c);
    if FreelyBelow(g.adj, restored, c, a) {
      FreeIsStrict(g.adj, restored, c, a);
      StrictlyBelowTransitive(g.adj, a, c, a);
    }
    if FreelyBelow(g.adj, restored, a, c) {
      var path :| FreePath(g.adj, restored, path, a, c);
      PathDropLast(g.adj, path);
      LastDependency(g, path, b);
    }
  }

  lemma LastDependency(g: Flow, path: seq<Name>, b: Name)
    requires |path| >= 2 && Edge(g.adj, path[|path| - 2], path[|path| - 1]) && Preds(g.adj, path[|path| - 1]) == {b}
    ensures path[|path| - 2] == b
  {
    assert path[|path| - 2] in Preds(g.adj, path[|path| - 1]);
  }
}
