/** The execution engine as a step system. A step is one stretch of code between two awaits, of
    the main loop or of one task's future; a run is any interleaving of steps. */
module EngineModel {
  import opened Prelude
  import opened Graphs
  import opened Workflows
  import opened Scheduling

  /** What a run is given: the built graph, the task map, the engine's default retry count, and
      whether a checkpoint store is configured. */
  datatype Flow = Flow(adj: Adjacency, tasks: map<Name, Task>, defaultRetries: int, hasStore: bool)

  ghost predicate ValidFlow(f: Flow)
  {
    && Closed(f.adj) && Acyclic(f.adj)
    && f.adj.Keys == f.tasks.Keys
    && forall n, d {:trigger d in f.tasks[n].dependsOn} :: n in f.tasks && d in f.tasks[n].dependsOn ==>
        d in Preds(f.adj, n)
  }

  /** Where a task's future is suspended. */
  datatype Pc =
    | Created                     // not begun
    | Started                     // condition passed; announcing the start, running the before-hooks
    | Calling(kwargs: Kwargs)     // inside the task's function
    | Saving(result: TaskResult)  // result recorded, checkpoint not saved yet
    | Ending                      // nothing left but announcements and after-hooks

  datatype State = State(
    status: map<Name, TaskStatus>,
    results: map<Name, TaskResult>,
    completed: set<Name>,
    failed: set<Name>,
    running: set<Name>,
    skipped: set<Name>,
    futures: map<Name, Pc>,
    checkpoint: map<Name, TaskResult>,
    calls: seq<Name>,             // the task functions called so far, in order
    awake: bool,                  // the main loop is about to look for ready tasks
    exited: bool)                 // the main loop has ended

  datatype Step =
    | Dispatch
    | Check(n: Name, verdict: Verdict)
    | Begin(n: Name, hooksPass: bool)
    | Finish(n: Name, output: Option<Option<Value>>)   // None when the call raised
    | Save(n: Name)
    | End(n: Name)

  function DoneSet(s: State): set<Name>
  {
    s.completed + s.skipped
  }

  function Ready(f: Flow, s: State): set<Name>
  {
    ReadyTasks(f.adj, f.tasks, s.status, s.completed, s.failed, s.running, s.skipped)
  }

  /** The results handed to a task's condition: those present of its declared dependencies. */
  function Upstream(f: Flow, results: map<Name, TaskResult>, n: Name): map<Name, TaskResult>
    requires n in f.tasks
  {
    map d | d in f.tasks[n].dependsOn && d in results :: results[d]
  }

  /** The keyword arguments injected into a task's function from the results present. */
  function KwargsOf(f: Flow, results: map<Name, TaskResult>, n: Name): Kwargs
    requires n in f.tasks
  {
    map p | p in f.tasks[n].inputMap && f.tasks[n].inputMap[p] in results :: results[f.tasks[n].inputMap[p]].output
  }

  function SkippedResult(): TaskResult
  {
    TaskResult(SKIPPED, None)
  }

  predicate Enabled(f: Flow, s: State, step: Step)
  {
    match step
    case Dispatch => s.awake && !s.exited
    case Check(n, verdict) =>
      n in f.tasks && n in s.futures && s.futures[n] == Created && (f.tasks[n].condition.None? ==> verdict == Run)
    case Begin(n, _) => n in f.tasks && n in s.futures && s.futures[n] == Started
    case Finish(n, _) => n in f.tasks && n in s.futures && s.futures[n].Calling?
    case Save(n) => n in f.tasks && n in s.futures && s.futures[n].Saving?
    case End(n) => n in f.tasks && n in s.futures && s.futures[n].Ending?
  }

  function StartTasks(s: State, ready: set<Name>): State
  {
    s.(status := map n | n in s.status :: if n in ready then RUNNING else s.status[n],
       running := s.running + ready,
       futures := map n | n in s.futures.Keys + ready :: if n in ready then Created else s.futures[n])
  }

  /** One pass of the main loop: start every ready task, then break, wait for a future, or poll. */
  function DispatchAll(f: Flow, s: State): State
  {
    var s' := StartTasks(s, Ready(f, s));
    if s'.futures != map[] then s'.(awake := false)
    else if s'.running == {} then s'.(awake := false, exited := true)
    else s'
  }

  /** A future that ends without having recorded anything: its name stays in `running`. */
  function Die(s: State, n: Name): State
  {
    s.(futures := s.futures - {n}, awake := true)
  }

  function RecordSkipped(s: State, n: Name): State
  {
    s.(status := s.status[n := SKIPPED],
       results := s.results[n := SkippedResult()],
       skipped := s.skipped + {n},
       running := s.running - {n},
       futures := s.futures[n := Saving(SkippedResult())])
  }

  function RecordSuccess(s: State, n: Name, value: Option<Value>): State
  {
    s.(status := s.status[n := SUCCESS],
       results := s.results[n := TaskResult(SUCCESS, value)],
       completed := s.completed + {n},
       running := s.running - {n},
       futures := s.futures[n := Saving(TaskResult(SUCCESS, value))])
  }

  function RecordFailure(s: State, n: Name): State
  {
    s.(status := s.status[n := FAILED],
       results := s.results[n := TaskResult(FAILED, None)],
       failed := s.failed + {n},
       running := s.running - {n},
       futures := s.futures[n := Ending])
  }

  function Apply(f: Flow, s: State, step: Step): State
    requires Enabled(f, s, step)
  {
    match step
    case Dispatch => DispatchAll(f, s)
    case Check(n, verdict) =>
      (match verdict
       case Raise => Die(s, n)
       case Run => s.(futures := s.futures[n := Started])
       case Skip => RecordSkipped(s, n))
    case Begin(n, hooksPass) =>
      if !hooksPass then Die(s, n)
      else s.(futures := s.futures[n := Calling(KwargsOf(f, s.results, n))], calls := s.calls + [n])
    case Finish(n, output) =>
      (match output
       case Some(value) => RecordSuccess(s, n, value)
       case None => RecordFailure(s, n))
    case Save(n) =>
      s.(checkpoint := if f.hasStore then s.checkpoint[n := s.futures[n].result] else s.checkpoint,
         futures := s.futures[n := Ending])
    case End(n) => s.(futures := s.futures - {n}, awake := true)
  }

  predicate ValidRun(f: Flow, s: State, run: seq<Step>)
    decreases |run|
  {
    run == [] || (Enabled(f, s, run[0]) && ValidRun(f, Apply(f, s, run[0]), run[1..]))
  }

  function After(f: Flow, s: State, run: seq<Step>): State
    requires ValidRun(f, s, run)
    decreases |run|
  {
    if run == [] then s else After(f, Apply(f, s, run[0]), run[1..])
  }

  lemma {:induction false} RunSnoc(f: Flow, s: State, run: seq<Step>, step: Step)
    requires ValidRun(f, s, run) && Enabled(f, After(f, s, run), step)
    ensures ValidRun(f, s, run + [step])
    ensures After(f, s, run + [step]) == Apply(f, After(f, s, run), step)
    decreases |run|
  {
    hide Apply, Enabled;
    if run == [] {
      assert [] + [step] == [step];
      assert [step][1..] == [];
      assert After(f, Apply(f, s, step), []) == Apply(f, s, step);
    } else {
      assert (run + [step])[1..] == run[1..] + [step];
      RunSnoc(f, Apply(f, s, run[0]), run[1..], step);
    }
  }

  // ---------------------------------------------------------------------------
  // Starting a run
  // ---------------------------------------------------------------------------

  /** The entries of a checkpoint that a resume restores. */
  function Restorable(cp: map<Name, TaskResult>): map<Name, TaskResult>
  {
    map n | n in cp && (cp[n].status == SUCCESS || cp[n].status == SKIPPED) :: cp[n]
  }

  function RestoredStatuses(status: map<Name, TaskStatus>, restored: map<Name, TaskResult>): map<Name, TaskStatus>
  {
    map n | n in status :: if n in restored then restored[n].status else status[n]
  }

  function WithStatus(restored: map<Name, TaskResult>, st: TaskStatus): set<Name>
  {
    set n | n in restored && restored[n].status == st
  }

  /** The state in which the main loop begins, after restoring the given results. */
  function Start(status: map<Name, TaskStatus>, restored: map<Name, TaskResult>,
                 checkpoint: map<Name, TaskResult>): State
  {
    State(
      RestoredStatuses(status, restored),
      restored,
      WithStatus(restored, SUCCESS),
      {},
      {},
      WithStatus(restored, SKIPPED),
      map[],
      checkpoint,
      [],
      true,
      false)
  }

  function ResumeStart(status: map<Name, TaskStatus>, stored: map<Name, TaskResult>): State
  {
    Start(status, Restorable(stored), stored)
  }

  /** The workflow's status once the main loop has ended. */
  datatype WorkflowStatus = WORKFLOW_SUCCESS | WORKFLOW_FAILED

  function Conclude(s: State): WorkflowStatus
  {
    if s.failed != {} then WORKFLOW_FAILED else WORKFLOW_SUCCESS
  }

  /** What is left in the checkpoint store by resume. */
  function StoredAfterResume(s: State): map<Name, TaskResult>
  {
    if Conclude(s) == WORKFLOW_SUCCESS then map[] else s.checkpoint
  }

  // ---------------------------------------------------------------------------
  // What a state says about one task
  // ---------------------------------------------------------------------------

  datatype View = View(
    status: Option<TaskStatus>,
    completed: bool,
    failed: bool,
    running: bool,
    skipped: bool,
    result: Option<TaskResult>,
    future: Option<Pc>,
    saved: Option<TaskResult>)

  function Lookup<V>(m: map<Name, V>, n: Name): Option<V>
  {
    if n in m then Some(m[n]) else None
  }

  function ViewOf(s: State, n: Name): View
  {
    View(Lookup(s.status, n), n in s.completed, n in s.failed, n in s.running, n in s.skipped,
         Lookup(s.results, n), Lookup(s.futures, n), Lookup(s.checkpoint, n))
  }

  /** The task a step belongs to. */
  predicate Touches(f: Flow, s: State, step: Step, n: Name)
  {
    if step.Dispatch? then n in Ready(f, s) else step.n == n
  }

  /** The view of a touched task after the step. */
  function ViewAfter(f: Flow, v: View, step: Step, kwargs: Kwargs): View
  {
    match step
    case Dispatch => v.(status := Some(RUNNING), running := true, future := Some(Created))
    case Check(_, Raise) => v.(future := None)
    case Check(_, Run) => v.(future := Some(Started))
    case Check(_, Skip) =>
      v.(status := Some(SKIPPED), result := Some(SkippedResult()), skipped := true, running := false,
        future := Some(Saving(SkippedResult())))
    case Begin(_, hooksPass) => v.(future := if hooksPass then Some(Calling(kwargs)) else None)
    case Finish(_, Some(value)) =>
      var r := TaskResult(SUCCESS, value);
      v.(status := Some(SUCCESS), result := Some(r), completed := true, running := false, future := Some(Saving(r)))
    case Finish(_, None) =>
      v.(status := Some(FAILED), result := Some(TaskResult(FAILED, None)), failed := true, running := false,
        future := Some(Ending))
    case Save(_) =>
      if v.future.Some? && v.future.value.Saving? then
        v.(saved := if f.hasStore then Some(v.future.value.result) else v.saved, future := Some(Ending))
      else v
    case End(_) => v.(future := None)
  }

  /** A step changes what the state says of the tasks it touches, as ViewAfter tells, and of no others. */
  ghost predicate ViewsFollow(f: Flow, s: State, step: Step, n: Name)
    requires Enabled(f, s, step)
  {
    && (!Touches(f, s, step, n) ==> ViewOf(Apply(f, s, step), n) == ViewOf(s, n))
    && (Touches(f, s, step, n) ==>
          n in f.tasks
          && ViewOf(Apply(f, s, step), n) == ViewAfter(f, ViewOf(s, n), step, KwargsOf(f, s.results, n)))
  }

  lemma StartViews(s: State, ready: set<Name>, n: Name)
    requires ready <= s.status.Keys
    ensures n !in ready ==> ViewOf(StartTasks(s, ready), n) == ViewOf(s, n)
    ensures n in ready ==>
              ViewOf(StartTasks(s, ready), n)
                == ViewOf(s, n).(status := Some(RUNNING), running := true, future := Some(Created))
  {
  }

  lemma DispatchViews(f: Flow, s: State, n: Name)
    requires Enabled(f, s, Dispatch)
    ensures ViewsFollow(f, s, Dispatch, n)
  {
    ReadyHasStatus(f, s, n);
    hide KwargsOf, StartTasks, ReadyTasks;
    StartViews(s, Ready(f, s), n);
  }

  lemma ReadyHasStatus(f: Flow, s: State, n: Name)
    ensures Ready(f, s) <= s.status.Keys
    ensures Ready(f, s) <= f.tasks.Keys
  {
  }

  lemma SkippedViews(s: State, n: Name, m: Name)
    ensures m != n ==> ViewOf(RecordSkipped(s, n), m) == ViewOf(s, m)
    ensures ViewOf(RecordSkipped(s, n), n)
         == ViewOf(s, n).(status := Some(SKIPPED), result := Some(SkippedResult()), skipped := true, running := false,
                          future := Some(Saving(SkippedResult())))
  {
  }

  lemma FuturesViews(s: State, n: Name, pc: Pc, m: Name)
    ensures m != n ==> ViewOf(s.(futures := s.futures[n := pc]), m) == ViewOf(s, m) == ViewOf(Die(s, n), m)
    ensures ViewOf(s.(futures := s.futures[n := pc]), n) == ViewOf(s, n).(future := Some(pc))
    ensures ViewOf(Die(s, n), n) == ViewOf(s, n).(future := None)
  {
  }

  lemma CheckViews(f: Flow, s: State, step: Step, n: Name)
    requires step.Check? && Enabled(f, s, step)
    ensures ViewsFollow(f, s, step, n)
  {
    hide KwargsOf, ViewOf, RecordSkipped, Die;
    SkippedViews(s, step.n, n);
    FuturesViews(s, step.n, Started, n);
  }

  lemma BeginViews(f: Flow, s: State, step: Step, n: Name)
    requires step.Begin? && Enabled(f, s, step)
    ensures ViewsFollow(f, s, step, n)
  {
    var pc := Calling(KwargsOf(f, s.results, step.n));
    CallsNotInView(s.(futures := s.futures[step.n := pc]), s.calls + [step.n], n);
    FuturesViews(s, step.n, pc, n);
    hide KwargsOf, ViewOf, Die;
  }

  lemma CallsNotInView(s: State, calls: seq<Name>, n: Name)
    ensures ViewOf(s.(calls := calls), n) == ViewOf(s, n)
  {
  }

  lemma SuccessViews(s: State, n: Name, value: Option<Value>, m: Name)
    ensures m != n ==> ViewOf(RecordSuccess(s, n, value), m) == ViewOf(s, m)
    ensures ViewOf(RecordSuccess(s, n, value), n)
         == ViewOf(s, n).(status := Some(SUCCESS), result := Some(TaskResult(SUCCESS, value)), completed := true,
                          running := false, future := Some(Saving(TaskResult(SUCCESS, value))))
  {
  }

  lemma FailureViews(s: State, n: Name, m: Name)
    ensures m != n ==> ViewOf(RecordFailure(s, n), m) == ViewOf(s, m)
    ensures ViewOf(RecordFailure(s, n), n)
         == ViewOf(s, n).(status := Some(FAILED), result := Some(TaskResult(FAILED, None)), failed := true,
                          running := false, future := Some(Ending))
  {
  }

  lemma FinishViews(f: Flow, s: State, step: Step, n: Name)
    requires step.Finish? && Enabled(f, s, step)
    ensures ViewsFollow(f, s, step, n)
  {
    hide KwargsOf, ViewOf, RecordSuccess, RecordFailure;
    if step.output.Some? {
      SuccessViews(s, step.n, step.output.value, n);
    } else {
      FailureViews(s, step.n, n);
    }
  }

  lemma SavedViews(s: State, n: Name, r: TaskResult, m: Name)
    ensures m != n ==> ViewOf(s.(checkpoint := s.checkpoint[n := r]), m) == ViewOf(s, m)
    ensures ViewOf(s.(checkpoint := s.checkpoint[n := r]), n) == ViewOf(s, n).(saved := Some(r))
  {
  }

  lemma ClosingViews(f: Flow, s: State, step: Step, n: Name)
    requires (step.Save? || step.End?) && Enabled(f, s, step)
    ensures ViewsFollow(f, s, step, n)
  {
    if step.Save? {
      FutureInView(s, step.n);
      hide KwargsOf, ViewOf;
      var r := s.futures[step.n].result;
      FuturesViews(s, step.n, Ending, n);
      SavedViews(s.(futures := s.futures[step.n := Ending]), step.n, r, n);
    } else {
      hide KwargsOf, ViewOf;
      FuturesViews(s, step.n, Ending, n);
    }
  }

  lemma FutureInView(s: State, n: Name)
    ensures ViewOf(s, n).future == Lookup(s.futures, n)
  {
  }

  lemma StepViews(f: Flow, s: State, step: Step, n: Name)
    requires Enabled(f, s, step)
    ensures ViewsFollow(f, s, step, n)
  {
    hide ViewsFollow, Enabled;
    match step
    case Dispatch => DispatchViews(f, s, n);
    case Check(_, _) => CheckViews(f, s, step, n);
    case Begin(_, _) => BeginViews(f, s, step, n);
    case Finish(_, _) => FinishViews(f, s, step, n);
    case Save(_) => ClosingViews(f, s, step, n);
    case End(_) => ClosingViews(f, s, step, n);
  }
}
