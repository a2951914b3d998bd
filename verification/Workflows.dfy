/** Tasks, their results, and the construction of a workflow's dependency graph. */
module Workflows {
  import opened Prelude
  import opened Graphs
  import opened Dags
  import opened Retry

  /** Any value a task function may return other than None, and any exception it may raise. */
  type Value(==, !new, 0)
  type Error(==, !new, 0)

  datatype TaskStatus = PENDING | RUNNING | SUCCESS | FAILED | SKIPPED | CANCELLED

  /** A task's result, without its timestamps and error text. `output` is None for a failed
      or skipped task and for a function that returns None. */
  datatype TaskResult = TaskResult(status: TaskStatus, output: Option<Value>)

  type Kwargs = map<Name, Option<Value>>

  datatype Verdict = Run | Skip | Raise

  /** `func(kwargs, i)` is what the i-th attempt at the task's function does, and
      `condition` is evaluated on the results of the task's dependencies. */
  datatype Task = Task(
    name: Name,
    func: (Kwargs, nat) -> Outcome<Option<Value>, Error>,
    dependsOn: seq<Name>,
    retryCount: int,
    priority: int,
    inputMap: map<Name, Name>,
    condition: Option<map<Name, TaskResult> -> Verdict>)

  function TaskNames(tasks: seq<Task>): set<Name>
  {
    set i | 0 <= i < |tasks| :: tasks[i].name
  }

  /** Some task called v lists u among its dependencies. */
  ghost predicate Declares(tasks: seq<Task>, u: Name, v: Name)
  {
    exists i :: 0 <= i < |tasks| && tasks[i].name == v && u in tasks[i].dependsOn
  }

  ghost predicate DepsKnown(tasks: seq<Task>)
  {
    forall i, d :: 0 <= i < |tasks| && d in tasks[i].dependsOn ==> d in TaskNames(tasks)
  }

  /** The graph a task list describes. */
  ghost function DeclaredGraph(tasks: seq<Task>): Adjacency
  {
    map u | u in TaskNames(tasks) :: set v | v in TaskNames(tasks) && Declares(tasks, u, v)
  }

  lemma DeclaredGraphClosed(tasks: seq<Task>)
    ensures DeclaredGraph(tasks).Keys == TaskNames(tasks)
    ensures Closed(DeclaredGraph(tasks))
  {
  }

  /** dep is the first dependency, in declaration order, that names no task; `owner` declares it. */
  ghost predicate FirstUnknown(tasks: seq<Task>, owner: Name, dep: Name)
  {
    exists i, j ::
      && 0 <= i < |tasks| && 0 <= j < |tasks[i].dependsOn|
      && tasks[i].name == owner && tasks[i].dependsOn[j] == dep && dep !in TaskNames(tasks)
      && (forall k, d :: 0 <= k < i && d in tasks[k].dependsOn ==> d in TaskNames(tasks))
      && (forall l :: 0 <= l < j ==> tasks[i].dependsOn[l] in TaskNames(tasks))
  }

  /** The edges declared by the first i tasks and by the first j dependencies of task i. */
  ghost predicate DeclaredSoFar(tasks: seq<Task>, i: nat, j: nat, u: Name, v: Name)
    requires i <= |tasks|
  {
    || (exists k :: 0 <= k < i && tasks[k].name == v && u in tasks[k].dependsOn)
    || (i < |tasks| && tasks[i].name == v
        && exists l :: 0 <= l < j && l < |tasks[i].dependsOn| && tasks[i].dependsOn[l] == u)
  }

  ghost predicate BuiltSoFar(tasks: seq<Task>, i: nat, j: nat, adj: Adjacency)
    requires i <= |tasks|
  {
    && adj.Keys <= TaskNames(tasks)
    && (forall k :: 0 <= k < i ==> tasks[k].name in adj)
    && (forall u, v :: Edge(adj, u, v) <==> DeclaredSoFar(tasks, i, j, u, v))
  }

  lemma AddDeclaredEdge(tasks: seq<Task>, i: nat, j: nat, adj: Adjacency)
    requires i < |tasks| && j < |tasks[i].dependsOn| && tasks[i].name in adj
    requires BuiltSoFar(tasks, i, j, adj) && tasks[i].dependsOn[j] in TaskNames(tasks)
    ensures BuiltSoFar(tasks, i, j + 1, WithEdge(adj, tasks[i].dependsOn[j], tasks[i].name))
    ensures tasks[i].name in WithEdge(adj, tasks[i].dependsOn[j], tasks[i].name)
  {
    var dep, name := tasks[i].dependsOn[j], tasks[i].name;
    var adj' := WithEdge(adj, dep, name);
    forall u, v ensures Edge(adj', u, v) <==> DeclaredSoFar(tasks, i, j + 1, u, v) {
      assert Edge(adj', u, v) <==> Edge(adj, u, v) || (u == dep && v == name);
    }
  }

  lemma NextTask(tasks: seq<Task>, i: nat, adj: Adjacency)
    requires i < |tasks| && BuiltSoFar(tasks, i, |tasks[i].dependsOn|, adj) && tasks[i].name in adj
    ensures BuiltSoFar(tasks, i + 1, 0, adj)
  {
    forall u, v
      ensures DeclaredSoFar(tasks, i + 1, 0, u, v) <==> DeclaredSoFar(tasks, i, |tasks[i].dependsOn|, u, v)
    {
    }
  }

  lemma AllBuilt(tasks: seq<Task>, adj: Adjacency)
    requires BuiltSoFar(tasks, |tasks|, 0, adj) && DepsKnown(tasks)
    ensures adj == DeclaredGraph(tasks)
  {
    var g := DeclaredGraph(tasks);
    assert adj.Keys == g.Keys;
    forall u | u in adj ensures adj[u] == g[u] {
      forall v ensures v in adj[u] <==> v in g[u] {
        assert v in adj[u] <==> Edge(adj, u, v);
        assert Edge(adj, u, v) <==> DeclaredSoFar(tasks, |tasks|, 0, u, v);
      }
    }
  }

  /** The names a task list mentions, task after task: each task's own and then its dependencies. */
  function Mentioned(tasks: seq<Task>): seq<Name>
  {
    if tasks == [] then []
    else Mentioned(tasks[..|tasks| - 1]) + [tasks[|tasks| - 1].name] + tasks[|tasks| - 1].dependsOn
  }

  /** The names mentioned by the first i tasks, by name i, and by the first j dependencies of task i. */
  function MentionedSoFar(tasks: seq<Task>, i: nat, j: nat): seq<Name>
    requires i < |tasks| && j <= |tasks[i].dependsOn|
  {
    Mentioned(tasks[..i]) + [tasks[i].name] + tasks[i].dependsOn[..j]
  }

  lemma MentionName(tasks: seq<Task>, i: nat)
    requires i < |tasks|
    ensures WithKey(FirstSeen(Mentioned(tasks[..i])), tasks[i].name) == FirstSeen(MentionedSoFar(tasks, i, 0))
  {
    FirstSeenSnoc(Mentioned(tasks[..i]), tasks[i].name);
    assert MentionedSoFar(tasks, i, 0) == Mentioned(tasks[..i]) + [tasks[i].name];
  }

  lemma MentionDependency(tasks: seq<Task>, i: nat, j: nat)
    requires i < |tasks| && j < |tasks[i].dependsOn|
    ensures WithKey(WithKey(FirstSeen(MentionedSoFar(tasks, i, j)), tasks[i].dependsOn[j]), tasks[i].name)
         == FirstSeen(MentionedSoFar(tasks, i, j + 1))
  {
    var sofar, dep := MentionedSoFar(tasks, i, j), tasks[i].dependsOn[j];
    assert tasks[i].dependsOn[..j + 1] == tasks[i].dependsOn[..j] + [dep];
    assert MentionedSoFar(tasks, i, j + 1) == sofar + [dep];
    FirstSeenSnoc(sofar, dep);
    assert tasks[i].name in sofar;
    FirstSeenHas(sofar, tasks[i].name);
  }

  lemma MentionedTask(tasks: seq<Task>, i: nat)
    requires i < |tasks|
    ensures MentionedSoFar(tasks, i, |tasks[i].dependsOn|) == Mentioned(tasks[..i + 1])
  {
    assert tasks[..i + 1][..i] == tasks[..i];
    assert tasks[i].dependsOn[..|tasks[i].dependsOn|] == tasks[i].dependsOn;
  }

  /** Building a workflow's graph succeeds exactly when every dependency names a task and the
      declared graph has no cycle; the graph is then the declared one, however often an edge,
      a dependency or a task name is repeated. */
  method BuildDag(tasks: seq<Task>) returns (r: Result<DAG, WorkflowError>)
    ensures r.Success? <==> DepsKnown(tasks) && Acyclic(DeclaredGraph(tasks))
    ensures r.Success? ==> r.value.Valid() && fresh(r.value) && r.value.adjacency == DeclaredGraph(tasks)
    ensures r.Success? ==> r.value.keys == FirstSeen(Mentioned(tasks))
    ensures r == Failure(CycleDetected) <==> DepsKnown(tasks) && !Acyclic(DeclaredGraph(tasks))
    ensures !DepsKnown(tasks) ==>
              r.Failure? && r.error.UnknownDependency? && FirstUnknown(tasks, r.error.task, r.error.dep)
  {
    hide BuiltSoFar, DAG.Valid, WithEdge, WithNode, Acyclic, FirstSeen, Mentioned, MentionedSoFar, WithKey;
    var dag := new DAG();
    NothingMentioned(tasks);
    var taskNames := TaskNames(tasks);
    EmptyBuilt(tasks);
    for i := 0 to |tasks|
      invariant fresh(dag) && dag.Valid()
      invariant BuiltSoFar(tasks, i, 0, dag.adjacency)
      invariant dag.keys == FirstSeen(Mentioned(tasks[..i]))
      invariant forall k, d :: 0 <= k < i && d in tasks[k].dependsOn ==> d in taskNames
    {
      var task := tasks[i];
      NodeBuilt(tasks, i, dag.adjacency);
      dag.AddNode(task.name);
      MentionName(tasks, i);
      for j := 0 to |task.dependsOn|
        invariant fresh(dag) && dag.Valid() && task.name in dag.adjacency
        invariant BuiltSoFar(tasks, i, j, dag.adjacency)
        invariant dag.keys == FirstSeen(MentionedSoFar(tasks, i, j))
        invariant forall l :: 0 <= l < j ==> task.dependsOn[l] in taskNames
      {
        var dep := task.dependsOn[j];
        if dep !in taskNames {
          return Failure(UnknownDependency(task.name, dep));
        }
        AddDeclaredEdge(tasks, i, j, dag.adjacency);
        MentionDependency(tasks, i, j);
        dag.AddEdge(dep, task.name);
      }
      NextTask(tasks, i, dag.adjacency);
      MentionedTask(tasks, i);
    }
    assert tasks[..|tasks|] == tasks;
    AllBuilt(tasks, dag.adjacency);
    var sorted := dag.TopologicalSort();
    if sorted.Failure? {
      return Failure(sorted.error);
    }
    return Success(dag);
  }

  lemma NothingMentioned(tasks: seq<Task>)
    ensures FirstSeen(Mentioned(tasks[..0])) == []
  {
  }

  lemma EmptyBuilt(tasks: seq<Task>)
    ensures BuiltSoFar(tasks, 0, 0, map[])
  {
  }

  lemma NodeBuilt(tasks: seq<Task>, i: nat, adj: Adjacency)
    requires i < |tasks| && BuiltSoFar(tasks, i, 0, adj)
    ensures BuiltSoFar(tasks, i, 0, WithNode(adj, tasks[i].name)) && tasks[i].name in WithNode(adj, tasks[i].name)
  {
    forall u, v ensures Edge(WithNode(adj, tasks[i].name), u, v) <==> Edge(adj, u, v) {}
  }
}
