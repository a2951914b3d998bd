/** The scheduler's bookkeeping and the in-memory checkpoint store. */
module Scheduling {
  import opened Prelude
  import opened Graphs
  import opened Dags
  import opened Workflows
  import opened Planner

  /** The tasks a dispatch may start: dependencies completed or skipped, not running, not failed, PENDING. */
  function ReadyTasks(adj: Adjacency, tasks: map<Name, Task>, status: map<Name, TaskStatus>,
                      completed: set<Name>, failed: set<Name>, running: set<Name>, skipped: set<Name>): set<Name>
  {
    set n | n in adj && n !in completed && n !in skipped && Preds(adj, n) <= completed + skipped
            && n !in running && n !in failed && n in tasks && n in status && status[n] == PENDING
  }

  /** What the scheduler looks for among the tasks whose dependencies are done. */
  function Startable(running: set<Name>, failed: set<Name>, tasks: map<Name, Task>, status: map<Name, TaskStatus>)
    : Name -> bool
  {
    n => n !in running && n !in failed && n in tasks && n in status && status[n] == PENDING
  }

  lemma ReadyInTurn(keys: seq<Name>, adj: Adjacency, tasks: map<Name, Task>, status: map<Name, TaskStatus>,
                    completed: set<Name>, failed: set<Name>, running: set<Name>, skipped: set<Name>,
                    readyNames: seq<Name>, ready: seq<Name>)
    requires readyNames == ReadyNodes(keys, adj, completed + skipped) && NoDup(readyNames)
    requires forall v ::
               v in readyNames <==> v in adj && v !in completed + skipped && Preds(adj, v) <= completed + skipped
    requires ready == Filter(readyNames, Startable(running, failed, tasks, status))
    ensures var sorted := SortByPriority(ready, PriorityIn(tasks));
            && NoDup(sorted) && Elems(sorted) == ReadyTasks(adj, tasks, status, completed, failed, running, skipped)
            && (forall n :: n in sorted ==> n in tasks)
            && (forall i, j :: 0 <= i < j < |sorted| ==> tasks[sorted[i]].priority >= tasks[sorted[j]].priority)
            && (forall i, j :: 0 <= i < j < |sorted| && tasks[sorted[i]].priority == tasks[sorted[j]].priority ==>
                  Before(keys, sorted[i], sorted[j]))
  {
    var priority, startable := PriorityIn(tasks), Startable(running, failed, tasks, status);
    FilterNoDup(readyNames, startable);
    SortKeepsNames(ready, priority);
    SortCorrect(ready, priority);
    SortedFilterTies(keys, v => v !in completed + skipped && Preds(adj, v) <= completed + skipped, startable, priority);
    FilteredAreReady(adj, tasks, status, completed, failed, running, skipped, readyNames);
    hide SortByPriority, Filter, Before, NoDup, ReadyTasks, ReadyNodes, Elems, Startable;
    PrioritiesWritten(keys, tasks, SortByPriority(ready, priority));
  }

  lemma FilteredAreReady(adj: Adjacency, tasks: map<Name, Task>, status: map<Name, TaskStatus>,
                         completed: set<Name>, failed: set<Name>, running: set<Name>, skipped: set<Name>,
                         readyNames: seq<Name>)
    requires forall v ::
               v in readyNames <==> v in adj && v !in completed + skipped && Preds(adj, v) <= completed + skipped
    ensures Elems(Filter(readyNames, Startable(running, failed, tasks, status)))
         == ReadyTasks(adj, tasks, status, completed, failed, running, skipped)
    ensures ReadyTasks(adj, tasks, status, completed, failed, running, skipped) <= tasks.Keys
  {
  }

  lemma ReadyWritten(adj: Adjacency, tasks: map<Name, Task>, status: map<Name, TaskStatus>,
                     completed: set<Name>, failed: set<Name>, running: set<Name>, skipped: set<Name>)
    ensures forall n :: n in ReadyTasks(adj, tasks, status, completed, failed, running, skipped) <==>
              && n in adj && n in tasks && n in status && status[n] == PENDING
              && n !in running && n !in completed && n !in failed && n !in skipped
              && forall d :: Edge(adj, d, n) ==> d in completed || d in skipped
  {
    forall n ensures Preds(adj, n) <= completed + skipped
                     <==> forall d :: Edge(adj, d, n) ==> d in completed || d in skipped
    {
      forall d ensures d in Preds(adj, n) <==> Edge(adj, d, n) {}
    }
  }

  lemma PrioritiesWritten(keys: seq<Name>, tasks: map<Name, Task>, names: seq<Name>)
    requires Elems(names) <= tasks.Keys
    requires Descending(names, PriorityIn(tasks)) && TiesInOrder(keys, names, PriorityIn(tasks))
    ensures forall n :: n in names ==> n in tasks
    ensures forall i, j :: 0 <= i < j < |names| ==> tasks[names[i]].priority >= tasks[names[j]].priority
    ensures forall i, j :: 0 <= i < j < |names| && tasks[names[i]].priority == tasks[names[j]].priority ==>
              Before(keys, names[i], names[j])
  {
    hide Before;
    forall n | n in names ensures n in tasks { assert n in Elems(names); }
  }

  class Scheduler {
    var completed: set<Name>
    var failed: set<Name>
    var running: set<Name>
    var skipped: set<Name>

    constructor ()
      ensures completed == failed == running == skipped == {}
    {
      completed, failed, running, skipped := {}, {}, {}, {};
    }

    method Reset()
      modifies this
      ensures completed == failed == running == skipped == {}
    {
      completed, failed, running, skipped := {}, {}, {}, {};
    }

    method MarkCompleted(n: Name)
      modifies this
      ensures completed == old(completed) + {n} && running == old(running) - {n}
      ensures failed == old(failed) && skipped == old(skipped)
    {
      completed := completed + {n};
      running := running - {n};
    }

    method MarkFailed(n: Name)
      modifies this
      ensures failed == old(failed) + {n} && running == old(running) - {n}
      ensures completed == old(completed) && skipped == old(skipped)
    {
      failed := failed + {n};
      running := running - {n};
    }

    method MarkRunning(n: Name)
      modifies this
      ensures running == old(running) + {n}
      ensures completed == old(completed) && failed == old(failed) && skipped == old(skipped)
    {
      running := running + {n};
    }

    method MarkSkipped(n: Name)
      modifies this
      ensures skipped == old(skipped) + {n} && running == old(running) - {n}
      ensures completed == old(completed) && failed == old(failed)
    {
      skipped := skipped + {n};
      running := running - {n};
    }

    /** The ready tasks, each once, highest priority first, and ties in the order of the graph's keys. */
    method GetReadyTasks(dag: DAG, tasks: map<Name, Task>, status: map<Name, TaskStatus>) returns (ready: seq<Name>)
      requires dag.Valid()
      ensures NoDup(ready)
      ensures Elems(ready) == ReadyTasks(dag.adjacency, tasks, status, completed, failed, running, skipped)
      ensures forall n :: n in ready <==>
                && n in dag.adjacency && n in tasks && n in status && status[n] == PENDING
                && n !in running && n !in completed && n !in failed && n !in skipped
                && forall d :: Edge(dag.adjacency, d, n) ==> d in completed || d in skipped
      ensures forall n :: n in ready ==> n in tasks
      ensures forall i, j :: 0 <= i < j < |ready| ==> tasks[ready[i]].priority >= tasks[ready[j]].priority
      ensures forall i, j :: 0 <= i < j < |ready| && tasks[ready[i]].priority == tasks[ready[j]].priority ==>
                Before(dag.keys, ready[i], ready[j])
    {
      hide DAG.Valid, WellFormed, SortByPriority, ReadyNodes, ReadyTasks, Before;
      var done := completed + skipped;
      var readyNames := dag.GetReadyNodes(done);
      ready := [];
      for i := 0 to |readyNames|
        invariant ready == Filter(readyNames[..i], Startable(running, failed, tasks, status))
      {
        var name := readyNames[i];
        assert readyNames[..i + 1] == readyNames[..i] + [name];
        FilterSnoc(readyNames[..i], name, Startable(running, failed, tasks, status));
        if name in running || name in failed {
          continue;
        }
        if name in tasks && name in status && status[name] == PENDING {
          ready := ready + [name];
        }
      }
      assert readyNames[..|readyNames|] == readyNames;
      ReadyInTurn(dag.keys, dag.adjacency, tasks, status, completed, failed, running, skipped, readyNames, ready);
      ReadyWritten(dag.adjacency, tasks, status, completed, failed, running, skipped);
      ready := SortByPriority(ready, PriorityIn(tasks));
    }

    predicate IsComplete()
      reads this
    {
      running == {}
    }

    predicate HasFailures()
      reads this
    {
      failed != {}
    }
  }

  type WorkflowId = Name

  class InMemoryCheckpointStore {
    var data: map<WorkflowId, map<Name, TaskResult>>

    constructor ()
      ensures data == map[]
    {
      data := map[];
    }

    /** What is stored for a workflow, nothing when it is absent. */
    function Contents(id: WorkflowId): map<Name, TaskResult>
      reads this
    {
      if id in data then data[id] else map[]
    }

    method SaveTaskResult(id: WorkflowId, name: Name, result: TaskResult)
      modifies this
      ensures Contents(id) == old(Contents(id))[name := result]
      ensures forall other :: other != id ==> Contents(other) == old(Contents(other))
    {
      if id !in data {
        data := data[id := map[]];
      }
      data := data[id := data[id][name := result]];
    }

    /** An absent and an empty checkpoint are both reported as None. */
    method LoadCheckpoint(id: WorkflowId) returns (cp: Option<map<Name, TaskResult>>)
      ensures cp.None? <==> Contents(id) == map[]
      ensures cp.Some? ==> cp.value == Contents(id)
    {
      if id in data && data[id] != map[] {
        return Some(data[id]);
      }
      return None;
    }

    method Clear(id: WorkflowId)
      modifies this
      ensures Contents(id) == map[]
      ensures forall other :: other != id ==> Contents(other) == old(Contents(other))
    {
      data := data - {id};
    }
  }
}
