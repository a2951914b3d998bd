/** The dry run: parallel phases, longest chains by relaxation, and the critical path. */
module Planner {
  import opened Prelude
  import opened Graphs
  import opened Dags
  import opened Workflows

  datatype ExecutionPlan = ExecutionPlan(
    phases: seq<seq<Name>>,
    totalTasks: nat,
    criticalPath: seq<Name>,
    criticalPathLength: nat)

  /** The last task of each name, as a dictionary comprehension over the task list leaves it. */
  function TaskMap(tasks: seq<Task>): (m: map<Name, Task>)
    ensures m.Keys == TaskNames(tasks)
  {
    if tasks == [] then map[]
    else
      var front, last := tasks[..|tasks| - 1], tasks[|tasks| - 1];
      assert tasks == front + [last];
      assert forall i :: 0 <= i < |front| ==> tasks[i] == front[i];
      TaskMap(front)[last.name := last]
  }

  function PriorityIn(taskMap: map<Name, Task>): Name -> int
  {
    n => if n in taskMap then taskMap[n].priority else 0
  }

  // ---------------------------------------------------------------------------
  // Stable sort by descending priority
  // ---------------------------------------------------------------------------

  function Insert(x: Name, sorted: seq<Name>, priority: Name -> int): seq<Name>
  {
    if sorted == [] || priority(x) >= priority(sorted[0]) then [x] + sorted
    else [sorted[0]] + Insert(x, sorted[1..], priority)
  }

  function SortByPriority(names: seq<Name>, priority: Name -> int): seq<Name>
  {
    if names == [] then [] else Insert(names[0], SortByPriority(names[1..], priority), priority)
  }

  ghost predicate Descending(names: seq<Name>, priority: Name -> int)
  {
    forall i, j :: 0 <= i < j < |names| ==> priority(names[i]) >= priority(names[j])
  }

  lemma {:induction false} InsertPermutes(x: Name, sorted: seq<Name>, priority: Name -> int)
    ensures multiset(Insert(x, sorted, priority)) == multiset{x} + multiset(sorted)
  {
    if sorted == [] || priority(x) >= priority(sorted[0]) {
    } else {
      var rest := Insert(x, sorted[1..], priority);
      InsertPermutes(x, sorted[1..], priority);
      assert sorted == [sorted[0]] + sorted[1..];
    }
  }

  lemma {:induction false} InsertDescending(x: Name, sorted: seq<Name>, priority: Name -> int)
    requires Descending(sorted, priority)
    ensures Descending(Insert(x, sorted, priority), priority)
    ensures Insert(x, sorted, priority)[0] == x || (sorted != [] && Insert(x, sorted, priority)[0] == sorted[0])
  {
    if sorted != [] && priority(x) < priority(sorted[0]) {
      InsertDescending(x, sorted[1..], priority);
    }
  }

  /** Sorting rearranges its input into descending priority. */
  lemma {:induction false} SortCorrect(names: seq<Name>, priority: Name -> int)
    ensures Descending(SortByPriority(names, priority), priority)
    ensures multiset(SortByPriority(names, priority)) == multiset(names)
  {
    if names != [] {
      SortCorrect(names[1..], priority);
      InsertDescending(names[0], SortByPriority(names[1..], priority), priority);
      InsertPermutes(names[0], SortByPriority(names[1..], priority), priority);
      assert names == [names[0]] + names[1..];
    }
  }

  function AtLevel(priority: Name -> int, level: int): Name -> bool
  {
    n => priority(n) == level
  }

  /** Names of equal priority keep the order they came in. */
  lemma {:induction false} SortStable(names: seq<Name>, priority: Name -> int, level: int)
    ensures Filter(SortByPriority(names, priority), AtLevel(priority, level))
         == Filter(names, AtLevel(priority, level))
  {
    if names != [] {
      SortStable(names[1..], priority, level);
      InsertStable(names[0], SortByPriority(names[1..], priority), priority, level);
      SortCorrect(names[1..], priority);
    }
  }

  lemma {:induction false} InsertStable(x: Name, sorted: seq<Name>, priority: Name -> int, level: int)
    ensures Filter(Insert(x, sorted, priority), AtLevel(priority, level))
         == (if priority(x) == level then [x] else []) + Filter(sorted, AtLevel(priority, level))
  {
    if sorted != [] && priority(x) < priority(sorted[0]) {
      var rest := Insert(x, sorted[1..], priority);
      InsertStable(x, sorted[1..], priority, level);
      assert ([sorted[0]] + rest)[1..] == rest;
    } else {
      assert ([x] + sorted)[1..] == sorted;
    }
  }

  lemma {:induction false} FilterOfOrder(s: seq<Name>, p: Name -> bool, i: nat, j: nat)
    requires i < j < |s| && p(s[i]) && p(s[j])
    ensures Before(Filter(s, p), s[i], s[j])
  {
    var tail := Filter(s[1..], p);
    if i == 0 {
      assert s[1..][j - 1] == s[j];
      assert s[j] in tail;
      var k :| 0 <= k < |tail| && tail[k] == s[j];
      assert Filter(s, p) == [s[0]] + tail;
      assert Filter(s, p)[0] == s[0] && Filter(s, p)[k + 1] == s[j];
    } else {
      FilterOfOrder(s[1..], p, i - 1, j - 1);
      var a, b :| 0 <= a < b < |tail| && tail[a] == s[i] && tail[b] == s[j];
      if p(s[0]) {
        assert Filter(s, p)[a + 1] == s[i] && Filter(s, p)[b + 1] == s[j];
      }
    }
  }

  /** Sorting leaves names of equal priority as they were. */
  lemma SortKeepsOrder(names: seq<Name>, priority: Name -> int, i: nat, j: nat)
    requires i < j < |SortByPriority(names, priority)|
    requires var sorted := SortByPriority(names, priority); priority(sorted[i]) == priority(sorted[j])
    ensures var sorted := SortByPriority(names, priority); Before(names, sorted[i], sorted[j])
  {
    var sorted := SortByPriority(names, priority);
    var atLevel := AtLevel(priority, priority(sorted[i]));
    SortStable(names, priority, priority(sorted[i]));
    FilterOfOrder(sorted, atLevel, i, j);
    FilterKeepsOrder(names, atLevel, sorted[i], sorted[j]);
  }

  /** Names of equal priority stand in the list as they do in the keys. */
  ghost predicate TiesInOrder(keys: seq<Name>, names: seq<Name>, priority: Name -> int)
  {
    forall i, j :: 0 <= i < j < |names| && priority(names[i]) == priority(names[j]) ==> Before(keys, names[i], names[j])
  }

  lemma SortedFilterTies(keys: seq<Name>, p: Name -> bool, q: Name -> bool, priority: Name -> int)
    ensures TiesInOrder(keys, SortByPriority(Filter(Filter(keys, p), q), priority), priority)
  {
    var some := Filter(keys, p);
    var sorted := SortByPriority(Filter(some, q), priority);
    forall i, j | 0 <= i < j < |sorted| && priority(sorted[i]) == priority(sorted[j])
      ensures Before(keys, sorted[i], sorted[j])
    {
      SortKeepsOrder(Filter(some, q), priority, i, j);
      FilterKeepsOrder(some, q, sorted[i], sorted[j]);
      FilterKeepsOrder(keys, p, sorted[i], sorted[j]);
    }
  }

  /** What the rest of the project needs of a sorted list of distinct names. */
  lemma SortKeepsNames(names: seq<Name>, priority: Name -> int)
    requires NoDup(names)
    ensures NoDup(SortByPriority(names, priority))
    ensures Elems(SortByPriority(names, priority)) == Elems(names)
    ensures |SortByPriority(names, priority)| == |names|
  {
    var sorted := SortByPriority(names, priority);
    SortCorrect(names, priority);
    assert |multiset(sorted)| == |multiset(names)|;
    forall x ensures x in sorted <==> x in names {
      assert x in sorted <==> x in multiset(sorted);
      assert x in names <==> x in multiset(names);
    }
    NoDupFromCardinality(names, sorted);
  }

  lemma NoDupFromCardinality(names: seq<Name>, sorted: seq<Name>)
    requires NoDup(names) && multiset(names) == multiset(sorted)
    ensures NoDup(sorted)
  {
    forall i, j | 0 <= i < j < |sorted| ensures sorted[i] != sorted[j] {
      if sorted[i] == sorted[j] {
        OccursTwice(sorted, i, j);
        OccursOnce(names, sorted[i]);
      }
    }
  }

  lemma OccursTwice(s: seq<Name>, i: nat, j: nat)
    requires i < j < |s| && s[i] == s[j]
    ensures multiset(s)[s[i]] >= 2
  {
    assert s == s[..j] + [s[j]] + s[j + 1..];
    assert s[..j][i] == s[i];
    assert s[i] in s[..j];
  }

  lemma {:induction false} OccursOnce(s: seq<Name>, x: Name)
    requires NoDup(s)
    ensures multiset(s)[x] <= 1
  {
    if s != [] {
      OccursOnce(s[1..], x);
      assert s == [s[0]] + s[1..];
      assert s[0] !in s[1..];
    }
  }

  // ---------------------------------------------------------------------------
  // Phases: layer by layer
  // ---------------------------------------------------------------------------

  ghost predicate InPhases(phases: seq<seq<Name>>, v: Name)
  {
    exists i :: 0 <= i < |phases| && v in phases[i]
  }

  /** The phases found so far hold the nodes whose longest incoming chain they are numbered by;
      every other node ends a chain longer than the number of phases. */
  ghost predicate Layered(adj: Adjacency, phases: seq<seq<Name>>, completed: set<Name>)
  {
    && completed <= adj.Keys
    && (forall v :: v in completed <==> InPhases(phases, v))
    && (forall i, v {:trigger v in phases[i]} :: 0 <= i < |phases| && v in phases[i] ==>
          ChainOfLength(adj, v, i + 1) && ChainsWithin(adj, v, i + 1))
    && (forall v :: v in adj && v !in completed ==> ChainOfLength(adj, v, |phases| + 1))
  }

  lemma LayeredStart(adj: Adjacency)
    ensures Layered(adj, [], {})
  {
    forall v | v in adj ensures ChainOfLength(adj, v, 1) {
      assert IsPath(adj, [v]);
    }
  }

  /** Chains through a completed dependency only: one node longer than the longest of theirs. */
  lemma ReadyChainsWithin(adj: Adjacency, phases: seq<seq<Name>>, completed: set<Name>, v: Name)
    requires Layered(adj, phases, completed) && Preds(adj, v) <= completed
    ensures ChainsWithin(adj, v, |phases| + 1)
  {
    forall p | IsPath(adj, p) && p[|p| - 1] == v ensures |p| <= |phases| + 1 {
      if |p| >= 2 {
        PathDropLast(adj, p);
        assert p[|p| - 2] in Preds(adj, v);
        CompletedChainsWithin(adj, phases, completed, p[|p| - 2], p[..|p| - 1]);
      }
    }
  }

  lemma CompletedChainsWithin(adj: Adjacency, phases: seq<seq<Name>>, completed: set<Name>, u: Name, p: seq<Name>)
    requires Layered(adj, phases, completed) && u in completed && IsPath(adj, p) && p[|p| - 1] == u
    ensures |p| <= |phases|
  {
    hide ChainOfLength;
    assert InPhases(phases, u);
    var i :| 0 <= i < |phases| && u in phases[i];
    assert ChainsWithin(adj, u, i + 1);
  }

  lemma BlockedChainGrows(adj: Adjacency, phases: seq<seq<Name>>, completed: set<Name>, v: Name)
    requires Layered(adj, phases, completed) && v in adj && !(Preds(adj, v) <= completed)
    ensures ChainOfLength(adj, v, |phases| + 2)
  {
    var u :| u in Preds(adj, v) && u !in completed;
    var p :| IsPath(adj, p) && p[|p| - 1] == u && |p| == |phases| + 1;
    PathExtend(adj, p, v);
  }

  lemma AddLayer(adj: Adjacency, phases: seq<seq<Name>>, completed: set<Name>, layer: seq<Name>)
    requires Layered(adj, phases, completed)
    requires forall v :: v in layer <==> v in adj && v !in completed && Preds(adj, v) <= completed
    ensures Layered(adj, phases + [layer], completed + Elems(layer))
  {
    var phases', completed' := phases + [layer], completed + Elems(layer);
    forall v | v in completed' ensures InPhases(phases', v) {
      if v in completed {
        var i :| 0 <= i < |phases| && v in phases[i];
        assert v in phases'[i];
      } else {
        assert v in phases'[|phases|];
      }
    }
    forall v | InPhases(phases', v) ensures v in completed' {
      var i :| 0 <= i < |phases'| && v in phases'[i];
      assert i < |phases| ==> v in phases[i];
    }
    forall i, v | 0 <= i < |phases'| && v in phases'[i]
      ensures ChainOfLength(adj, v, i + 1) && ChainsWithin(adj, v, i + 1)
    {
      if i < |phases| {
        assert v in phases[i];
      } else {
        ReadyChainsWithin(adj, phases, completed, v);
      }
    }
    forall v | v in adj && v !in completed' ensures ChainOfLength(adj, v, |phases'| + 1) {
      BlockedChainGrows(adj, phases, completed, v);
    }
  }

  /** Below the last phase some node is always ready: the no-progress exit is never taken. */
  lemma SomeNodeReady(adj: Adjacency, completed: set<Name>)
    requires Acyclic(adj) && completed <= adj.Keys && |completed| < |adj|
    ensures exists v :: v in adj && v !in completed && Preds(adj, v) <= completed
  {
    var left := adj.Keys - completed;
    assert left != {} by {
      SmallerSubset(completed, adj.Keys);
    }
    var v := AcyclicSetHasSource(adj, left);
    forall u | u in Preds(adj, v) ensures u in completed {
      assert u in left ==> u in Preds(adj, v) * left;
    }
  }

  ghost predicate LayersTidy(phases: seq<seq<Name>>, priority: Name -> int)
  {
    forall i :: 0 <= i < |phases| ==> phases[i] != [] && NoDup(phases[i]) && Descending(phases[i], priority)
  }

  /** Each name is in exactly the phase its longest incoming chain says, highest priority first. */
  ghost predicate PhasesCorrect(adj: Adjacency, phases: seq<seq<Name>>, priority: Name -> int)
  {
    && (forall i, v {:trigger v in phases[i]} :: 0 <= i < |phases| ==>
        (v in phases[i] <==> v in adj && LongestChainTo(adj, v, i + 1)))
    && (forall v :: v in adj ==> InPhases(phases, v))
    && LayersTidy(phases, priority)
  }

  lemma LayeredDone(adj: Adjacency, phases: seq<seq<Name>>, i: nat, v: Name)
    requires Layered(adj, phases, adj.Keys) && i < |phases|
    ensures v in phases[i] <==> v in adj && LongestChainTo(adj, v, i + 1)
    ensures v in adj ==> InPhases(phases, v)
  {
    hide ChainOfLength, ChainsWithin;
    if v in phases[i] {
      assert InPhases(phases, v);
    } else if v in adj && LongestChainTo(adj, v, i + 1) {
      assert InPhases(phases, v);
      var j :| 0 <= j < |phases| && v in phases[j];
      LongestChainUnique(adj, v, i + 1, j + 1);
    }
  }

  lemma LayeredCorrect(adj: Adjacency, phases: seq<seq<Name>>, priority: Name -> int)
    requires Layered(adj, phases, adj.Keys) && LayersTidy(phases, priority)
    ensures PhasesCorrect(adj, phases, priority)
  {
    hide LongestChainTo;
    forall i, v | 0 <= i < |phases| ensures v in phases[i] <==> v in adj && LongestChainTo(adj, v, i + 1) {
      LayeredDone(adj, phases, i, v);
    }
  }

  lemma SortedLayer(layer: seq<Name>, priority: Name -> int)
    requires NoDup(layer) && layer != []
    ensures var sorted := SortByPriority(layer, priority);
            sorted != [] && NoDup(sorted) && Descending(sorted, priority) && forall v :: v in sorted <==> v in layer
  {
    var sorted := SortByPriority(layer, priority);
    SortKeepsNames(layer, priority);
    SortCorrect(layer, priority);
    forall v ensures v in sorted <==> v in layer {
      assert v in Elems(sorted) <==> v in Elems(layer);
    }
  }

  method BuildPhases(dag: DAG, priority: Name -> int) returns (phases: seq<seq<Name>>)
    requires dag.Valid() && Acyclic(dag.adjacency)
    ensures PhasesCorrect(dag.adjacency, phases, priority)
    ensures forall i :: 0 <= i < |phases| ==> TiesInOrder(dag.keys, phases[i], priority)
  {
    hide Layered, Acyclic, WellFormed, Descending, SortByPriority, LongestChainTo, PhasesCorrect, NoDup,
      Elems, TiesInOrder;
    phases := [];
    var completed: set<Name> := {};
    LayeredStart(dag.adjacency);
    LayeredFits(dag.adjacency, phases, completed);
    while |completed| < |dag.adjacency|
      invariant completed <= dag.adjacency.Keys
      invariant Layered(dag.adjacency, phases, completed)
      invariant LayersTidy(phases, priority)
      invariant forall i :: 0 <= i < |phases| ==> TiesInOrder(dag.keys, phases[i], priority)
      decreases |dag.adjacency| - |completed|
    {
      var ready := dag.GetReadyNodes(completed);
      var layer := Filter(ready, n => n !in completed);
      SomeNodeReady(dag.adjacency, completed);
      assert layer != [];
      if layer == [] {
        break;
      }
      FilterNoDup(ready, n => n !in completed);
      SortedLayer(layer, priority);
      LayerTies(dag.keys, dag.adjacency, completed, priority);
      layer := SortByPriority(layer, priority);
      AddLayer(dag.adjacency, phases, completed, layer);
      Grows(completed, layer);
      phases := phases + [layer];
      completed := completed + Elems(layer);
      LayeredFits(dag.adjacency, phases, completed);
    }
    SubsetCardinality(completed, dag.adjacency.Keys);
    assert |dag.adjacency| == |dag.adjacency.Keys|;
    LayeredCorrect(dag.adjacency, phases, priority);
  }

  lemma LayerTies(keys: seq<Name>, adj: Adjacency, completed: set<Name>, priority: Name -> int)
    ensures var layer := Filter(ReadyNodes(keys, adj, completed), n => n !in completed);
            TiesInOrder(keys, SortByPriority(layer, priority), priority)
  {
    SortedFilterTies(keys, v => v !in completed && Preds(adj, v) <= completed, n => n !in completed, priority);
  }

  lemma LayeredFits(adj: Adjacency, phases: seq<seq<Name>>, completed: set<Name>)
    requires Layered(adj, phases, completed)
    ensures completed <= adj.Keys
  {
  }

  lemma Grows(completed: set<Name>, layer: seq<Name>)
    requires layer != [] && layer[0] !in completed
    ensures |completed| < |completed + Elems(layer)|
  {
    assert layer[0] in Elems(layer);
    SubsetCardinality(completed, completed + Elems(layer));
  }
}
