/** Longest chains by relaxing edges in topological order, the walk back along predecessors,
    and the dry run that puts both plans together. */
module CriticalPaths {
  import opened Prelude
  import opened Graphs
  import opened Dags
  import opened Workflows
  import opened Planner

  /** Node count of the longest chain found so far that ends at a node, and the node before it. */
  datatype Dist = Dist(len: nat, pred: Option<Name>)

  ghost predicate EntryBacked(adj: Adjacency, dist: map<Name, Dist>, processed: set<Name>, v: Name)
  {
    && v in dist
    && match dist[v].pred
       case None => dist[v].len == 1
       case Some(u) => u in processed && u in dist && Edge(adj, u, v) && dist[v].len == dist[u].len + 1
  }

  /** Every entry is backed by a chain: the recorded predecessor has a chain one node shorter. */
  ghost predicate Backed(adj: Adjacency, dist: map<Name, Dist>, processed: set<Name>)
  {
    && dist.Keys == adj.Keys
    && forall v {:trigger EntryBacked(adj, dist, processed, v)} :: v in adj ==> EntryBacked(adj, dist, processed, v)
  }

  /** No processed edge can improve an entry, except those from `node` into `rest`. */
  ghost predicate Relaxed(adj: Adjacency, dist: map<Name, Dist>, processed: set<Name>, node: Name, rest: set<Name>)
  {
    && dist.Keys == adj.Keys
    && (forall v {:trigger dist[v]} :: v in adj ==> dist[v].len >= 1)
    && forall u, v {:trigger Edge(adj, u, v)} ::
         Edge(adj, u, v) && u in processed && v in adj && !(u == node && v in rest) ==>
         dist[u].len + 1 <= dist[v].len
  }

  lemma StartDist(adj: Adjacency, node: Name)
    ensures Backed(adj, map n | n in adj :: Dist(1, None), {})
    ensures Relaxed(adj, map n | n in adj :: Dist(1, None), {}, node, {})
  {
  }

  lemma ImproveBacked(adj: Adjacency, dist: map<Name, Dist>, processed: set<Name>, node: Name, v: Name)
    requires Backed(adj, dist, processed)
    requires node in processed && Edge(adj, node, v) && v in adj && v !in processed
    ensures Backed(adj, dist[v := Dist(dist[node].len + 1, Some(node))], processed)
  {
    var dist' := dist[v := Dist(dist[node].len + 1, Some(node))];
    forall w | w in adj ensures EntryBacked(adj, dist', processed, w) {
      assert EntryBacked(adj, dist, processed, w);
    }
  }

  lemma ImproveRelaxed(adj: Adjacency, dist: map<Name, Dist>, processed: set<Name>, node: Name, rest: set<Name>,
                       v: Name)
    requires Relaxed(adj, dist, processed, node, rest)
    requires node in processed && Edge(adj, node, v) && v in adj && v !in processed
    requires dist[node].len + 1 > dist[v].len
    ensures Relaxed(adj, dist[v := Dist(dist[node].len + 1, Some(node))], processed, node, rest - {v})
  {
    var dist' := dist[v := Dist(dist[node].len + 1, Some(node))];
    forall a, b | Edge(adj, a, b) && a in processed && b in adj && !(a == node && b in rest - {v})
      ensures dist'[a].len + 1 <= dist'[b].len
    {
      assert dist'[a] == dist[a];
      if b == v {
        assert a == node || dist[a].len + 1 <= dist[v].len;
      }
    }
  }

  lemma AlreadyRelaxed(adj: Adjacency, dist: map<Name, Dist>, processed: set<Name>, node: Name, rest: set<Name>,
                       v: Name)
    requires Relaxed(adj, dist, processed, node, rest) && node in adj && v in adj
    requires dist[node].len + 1 <= dist[v].len
    ensures Relaxed(adj, dist, processed, node, rest - {v})
  {
  }

  /** Relaxing one edge out of the node being processed, into a node not processed yet. */
  lemma RelaxEdge(adj: Adjacency, dist: map<Name, Dist>, processed: set<Name>, node: Name, rest: set<Name>, v: Name)
    requires Backed(adj, dist, processed) && Relaxed(adj, dist, processed, node, rest)
    requires node in processed && node in adj && Edge(adj, node, v) && v in adj && v !in processed
    ensures var longer := dist[node].len + 1;
            var dist' := if longer > dist[v].len then dist[v := Dist(longer, Some(node))] else dist;
            Backed(adj, dist', processed) && Relaxed(adj, dist', processed, node, rest - {v})
  {
    assert dist.Keys == adj.Keys;
    hide Backed, Relaxed;
    if dist[node].len + 1 > dist[v].len {
      ImproveBacked(adj, dist, processed, node, v);
      ImproveRelaxed(adj, dist, processed, node, rest, v);
    } else {
      AlreadyRelaxed(adj, dist, processed, node, rest, v);
    }
  }

  /** Moving on to the next node of the order leaves exactly its own edges to relax. */
  lemma NextNode(adj: Adjacency, dist: map<Name, Dist>, processed: set<Name>, before: Name, node: Name)
    requires Backed(adj, dist, processed) && Relaxed(adj, dist, processed, before, {}) && node in adj
    ensures Backed(adj, dist, processed + {node}) && Relaxed(adj, dist, processed + {node}, node, adj[node])
  {
    forall w | w in adj ensures EntryBacked(adj, dist, processed + {node}, w) {
      assert EntryBacked(adj, dist, processed, w);
    }
  }

  /** In a topological order no edge leads back into the part already processed. */
  lemma SuccessorsAhead(adj: Adjacency, topo: seq<Name>, k: nat, v: Name)
    requires IsTopologicalOrder(adj, topo) && k < |topo| && Edge(adj, topo[k], v)
    ensures v !in Elems(topo[..k + 1])
  {
    assert topo[k] in Preds(adj, v);
    forall j | 0 <= j <= k ensures topo[j] != v {
      assert topo[k] !in topo[..j];
      assert topo[k] !in Preds(adj, topo[j]);
    }
  }

  lemma PrefixGrows(topo: seq<Name>, k: nat)
    requires k < |topo|
    ensures Elems(topo[..k + 1]) == Elems(topo[..k]) + {topo[k]}
  {
    assert topo[..k + 1] == topo[..k] + [topo[k]];
  }

  /** After relaxation every edge is settled, so each entry bounds every chain into its node. */
  lemma RelaxedBounds(adj: Adjacency, dist: map<Name, Dist>, node: Name, p: seq<Name>)
    requires Closed(adj) && Backed(adj, dist, adj.Keys) && Relaxed(adj, dist, adj.Keys, node, {})
    requires IsPath(adj, p)
    ensures p[|p| - 1] in dist && |p| <= dist[p[|p| - 1]].len
  {
    var rank: map<Name, int> := map v | v in dist :: dist[v].len;
    forall u, v | Edge(adj, u, v) ensures u in rank && v in rank && rank[u] + 1 <= rank[v] {}
    forall v | v in adj ensures rank[v] >= 1 { assert dist[v].len >= 1; }
    ChainBoundedByRank(adj, rank, p);
  }

  /** After relaxation each entry is the node count of the longest chain that ends at its node. */
  lemma {:induction false} DistIsLongest(adj: Adjacency, dist: map<Name, Dist>, node: Name, v: Name)
    requires Closed(adj) && Backed(adj, dist, adj.Keys) && Relaxed(adj, dist, adj.Keys, node, {})
    requires v in adj
    ensures LongestChainTo(adj, v, dist[v].len)
    decreases dist[v].len
  {
    forall p | IsPath(adj, p) && p[|p| - 1] == v ensures |p| <= dist[v].len {
      RelaxedBounds(adj, dist, node, p);
    }
    BackedChain(adj, dist, v);
  }

  lemma {:induction false} BackedChain(adj: Adjacency, dist: map<Name, Dist>, v: Name)
    requires Backed(adj, dist, adj.Keys) && v in adj
    ensures ChainOfLength(adj, v, dist[v].len)
    decreases dist[v].len
  {
    assert EntryBacked(adj, dist, adj.Keys, v);
    match dist[v].pred
    case None =>
      assert IsPath(adj, [v]);
    case Some(u) =>
      BackedChain(adj, dist, u);
      var p :| IsPath(adj, p) && p[|p| - 1] == u && |p| == dist[u].len;
      PathExtend(adj, p, v);
  }

  /** Relaxes every edge out of `node`, in an arbitrary order. */
  method RelaxFrom(adj: Adjacency, node: Name, start: map<Name, Dist>, ghost processed: set<Name>)
    returns (dist: map<Name, Dist>)
    requires Closed(adj) && node in adj && node in processed && adj[node] !! processed
    requires Backed(adj, start, processed) && Relaxed(adj, start, processed, node, adj[node])
    ensures Backed(adj, dist, processed) && Relaxed(adj, dist, processed, node, {})
  {
    hide Relaxed, EntryBacked;
    dist := start;
    var rest := adj[node];
    while rest != {}
      invariant rest <= adj[node]
      invariant Backed(adj, dist, processed) && Relaxed(adj, dist, processed, node, rest)
    {
      var neighbour :| neighbour in rest;
      assert Edge(adj, node, neighbour);
      RelaxEdge(adj, dist, processed, node, rest, neighbour);
      var newLen := dist[node].len + 1;
      if newLen > dist[neighbour].len {
        dist := dist[neighbour := Dist(newLen, Some(node))];
      }
      rest := rest - {neighbour};
    }
  }

  method LongestPaths(adj: Adjacency, topo: seq<Name>) returns (dist: map<Name, Dist>)
    requires Closed(adj) && IsTopologicalOrder(adj, topo)
    ensures dist.Keys == adj.Keys
    ensures forall v :: v in adj ==> LongestChainTo(adj, v, dist[v].len)
    ensures Backed(adj, dist, adj.Keys)
    ensures exists node :: Relaxed(adj, dist, adj.Keys, node, {})
  {
    hide *;
    dist := map n | n in adj :: Dist(1, None);
    ghost var last := Name("");
    ghost var processed: set<Name> := {};
    StartDist(adj, last);
    StartOrder(topo);
    for k := 0 to |topo|
      invariant processed == Elems(topo[..k])
      invariant Backed(adj, dist, processed) && Relaxed(adj, dist, processed, last, {})
    {
      var node := topo[k];
      NextInOrder(adj, topo, k);
      NextNode(adj, dist, processed, last, node);
      processed := processed + {node};
      dist := RelaxFrom(adj, node, dist, processed);
      last := node;
    }
    EndOrder(adj, topo);
    AllLongest(adj, dist, last);
  }

  lemma StartOrder(topo: seq<Name>)
    ensures Elems(topo[..0]) == {}
  {
  }

  lemma EndOrder(adj: Adjacency, topo: seq<Name>)
    requires IsTopologicalOrder(adj, topo)
    ensures Elems(topo[..|topo|]) == adj.Keys
  {
    assert topo[..|topo|] == topo;
  }

  lemma NextInOrder(adj: Adjacency, topo: seq<Name>, k: nat)
    requires IsTopologicalOrder(adj, topo) && k < |topo|
    ensures topo[k] in adj
    ensures Elems(topo[..k + 1]) == Elems(topo[..k]) + {topo[k]}
    ensures adj[topo[k]] !! Elems(topo[..k + 1])
  {
    assert topo[k] in Elems(topo);
    PrefixGrows(topo, k);
    forall v | v in adj[topo[k]] ensures v !in Elems(topo[..k + 1]) {
      SuccessorsAhead(adj, topo, k, v);
    }
  }

  lemma AllLongest(adj: Adjacency, dist: map<Name, Dist>, last: Name)
    requires Closed(adj) && Backed(adj, dist, adj.Keys) && Relaxed(adj, dist, adj.Keys, last, {})
    ensures dist.Keys == adj.Keys
    ensures forall v :: v in adj ==> LongestChainTo(adj, v, dist[v].len)
  {
    forall v | v in adj ensures LongestChainTo(adj, v, dist[v].len) {
      DistIsLongest(adj, dist, last, v);
    }
  }

  // ---------------------------------------------------------------------------
  // The walk back from the end node
  // ---------------------------------------------------------------------------

  /** The first node of `topo` with the largest entry. */
  function EndNode(topo: seq<Name>, dist: map<Name, Dist>): (end: Name)
    requires topo != [] && forall v :: v in topo ==> v in dist
    ensures end in topo && forall v :: v in topo ==> dist[v].len <= dist[end].len
  {
    if |topo| == 1 then topo[0]
    else
      var rest := topo[..|topo| - 1];
      var best, last := EndNode(rest, dist), topo[|topo| - 1];
      assert topo == rest + [last];
      if dist[last].len > dist[best].len then last else best
  }

  function Reversed(s: seq<Name>): seq<Name>
  {
    seq(|s|, i requires 0 <= i < |s| => s[|s| - 1 - i])
  }

  /** Part of the walk: `cur` is the next node to append and `path` the nodes appended so far. */
  ghost predicate Walking(adj: Adjacency, dist: map<Name, Dist>, end: Name, path: seq<Name>, cur: Option<Name>)
  {
    && end in dist
    && (path == [] ==> cur == Some(end))
    && (path != [] ==>
          && path[0] == end && IsPath(adj, Reversed(path))
          && path[|path| - 1] in dist && dist[path[|path| - 1]].pred == cur)
    && (cur.Some? ==> cur.value in dist && |path| + dist[cur.value].len == dist[end].len)
    && (cur.None? ==> |path| == dist[end].len)
  }

  lemma WalkStep(adj: Adjacency, dist: map<Name, Dist>, end: Name, path: seq<Name>, cur: Option<Name>)
    requires Backed(adj, dist, adj.Keys) && Walking(adj, dist, end, path, cur) && cur.Some?
    ensures Walking(adj, dist, end, path + [cur.value], dist[cur.value].pred)
  {
    var u := cur.value;
    assert EntryBacked(adj, dist, adj.Keys, u);
    ReversedSnoc(path, u);
    if path != [] {
      assert EntryBacked(adj, dist, adj.Keys, path[|path| - 1]);
      assert Edge(adj, u, path[|path| - 1]);
      ReversedEnds(path);
      hide Reversed, Backed;
      PathPrepend(adj, u, Reversed(path));
    } else {
      hide Backed;
      assert Reversed(path + [u]) == [u];
      assert IsPath(adj, [u]);
    }
  }

  lemma ReversedSnoc(path: seq<Name>, u: Name)
    ensures Reversed(path + [u]) == [u] + Reversed(path)
  {
  }

  method WalkBack(adj: Adjacency, dist: map<Name, Dist>, end: Name) returns (path: seq<Name>)
    requires Backed(adj, dist, adj.Keys) && end in adj
    ensures IsPath(adj, path) && path[|path| - 1] == end && |path| == dist[end].len
    ensures path[0] in dist && dist[path[0]].len == 1
  {
    hide IsPath, Reversed, Edge;
    path := [];
    var cur := Some(end);
    while cur != None
      invariant Walking(adj, dist, end, path, cur)
      invariant cur.Some? ==> cur.value in dist
      decreases if cur.None? then 0 else dist[cur.value].len + 1
    {
      WalkStep(adj, dist, end, path, cur);
      assert EntryBacked(adj, dist, adj.Keys, cur.value);
      path := path + [cur.value];
      cur := dist[cur.value].pred;
    }
    assert EntryBacked(adj, dist, adj.Keys, path[|path| - 1]);
    ReversedEnds(path);
    path := Reversed(path);
  }

  lemma ReversedEnds(path: seq<Name>)
    requires path != []
    ensures |Reversed(path)| == |path|
    ensures Reversed(path)[0] == path[|path| - 1] && Reversed(path)[|path| - 1] == path[0]
  {
  }

  // ---------------------------------------------------------------------------
  // The dry run
  // ---------------------------------------------------------------------------

  /** A longest chain of dependencies, from a node without dependencies to one without dependents. */
  ghost predicate CriticalPathCorrect(adj: Adjacency, path: seq<Name>)
  {
    && IsPath(adj, path)
    && Preds(adj, path[0]) == {}
    && path[|path| - 1] in adj && adj[path[|path| - 1]] == {}
    && forall p :: IsPath(adj, p) ==> |p| <= |path|
  }

  lemma EdgeLengthens(adj: Adjacency, dist: map<Name, Dist>, node: Name, u: Name, v: Name)
    requires Closed(adj) && Relaxed(adj, dist, adj.Keys, node, {})
    ensures Edge(adj, u, v) ==> u in dist && v in dist && 1 <= dist[u].len < dist[v].len
  {
  }

  lemma WalkIsCritical(adj: Adjacency, dist: map<Name, Dist>, node: Name, end: Name, path: seq<Name>)
    requires Closed(adj) && Backed(adj, dist, adj.Keys) && Relaxed(adj, dist, adj.Keys, node, {})
    requires end in adj && forall v :: v in adj ==> dist[v].len <= dist[end].len
    requires IsPath(adj, path) && path[|path| - 1] == end && |path| == dist[end].len
    requires path[0] in dist && dist[path[0]].len == 1
    ensures CriticalPathCorrect(adj, path)
  {
    forall p | IsPath(adj, p) ensures |p| <= |path| {
      RelaxedBounds(adj, dist, node, p);
    }
    forall u ensures u !in Preds(adj, path[0]) {
      EdgeLengthens(adj, dist, node, u, path[0]);
    }
    forall v ensures v !in adj[end] {
      EdgeLengthens(adj, dist, node, end, v);
    }
  }

  /** Two unrelated computations agree: the number of phases is the length of the critical path. */
  lemma PlanDuality(adj: Adjacency, phases: seq<seq<Name>>, priority: Name -> int, path: seq<Name>)
    requires Closed(adj) && PhasesCorrect(adj, phases, priority) && CriticalPathCorrect(adj, path)
    ensures |phases| == |path|
  {
    hide *;
    EndOfCriticalPath(adj, path);
    AtLeastAsManyPhases(adj, phases, priority, path[|path| - 1], |path|);
    AtMostAsManyPhases(adj, phases, priority, path);
  }

  lemma AtLeastAsManyPhases(adj: Adjacency, phases: seq<seq<Name>>, priority: Name -> int, v: Name, k: nat)
    requires PhasesCorrect(adj, phases, priority) && v in adj && LongestChainTo(adj, v, k)
    ensures 1 <= k <= |phases|
  {
    hide LongestChainTo;
    var i := PhaseOf(adj, phases, priority, v);
    LongestChainUnique(adj, v, i + 1, k);
  }

  lemma AtMostAsManyPhases(adj: Adjacency, phases: seq<seq<Name>>, priority: Name -> int, path: seq<Name>)
    requires PhasesCorrect(adj, phases, priority) && CriticalPathCorrect(adj, path) && |phases| > 0
    ensures |phases| <= |path|
  {
    hide PhasesCorrect, CriticalPathCorrect;
    var v := SomeLast(adj, phases, priority);
    LastPhaseChain(adj, phases, priority, |phases| - 1, v);
    NoChainLonger(adj, path, v, |phases|);
  }

  lemma EndOfCriticalPath(adj: Adjacency, path: seq<Name>)
    requires CriticalPathCorrect(adj, path)
    ensures |path| > 0 && path[|path| - 1] in adj && LongestChainTo(adj, path[|path| - 1], |path|)
  {
  }

  lemma SomeLast(adj: Adjacency, phases: seq<seq<Name>>, priority: Name -> int) returns (v: Name)
    requires PhasesCorrect(adj, phases, priority) && |phases| > 0
    ensures v in phases[|phases| - 1]
  {
    v := phases[|phases| - 1][0];
  }

  lemma NoChainLonger(adj: Adjacency, path: seq<Name>, v: Name, k: nat)
    requires CriticalPathCorrect(adj, path) && ChainOfLength(adj, v, k)
    ensures k <= |path|
  {
    var p :| IsPath(adj, p) && p[|p| - 1] == v && |p| == k;
  }

  lemma PhaseOf(adj: Adjacency, phases: seq<seq<Name>>, priority: Name -> int, v: Name) returns (i: nat)
    requires PhasesCorrect(adj, phases, priority) && v in adj
    ensures i < |phases| && v in phases[i] && LongestChainTo(adj, v, i + 1)
  {
    hide LongestChainTo;
    assert InPhases(phases, v);
    i :| 0 <= i < |phases| && v in phases[i];
  }

  lemma LastPhaseChain(adj: Adjacency, phases: seq<seq<Name>>, priority: Name -> int, n: nat, v: Name)
    requires PhasesCorrect(adj, phases, priority) && n < |phases| && v in phases[n]
    ensures ChainOfLength(adj, v, n + 1)
  {
    assert LongestChainTo(adj, v, n + 1);
  }

  /** The phases are the earliest layering: any assignment of layers that puts every task after
      its dependencies needs at least as many layers, and places no task earlier. */
  lemma PhasesAreEarliest(adj: Adjacency, phases: seq<seq<Name>>, priority: Name -> int, layer: map<Name, int>, i: nat,
                          v: Name)
    requires Closed(adj) && PhasesCorrect(adj, phases, priority)
    requires layer.Keys == adj.Keys && forall u :: u in adj ==> layer[u] >= 0
    requires forall u, w :: Edge(adj, u, w) ==> layer[u] < layer[w]
    requires i < |phases| && v in phases[i]
    ensures v in layer && i <= layer[v]
    ensures exists w :: w in layer && layer[w] >= |phases| - 1
  {
    NoEarlierLayer(adj, layer, v, i + 1);
    var w := SomeLast(adj, phases, priority);
    NoEarlierLayer(adj, layer, w, |phases|);
  }

  /** A phase lists its tasks highest priority first, and ties in the order in which the task list first mentions
      their names, as a task or as a dependency. */
  ghost predicate PhaseInTurn(tasks: seq<Task>, phase: seq<Name>)
  {
    && (forall n :: n in phase ==> n in TaskMap(tasks) && n in Mentioned(tasks))
    && forall i, j :: 0 <= i < j < |phase| ==>
         var a, b := phase[i], phase[j];
         && TaskMap(tasks)[a].priority >= TaskMap(tasks)[b].priority
         && (TaskMap(tasks)[a].priority == TaskMap(tasks)[b].priority ==>
               IndexOf(Mentioned(tasks), a) < IndexOf(Mentioned(tasks), b))
  }

  lemma PhasesInTurn(tasks: seq<Task>, keys: seq<Name>, phases: seq<seq<Name>>, i: nat)
    requires PhasesCorrect(DeclaredGraph(tasks), phases, PriorityIn(TaskMap(tasks))) && i < |phases|
    requires keys == FirstSeen(Mentioned(tasks)) && TiesInOrder(keys, phases[i], PriorityIn(TaskMap(tasks)))
    requires Elems(keys) == TaskNames(tasks)
    ensures PhaseInTurn(tasks, phases[i])
  {
    var phase := phases[i];
    hide LongestChainTo, TaskMap, Mentioned, FirstSeen, TiesInOrder, Descending, PriorityIn;
    forall n | n in phase ensures n in TaskMap(tasks) && n in keys {
      assert n in DeclaredGraph(tasks) && n in Elems(keys);
    }
    PhaseWritten(tasks, keys, phase);
  }

  lemma PhaseWritten(tasks: seq<Task>, keys: seq<Name>, phase: seq<Name>)
    requires keys == FirstSeen(Mentioned(tasks)) && forall n :: n in phase ==> n in TaskMap(tasks) && n in keys
    requires Descending(phase, PriorityIn(TaskMap(tasks))) && TiesInOrder(keys, phase, PriorityIn(TaskMap(tasks)))
    ensures PhaseInTurn(tasks, phase)
  {
    var priority := PriorityIn(TaskMap(tasks));
    hide TaskMap, Mentioned, FirstSeen, Before;
    forall n | n in phase ensures n in Mentioned(tasks) {
      FirstSeenHas(Mentioned(tasks), n);
    }
    forall x, y | 0 <= x < y < |phase| && priority(phase[x]) == priority(phase[y])
      ensures phase[x] in Mentioned(tasks) && phase[y] in Mentioned(tasks)
      ensures IndexOf(Mentioned(tasks), phase[x]) < IndexOf(Mentioned(tasks), phase[y])
    {
      FirstSeenOrder(Mentioned(tasks), phase[x], phase[y]);
    }
  }

  /** Everything a dry run reports, stated on the declared graph alone. */
  ghost predicate PlanCorrect(tasks: seq<Task>, plan: ExecutionPlan)
  {
    var adj := DeclaredGraph(tasks);
    && PhasesCorrect(adj, plan.phases, PriorityIn(TaskMap(tasks)))
    && (forall i :: 0 <= i < |plan.phases| ==> PhaseInTurn(tasks, plan.phases[i]))
    && plan.totalTasks == |TaskNames(tasks)|
    && CriticalPathCorrect(adj, plan.criticalPath)
    && plan.criticalPathLength == |plan.criticalPath| == |plan.phases|
  }

  lemma NoTasksNoNodes(tasks: seq<Task>, topo: seq<Name>)
    requires Elems(topo) == TaskNames(tasks)
    ensures topo == [] <==> tasks == []
  {
    assert tasks != [] ==> tasks[0].name in TaskNames(tasks);
    assert topo != [] ==> topo[0] in Elems(topo);
  }

  lemma EntriesOf(adj: Adjacency, topo: seq<Name>, end: Name)
    requires Elems(topo) == adj.Keys
    ensures end in topo <==> end in adj
    ensures forall v :: v in adj ==> v in topo
  {
    forall v | v in adj ensures v in topo { assert v in Elems(topo); }
    assert end in topo <==> end in Elems(topo);
  }

  lemma NoTasksNoErrors(tasks: seq<Task>)
    ensures tasks == [] ==> DepsKnown(tasks) && Acyclic(DeclaredGraph(tasks))
  {
    var adj := DeclaredGraph(tasks);
    forall p | IsCycle(adj, p) ensures tasks != [] {
      assert p[0] in adj;
    }
  }

  lemma KeysAreNames(tasks: seq<Task>, keys: seq<Name>, adj: Adjacency, inDegree: map<Name, int>)
    requires WellFormed(keys, adj, inDegree) && adj == DeclaredGraph(tasks)
    ensures Elems(keys) == TaskNames(tasks)
  {
    hide CountersExact;
  }

  method CriticalPathOf(dag: DAG, topo: seq<Name>) returns (path: seq<Name>)
    requires dag.Valid() && IsTopologicalOrder(dag.adjacency, topo) && topo != []
    ensures Closed(dag.adjacency) && CriticalPathCorrect(dag.adjacency, path)
  {
    assert Closed(dag.adjacency) && Elems(topo) == dag.adjacency.Keys;
    hide WellFormed, IsTopologicalOrder, LongestChainTo, Backed, Relaxed, IsPath, CriticalPathCorrect;
    var dist := LongestPaths(dag.adjacency, topo);
    ghost var node :| Relaxed(dag.adjacency, dist, dag.adjacency.Keys, node, {});
    EntriesOf(dag.adjacency, topo, topo[0]);
    var end := EndNode(topo, dist);
    EntriesOf(dag.adjacency, topo, end);
    path := WalkBack(dag.adjacency, dist, end);
    WalkIsCritical(dag.adjacency, dist, node, end, path);
  }

  method DryRun(tasks: seq<Task>) returns (r: Result<ExecutionPlan, WorkflowError>)
    ensures r.Success? <==> DepsKnown(tasks) && Acyclic(DeclaredGraph(tasks)) && tasks != []
    ensures r.Success? ==> PlanCorrect(tasks, r.value)
    ensures r == Failure(CycleDetected) <==> DepsKnown(tasks) && !Acyclic(DeclaredGraph(tasks))
    ensures r == Failure(EmptyWorkflow) <==> tasks == []
    ensures !DepsKnown(tasks) ==>
              r.Failure? && r.error.UnknownDependency? && FirstUnknown(tasks, r.error.task, r.error.dep)
  {
    hide DeclaredGraph, Acyclic, DepsKnown, FirstUnknown, PhasesCorrect, CriticalPathCorrect, TaskMap, PriorityIn,
      WellFormed, NoDup, TiesInOrder, PhaseInTurn, FirstSeen, Mentioned;
    NoTasksNoErrors(tasks);
    var built := BuildDag(tasks);
    if built.Failure? {
      return Failure(built.error);
    }
    var dag := built.value;
    var taskMap := TaskMap(tasks);
    var priority := PriorityIn(taskMap);
    var phases := BuildPhases(dag, priority);
    var sorted := dag.TopologicalSort();
    var topo := sorted.value;
    DeclaredGraphClosed(tasks);
    NoTasksNoNodes(tasks, topo);
    if topo == [] {
      return Failure(EmptyWorkflow);
    }
    var criticalPath := CriticalPathOf(dag, topo);
    PlanDuality(dag.adjacency, phases, priority, criticalPath);
    KeysAreNames(tasks, dag.keys, dag.adjacency, dag.inDegree);
    forall i | 0 <= i < |phases| ensures PhaseInTurn(tasks, phases[i]) {
      PhasesInTurn(tasks, dag.keys, phases, i);
    }
    return Success(ExecutionPlan(phases, |taskMap|, criticalPath, |criticalPath|));
  }
}
