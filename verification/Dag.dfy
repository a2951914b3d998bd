/** The dependency graph that a workflow builds: successor sets together with the
    in-degree counters that Kahn's algorithm consumes. */
module Dags {
  import opened Prelude
  import opened Graphs

  datatype WorkflowError =
    | CycleDetected
    | UnknownDependency(task: Name, dep: Name)
    | EmptyWorkflow

  /** Every counter equals the number of distinct nodes with an edge into the node. */
  ghost predicate CountersExact(adj: Adjacency, inDegree: map<Name, int>)
  {
    inDegree.Keys == adj.Keys && forall v {:trigger inDegree[v]} :: v in adj ==> inDegree[v] == |Preds(adj, v)|
  }

  /** Registering a node adds no dependency, and an edge is counted once however often it is declared. */
  function WithNode(adj: Adjacency, v: Name): Adjacency
  {
    if v in adj then adj else adj[v := {}]
  }

  function WithEdge(adj: Adjacency, u: Name, v: Name): Adjacency
  {
    var nodes := WithNode(WithNode(adj, u), v);
    nodes[u := nodes[u] + {v}]
  }

  /** A dictionary keeps its keys in the order in which they first came. */
  function WithKey(keys: seq<Name>, v: Name): seq<Name>
  {
    if v in keys then keys else keys + [v]
  }

  /** The names of a list, each where it came first. */
  function FirstSeen(names: seq<Name>): seq<Name>
  {
    if names == [] then [] else WithKey(FirstSeen(names[..|names| - 1]), names[|names| - 1])
  }

  lemma FirstSeenSnoc(names: seq<Name>, v: Name)
    ensures FirstSeen(names + [v]) == WithKey(FirstSeen(names), v)
  {
    assert (names + [v])[..|names|] == names;
  }

  lemma {:induction false} FirstSeenHas(names: seq<Name>, v: Name)
    ensures v in FirstSeen(names) <==> v in names
  {
    if names != [] {
      var front, last := names[..|names| - 1], names[|names| - 1];
      FirstSeenHas(front, v);
      FirstSeenHas(front, last);
      assert names == front + [last];
    }
  }

  lemma {:induction false} IndexInLonger(names: seq<Name>, last: Name, v: Name)
    requires v in names
    ensures v in names + [last] && IndexOf(names + [last], v) == IndexOf(names, v)
  {
    if names[0] != v {
      assert (names + [last])[1..] == names[1..] + [last];
      IndexInLonger(names[1..], last, v);
    }
  }

  lemma {:induction false} IndexOfNew(names: seq<Name>, v: Name)
    requires v !in names
    ensures IndexOf(names + [v], v) == |names|
  {
    if names != [] {
      assert (names + [v])[1..] == names[1..] + [v];
      IndexOfNew(names[1..], v);
    }
  }

  /** A name comes before another in the keys exactly when it is mentioned first. */
  lemma FirstSeenOrder(names: seq<Name>, x: Name, y: Name)
    ensures Before(FirstSeen(names), x, y) <==> x in names && y in names && IndexOf(names, x) < IndexOf(names, y)
  {
    FirstSeenHas(names, x);
    FirstSeenHas(names, y);
    if Before(FirstSeen(names), x, y) {
      SeenInTurn(names, x, y);
    }
    if Before(FirstSeen(names), y, x) {
      SeenInTurn(names, y, x);
    }
    hide FirstSeen, IndexOf;
    if x in names && y in names && x != y {
      OneBeforeOther(FirstSeen(names), x, y);
    }
  }

  lemma OneBeforeOther(s: seq<Name>, x: Name, y: Name)
    requires x in s && y in s && x != y
    ensures Before(s, x, y) || Before(s, y, x)
  {
  }

  lemma {:induction false} SeenInTurn(names: seq<Name>, x: Name, y: Name)
    requires Before(FirstSeen(names), x, y)
    ensures x in names && y in names && IndexOf(names, x) < IndexOf(names, y)
  {
    var front, last := names[..|names| - 1], names[|names| - 1];
    var seen := FirstSeen(front);
    assert names == front + [last];
    var i, j :| 0 <= i < j < |FirstSeen(names)| && FirstSeen(names)[i] == x && FirstSeen(names)[j] == y;
    FirstSeenHas(front, x);
    FirstSeenHas(front, last);
    assert x in seen by { assert seen[i] == x; }
    IndexInLonger(front, last, x);
    if j < |seen| {
      assert Before(seen, x, y);
      SeenInTurn(front, x, y);
      IndexInLonger(front, last, y);
    } else {
      IndexOfNew(front, last);
    }
  }

  lemma WithNodePreds(adj: Adjacency, v: Name)
    requires Closed(adj)
    ensures Closed(WithNode(adj, v))
    ensures forall w :: Preds(WithNode(adj, v), w) == Preds(adj, w)
    ensures v !in adj ==> Preds(WithNode(adj, v), v) == {}
  {
    forall a, b | Edge(WithNode(adj, v), a, b) ensures b in WithNode(adj, v) {
      assert Edge(adj, a, b);
    }
    if v !in adj {
      forall u | u in Preds(adj, v) ensures false { assert Edge(adj, u, v); }
    }
  }

  lemma WithEdgePreds(adj: Adjacency, u: Name, v: Name)
    requires Closed(adj) && u in adj && v in adj
    ensures Closed(WithEdge(adj, u, v))
    ensures Preds(WithEdge(adj, u, v), v) == Preds(adj, v) + {u}
    ensures forall w :: w != v ==> Preds(WithEdge(adj, u, v), w) == Preds(adj, w)
  {
    forall a, b | Edge(WithEdge(adj, u, v), a, b) ensures b in WithEdge(adj, u, v) {
      assert (a == u && b == v) || Edge(adj, a, b);
    }
  }

  /** The dependencies of v that have not been emitted yet. */
  function Waiting(adj: Adjacency, order: seq<Name>, v: Name): set<Name>
  {
    set u | u in adj && v in adj[u] && u !in order
  }

  /** Each counter is the number of dependencies not yet emitted; the successors in `rest`
      of the last emitted node are still one too high. */
  ghost predicate Counted(adj: Adjacency, degree: map<Name, int>, order: seq<Name>, rest: set<Name>)
  {
    && degree.Keys == adj.Keys
    && forall v {:trigger degree[v]} :: v in adj ==> degree[v] == |Waiting(adj, order, v)| + if v in rest then 1 else 0
  }

  /** The nodes seen so far (emitted, then queued) are exactly those whose counter is zero. */
  ghost predicate Seen(adj: Adjacency, degree: map<Name, int>, seen: seq<Name>)
  {
    && degree.Keys == adj.Keys
    && NoDup(seen)
    && (forall v :: v in seen ==> v in adj)
    && (forall v {:trigger degree[v]} :: v in adj ==> (v in seen <==> degree[v] == 0))
  }

  /** Where Kahn's algorithm stands between two counter updates. */
  ghost predicate KahnState(adj: Adjacency, degree: map<Name, int>, order: seq<Name>, queue: seq<Name>, rest: set<Name>)
  {
    Counted(adj, degree, order, rest) && Seen(adj, degree, order + queue) && Justified(adj, order)
  }

  /** Emitting a node takes it out of the dependencies its successors wait for, and no others. */
  lemma EmitOne(adj: Adjacency, order: seq<Name>, node: Name, v: Name)
    requires node in adj && node !in order
    ensures |Waiting(adj, order, v)| == |Waiting(adj, order + [node], v)| + if v in adj[node] then 1 else 0
  {
    var now := Waiting(adj, order + [node], v);
    if v in adj[node] {
      assert Waiting(adj, order, v) == now + {node};
    } else {
      assert Waiting(adj, order, v) == now;
    }
  }

  lemma EmitCounted(adj: Adjacency, degree: map<Name, int>, order: seq<Name>, node: Name)
    requires Counted(adj, degree, order, {}) && node in adj && node !in order
    ensures Counted(adj, degree, order + [node], adj[node])
  {
    forall v | v in adj
      ensures degree[v] == |Waiting(adj, order + [node], v)| + if v in adj[node] then 1 else 0
    {
      EmitOne(adj, order, node, v);
    }
  }

  /** Emitting the queue's head leaves each of its successors one count too high. */
  lemma EmitHead(adj: Adjacency, degree: map<Name, int>, order: seq<Name>, queue: seq<Name>)
    requires KahnState(adj, degree, order, queue, {}) && queue != []
    ensures queue[0] in adj
    ensures KahnState(adj, degree, order + [queue[0]], queue[1..], adj[queue[0]])
  {
    var node := queue[0];
    var seen := order + queue;
    assert seen[|order|] == node;
    assert (order + [node]) + queue[1..] == seen;
    assert node in seen;
    forall i | 0 <= i < |order| ensures order[i] != node {
      assert seen[i] == order[i];
    }
    assert Waiting(adj, order, node) == {};
    forall u | u in Preds(adj, node) ensures u in Elems(order) {
      assert u !in Waiting(adj, order, node);
    }
    EmitCounted(adj, degree, order, node);
    EmitJustified(adj, order, node);
  }

  lemma LowerCounted(adj: Adjacency, degree: map<Name, int>, order: seq<Name>, rest: set<Name>, n: Name)
    requires Counted(adj, degree, order, rest) && n in rest && n in adj
    ensures degree[n] >= 1
    ensures Counted(adj, degree[n := degree[n] - 1], order, rest - {n})
  {
    hide Waiting;
  }

  lemma LowerSeen(adj: Adjacency, degree: map<Name, int>, seen: seq<Name>, n: Name)
    requires Seen(adj, degree, seen) && n in adj && degree[n] >= 1
    ensures Seen(adj, degree[n := degree[n] - 1], if degree[n] == 1 then seen + [n] else seen)
  {
    assert n !in seen;
  }

  /** Lowering one successor's counter; the node joins the queue exactly when it reaches zero. */
  lemma LowerSuccessor(adj: Adjacency, degree: map<Name, int>, order: seq<Name>, queue: seq<Name>, rest: set<Name>,
                       n: Name)
    requires KahnState(adj, degree, order, queue, rest) && n in rest && n in adj
    ensures KahnState(adj, degree[n := degree[n] - 1], order, if degree[n] == 1 then queue + [n] else queue, rest - {n})
  {
    hide Counted, Seen, Justified;
    LowerCounted(adj, degree, order, rest, n);
    LowerSeen(adj, degree, order + queue, n);
    assert order + (queue + [n]) == (order + queue) + [n];
  }

  /** Nodes that never reached zero wait for each other. */
  lemma LeftoverWaits(adj: Adjacency, degree: map<Name, int>, order: seq<Name>, v: Name)
    requires Counted(adj, degree, order, {}) && v in adj && degree[v] != 0
    ensures Preds(adj, v) * (adj.Keys - Elems(order)) != {}
  {
    var u := Pick(Waiting(adj, order, v));
    assert u in Preds(adj, v) * (adj.Keys - Elems(order));
  }

  lemma LeftoverIsStuck(adj: Adjacency, degree: map<Name, int>, order: seq<Name>)
    requires Counted(adj, degree, order, {}) && Seen(adj, degree, order)
    ensures Elems(order) <= adj.Keys
    ensures forall v :: v in adj.Keys - Elems(order) ==> Preds(adj, v) * (adj.Keys - Elems(order)) != {}
  {
    forall v | v in adj.Keys - Elems(order)
      ensures Preds(adj, v) * (adj.Keys - Elems(order)) != {}
    {
      LeftoverWaits(adj, degree, order, v);
    }
  }

  /** What a finished Kahn run decides: it emitted every node exactly when there is no cycle. */
  lemma KahnDecidesCycles(adj: Adjacency, degree: map<Name, int>, order: seq<Name>)
    requires Closed(adj) && KahnState(adj, degree, order, [], {})
    ensures |order| == |adj| <==> Acyclic(adj)
    ensures |order| == |adj| ==> IsTopologicalOrder(adj, order)
  {
    assert order + [] == order;
    LeftoverIsStuck(adj, degree, order);
    NoDupCardinality(order);
    SubsetCardinality(Elems(order), adj.Keys);
    assert |adj| == |adj.Keys|;
    if |order| == |adj| {
      TopologicalOrderMeansAcyclic(adj, order);
    } else {
      var cycle := StuckSetHasCycle(adj, adj.Keys - Elems(order));
    }
  }

  /** Whether x comes before y in the list. */
  ghost predicate Before(s: seq<Name>, x: Name, y: Name)
  {
    exists i, j :: 0 <= i < j < |s| && s[i] == x && s[j] == y
  }

  /** The nodes of `keys`, in that order, that satisfy p. */
  function Filter(keys: seq<Name>, p: Name -> bool): (r: seq<Name>)
    ensures forall x :: x in r <==> x in keys && p(x)
    ensures |r| <= |keys|
  {
    if keys == [] then []
    else
      var tail := Filter(keys[1..], p);
      if p(keys[0]) then [keys[0]] + tail else tail
  }

  lemma {:induction false} FilterNoDup(keys: seq<Name>, p: Name -> bool)
    requires NoDup(keys)
    ensures NoDup(Filter(keys, p))
  {
    if keys != [] {
      FilterNoDup(keys[1..], p);
      assert keys[0] !in keys[1..];
    }
  }

  lemma {:induction false} FilterKeepsOrder(keys: seq<Name>, p: Name -> bool, x: Name, y: Name)
    requires Before(Filter(keys, p), x, y)
    ensures Before(keys, x, y)
  {
    var i, j :| 0 <= i < j < |Filter(keys, p)| && Filter(keys, p)[i] == x && Filter(keys, p)[j] == y;
    var tail := Filter(keys[1..], p);
    assert y in tail;
    if p(keys[0]) && i == 0 {
      var k :| 0 <= k < |keys[1..]| && keys[1..][k] == y;
      assert keys[0] == x && keys[k + 1] == y;
    } else {
      assert Before(tail, x, y) by {
        if p(keys[0]) { assert tail[i - 1] == x && tail[j - 1] == y; }
      }
      FilterKeepsOrder(keys[1..], p, x, y);
      var a, b :| 0 <= a < b < |keys[1..]| && keys[1..][a] == x && keys[1..][b] == y;
      assert keys[a + 1] == x && keys[b + 1] == y;
    }
  }

  /** Nodes outside `completed` whose dependencies all lie in it, in the order of `keys`. */
  function ReadyNodes(keys: seq<Name>, adj: Adjacency, completed: set<Name>): seq<Name>
  {
    Filter(keys, v => v !in completed && Preds(adj, v) <= completed)
  }

  lemma ZeroNodesSeen(adj: Adjacency, degree: map<Name, int>, keys: seq<Name>)
    requires degree.Keys == adj.Keys && NoDup(keys) && Elems(keys) == adj.Keys
    ensures Seen(adj, degree, Filter(keys, n => n in degree && degree[n] == 0))
  {
    FilterNoDup(keys, n => n in degree && degree[n] == 0);
    forall v ensures v in keys <==> v in adj { assert v in Elems(keys) <==> v in keys; }
  }

  lemma KahnStart(adj: Adjacency, degree: map<Name, int>, keys: seq<Name>)
    requires CountersExact(adj, degree) && NoDup(keys) && Elems(keys) == adj.Keys
    ensures KahnState(adj, degree, [], Filter(keys, n => n in degree && degree[n] == 0), {})
  {
    ZeroNodesSeen(adj, degree, keys);
    var queue := Filter(keys, n => n in degree && degree[n] == 0);
    assert [] + queue == queue;
    forall v | v in adj ensures degree[v] == |Waiting(adj, [], v)| {
      assert Waiting(adj, [], v) == Preds(adj, v);
    }
    assert Counted(adj, degree, [], {});
  }

  /** The state every DAG object keeps: the dictionaries share their keys, edges stay inside
      the graph, and the counters are exact. */
  ghost predicate WellFormed(keys: seq<Name>, adj: Adjacency, inDegree: map<Name, int>)
  {
    && NoDup(keys) && Elems(keys) == adj.Keys
    && Closed(adj)
    && CountersExact(adj, inDegree)
  }

  lemma NewEdge(keys: seq<Name>, adj: Adjacency, inDegree: map<Name, int>, u: Name, v: Name)
    requires WellFormed(keys, adj, inDegree) && u in adj && v in adj && v !in adj[u]
    ensures v in inDegree && WellFormed(keys, adj[u := adj[u] + {v}], inDegree[v := inDegree[v] + 1])
    ensures adj[u := adj[u] + {v}] == WithEdge(adj, u, v)
  {
    WithEdgePreds(adj, u, v);
    CountOneMore(adj, inDegree, u, v);
  }

  lemma CountOneMore(adj: Adjacency, inDegree: map<Name, int>, u: Name, v: Name)
    requires CountersExact(adj, inDegree) && u in adj && v in adj && v !in adj[u]
    requires Preds(WithEdge(adj, u, v), v) == Preds(adj, v) + {u}
    requires forall w :: w != v ==> Preds(WithEdge(adj, u, v), w) == Preds(adj, w)
    ensures CountersExact(WithEdge(adj, u, v), inDegree[v := inDegree[v] + 1])
  {
    assert u !in Preds(adj, v);
    hide Preds;
    assert |Preds(adj, v) + {u}| == |Preds(adj, v)| + 1;
  }

  /** Declaring an edge again changes nothing, so it is not counted twice. */
  lemma RepeatedEdge(adj: Adjacency, u: Name, v: Name)
    requires Edge(adj, u, v) && v in adj
    ensures WithEdge(adj, u, v) == adj
  {
    assert adj[u] + {v} == adj[u];
    assert adj[u := adj[u]] == adj;
  }

  lemma EdgeAddsItsNodes(adj: Adjacency, u: Name, v: Name)
    ensures WithEdge(WithNode(WithNode(adj, u), v), u, v) == WithEdge(adj, u, v)
    ensures u in WithNode(WithNode(adj, u), v) && v in WithNode(WithNode(adj, u), v)
  {
  }

  class DAG {
    var keys: seq<Name>            // insertion order of both dictionaries
    var adjacency: map<Name, set<Name>>
    var inDegree: map<Name, int>

    ghost predicate Valid()
      reads this
    {
      WellFormed(keys, adjacency, inDegree)
    }

    constructor ()
      ensures Valid() && adjacency == map[] && keys == []
    {
      keys, adjacency, inDegree := [], map[], map[];
    }

    method AddNode(nodeId: Name)
      requires Valid()
      modifies this
      ensures Valid()
      ensures adjacency == WithNode(old(adjacency), nodeId)
      ensures keys == WithKey(old(keys), nodeId)
    {
      WithNodePreds(adjacency, nodeId);
      assert nodeId in keys <==> nodeId in Elems(keys);
      if nodeId !in adjacency {
        adjacency := adjacency[nodeId := {}];
        inDegree := inDegree[nodeId := 0];
        keys := keys + [nodeId];
      }
    }

    method AddEdge(fromId: Name, toId: Name)
      requires Valid()
      modifies this
      ensures Valid()
      ensures adjacency == WithEdge(old(adjacency), fromId, toId)
      ensures keys == WithKey(WithKey(old(keys), fromId), toId)
    {
      hide WithNode, WithEdge, WellFormed;
      EdgeAddsItsNodes(adjacency, fromId, toId);
      AddNode(fromId);
      AddNode(toId);
      if toId !in adjacency[fromId] {
        NewEdge(keys, adjacency, inDegree, fromId, toId);
        adjacency := adjacency[fromId := adjacency[fromId] + {toId}];
        inDegree := inDegree[toId := inDegree[toId] + 1];
      } else {
        RepeatedEdge(adjacency, fromId, toId);
      }
    }

    /** Kahn's algorithm. The set of successors is visited in an arbitrary order. */
    method TopologicalSort() returns (r: Result<seq<Name>, WorkflowError>)
      requires Valid()
      ensures r.Success? <==> Acyclic(adjacency)
      ensures r.Success? ==> IsTopologicalOrder(adjacency, r.value)
      ensures r.Failure? ==> r.error == CycleDetected
      ensures r.Failure? ==> exists cycle :: IsCycle(adjacency, cycle)
    {
      var degree := inDegree;
      var queue := Filter(keys, n => n in degree && degree[n] == 0);
      var order: seq<Name> := [];
      KahnStart(adjacency, degree, keys);
      while queue != []
        invariant KahnState(adjacency, degree, order, queue, {})
        decreases |adjacency| - |order|
      {
        EmitHead(adjacency, degree, order, queue);
        ghost var before := order;
        var node := queue[0];
        queue := queue[1..];
        order := order + [node];
        var rest := if node in adjacency then adjacency[node] else {};
        while rest != {}
          invariant rest <= adjacency[node]
          invariant KahnState(adjacency, degree, order, queue, rest)
        {
          var neighbour :| neighbour in rest;
          assert Edge(adjacency, node, neighbour);
          LowerSuccessor(adjacency, degree, order, queue, rest, neighbour);
          degree := degree[neighbour := degree[neighbour] - 1];
          if degree[neighbour] == 0 {
            queue := queue + [neighbour];
          }
          rest := rest - {neighbour};
        }
        EmittedFits(adjacency, degree, order, queue);
      }
      KahnDecidesCycles(adjacency, degree, order);
      if |order| != |adjacency| {
        return Failure(CycleDetected);
      }
      return Success(order);
    }

    /** Nodes outside `completed` whose dependencies all lie in it, in insertion order. */
    method GetReadyNodes(completed: set<Name>) returns (ready: seq<Name>)
      requires Valid()
      ensures NoDup(ready)
      ensures forall v :: v in ready <==> v in adjacency && v !in completed && Preds(adjacency, v) <= completed
      ensures ready == ReadyNodes(keys, adjacency, completed)
    {
      ready := [];
      ghost var adj := adjacency;
      ghost var isReady := v => v !in completed && Preds(adj, v) <= completed;
      for i := 0 to |keys|
        invariant ready == Filter(keys[..i], isReady)
        invariant adj == adjacency
      {
        FilterSnoc(keys[..i], keys[i], isReady);
        assert keys[..i + 1] == keys[..i] + [keys[i]];
        var nodeId := keys[i];
        if nodeId in completed {
          continue;
        }
        var deps := Preds(adjacency, nodeId);
        if deps <= completed {
          ready := ready + [nodeId];
        }
      }
      assert keys[..|keys|] == keys;
      FilterNoDup(keys, isReady);
      forall v ensures v in adjacency <==> v in keys { assert v in Elems(keys) <==> v in keys; }
    }
  }

  lemma EmittedFits(adj: Adjacency, degree: map<Name, int>, order: seq<Name>, queue: seq<Name>)
    requires KahnState(adj, degree, order, queue, {})
    ensures |order| <= |adj|
  {
    NoDupCardinality(order + queue);
    SubsetCardinality(Elems(order + queue), adj.Keys);
    assert |adj| == |adj.Keys|;
  }

  lemma {:induction false} FilterSnoc(keys: seq<Name>, v: Name, p: Name -> bool)
    ensures Filter(keys + [v], p) == Filter(keys, p) + if p(v) then [v] else []
  {
    if keys == [] {
      assert [v][1..] == [];
    } else {
      assert (keys + [v])[1..] == keys[1..] + [v];
      FilterSnoc(keys[1..], v, p);
    }
  }
}
