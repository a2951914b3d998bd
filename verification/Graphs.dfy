/** Finite directed graphs given by successor sets: paths, cycles, topological orders,
    longest chains. Nothing here runs; it is the vocabulary the algorithms are proved against. */
module Graphs {
  import opened Prelude

  type Adjacency = map<Name, set<Name>>

  predicate Edge(adj: Adjacency, u: Name, v: Name)
  {
    u in adj && v in adj[u]
  }

  ghost predicate Closed(adj: Adjacency)
  {
    forall u, v :: Edge(adj, u, v) ==> v in adj
  }

  /** The nodes with an edge into v: what v depends on. */
  function Preds(adj: Adjacency, v: Name): set<Name>
  {
    set u | u in adj && v in adj[u]
  }

  ghost predicate IsPath(adj: Adjacency, p: seq<Name>)
  {
    && |p| > 0
    && p[0] in adj
    && forall i :: 0 <= i < |p| - 1 ==> Edge(adj, p[i], p[i + 1])
  }

  ghost predicate IsCycle(adj: Adjacency, p: seq<Name>)
  {
    IsPath(adj, p) && |p| >= 2 && p[0] == p[|p| - 1]
  }

  ghost predicate Acyclic(adj: Adjacency)
  {
    forall p :: !IsCycle(adj, p)
  }

  /** v can be reached from u along at least one edge: v transitively depends on u. */
  ghost predicate StrictlyBelow(adj: Adjacency, u: Name, v: Name)
  {
    exists p :: IsPath(adj, p) && |p| >= 2 && p[0] == u && p[|p| - 1] == v
  }

  /** The path leads from u to v along at least one edge, and meets no node of the cut after its first. */
  ghost predicate FreePath(adj: Adjacency, cut: set<Name>, p: seq<Name>, u: Name, v: Name)
  {
    && IsPath(adj, p) && |p| >= 2 && p[0] == u && p[|p| - 1] == v
    && forall i :: 1 <= i < |p| ==> p[i] !in cut
  }

  /** v transitively depends on u, even when the nodes of the cut no longer depend on anything. */
  ghost predicate FreelyBelow(adj: Adjacency, cut: set<Name>, u: Name, v: Name)
  {
    exists p :: FreePath(adj, cut, p, u, v)
  }

  /** Whatever a node of the sequence depends on comes before it. */
  ghost predicate Justified(adj: Adjacency, order: seq<Name>)
  {
    forall i :: 0 <= i < |order| ==> Preds(adj, order[i]) <= Elems(order[..i])
  }

  ghost predicate IsTopologicalOrder(adj: Adjacency, order: seq<Name>)
  {
    && NoDup(order)
    && Elems(order) == adj.Keys
    && Justified(adj, order)
  }

  ghost predicate ChainOfLength(adj: Adjacency, v: Name, k: nat)
  {
    exists p :: IsPath(adj, p) && p[|p| - 1] == v && |p| == k
  }

  ghost predicate ChainsWithin(adj: Adjacency, v: Name, k: nat)
  {
    forall p :: IsPath(adj, p) && p[|p| - 1] == v ==> |p| <= k
  }

  /** k is the largest number of nodes on a chain of dependencies that ends at v. */
  ghost predicate LongestChainTo(adj: Adjacency, v: Name, k: nat)
  {
    ChainOfLength(adj, v, k) && ChainsWithin(adj, v, k)
  }

  // ---------------------------------------------------------------------------
  // Paths
  // ---------------------------------------------------------------------------

  lemma PathNodes(adj: Adjacency, p: seq<Name>)
    requires Closed(adj) && IsPath(adj, p)
    ensures forall i :: 0 <= i < |p| ==> p[i] in adj
  {
    forall i | 0 <= i < |p| ensures p[i] in adj {
      if i > 0 {
        assert Edge(adj, p[i - 1], p[i - 1 + 1]);
      }
    }
  }

  lemma PathExtend(adj: Adjacency, p: seq<Name>, v: Name)
    requires IsPath(adj, p) && Edge(adj, p[|p| - 1], v)
    ensures IsPath(adj, p + [v])
  {
    var q := p + [v];
    forall i | 0 <= i < |q| - 1 ensures Edge(adj, q[i], q[i + 1]) {
      if i < |p| - 1 {
        assert Edge(adj, p[i], p[i + 1]);
      }
    }
  }

  lemma PathPrepend(adj: Adjacency, u: Name, p: seq<Name>)
    requires IsPath(adj, p) && Edge(adj, u, p[0])
    ensures IsPath(adj, [u] + p)
  {
    var q := [u] + p;
    forall i | 0 <= i < |q| - 1 ensures Edge(adj, q[i], q[i + 1]) {
      if i > 0 {
        assert Edge(adj, p[i - 1], p[i - 1 + 1]);
      }
    }
  }

  lemma PathPrefix(adj: Adjacency, p: seq<Name>, n: nat) returns (q: seq<Name>)
    requires IsPath(adj, p) && 1 <= n <= |p|
    ensures IsPath(adj, q) && q == p[..n]
  {
    q := p[..n];
    forall i | 0 <= i < |q| - 1 ensures Edge(adj, q[i], q[i + 1]) {
      assert Edge(adj, p[i], p[i + 1]);
    }
  }

  lemma PathDropLast(adj: Adjacency, p: seq<Name>)
    requires IsPath(adj, p) && |p| >= 2
    ensures IsPath(adj, p[..|p| - 1])
    ensures Edge(adj, p[|p| - 2], p[|p| - 1])
  {
    var q := p[..|p| - 1];
    forall i | 0 <= i < |q| - 1 ensures Edge(adj, q[i], q[i + 1]) {
      assert Edge(adj, p[i], p[i + 1]);
    }
    assert Edge(adj, p[|p| - 2], p[|p| - 2 + 1]);
  }

  lemma EdgeIsBelow(adj: Adjacency, d: Name, n: Name)
    requires Edge(adj, d, n)
    ensures StrictlyBelow(adj, d, n)
  {
    assert IsPath(adj, [d]);
    PathExtend(adj, [d], n);
    assert ([d] + [n])[0] == d;
  }

  lemma StrictlyBelowPrepend(adj: Adjacency, u: Name, v: Name, w: Name)
    requires Edge(adj, u, v) && StrictlyBelow(adj, v, w)
    ensures StrictlyBelow(adj, u, w)
  {
    var p :| IsPath(adj, p) && |p| >= 2 && p[0] == v && p[|p| - 1] == w;
    PathPrepend(adj, u, p);
    assert ([u] + p)[0] == u && ([u] + p)[|p|] == w;
  }

  lemma FreeEdge(adj: Adjacency, cut: set<Name>, u: Name, v: Name)
    requires Edge(adj, u, v) && v !in cut
    ensures FreelyBelow(adj, cut, u, v)
  {
    assert IsPath(adj, [u]);
    PathExtend(adj, [u], v);
    assert FreePath(adj, cut, [u] + [v], u, v);
  }

  lemma FreeExtend(adj: Adjacency, cut: set<Name>, u: Name, v: Name, w: Name)
    requires FreelyBelow(adj, cut, u, v) && Edge(adj, v, w) && w !in cut
    ensures FreelyBelow(adj, cut, u, w)
  {
    var p :| FreePath(adj, cut, p, u, v);
    PathExtend(adj, p, w);
    assert FreePath(adj, cut, p + [w], u, w);
  }

  lemma FreePrepend(adj: Adjacency, cut: set<Name>, u: Name, v: Name, w: Name)
    requires Edge(adj, u, v) && v !in cut && FreelyBelow(adj, cut, v, w)
    ensures FreelyBelow(adj, cut, u, w)
  {
    var p :| FreePath(adj, cut, p, v, w);
    PathPrepend(adj, u, p);
    assert FreePath(adj, cut, [u] + p, u, w);
  }

  lemma FreeIsStrict(adj: Adjacency, cut: set<Name>, u: Name, v: Name)
    requires FreelyBelow(adj, cut, u, v)
    ensures StrictlyBelow(adj, u, v) && v !in cut
  {
    var p :| FreePath(adj, cut, p, u, v);
  }

  /** A path that starts outside a set of nodes holding all they depend on never enters it. */
  lemma {:induction false} StaysOutside(adj: Adjacency, cut: set<Name>, p: seq<Name>, i: nat)
    requires IsPath(adj, p) && p[0] !in cut && i < |p|
    requires forall v :: v in cut ==> Preds(adj, v) <= cut
    ensures p[i] !in cut
  {
    if i > 0 {
      StaysOutside(adj, cut, p, i - 1);
      assert Edge(adj, p[i - 1], p[i - 1 + 1]);
      assert p[i - 1] in Preds(adj, p[i]);
    }
  }

  lemma StrictIsFree(adj: Adjacency, cut: set<Name>, u: Name, v: Name)
    requires StrictlyBelow(adj, u, v) && u !in cut
    requires forall w :: w in cut ==> Preds(adj, w) <= cut
    ensures FreelyBelow(adj, cut, u, v)
  {
    var p :| IsPath(adj, p) && |p| >= 2 && p[0] == u && p[|p| - 1] == v;
    forall i | 1 <= i < |p| ensures p[i] !in cut {
      StaysOutside(adj, cut, p, i);
    }
    assert FreePath(adj, cut, p, u, v);
  }

  lemma StrictlyBelowTransitive(adj: Adjacency, u: Name, v: Name, w: Name)
    requires StrictlyBelow(adj, u, v) && StrictlyBelow(adj, v, w)
    ensures StrictlyBelow(adj, u, w)
  {
    var p :| IsPath(adj, p) && |p| >= 2 && p[0] == u && p[|p| - 1] == v;
    hide StrictlyBelow;
    BelowAlongPath(adj, p, |p| - 1, w);
  }

  lemma {:induction false} BelowAlongPath(adj: Adjacency, p: seq<Name>, i: nat, w: Name)
    requires IsPath(adj, p) && i < |p| && StrictlyBelow(adj, p[i], w)
    ensures StrictlyBelow(adj, p[0], w)
  {
    if i > 0 {
      assert Edge(adj, p[i - 1], p[i - 1 + 1]);
      StrictlyBelowPrepend(adj, p[i - 1], p[i], w);
      BelowAlongPath(adj, p, i - 1, w);
    }
  }

  lemma NotBelowItself(adj: Adjacency, v: Name)
    requires Acyclic(adj)
    ensures !StrictlyBelow(adj, v, v)
  {
    if StrictlyBelow(adj, v, v) {
      var p :| IsPath(adj, p) && |p| >= 2 && p[0] == v && p[|p| - 1] == v;
      assert IsCycle(adj, p);
    }
  }

  // ---------------------------------------------------------------------------
  // Cycles and topological orders exclude each other, and one of them exists
  // ---------------------------------------------------------------------------

  /** If every node of a non-empty set depends on a node of the set, walking backwards
      must come round: the set carries a concrete cycle. */
  lemma {:induction false} BackwardWalkFindsCycle(adj: Adjacency, stuck: set<Name>, p: seq<Name>)
    returns (cycle: seq<Name>)
    requires stuck <= adj.Keys
    requires forall v :: v in stuck ==> Preds(adj, v) * stuck != {}
    requires IsPath(adj, p) && NoDup(p) && Elems(p) <= stuck
    ensures IsCycle(adj, cycle)
    decreases |stuck| - |p|
  {
    assert p[0] in Elems(p);
    var u := Pick(Preds(adj, p[0]) * stuck);
    assert Edge(adj, u, p[0]);
    if u in p {
      cycle := CloseCycle(adj, u, p);
    } else {
      hide IsPath, Preds, IsCycle;
      PathPrepend(adj, u, p);
      LongerWalk(stuck, u, p);
      cycle := BackwardWalkFindsCycle(adj, stuck, [u] + p);
    }
  }

  lemma LongerWalk(stuck: set<Name>, u: Name, p: seq<Name>)
    requires u in stuck && u !in p && NoDup(p) && Elems(p) <= stuck
    ensures NoDup([u] + p) && Elems([u] + p) <= stuck
    ensures |stuck| - |[u] + p| < |stuck| - |p| && |[u] + p| <= |stuck|
  {
    NoDupCardinality([u] + p);
    SubsetCardinality(Elems([u] + p), stuck);
  }

  lemma CloseCycle(adj: Adjacency, u: Name, p: seq<Name>) returns (cycle: seq<Name>)
    requires IsPath(adj, p) && Edge(adj, u, p[0]) && u in p
    ensures IsCycle(adj, cycle)
  {
    PathPrepend(adj, u, p);
    var i :| 0 <= i < |p| && p[i] == u;
    cycle := PathPrefix(adj, [u] + p, i + 2);
  }

  /** A set of nodes that each wait for another node of the set exists only in a cyclic graph. */
  lemma StuckSetHasCycle(adj: Adjacency, stuck: set<Name>) returns (cycle: seq<Name>)
    requires stuck <= adj.Keys && stuck != {}
    requires forall v :: v in stuck ==> Preds(adj, v) * stuck != {}
    ensures IsCycle(adj, cycle)
  {
    var v :| v in stuck;
    cycle := BackwardWalkFindsCycle(adj, stuck, [v]);
  }

  function IndexOf(order: seq<Name>, v: Name): (i: nat)
    requires v in order
    ensures i < |order| && order[i] == v
  {
    if order[0] == v then 0 else 1 + IndexOf(order[1..], v)
  }

  lemma EdgePointsForward(adj: Adjacency, order: seq<Name>, u: Name, v: Name)
    requires IsTopologicalOrder(adj, order) && Closed(adj) && Edge(adj, u, v)
    ensures u in order && v in order && IndexOf(order, u) < IndexOf(order, v)
  {
    assert v in Elems(order) && u in Elems(order);
    var j := IndexOf(order, v);
    assert u in Preds(adj, order[j]);
    assert u in Elems(order[..j]);
    var i :| 0 <= i < j && order[i] == u;
    assert i == IndexOf(order, u);
  }

  lemma {:induction false} PathPointsForward(adj: Adjacency, order: seq<Name>, p: seq<Name>)
    requires IsTopologicalOrder(adj, order) && Closed(adj) && IsPath(adj, p) && |p| >= 2
    ensures p[0] in order && p[|p| - 1] in order
    ensures IndexOf(order, p[0]) < IndexOf(order, p[|p| - 1])
  {
    PathDropLast(adj, p);
    EdgePointsForward(adj, order, p[|p| - 2], p[|p| - 1]);
    if |p| > 2 {
      PathPointsForward(adj, order, p[..|p| - 1]);
    }
  }

  /** A topological order rules out every cycle. */
  lemma TopologicalOrderMeansAcyclic(adj: Adjacency, order: seq<Name>)
    requires IsTopologicalOrder(adj, order) && Closed(adj)
    ensures Acyclic(adj)
  {
    forall p ensures !IsCycle(adj, p) {
      if IsCycle(adj, p) {
        PathPointsForward(adj, order, p);
      }
    }
  }

  /** In an acyclic graph every non-empty set of nodes has a member that waits for no other member. */
  lemma AcyclicSetHasSource(adj: Adjacency, nodes: set<Name>) returns (v: Name)
    requires Acyclic(adj) && nodes <= adj.Keys && nodes != {}
    ensures v in nodes && Preds(adj, v) * nodes == {}
  {
    if forall v :: v in nodes ==> Preds(adj, v) * nodes != {} {
      var cycle := StuckSetHasCycle(adj, nodes);
      assert false;
    }
    v :| v in nodes && Preds(adj, v) * nodes == {};
  }

  lemma EmitJustified(adj: Adjacency, order: seq<Name>, node: Name)
    requires Justified(adj, order) && Preds(adj, node) <= Elems(order)
    ensures Justified(adj, order + [node])
  {
    var order' := order + [node];
    forall i | 0 <= i < |order'| ensures Preds(adj, order'[i]) <= Elems(order'[..i]) {
      if i < |order| {
        assert order'[..i] == order[..i];
      } else {
        assert order'[..i] == order;
      }
    }
  }

  /** A dependency-respecting order of some nodes, extended to a larger set that holds all its nodes depend on. */
  lemma {:induction false} ExtendWithin(adj: Adjacency, nodes: set<Name>, prefix: seq<Name>) returns (order: seq<Name>)
    requires Acyclic(adj) && nodes <= adj.Keys && forall v :: v in nodes ==> Preds(adj, v) <= nodes
    requires NoDup(prefix) && Elems(prefix) <= nodes && Justified(adj, prefix)
    ensures NoDup(order) && Elems(order) == nodes && Justified(adj, order) && prefix <= order
    decreases |nodes - Elems(prefix)|
  {
    hide Acyclic, Justified, Preds;
    var left := nodes - Elems(prefix);
    if left == {} {
      return prefix;
    }
    var v := AcyclicSetHasSource(adj, left);
    SourceIsReady(adj, nodes, prefix, v);
    EmitJustified(adj, prefix, v);
    OneLess(nodes, prefix, v);
    hide Elems, NoDup;
    order := ExtendWithin(adj, nodes, prefix + [v]);
    PrefixOfExtended(prefix, v, order);
  }

  lemma OneLess(nodes: set<Name>, prefix: seq<Name>, v: Name)
    requires v in nodes - Elems(prefix) && Elems(prefix) <= nodes && NoDup(prefix)
    ensures Elems(prefix + [v]) <= nodes && NoDup(prefix + [v])
    ensures |nodes - Elems(prefix + [v])| < |nodes - Elems(prefix)|
  {
    assert Elems(prefix + [v]) == Elems(prefix) + {v};
    assert nodes - Elems(prefix + [v]) < nodes - Elems(prefix);
    SubsetCardinality(nodes - Elems(prefix + [v]), nodes - Elems(prefix));
  }

  lemma PrefixOfExtended(prefix: seq<Name>, v: Name, order: seq<Name>)
    requires prefix + [v] <= order
    ensures prefix <= order
  {
    assert prefix == (prefix + [v])[..|prefix|];
  }

  lemma ExtendOrder(adj: Adjacency, prefix: seq<Name>) returns (order: seq<Name>)
    requires Acyclic(adj) && NoDup(prefix) && Elems(prefix) <= adj.Keys && Justified(adj, prefix)
    ensures IsTopologicalOrder(adj, order) && prefix <= order
  {
    hide Acyclic, Justified;
    order := ExtendWithin(adj, adj.Keys, prefix);
  }

  lemma SourceIsReady(adj: Adjacency, nodes: set<Name>, prefix: seq<Name>, v: Name)
    requires Preds(adj, v) <= nodes && Preds(adj, v) * (nodes - Elems(prefix)) == {}
    ensures Preds(adj, v) <= Elems(prefix)
  {
    forall u | u in Preds(adj, v) ensures u in Elems(prefix) {
      assert u in nodes - Elems(prefix) ==> u in Preds(adj, v) * (nodes - Elems(prefix));
    }
  }

  /** A graph can be put in a dependency-respecting order exactly when it has no cycle. */
  lemma OrderExistsIffAcyclic(adj: Adjacency)
    requires Closed(adj)
    ensures Acyclic(adj) <==> exists order :: IsTopologicalOrder(adj, order)
  {
    if Acyclic(adj) {
      var order := ExtendOrder(adj, []);
    }
    forall order | IsTopologicalOrder(adj, order) ensures Acyclic(adj) {
      TopologicalOrderMeansAcyclic(adj, order);
    }
  }

  // ---------------------------------------------------------------------------
  // Longest chains
  // ---------------------------------------------------------------------------

  lemma LongestChainUnique(adj: Adjacency, v: Name, k: nat, l: nat)
    requires LongestChainTo(adj, v, k) && LongestChainTo(adj, v, l)
    ensures k == l
  {
    var p :| IsPath(adj, p) && p[|p| - 1] == v && |p| == k;
    var q :| IsPath(adj, q) && q[|q| - 1] == v && |q| == l;
  }

  /** A bound that grows along every edge bounds every chain. */
  lemma {:induction false} ChainBoundedByRank(adj: Adjacency, rank: map<Name, int>, p: seq<Name>)
    requires Closed(adj) && rank.Keys == adj.Keys
    requires forall v :: v in adj ==> rank[v] >= 1
    requires forall u, v :: Edge(adj, u, v) ==> rank[u] + 1 <= rank[v]
    requires IsPath(adj, p)
    ensures p[|p| - 1] in rank && |p| <= rank[p[|p| - 1]]
  {
    PathNodes(adj, p);
    if |p| >= 2 {
      PathDropLast(adj, p);
      ChainBoundedByRank(adj, rank, p[..|p| - 1]);
    }
  }

  /** No way of splitting the work into dependency-respecting layers gets a node
      into a layer earlier than its longest incoming chain allows. */
  lemma NoEarlierLayer(adj: Adjacency, layer: map<Name, int>, v: Name, k: nat)
    requires Closed(adj) && layer.Keys == adj.Keys
    requires forall u :: u in adj ==> layer[u] >= 0
    requires forall u, w :: Edge(adj, u, w) ==> layer[u] < layer[w]
    requires v in adj && LongestChainTo(adj, v, k)
    ensures layer[v] + 1 >= k
  {
    var p :| IsPath(adj, p) && p[|p| - 1] == v && |p| == k;
    var rank := map u | u in layer :: layer[u] + 1;
    ChainBoundedByRank(adj, rank, p);
  }
}
