/** Directed graphs over strings: paths, reachability and cycles, independent of any algorithm. */
module Graph {
  import opened Ordering

  type Adjacency = map<string, seq<string>>

  /** The adjacency list of `x`; a missing key reads as the empty list. */
  function Succ(adj: Adjacency, x: string): seq<string> {
    if x in adj then adj[x] else []
  }

  ghost predicate Edge(adj: Adjacency, x: string, y: string) {
    y in Succ(adj, x)
  }

  ghost predicate IsPath(adj: Adjacency, p: seq<string>) {
    p != [] && forall i | 0 <= i < |p| - 1 :: Edge(adj, p[i], p[i + 1])
  }

  ghost predicate PathBetween(adj: Adjacency, p: seq<string>, x: string, y: string) {
    IsPath(adj, p) && p[0] == x && p[|p| - 1] == y
  }

  ghost predicate Reach(adj: Adjacency, x: string, y: string) {
    exists p :: PathBetween(adj, p, x, y)
  }

  ghost predicate Mutual(adj: Adjacency, x: string, y: string) {
    Reach(adj, x, y) && Reach(adj, y, x)
  }

  /** A non-empty closed walk through `x`. */
  ghost predicate OnCycle(adj: Adjacency, x: string) {
    exists p :: PathBetween(adj, p, x, x) && |p| > 1
  }

  /** Every edge that starts in `s` ends in `s`. */
  ghost predicate EdgeClosed(adj: Adjacency, s: set<string>) {
    forall x, y | x in s && Edge(adj, x, y) :: y in s
  }

  lemma ReachSelf(adj: Adjacency, x: string)
    ensures Reach(adj, x, x)
  {
    assert PathBetween(adj, [x], x, x);
  }

  lemma ReachStep(adj: Adjacency, x: string, y: string, z: string)
    requires Edge(adj, x, y) && Reach(adj, y, z)
    ensures Reach(adj, x, z)
    ensures z == x ==> OnCycle(adj, x)
  {
    var p :| PathBetween(adj, p, y, z);
    assert PathBetween(adj, [x] + p, x, z);
  }

  lemma ReachEdge(adj: Adjacency, x: string, y: string)
    requires Edge(adj, x, y)
    ensures Reach(adj, x, y)
  {
    ReachSelf(adj, y);
    ReachStep(adj, x, y, y);
  }

  lemma ReachTransitive(adj: Adjacency, x: string, y: string, z: string)
    requires Reach(adj, x, y) && Reach(adj, y, z)
    ensures Reach(adj, x, z)
  {
    var p :| PathBetween(adj, p, x, y);
    var q :| PathBetween(adj, q, y, z);
    assert PathBetween(adj, p + q[1..], x, z);
  }

  /** Walks never leave an edge-closed set. */
  lemma {:induction false} ReachStaysIn(adj: Adjacency, s: set<string>, x: string, y: string)
    requires EdgeClosed(adj, s) && x in s && Reach(adj, x, y)
    ensures y in s
  {
    var p :| PathBetween(adj, p, x, y);
    var i := 0;
    while i < |p| - 1
      invariant 0 <= i < |p| && p[i] in s
    {
      assert Edge(adj, p[i], p[i + 1]);
      i := i + 1;
    }
  }

  /** Being on a cycle is having a successor that leads back. */
  lemma CycleThroughEdge(adj: Adjacency, x: string)
    ensures OnCycle(adj, x) <==> exists y :: Edge(adj, x, y) && Reach(adj, y, x)
  {
    if OnCycle(adj, x) {
      var p :| PathBetween(adj, p, x, x) && |p| > 1;
      assert PathBetween(adj, p[1..], p[1], x);
      assert Edge(adj, p[0], p[0 + 1]);
    }
    if y :| Edge(adj, x, y) && Reach(adj, y, x) {
      ReachStep(adj, x, y, x);
    }
  }

  /** A path to a different node starts with an edge. */
  lemma ReachOther(adj: Adjacency, x: string, y: string) returns (z: string)
    requires Reach(adj, x, y) && x != y
    ensures Edge(adj, x, z) && Reach(adj, z, y)
  {
    var p :| PathBetween(adj, p, x, y);
    z := p[1];
    assert Edge(adj, p[0], p[0 + 1]);
    assert PathBetween(adj, p[1..], z, y);
  }

  ghost predicate SameEdges(a: Adjacency, b: Adjacency) {
    forall x, y :: Edge(a, x, y) <==> Edge(b, x, y)
  }

  /** Paths depend on the edge relation only. */
  lemma SamePaths(a: Adjacency, b: Adjacency)
    requires SameEdges(a, b)
    ensures forall p :: IsPath(a, p) <==> IsPath(b, p)
    ensures forall x, y :: Reach(a, x, y) <==> Reach(b, x, y)
    ensures forall x :: OnCycle(a, x) <==> OnCycle(b, x)
  {
    hide Edge;
    forall p ensures IsPath(a, p) <==> IsPath(b, p) {}
    forall x, y ensures Reach(a, x, y) <==> Reach(b, x, y) {
      if p :| PathBetween(a, p, x, y) { assert PathBetween(b, p, x, y); }
      if p :| PathBetween(b, p, x, y) { assert PathBetween(a, p, x, y); }
    }
    forall x ensures OnCycle(a, x) <==> OnCycle(b, x) {
      if p :| PathBetween(a, p, x, x) && |p| > 1 { assert PathBetween(b, p, x, x); }
      if p :| PathBetween(b, p, x, x) && |p| > 1 { assert PathBetween(a, p, x, x); }
    }
  }

  /** Every node of a closed walk lies in the component of its first node. */
  lemma CycleStaysInComponent(adj: Adjacency, p: seq<string>, x: string)
    requires PathBetween(adj, p, x, x)
    ensures forall i | 0 <= i < |p| :: Mutual(adj, x, p[i])
  {
    forall i | 0 <= i < |p| ensures Mutual(adj, x, p[i]) {
      assert PathBetween(adj, p[..i + 1], x, p[i]);
      assert PathBetween(adj, p[i..], p[i], x);
    }
  }

  /** A component carries a cycle exactly when it has two members or a self-edge. */
  lemma ComponentHasCycle(nodes: set<string>, adj: Adjacency, comps: seq<seq<string>>, i: nat)
    requires SccPartition(nodes, adj, comps) && EdgeClosed(adj, nodes) && i < |comps|
    ensures |comps[i]| >= 2 || Edge(adj, comps[i][0], comps[i][0]) <==> OnCycle(adj, comps[i][0])
    ensures forall x, y | x in comps[i] && y in comps[i] :: OnCycle(adj, x) <==> OnCycle(adj, y)
    ensures forall x, y | x in comps[i] :: y in comps[i] <==> Mutual(adj, x, y)
  {
    hide Reach, OnCycle;
    var c := comps[i];
    var x := c[0];
    assert x in c;
    forall x, y | x in c ensures y in c <==> Mutual(adj, x, y) {
      if Mutual(adj, x, y) {
        ReachStaysIn(adj, nodes, x, y);
        var j :| 0 <= j < |comps| && y in comps[j];
      }
    }
    if |c| >= 2 {
      LessTrichotomy(c[0], c[1]);
      assert c[1] in c;
      MutualCycle(adj, c[0], c[1]);
    } else {
      CycleThroughEdge(adj, x);
      ReachSelf(adj, x);
      if OnCycle(adj, x) {
        var y :| Edge(adj, x, y) && Reach(adj, y, x);
        ReachEdge(adj, x, y);
        assert y in c;
      }
    }
    forall x, y | x in c && y in c ensures OnCycle(adj, x) <==> OnCycle(adj, y) {
      if x != y {
        MutualCycle(adj, x, y);
        MutualCycle(adj, y, x);
      }
    }
  }

  lemma MutualCycle(adj: Adjacency, x: string, y: string)
    requires Mutual(adj, x, y) && x != y
    ensures OnCycle(adj, x)
  {
    hide Reach, OnCycle;
    var z := ReachOther(adj, x, y);
    ReachTransitive(adj, z, y, x);
    CycleThroughEdge(adj, x);
  }

  // ---------- Acyclic graphs have a rank ----------

  /** The nodes a non-empty walk from `x` can reach. */
  ghost function Beyond(nodes: set<string>, adj: Adjacency, x: string): set<string> {
    set y | y in nodes && exists z :: Edge(adj, x, z) && Reach(adj, z, y)
  }

  ghost function Rank(nodes: set<string>, adj: Adjacency, x: string): nat {
    |Beyond(nodes, adj, x)|
  }

  /** Along an edge that is on no cycle the rank falls. */
  lemma RankFalls(nodes: set<string>, adj: Adjacency, x: string, y: string)
    requires EdgeClosed(adj, nodes) && x in nodes && Edge(adj, x, y) && !OnCycle(adj, y)
    ensures Rank(nodes, adj, y) < Rank(nodes, adj, x)
  {
    hide Reach, OnCycle;
    ReachSelf(adj, y);
    CycleThroughEdge(adj, y);
    var a, b := Beyond(nodes, adj, y), Beyond(nodes, adj, x);
    forall w | w in a ensures w in b {
      var z :| Edge(adj, y, z) && Reach(adj, z, w);
      ReachStep(adj, y, z, w);
    }
    assert y in b && y !in a;
    ProperSubset(a, b);
  }

  lemma RankBound(nodes: set<string>, adj: Adjacency, x: string)
    requires x in nodes && !OnCycle(adj, x)
    ensures Rank(nodes, adj, x) < |nodes|
  {
    hide Reach, OnCycle;
    CycleThroughEdge(adj, x);
    assert x !in Beyond(nodes, adj, x);
    ProperSubset(Beyond(nodes, adj, x), nodes);
  }

  // ---------- What a search from some nodes covers ----------

  /** Every node that is reached from one of `nodes`, which need not be closed under the edges. */
  ghost function Closure(nodes: set<string>, adj: Adjacency): set<string> {
    set y | y in Mentioned(nodes, adj) && ReachedFrom(nodes, adj, y)
  }

  ghost function Mentioned(nodes: set<string>, adj: Adjacency): set<string> {
    nodes + set x, z | x in adj && z in adj[x] :: z
  }

  ghost predicate ReachedFrom(nodes: set<string>, adj: Adjacency, y: string) {
    exists x :: x in nodes && Reach(adj, x, y)
  }

  lemma InClosure(nodes: set<string>, adj: Adjacency, y: string)
    ensures y in Closure(nodes, adj) <==> ReachedFrom(nodes, adj, y)
  {
    hide Reach;
    if x :| x in nodes && Reach(adj, x, y) { ReachMentioned(adj, x, y); }
  }

  lemma ReachMentioned(adj: Adjacency, x: string, y: string)
    requires Reach(adj, x, y)
    ensures y == x || exists z :: z in adj && y in adj[z]
  {
    var p :| PathBetween(adj, p, x, y);
    if |p| > 1 { assert Edge(adj, p[|p| - 2], p[|p| - 1]); }
  }

  lemma ClosureClosed(nodes: set<string>, adj: Adjacency)
    ensures nodes <= Closure(nodes, adj) && EdgeClosed(adj, Closure(nodes, adj))
  {
    hide Reach, Edge, Closure;
    forall x | x in nodes ensures x in Closure(nodes, adj) {
      ReachSelf(adj, x);
      InClosure(nodes, adj, x);
    }
    forall y, z | y in Closure(nodes, adj) && Edge(adj, y, z) ensures z in Closure(nodes, adj) {
      InClosure(nodes, adj, y);
      InClosure(nodes, adj, z);
      var x :| x in nodes && Reach(adj, x, y);
      ReachEdge(adj, y, z);
      ReachTransitive(adj, x, y, z);
    }
  }

  /** It is the least closed set that contains them. */
  lemma ClosureLeast(nodes: set<string>, adj: Adjacency, s: set<string>)
    requires nodes <= s && EdgeClosed(adj, s)
    ensures Closure(nodes, adj) <= s
  {
    hide Reach, EdgeClosed, Closure;
    forall y | y in Closure(nodes, adj) ensures y in s {
      InClosure(nodes, adj, y);
      var x :| x in nodes && Reach(adj, x, y);
      ReachStaysIn(adj, s, x, y);
    }
  }

  lemma SameEdgesFacts(adj: Adjacency, graph: Adjacency, nodes: set<string>)
    requires SameEdges(adj, graph) && EdgeClosed(graph, nodes)
    ensures EdgeClosed(adj, nodes) && Closure(nodes, adj) == nodes
    ensures forall x, y :: Edge(adj, x, y) <==> Edge(graph, x, y)
    ensures forall x, y :: Mutual(adj, x, y) <==> Mutual(graph, x, y)
    ensures forall x :: OnCycle(adj, x) <==> OnCycle(graph, x)
  {
    hide Edge;
    SamePaths(adj, graph);
    forall x, y | x in nodes && Edge(adj, x, y) ensures y in nodes { assert Edge(graph, x, y); }
    hide Reach, Mutual, OnCycle, EdgeClosed, Closure;
    ClosureClosed(nodes, adj);
    ClosureLeast(nodes, adj, nodes);
  }

  /** The strongly connected components of a graph, as a list of ascending node lists. */
  ghost predicate SccPartition(nodes: set<string>, adj: Adjacency, comps: seq<seq<string>>) {
    && (forall i | 0 <= i < |comps| :: comps[i] != [] && Ascending(comps[i]))
    && (forall i, x | 0 <= i < |comps| && x in comps[i] :: x in nodes)
    && (forall x | x in nodes :: exists i :: 0 <= i < |comps| && x in comps[i])
    && (forall i, j, x, y | 0 <= i < |comps| && 0 <= j < |comps| && x in comps[i] && y in comps[j] ::
          i == j <==> Mutual(adj, x, y))
  }

  lemma ComponentMembers(nodes: set<string>, adj: Adjacency, comps: seq<seq<string>>, i: nat)
    requires SccPartition(nodes, adj, comps) && i < |comps|
    ensures comps[i] != [] && forall x | x in comps[i] :: x in nodes
  {
    hide Mutual, Ascending;
  }
}
