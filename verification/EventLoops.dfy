/** Trigger rules that can run forever: cycles of trigger edges without a positive budget. */
module EventLoops {
  import opened Ordering
  import opened Graph
  import opened Tarjan

  datatype TriggerEdge = TriggerEdge(
    from: string,
    to: string,
    hasPositiveCount: bool,
    hasPositiveDuration: bool,
    hasPositiveResource: bool)

  datatype Finding = Finding(nodes: seq<string>, edges: seq<TriggerEdge>, evidenceHash: string)

  /** Both ends are named and nothing bounds how often the edge fires. */
  predicate Unbounded(e: TriggerEdge) {
    !(e.from == "" || e.to == "" || e.hasPositiveCount || e.hasPositiveDuration || e.hasPositiveResource)
  }

  function EdgeKey(e: TriggerEdge): string {
    e.from + "\0" + e.to
  }

  function EdgeText(e: TriggerEdge): string {
    e.from + "->" + e.to
  }

  function Texts(edges: seq<TriggerEdge>): seq<string> {
    seq(|edges|, i requires 0 <= i < |edges| => EdgeText(edges[i]))
  }

  // ---------- The graph of unbounded edges, as a specification ----------

  ghost predicate RunsTo(edges: seq<TriggerEdge>, x: string, y: string) {
    exists e :: e in edges && Unbounded(e) && e.from == x && e.to == y
  }

  ghost function Nodes(edges: seq<TriggerEdge>): set<string> {
    (set e | e in edges && Unbounded(e) :: e.from) + (set e | e in edges && Unbounded(e) :: e.to)
  }

  ghost function Targets(edges: seq<TriggerEdge>, x: string): (ys: seq<string>)
    ensures forall y :: y in ys <==> RunsTo(edges, x, y)
  {
    if edges == [] then []
    else
      var rest := Targets(edges[1..], x);
      var e := edges[0];
      assert edges == [e] + edges[1..];
      assert forall y :: RunsTo(edges, x, y) <==> (Unbounded(e) && e.from == x && e.to == y) || RunsTo(edges[1..], x, y);
      (if Unbounded(e) && e.from == x then [e.to] else []) + rest
  }

  ghost function TriggerGraph(edges: seq<TriggerEdge>): Adjacency {
    map x | x in Nodes(edges) :: Targets(edges, x)
  }

  lemma TriggerGraphEdges(edges: seq<TriggerEdge>)
    ensures forall x, y :: Edge(TriggerGraph(edges), x, y) <==> RunsTo(edges, x, y)
    ensures EdgeClosed(TriggerGraph(edges), Nodes(edges))
    ensures forall x, y | Edge(TriggerGraph(edges), x, y) :: x in Nodes(edges)
  {
    forall x, y | RunsTo(edges, x, y) ensures x in Nodes(edges) && y in Nodes(edges) {}
  }

  /** A chain of unbounded edges, each starting where the one before it ended. */
  ghost predicate IsWalk(edges: seq<TriggerEdge>, w: seq<TriggerEdge>) {
    && (forall i | 0 <= i < |w| :: w[i] in edges && Unbounded(w[i]))
    && (forall i | 0 <= i < |w| - 1 :: w[i].to == w[i + 1].from)
  }

  ghost predicate IsClosedWalk(edges: seq<TriggerEdge>, w: seq<TriggerEdge>) {
    IsWalk(edges, w) && w != [] && w[|w| - 1].to == w[0].from
  }

  /** One whole cyclic component as a list. */
  ghost predicate CyclicComponent(edges: seq<TriggerEdge>, ns: seq<string>) {
    && ns != [] && Ascending(ns)
    && (forall x | x in ns :: OnCycle(TriggerGraph(edges), x))
    && (forall x, y | x in ns :: y in ns <==> Mutual(TriggerGraph(edges), x, y))
  }

  /** What a finding says: one whole cyclic component, its edges and their digest. */
  ghost predicate FindingOk(edges: seq<TriggerEdge>, hash: string -> string, f: Finding) {
    && CyclicComponent(edges, f.nodes)
    && SortedBy(EdgeKey, f.edges)
    && multiset(f.edges) == multiset(Filter((e: TriggerEdge) => Unbounded(e) && e.from in f.nodes && e.to in f.nodes, edges))
    && f.evidenceHash == hash(Join(f.nodes + Texts(f.edges), "\n"))
  }

  ghost predicate FindingsOk(edges: seq<TriggerEdge>, hash: string -> string, findings: seq<Finding>) {
    && (forall i | 0 <= i < |findings| :: FindingOk(edges, hash, findings[i]))
    && AllFound(edges, findings)
    && Apart(findings)
    && SortedBy(FindingKey, findings)
  }

  ghost predicate AllFound(edges: seq<TriggerEdge>, findings: seq<Finding>) {
    forall x | OnCycle(TriggerGraph(edges), x) :: exists i :: 0 <= i < |findings| && x in findings[i].nodes
  }

  ghost predicate Apart(findings: seq<Finding>) {
    forall i, j | 0 <= i < j < |findings| :: Elements(findings[i].nodes) !! Elements(findings[j].nodes)
  }

  function FindingKey(f: Finding): string { Join(f.nodes, "\0") }

  // ---------- The implementation ----------

  /** The adjacency lists of the unbounded edges: a list per source, its targets in the order of the edges. */
  ghost predicate Lists(adj: Adjacency, edges: seq<TriggerEdge>) {
    && (forall x :: Succ(adj, x) == Targets(edges, x))
    && (forall x | x in adj :: adj[x] != [])
  }

  lemma {:induction false} TargetsAppend(edges: seq<TriggerEdge>, e: TriggerEdge, x: string)
    ensures Targets(edges + [e], x) == Targets(edges, x) + (if Unbounded(e) && e.from == x then [e.to] else [])
  {
    hide Unbounded, RunsTo;
    if edges == [] {
    } else {
      assert (edges + [e])[1..] == edges[1..] + [e];
      TargetsAppend(edges[1..], e, x);
    }
  }

  lemma ListsAppend(adj: Adjacency, edges: seq<TriggerEdge>, e: TriggerEdge)
    requires Lists(adj, edges)
    ensures Lists(if Unbounded(e) then adj[e.from := Succ(adj, e.from) + [e.to]] else adj, edges + [e])
    ensures Nodes(edges + [e]) == if Unbounded(e) then Nodes(edges) + {e.from} + {e.to} else Nodes(edges)
  {
    hide Targets;
    NodesAppend(edges, e);
    hide Unbounded, Nodes;
    var grown := if Unbounded(e) then adj[e.from := Succ(adj, e.from) + [e.to]] else adj;
    forall x ensures Succ(grown, x) == Targets(edges + [e], x) { TargetsAppend(edges, e, x); }
  }

  lemma NodesAppend(edges: seq<TriggerEdge>, e: TriggerEdge)
    ensures Nodes(edges + [e]) == if Unbounded(e) then Nodes(edges) + {e.from} + {e.to} else Nodes(edges)
  {
    var all := edges + [e];
    assert e in all;
    assert forall d :: d in all <==> d in edges || d == e;
    hide Unbounded;
    assert forall x :: x in Nodes(all) <==> x in Nodes(edges) || (Unbounded(e) && (x == e.from || x == e.to));
  }

  lemma ListsGraph(adj: Adjacency, edges: seq<TriggerEdge>)
    requires Lists(adj, edges)
    ensures SameEdges(SortedLists(adj), TriggerGraph(edges))
  {
    hide RunsTo, SortedLists, TriggerGraph;
    SortingKeepsEdges(adj);
    TriggerGraphEdges(edges);
  }

  /** The first loop: keeps the unbounded edges and their adjacency lists, which it then sorts. */
  method Collect(edges: seq<TriggerEdge>) returns (unbounded: seq<TriggerEdge>, nodes: set<string>, adj: Adjacency)
    ensures unbounded == Filter(Unbounded, edges)
    ensures nodes == Nodes(edges)
    ensures forall x :: Succ(adj, x) == SortStrings(Targets(edges, x))
    ensures SameEdges(adj, TriggerGraph(edges))
  {
    hide Lists, Nodes, SameEdges;
    NoLists();
    unbounded, nodes, adj := [], {}, map[];
    var i := 0;
    assert edges[..0] == [];
    while i < |edges|
      invariant i <= |edges|
      invariant unbounded == Filter(Unbounded, edges[..i])
      invariant nodes == Nodes(edges[..i])
      invariant Lists(adj, edges[..i])
    {
      var edge := edges[i];
      assert edges[..i + 1] == edges[..i] + [edge];
      FilterAppend(Unbounded, edges[..i], edge);
      ListsAppend(adj, edges[..i], edge);
      if !(edge.from == "" || edge.to == "" || edge.hasPositiveCount || edge.hasPositiveDuration || edge.hasPositiveResource) {
        unbounded := unbounded + [edge];
        nodes := nodes + {edge.from} + {edge.to};
        adj := adj[edge.from := Succ(adj, edge.from) + [edge.to]];
      }
      i := i + 1;
    }
    assert edges[..i] == edges;
    ListsGraph(adj, edges);
    SortedSucc(adj, edges);
    adj := SortTargets(adj);
  }

  lemma NoLists()
    ensures Lists(map[], []) && Nodes([]) == {}
  {
  }

  lemma SortedSucc(adj: Adjacency, edges: seq<TriggerEdge>)
    requires Lists(adj, edges)
    ensures forall x :: Succ(SortedLists(adj), x) == SortStrings(Targets(edges, x))
  {
    assert SortStrings([]) == [];
    forall x ensures Succ(SortedLists(adj), x) == SortStrings(Targets(edges, x)) {
      assert Succ(adj, x) == Targets(edges, x);
    }
  }

  /** Every cyclic component among the first `i` has its finding. */
  ghost predicate Reported(adj: Adjacency, components: seq<seq<string>>, i: nat, findings: seq<Finding>) {
    forall j | 0 <= j < i && j < |components| && components[j] != [] && OnCycle(adj, components[j][0]) ::
      exists k :: 0 <= k < |findings| && findings[k].nodes == components[j]
  }

  lemma ReportedTake(adj: Adjacency, components: seq<seq<string>>, i: nat, findings: seq<Finding>, f: Finding)
    requires i < |components| && Reported(adj, components, i, findings) && f.nodes == components[i]
    ensures Reported(adj, components, i + 1, findings + [f])
  {
    var all := findings + [f];
    forall j | 0 <= j < i + 1 && components[j] != [] && OnCycle(adj, components[j][0])
      ensures exists k :: 0 <= k < |all| && all[k].nodes == components[j]
    {
      if j < i {
        var k :| 0 <= k < |findings| && findings[k].nodes == components[j];
        assert all[k].nodes == components[j];
      } else {
        assert all[|findings|].nodes == components[j];
      }
    }
  }

  /** The loop over the components after `i` of them. */
  ghost predicate Progress(edges: seq<TriggerEdge>, hash: string -> string, adj: Adjacency, components: seq<seq<string>>, i: nat, findings: seq<Finding>) {
    && i <= |components|
    && (forall j | 0 <= j < |findings| :: FindingOk(edges, hash, findings[j]))
    && FromComponents(components[..i], findings)
    && Reported(adj, components, i, findings)
  }

  method UnboundedEventLoops(edges: seq<TriggerEdge>, hash: string -> string) returns (findings: seq<Finding>)
    ensures FindingsOk(edges, hash, findings)
  {
    hide *;
    var unbounded, nodes, adj := Collect(edges);
    TriggerGraphEdges(edges);
    SameEdgesFacts(adj, TriggerGraph(edges), nodes);
    var components := StringScc(nodes, adj);
    findings := [];
    var i := 0;
    NothingReported(edges, hash, adj, components);
    while i < |components|
      invariant Progress(edges, hash, adj, components, i, findings) && i <= |components|
    {
      var component := components[i];
      var cyclic := IsCyclic(nodes, adj, components, i);
      ComponentMembers(nodes, adj, components, i);
      if cyclic {
        var f := Describe(edges, unbounded, component, hash);
        DescribedOk(edges, hash, nodes, adj, components, i, f);
        ProgressTake(edges, hash, adj, components, i, findings, f);
        findings := findings + [f];
      } else {
        ProgressSkip(edges, hash, adj, components, i, findings);
      }
      i := i + 1;
    }
    ProgressDone(edges, hash, nodes, adj, components, findings);
  }

  lemma NothingReported(edges: seq<TriggerEdge>, hash: string -> string, adj: Adjacency, components: seq<seq<string>>)
    ensures Progress(edges, hash, adj, components, 0, [])
  {
  }

  lemma ProgressTake(edges: seq<TriggerEdge>, hash: string -> string, adj: Adjacency, components: seq<seq<string>>, i: nat, findings: seq<Finding>, f: Finding)
    requires i < |components| && Progress(edges, hash, adj, components, i, findings)
    requires f.nodes == components[i] && FindingOk(edges, hash, f)
    ensures Progress(edges, hash, adj, components, i + 1, findings + [f])
  {
    hide FindingOk, FromComponents, Reported;
    FromComponentsTake(components, i, findings, f);
    ReportedTake(adj, components, i, findings, f);
  }

  lemma ProgressSkip(edges: seq<TriggerEdge>, hash: string -> string, adj: Adjacency, components: seq<seq<string>>, i: nat, findings: seq<Finding>)
    requires i < |components| && components[i] != [] && Progress(edges, hash, adj, components, i, findings)
    requires !OnCycle(adj, components[i][0])
    ensures Progress(edges, hash, adj, components, i + 1, findings)
  {
    hide FindingOk, FromComponents, Reported, OnCycle;
    FromComponentsSkip(components, i, findings);
    ReportedSkip(adj, components, i, findings);
  }

  lemma ProgressDone(edges: seq<TriggerEdge>, hash: string -> string, nodes: set<string>, adj: Adjacency, components: seq<seq<string>>, findings: seq<Finding>)
    requires SameEdges(adj, TriggerGraph(edges)) && nodes == Nodes(edges)
    requires SccPartition(nodes, adj, components) && SortedBy((c: seq<string>) => Join(c, "\0"), components)
    requires Progress(edges, hash, adj, components, |components|, findings)
    ensures FindingsOk(edges, hash, findings)
  {
    hide FindingOk, FromComponents, Reported, OnCycle, SccPartition, SameEdges, SortedBy, Nodes, TriggerGraph;
    assert components[..|components|] == components;
    FromComponentsOrder(nodes, adj, components, findings);
    AllReported(edges, nodes, adj, components, findings);
  }

  lemma ReportedSkip(adj: Adjacency, components: seq<seq<string>>, i: nat, findings: seq<Finding>)
    requires i < |components| && components[i] != [] && Reported(adj, components, i, findings)
    ensures !OnCycle(adj, components[i][0]) ==> Reported(adj, components, i + 1, findings)
  {
    hide OnCycle;
  }

  lemma DescribedOk(edges: seq<TriggerEdge>, hash: string -> string, nodes: set<string>, adj: Adjacency, components: seq<seq<string>>, i: nat, f: Finding)
    requires SameEdges(adj, TriggerGraph(edges)) && EdgeClosed(TriggerGraph(edges), nodes)
    requires SccPartition(nodes, adj, components) && i < |components| && components[i] != [] && OnCycle(adj, components[i][0])
    requires f.nodes == components[i] && SortedBy(EdgeKey, f.edges)
    requires multiset(f.edges) == multiset(Filter((e: TriggerEdge) => Unbounded(e) && e.from in f.nodes && e.to in f.nodes, edges))
    requires f.evidenceHash == hash(Join(f.nodes + Texts(f.edges), "\n"))
    ensures FindingOk(edges, hash, f)
  {
    hide OnCycle, Reach, Edge, RunsTo;
    SameEdgesFacts(adj, TriggerGraph(edges), nodes);
    ComponentHasCycle(nodes, adj, components, i);
    assert components[i][0] in components[i];
  }

  lemma AllReported(edges: seq<TriggerEdge>, nodes: set<string>, adj: Adjacency, components: seq<seq<string>>, findings: seq<Finding>)
    requires SameEdges(adj, TriggerGraph(edges)) && nodes == Nodes(edges)
    requires SccPartition(nodes, adj, components) && Reported(adj, components, |components|, findings)
    ensures forall x | OnCycle(TriggerGraph(edges), x) :: exists k :: 0 <= k < |findings| && x in findings[k].nodes
  {
    hide OnCycle, Reach, Edge, RunsTo, Closure;
    TriggerGraphEdges(edges);
    SameEdgesFacts(adj, TriggerGraph(edges), nodes);
    forall x | OnCycle(adj, x) ensures exists k :: 0 <= k < |findings| && x in findings[k].nodes {
      CyclicNode(adj, nodes, x);
      var j :| 0 <= j < |components| && x in components[j];
      ComponentHasCycle(nodes, adj, components, j);
      assert components[j][0] in components[j];
      var k :| 0 <= k < |findings| && findings[k].nodes == components[j];
    }
  }

  method InsideEdges(unbounded: seq<TriggerEdge>, component: seq<string>) returns (cycleEdges: seq<TriggerEdge>)
    ensures cycleEdges == Filter((e: TriggerEdge) => e.from in component && e.to in component, unbounded)
  {
    ghost var inside := (e: TriggerEdge) => e.from in component && e.to in component;
    var members := set x | x in component;
    cycleEdges := [];
    var i := 0;
    assert unbounded[..0] == [];
    while i < |unbounded|
      invariant i <= |unbounded| && cycleEdges == Filter(inside, unbounded[..i])
    {
      assert unbounded[..i + 1] == unbounded[..i] + [unbounded[i]];
      FilterAppend(inside, unbounded[..i], unbounded[i]);
      if unbounded[i].from in members && unbounded[i].to in members {
        cycleEdges := cycleEdges + [unbounded[i]];
      }
      i := i + 1;
    }
    assert unbounded[..i] == unbounded;
  }

  /** One finding: the edges inside the component, sorted, and the digest of both lists. */
  method Describe(ghost edges: seq<TriggerEdge>, unbounded: seq<TriggerEdge>, component: seq<string>, hash: string -> string) returns (f: Finding)
    requires unbounded == Filter(Unbounded, edges)
    ensures f.nodes == component && SortedBy(EdgeKey, f.edges)
    ensures multiset(f.edges) == multiset(Filter((e: TriggerEdge) => Unbounded(e) && e.from in component && e.to in component, edges))
    ensures f.evidenceHash == hash(Join(f.nodes + Texts(f.edges), "\n"))
  {
    hide SortedBy, Unbounded, EdgeKey, Join;
    var cycleEdges := InsideEdges(unbounded, component);
    ghost var inside := (e: TriggerEdge) => e.from in component && e.to in component;
    ghost var both := (e: TriggerEdge) => Unbounded(e) && e.from in component && e.to in component;
    FilterTwice(Unbounded, inside, both, edges);
    cycleEdges := SortSlice(EdgeKey, cycleEdges);
    var parts := component;
    var i := 0;
    while i < |cycleEdges|
      invariant i <= |cycleEdges| && parts == component + Texts(cycleEdges)[..i]
    {
      assert Texts(cycleEdges)[..i + 1] == Texts(cycleEdges)[..i] + [EdgeText(cycleEdges[i])];
      parts := parts + [cycleEdges[i].from + "->" + cycleEdges[i].to];
      i := i + 1;
    }
    assert Texts(cycleEdges)[..i] == Texts(cycleEdges);
    f := Finding(component, cycleEdges, hash(Join(parts, "\n")));
  }

  // ---------- Findings are a subsequence of the components ----------

  ghost predicate FromComponents(components: seq<seq<string>>, findings: seq<Finding>)
    decreases components, 1
  {
    || findings == []
    || (components != [] &&
        (FromComponents(components[..|components| - 1], findings) || LastFromLast(components, findings)))
  }

  ghost predicate LastFromLast(components: seq<seq<string>>, findings: seq<Finding>)
    requires components != [] && findings != []
    decreases components, 0
  {
    && findings[|findings| - 1].nodes == components[|components| - 1]
    && FromComponents(components[..|components| - 1], findings[..|findings| - 1])
  }

  lemma FromComponentsSkip(components: seq<seq<string>>, i: nat, findings: seq<Finding>)
    requires i < |components| && FromComponents(components[..i], findings)
    ensures FromComponents(components[..i + 1], findings)
  {
    assert components[..i + 1][..i] == components[..i];
  }

  lemma FromComponentsTake(components: seq<seq<string>>, i: nat, findings: seq<Finding>, f: Finding)
    requires i < |components| && FromComponents(components[..i], findings) && f.nodes == components[i]
    ensures FromComponents(components[..i + 1], findings + [f])
  {
    assert components[..i + 1][..i] == components[..i];
    assert (findings + [f])[..|findings|] == findings;
  }

  /** Which component each finding came from. */
  lemma {:induction false} FromComponentsAt(components: seq<seq<string>>, findings: seq<Finding>) returns (at: seq<nat>)
    requires FromComponents(components, findings)
    ensures |at| == |findings|
    ensures forall i | 0 <= i < |at| :: at[i] < |components| && findings[i].nodes == components[at[i]]
    ensures forall i, j | 0 <= i < j < |at| :: at[i] < at[j]
  {
    if findings == [] {
      at := [];
    } else {
      var n, m := |components| - 1, |findings| - 1;
      if LastFromLast(components, findings) {
        var rest := FromComponentsAt(components[..n], findings[..m]);
        at := rest + [n];
        assert forall i | 0 <= i < m :: findings[..m][i] == findings[i];
      } else {
        at := FromComponentsAt(components[..n], findings);
      }
    }
  }

  lemma FromComponentsOrder(nodes: set<string>, adj: Adjacency, components: seq<seq<string>>, findings: seq<Finding>)
    requires SccPartition(nodes, adj, components) && FromComponents(components, findings)
    requires SortedBy((c: seq<string>) => Join(c, "\0"), components)
    ensures forall i, j | 0 <= i < j < |findings| :: Elements(findings[i].nodes) !! Elements(findings[j].nodes)
    ensures SortedBy(FindingKey, findings)
  {
    hide Reach, FromComponents;
    var at := FromComponentsAt(components, findings);
    var key := (c: seq<string>) => Join(c, "\0");
    forall i, j | 0 <= i < j < |findings| ensures Elements(findings[i].nodes) !! Elements(findings[j].nodes) {
      assert at[i] < at[j];
      forall x | x in components[at[i]] ensures x !in components[at[j]] { MutualSelf(adj, x); }
    }
    forall i, j | 0 <= i < j < |findings| ensures !Less(Join(findings[j].nodes, "\0"), Join(findings[i].nodes, "\0")) {
      assert at[i] < at[j];
      assert !Less(key(components[at[j]]), key(components[at[i]]));
    }
  }

  lemma CyclicNode(adj: Adjacency, nodes: set<string>, x: string)
    requires OnCycle(adj, x) && EdgeClosed(adj, nodes) && forall u, v | Edge(adj, u, v) :: u in nodes
    ensures x in nodes
  {
    hide OnCycle, Reach, Edge;
    CycleThroughEdge(adj, x);
  }

  // ---------- What the findings mean for runs ----------

  /** Every member of a finding starts a closed walk made of the finding's own edges. */
  lemma FindingHasClosedWalk(edges: seq<TriggerEdge>, hash: string -> string, f: Finding, x: string) returns (w: seq<TriggerEdge>)
    requires FindingOk(edges, hash, f) && x in f.nodes
    ensures IsClosedWalk(edges, w) && w[0].from == x
    ensures forall e | e in w :: e in f.edges
  {
    var p := CycleInside(edges, hash, f, x);
    hide FindingOk, IsWalk, IsPath;
    w := WalkAlong(edges, hash, f, p);
  }

  /** The closed path through a member, all of it inside the finding. */
  lemma CycleInside(edges: seq<TriggerEdge>, hash: string -> string, f: Finding, x: string) returns (p: seq<string>)
    requires FindingOk(edges, hash, f) && x in f.nodes
    ensures |p| > 1 && p[0] == x && p[|p| - 1] == x && IsPath(TriggerGraph(edges), p)
    ensures forall y | y in p :: y in f.nodes
  {
    hide IsPath, Reach, TriggerGraph, SortedBy;
    var graph := TriggerGraph(edges);
    p :| PathBetween(graph, p, x, x) && |p| > 1;
    CycleStaysInComponent(graph, p, x);
    forall k | 0 <= k < |p| ensures p[k] in f.nodes { assert Mutual(graph, x, p[k]); }
  }

  lemma {:induction false} WalkAlong(edges: seq<TriggerEdge>, hash: string -> string, f: Finding, p: seq<string>) returns (w: seq<TriggerEdge>)
    requires FindingOk(edges, hash, f) && p != [] && IsPath(TriggerGraph(edges), p)
    requires forall y | y in p :: y in f.nodes
    ensures |w| == |p| - 1 && IsWalk(edges, w)
    ensures forall e | e in w :: e in f.edges
    ensures w != [] ==> w[0].from == p[0] && w[|w| - 1].to == p[|p| - 1]
  {
    hide FindingOk, Edge, TriggerGraph;
    if |p| == 1 {
      w := [];
    } else {
      assert Edge(TriggerGraph(edges), p[0], p[0 + 1]);
      var rest := WalkAlong(edges, hash, f, p[1..]);
      var e := EdgeBehind(edges, p[0], p[1]);
      InsideFinding(edges, hash, f, e);
      w := [e] + rest;
    }
  }

  lemma EdgeBehind(edges: seq<TriggerEdge>, x: string, y: string) returns (e: TriggerEdge)
    requires Edge(TriggerGraph(edges), x, y)
    ensures e in edges && Unbounded(e) && e.from == x && e.to == y
  {
    TriggerGraphEdges(edges);
    e :| e in edges && Unbounded(e) && e.from == x && e.to == y;
  }

  lemma InsideFinding(edges: seq<TriggerEdge>, hash: string -> string, f: Finding, e: TriggerEdge)
    requires FindingOk(edges, hash, f)
    ensures e in f.edges <==> e in edges && Unbounded(e) && e.from in f.nodes && e.to in f.nodes
  {
    hide Edge, Reach, OnCycle;
    assert e in f.edges <==> e in multiset(f.edges);
    var keep := (e: TriggerEdge) => Unbounded(e) && e.from in f.nodes && e.to in f.nodes;
    assert e in Filter(keep, edges) <==> e in multiset(Filter(keep, edges));
  }

  /** Without findings the rank falls along every unbounded edge and stays below the number of nodes. */
  lemma RankOfQuietGraph(edges: seq<TriggerEdge>, hash: string -> string, findings: seq<Finding>, e: TriggerEdge)
    requires FindingsOk(edges, hash, findings) && findings == []
    requires e in edges && Unbounded(e)
    ensures Rank(Nodes(edges), TriggerGraph(edges), e.to) < Rank(Nodes(edges), TriggerGraph(edges), e.from) < |Nodes(edges)|
  {
    hide OnCycle, Reach, Edge;
    TriggerGraphEdges(edges);
    assert RunsTo(edges, e.from, e.to);
    assert Edge(TriggerGraph(edges), e.from, e.to);
    RankFalls(Nodes(edges), TriggerGraph(edges), e.from, e.to);
    RankBound(Nodes(edges), TriggerGraph(edges), e.from);
  }

  lemma {:induction false} WalkDescends(edges: seq<TriggerEdge>, hash: string -> string, findings: seq<Finding>, w: seq<TriggerEdge>)
    requires FindingsOk(edges, hash, findings) && findings == []
    requires IsWalk(edges, w) && w != []
    ensures |w| <= Rank(Nodes(edges), TriggerGraph(edges), w[0].from) < |Nodes(edges)|
  {
    hide FindingsOk, Rank;
    RankOfQuietGraph(edges, hash, findings, w[0]);
    if |w| > 1 {
      assert IsWalk(edges, w[1..]);
      WalkDescends(edges, hash, findings, w[1..]);
      assert w[0].to == w[0 + 1].from;
    }
  }

  function Repeat(w: seq<TriggerEdge>, n: nat): seq<TriggerEdge> {
    if n == 0 then [] else w + Repeat(w, n - 1)
  }

  lemma {:induction false} RepeatWalk(edges: seq<TriggerEdge>, w: seq<TriggerEdge>, n: nat)
    requires IsClosedWalk(edges, w)
    ensures IsWalk(edges, Repeat(w, n)) && |Repeat(w, n)| >= n
    ensures n > 0 ==> Repeat(w, n)[0] == w[0]
  {
    if n > 0 {
      RepeatWalk(edges, w, n - 1);
      var rest := Repeat(w, n - 1);
      assert Repeat(w, n) == w + rest;
    }
  }

  /** No finding means bounded runs: every chain of unbounded edges is shorter than the node count, and only then. */
  lemma QuietExactlyWhenRunsAreBounded(edges: seq<TriggerEdge>, hash: string -> string, findings: seq<Finding>)
    requires FindingsOk(edges, hash, findings)
    ensures findings == [] <==> forall w | IsWalk(edges, w) && w != [] :: |w| < |Nodes(edges)|
  {
    hide FindingOk;
    if findings == [] {
      forall w | IsWalk(edges, w) && w != [] ensures |w| < |Nodes(edges)| {
        WalkDescends(edges, hash, findings, w);
      }
    } else {
      var x := FindingMember(edges, hash, findings[0]);
      var w := FindingHasClosedWalk(edges, hash, findings[0], x);
      RepeatWalk(edges, w, |Nodes(edges)| + 1);
      assert IsWalk(edges, Repeat(w, |Nodes(edges)| + 1));
    }
  }

  lemma FindingMember(edges: seq<TriggerEdge>, hash: string -> string, f: Finding) returns (x: string)
    requires FindingOk(edges, hash, f)
    ensures x in f.nodes
  {
    x := f.nodes[0];
  }

  /** No finding exactly when some rank falls along every unbounded edge. */
  lemma QuietExactlyWhenRanked(edges: seq<TriggerEdge>, hash: string -> string, findings: seq<Finding>)
    requires FindingsOk(edges, hash, findings)
    ensures findings == [] <==> exists rank: map<string, nat> :: RankedBy(edges, rank)
  {
    hide FindingOk, Rank, IsClosedWalk;
    if findings == [] {
      var rank := map x | x in Nodes(edges) :: Rank(Nodes(edges), TriggerGraph(edges), x);
      forall e | e in edges && Unbounded(e) ensures e.from in rank && e.to in rank && rank[e.to] < rank[e.from] {
        RankOfQuietGraph(edges, hash, findings, e);
      }
      assert RankedBy(edges, rank);
    } else {
      var x := FindingMember(edges, hash, findings[0]);
      var w := FindingHasClosedWalk(edges, hash, findings[0], x);
      forall rank: map<string, nat> ensures !RankedBy(edges, rank) {
        if RankedBy(edges, rank) { ClosedWalkUnranked(edges, w, rank); }
      }
    }
  }

  ghost predicate RankedBy(edges: seq<TriggerEdge>, rank: map<string, nat>) {
    forall e | e in edges && Unbounded(e) :: e.from in rank && e.to in rank && rank[e.to] < rank[e.from]
  }

  lemma ClosedWalkUnranked(edges: seq<TriggerEdge>, w: seq<TriggerEdge>, rank: map<string, nat>)
    requires IsClosedWalk(edges, w)
    ensures !RankedBy(edges, rank)
  {
    if RankedBy(edges, rank) {
      var i := 0;
      while i < |w| - 1
        invariant 0 <= i < |w| && w[0].from in rank && w[i].to in rank && rank[w[i].to] < rank[w[0].from]
      {
        i := i + 1;
      }
    }
  }

  // ---------- When the findings are determined ----------

  /** Two different inner edges of one cyclic component that the sort cannot tell apart. */
  ghost predicate EdgesTie(edges: seq<TriggerEdge>, d: TriggerEdge, e: TriggerEdge) {
    && d in edges && e in edges && d != e && Unbounded(d) && Unbounded(e) && EdgeKey(d) == EdgeKey(e)
    && OnCycle(TriggerGraph(edges), d.from)
    && Mutual(TriggerGraph(edges), d.from, d.to)
    && Mutual(TriggerGraph(edges), d.from, e.from)
    && Mutual(TriggerGraph(edges), d.from, e.to)
  }

  /** Two different cyclic components that the sort cannot tell apart. */
  ghost predicate ComponentsTie(edges: seq<TriggerEdge>, a: seq<string>, b: seq<string>) {
    a != b && CyclicComponent(edges, a) && CyclicComponent(edges, b) && Join(a, "\0") == Join(b, "\0")
  }

  ghost predicate NoTies(edges: seq<TriggerEdge>) {
    (forall d, e :: !EdgesTie(edges, d, e)) && (forall a, b :: !ComponentsTie(edges, a, b))
  }

  /** The findings are a function of the edges if and only if neither sort meets a tie. */
  lemma DeterminedExactlyWithoutTies(edges: seq<TriggerEdge>, hash: string -> string, findings: seq<Finding>)
    requires FindingsOk(edges, hash, findings)
    ensures (forall other | FindingsOk(edges, hash, other) :: other == findings) <==> NoTies(edges)
  {
    hide FindingsOk, EdgesTie, ComponentsTie;
    if d, e :| EdgesTie(edges, d, e) {
      var other := EdgesSwapped(edges, hash, findings, d, e);
    } else if a, b :| ComponentsTie(edges, a, b) {
      var other := FindingsSwapped(edges, hash, findings, a, b);
    } else {
      forall other | FindingsOk(edges, hash, other) ensures other == findings {
        SameFindings(edges, hash, findings, other);
      }
    }
  }

  lemma SameComponent(edges: seq<TriggerEdge>, a: seq<string>, b: seq<string>, x: string)
    requires CyclicComponent(edges, a) && CyclicComponent(edges, b) && x in a && x in b
    ensures a == b
  {
    hide OnCycle, Mutual;
    forall y ensures y in a <==> y in b { assert y in a <==> Mutual(TriggerGraph(edges), x, y); }
    AscendingUnique(a, b);
  }

  lemma FindingEdges(edges: seq<TriggerEdge>, hash: string -> string, f: Finding)
    requires FindingOk(edges, hash, f)
    ensures forall e :: e in multiset(f.edges) <==> e in edges && Unbounded(e) && e.from in f.nodes && e.to in f.nodes
  {
    hide CyclicComponent, Unbounded;
    var keep := (e: TriggerEdge) => Unbounded(e) && e.from in f.nodes && e.to in f.nodes;
    forall e ensures e in multiset(f.edges) <==> e in edges && keep(e) {
      assert e in Filter(keep, edges) <==> e in multiset(Filter(keep, edges));
    }
  }

  lemma SameFinding(edges: seq<TriggerEdge>, hash: string -> string, f: Finding, g: Finding)
    requires NoTies(edges) && FindingOk(edges, hash, f) && FindingOk(edges, hash, g) && f.nodes == g.nodes
    ensures f == g
  {
    hide OnCycle, Mutual, Unbounded;
    FindingEdges(edges, hash, f);
    forall d, e | d in multiset(f.edges) && e in multiset(f.edges) && EdgeKey(d) == EdgeKey(e) ensures d == e {
      assert !EdgesTie(edges, d, e);
    }
    hide CyclicComponent, EdgeKey;
    SortedUnique(EdgeKey, f.edges, g.edges);
  }

  lemma SameFindings(edges: seq<TriggerEdge>, hash: string -> string, a: seq<Finding>, b: seq<Finding>)
    requires NoTies(edges) && FindingsOk(edges, hash, a) && FindingsOk(edges, hash, b)
    ensures a == b
  {
    hide OnCycle, Mutual, FindingOk, CyclicComponent, NoTies, Less, SortedBy;
    forall f | f in a ensures f in b { FoundAgain(edges, hash, a, b, f); }
    forall f | f in b ensures f in a { FoundAgain(edges, hash, b, a, f); }
    DifferentFindings(edges, hash, a);
    DifferentFindings(edges, hash, b);
    DistinctSameElements(a, b);
    forall f, g | f in multiset(a) && g in multiset(a) && FindingKey(f) == FindingKey(g) ensures f == g {
      NamesDiffer(edges, hash, f, g);
    }
    SortedUnique(FindingKey, a, b);
  }

  lemma NamesDiffer(edges: seq<TriggerEdge>, hash: string -> string, f: Finding, g: Finding)
    requires NoTies(edges) && FindingOk(edges, hash, f) && FindingOk(edges, hash, g) && FindingKey(f) == FindingKey(g)
    ensures f == g
  {
    hide OnCycle, Mutual, CyclicComponent;
    assert !ComponentsTie(edges, f.nodes, g.nodes);
    SameFinding(edges, hash, f, g);
  }

  lemma FoundAgain(edges: seq<TriggerEdge>, hash: string -> string, a: seq<Finding>, b: seq<Finding>, f: Finding)
    requires NoTies(edges) && FindingsOk(edges, hash, a) && FindingsOk(edges, hash, b) && f in a
    ensures f in b
  {
    hide OnCycle, Mutual, NoTies, SortedBy;
    var x := f.nodes[0];
    assert FindingOk(edges, hash, f) && x in f.nodes;
    var i :| 0 <= i < |b| && x in b[i].nodes;
    SameComponent(edges, f.nodes, b[i].nodes, x);
    SameFinding(edges, hash, f, b[i]);
  }

  lemma DifferentFindings(edges: seq<TriggerEdge>, hash: string -> string, a: seq<Finding>)
    requires FindingsOk(edges, hash, a)
    ensures Distinct(a)
  {
    hide OnCycle, Mutual, SortedBy;
    forall i, j | 0 <= i < j < |a| ensures a[i] != a[j] {
      assert FindingOk(edges, hash, a[i]);
      assert a[i].nodes[0] in Elements(a[i].nodes);
    }
  }

  /** With two inner edges exchanged, and the digest taken again, a finding is just as right. */
  lemma TiedFinding(edges: seq<TriggerEdge>, hash: string -> string, f: Finding, d: TriggerEdge, e: TriggerEdge) returns (g: Finding)
    requires FindingOk(edges, hash, f) && EdgesTie(edges, d, e) && d.from in f.nodes
    ensures FindingOk(edges, hash, g) && g.nodes == f.nodes && g.edges != f.edges
  {
    hide *;
    TieKeys(edges, d, e);
    TiedInside(edges, hash, f, d, e);
    var p :| 0 <= p < |f.edges| && f.edges[p] == d;
    var q :| 0 <= q < |f.edges| && f.edges[q] == e;
    var swapped := f.edges[p := e][q := d];
    SwapTied(f.edges, p, q);
    g := Finding(f.nodes, swapped, hash(Join(f.nodes + Texts(swapped), "\n")));
    OtherOrder(edges, hash, f, g);
  }

  lemma TiedInside(edges: seq<TriggerEdge>, hash: string -> string, f: Finding, d: TriggerEdge, e: TriggerEdge)
    requires FindingOk(edges, hash, f) && EdgesTie(edges, d, e) && d.from in f.nodes
    ensures d in f.edges && e in f.edges
  {
    hide OnCycle, Mutual, Unbounded, EdgeKey, SortedBy, Texts, Join;
    InsideFinding(edges, hash, f, d);
    InsideFinding(edges, hash, f, e);
  }

  lemma OtherOrder(edges: seq<TriggerEdge>, hash: string -> string, f: Finding, g: Finding)
    requires FindingOk(edges, hash, f) && g.nodes == f.nodes && multiset(g.edges) == multiset(f.edges)
    requires (SortedBy(EdgeKey, f.edges) ==> SortedBy(EdgeKey, g.edges)) && g.evidenceHash == hash(Join(g.nodes + Texts(g.edges), "\n"))
    ensures FindingOk(edges, hash, g)
  {
    hide CyclicComponent, SortedBy, Texts, Join, EdgeKey;
  }

  lemma TieKeys(edges: seq<TriggerEdge>, d: TriggerEdge, e: TriggerEdge)
    requires EdgesTie(edges, d, e)
    ensures EdgeKey(d) == EdgeKey(e) && d != e && OnCycle(TriggerGraph(edges), d.from)
  {
  }

  lemma EdgesSwapped(edges: seq<TriggerEdge>, hash: string -> string, findings: seq<Finding>, d: TriggerEdge, e: TriggerEdge)
      returns (other: seq<Finding>)
    requires FindingsOk(edges, hash, findings) && EdgesTie(edges, d, e)
    ensures FindingsOk(edges, hash, other) && other != findings
  {
    hide OnCycle, SortedBy, FindingOk, EdgesTie;
    TieKeys(edges, d, e);
    var i :| 0 <= i < |findings| && d.from in findings[i].nodes;
    var g := TiedFinding(edges, hash, findings[i], d, e);
    other := findings[i := g];
    OneReplaced(findings, i, g);
    forall x | OnCycle(TriggerGraph(edges), x) ensures exists k :: 0 <= k < |other| && x in other[k].nodes {
      var k :| 0 <= k < |findings| && x in findings[k].nodes;
      assert other[k].nodes == findings[k].nodes;
    }
    assert other[i].edges != findings[i].edges;
  }

  lemma SwapTied(s: seq<TriggerEdge>, p: nat, q: nat)
    requires p < |s| && q < |s| && s[p] != s[q] && EdgeKey(s[p]) == EdgeKey(s[q])
    ensures var t := s[p := s[q]][q := s[p]];
      t != s && multiset(t) == multiset(s) && (SortedBy(EdgeKey, s) ==> SortedBy(EdgeKey, t))
  {
    hide EdgeKey, Less;
    var t := s[p := s[q]][q := s[p]];
    assert t[p] == s[q];
    assert forall i | 0 <= i < |t| :: EdgeKey(t[i]) == EdgeKey(s[i]);
  }

  lemma OneReplaced(findings: seq<Finding>, i: nat, g: Finding)
    requires i < |findings| && g.nodes == findings[i].nodes && SortedBy(FindingKey, findings)
    ensures SortedBy(FindingKey, findings[i := g])
  {
    hide Less, Join;
    assert forall k | 0 <= k < |findings| :: FindingKey(findings[i := g][k]) == FindingKey(findings[k]);
  }

  /** With two findings of the same joined name exchanged, they are just as right. */
  lemma FindingsSwapped(edges: seq<TriggerEdge>, hash: string -> string, findings: seq<Finding>, a: seq<string>, b: seq<string>)
      returns (other: seq<Finding>)
    requires FindingsOk(edges, hash, findings) && ComponentsTie(edges, a, b)
    ensures FindingsOk(edges, hash, other) && other != findings
  {
    var p := FindingOf(edges, hash, findings, a);
    var q := FindingOf(edges, hash, findings, b);
    hide OnCycle, FindingOk, CyclicComponent, SortedBy, AllFound, Apart, FindingKey;
    other := findings[p := findings[q]][q := findings[p]];
    SwapNamed(findings, p, q);
    SwapFound(edges, findings, p, q);
    assert other[p] != findings[p];
  }

  lemma SwapFound(edges: seq<TriggerEdge>, s: seq<Finding>, p: nat, q: nat)
    requires p < |s| && q < |s| && AllFound(edges, s) && Apart(s)
    ensures AllFound(edges, s[p := s[q]][q := s[p]]) && Apart(s[p := s[q]][q := s[p]])
  {
    hide OnCycle;
    var t := s[p := s[q]][q := s[p]];
    forall x | OnCycle(TriggerGraph(edges), x) ensures exists k :: 0 <= k < |t| && x in t[k].nodes {
      var k :| 0 <= k < |s| && x in s[k].nodes;
      assert t[if k == p then q else if k == q then p else k] == s[k];
    }
  }

  lemma FindingOf(edges: seq<TriggerEdge>, hash: string -> string, findings: seq<Finding>, a: seq<string>) returns (p: nat)
    requires FindingsOk(edges, hash, findings) && CyclicComponent(edges, a)
    ensures p < |findings| && findings[p].nodes == a
  {
    hide OnCycle, Mutual, SortedBy;
    assert a[0] in a;
    var i :| 0 <= i < |findings| && a[0] in findings[i].nodes;
    assert FindingOk(edges, hash, findings[i]);
    SameComponent(edges, a, findings[i].nodes, a[0]);
    p := i;
  }

  lemma SwapNamed(s: seq<Finding>, p: nat, q: nat)
    requires p < |s| && q < |s| && FindingKey(s[p]) == FindingKey(s[q]) && SortedBy(FindingKey, s)
    ensures SortedBy(FindingKey, s[p := s[q]][q := s[p]])
  {
    hide Less, Join;
    var t := s[p := s[q]][q := s[p]];
    assert forall i | 0 <= i < |t| :: FindingKey(t[i]) == FindingKey(s[i]);
  }

  /** Node names without a zero byte never tie, so for them the findings are determined. */
  lemma NamesWithoutZeroNeverTie(edges: seq<TriggerEdge>)
    requires forall x | x in Nodes(edges) :: '\0' !in x
    ensures NoTies(edges)
  {
    hide OnCycle, Mutual, Nodes;
    forall d, e ensures !EdgesTie(edges, d, e) {
      if EdgesTie(edges, d, e) { EdgeKeysDiffer(edges, d, e); }
    }
    forall a, b ensures !ComponentsTie(edges, a, b) {
      if ComponentsTie(edges, a, b) {
        ComponentNames(edges, a);
        ComponentNames(edges, b);
        JoinInjective(a, b, '\0');
      }
    }
  }

  lemma EdgeKeysDiffer(edges: seq<TriggerEdge>, d: TriggerEdge, e: TriggerEdge)
    requires d in edges && e in edges && Unbounded(d) && Unbounded(e) && EdgeKey(d) == EdgeKey(e)
    requires forall x | x in Nodes(edges) :: '\0' !in x
    ensures d == e
  {
    assert d.from in Nodes(edges) && e.from in Nodes(edges);
    CutOnce(d.from, d.to, e.from, e.to, '\0');
  }

  lemma ComponentNames(edges: seq<TriggerEdge>, a: seq<string>)
    requires CyclicComponent(edges, a) && forall x | x in Nodes(edges) :: '\0' !in x
    ensures forall x | x in a :: x != "" && '\0' !in x
  {
    hide OnCycle, Mutual, Edge;
    TriggerGraphEdges(edges);
    forall x | x in a ensures x in Nodes(edges) && x != "" { CyclicNode(TriggerGraph(edges), Nodes(edges), x); }
  }
}
