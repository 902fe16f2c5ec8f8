/** Formulas that read each other in a circle. */
module FormulaCycles {
  import opened Ordering
  import opened Graph
  import opened Tarjan

  datatype FormulaNode = FormulaNode(entityId: string, fieldPath: string, outputAttributeId: string)

  datatype FormulaEdge = FormulaEdge(from: FormulaNode, to: FormulaNode)

  datatype CycleFinding = CycleFinding(node: FormulaNode, nodes: seq<FormulaNode>, edges: seq<FormulaEdge>, cycleHash: string)

  function Key(n: FormulaNode): string {
    n.entityId + "|" + n.fieldPath + "|" + n.outputAttributeId
  }

  /** The text an edge is sorted by and hashed as. */
  function EdgeKey(e: FormulaEdge): string {
    Key(e.from) + "->" + Key(e.to)
  }

  function FindingKey(f: CycleFinding): string {
    Key(f.node)
  }

  function Keys(ns: seq<FormulaNode>): (ks: seq<string>)
    ensures |ks| == |ns| && forall i | 0 <= i < |ns| :: ks[i] == Key(ns[i])
  {
    seq(|ns|, i requires 0 <= i < |ns| => Key(ns[i]))
  }

  function CycleHash(hash: string -> string, component: seq<string>, edges: seq<FormulaEdge>): string {
    hash(Join(component + Texts(edges), "\n"))
  }

  function Texts(edges: seq<FormulaEdge>): (ts: seq<string>)
    ensures |ts| == |edges| && forall i | 0 <= i < |edges| :: ts[i] == EdgeKey(edges[i])
  {
    seq(|edges|, i requires 0 <= i < |edges| => EdgeKey(edges[i]))
  }

  // ---------- The key graph, as a specification ----------

  ghost predicate Reads(edges: seq<FormulaEdge>, x: string, y: string) {
    exists e :: e in edges && Key(e.from) == x && Key(e.to) == y
  }

  ghost function AllNodes(nodes: seq<FormulaNode>, edges: seq<FormulaEdge>): set<FormulaNode> {
    Elements(nodes) + (set e | e in edges :: e.from) + (set e | e in edges :: e.to)
  }

  ghost function AllKeys(nodes: seq<FormulaNode>, edges: seq<FormulaEdge>): set<string> {
    set n | n in AllNodes(nodes, edges) :: Key(n)
  }

  ghost function ReadTargets(edges: seq<FormulaEdge>, x: string): (ys: seq<string>)
    ensures forall y :: y in ys <==> Reads(edges, x, y)
  {
    if edges == [] then []
    else
      var rest := ReadTargets(edges[1..], x);
      var e := edges[0];
      assert edges == [e] + edges[1..];
      assert forall y :: Reads(edges, x, y) <==> (Key(e.from) == x && Key(e.to) == y) || Reads(edges[1..], x, y);
      (if Key(e.from) == x then [Key(e.to)] else []) + rest
  }

  ghost function KeyGraph(edges: seq<FormulaEdge>): Adjacency {
    map x | x in (set e | e in edges :: Key(e.from)) :: ReadTargets(edges, x)
  }

  lemma KeyGraphEdges(nodes: seq<FormulaNode>, edges: seq<FormulaEdge>)
    ensures forall x, y :: Edge(KeyGraph(edges), x, y) <==> Reads(edges, x, y)
    ensures EdgeClosed(KeyGraph(edges), AllKeys(nodes, edges))
    ensures forall x, y | Edge(KeyGraph(edges), x, y) :: x in AllKeys(nodes, edges)
  {
    forall x, y | Reads(edges, x, y) ensures x in AllKeys(nodes, edges) && y in AllKeys(nodes, edges) {
      var e :| e in edges && Key(e.from) == x && Key(e.to) == y;
      assert e.from in AllNodes(nodes, edges) && e.to in AllNodes(nodes, edges);
    }
  }

  ghost predicate InjectiveKeys(ns: set<FormulaNode>) {
    forall m, n | m in ns && n in ns && Key(m) == Key(n) :: m == n
  }

  /** What one finding says about the cycle through its node. */
  ghost predicate FindingOk(nodes: seq<FormulaNode>, edges: seq<FormulaEdge>, hash: string -> string, f: CycleFinding) {
    && OnCycle(KeyGraph(edges), Key(f.node))
    && f.node in f.nodes && Elements(f.nodes) <= AllNodes(nodes, edges)
    && Ascending(Keys(f.nodes))
    && (forall y :: y in Keys(f.nodes) <==> Mutual(KeyGraph(edges), Key(f.node), y))
    && SortedBy(EdgeKey, f.edges)
    && multiset(f.edges) == multiset(Filter((e: FormulaEdge) => Key(e.from) in Keys(f.nodes) && Key(e.to) in Keys(f.nodes), edges))
    && f.cycleHash == hash(Join(Keys(f.nodes) + Texts(f.edges), "\n"))
  }

  ghost predicate SameEvidence(f: CycleFinding, g: CycleFinding) {
    f.nodes == g.nodes && f.edges == g.edges && f.cycleHash == g.cycleHash
  }

  /** Exactly the nodes on a cycle are reported, once each in key order, with one evidence per component. */
  ghost predicate CyclesOk(nodes: seq<FormulaNode>, edges: seq<FormulaEdge>, hash: string -> string, findings: seq<CycleFinding>) {
    && (forall f | f in findings :: FindingOk(nodes, edges, hash, f))
    && (forall x | OnCycle(KeyGraph(edges), x) :: exists f :: f in findings && Key(f.node) == x)
    && (forall f, g | f in findings && g in findings && Key(g.node) in Keys(f.nodes) :: SameEvidence(f, g))
    && (forall i, j | 0 <= i < j < |findings| :: Less(Key(findings[i].node), Key(findings[j].node)))
  }

  // ---------- The implementation ----------

  /** The ends of the edges in the order they are indexed. */
  function Ends(edges: seq<FormulaEdge>): seq<FormulaNode> {
    if edges == [] then [] else Ends(edges[..|edges| - 1]) + [edges[|edges| - 1].from, edges[|edges| - 1].to]
  }

  /** `n` is the last node of the list with the key. */
  ghost predicate LastWith(ns: seq<FormulaNode>, k: string, n: FormulaNode) {
    exists i :: 0 <= i < |ns| && ns[i] == n && Key(n) == k && forall j | i < j < |ns| :: Key(ns[j]) != k
  }

  /** Every key has its last node. */
  ghost predicate LastOnes(ns: seq<FormulaNode>, byKey: map<string, FormulaNode>) {
    && (forall n | n in ns :: Key(n) in byKey)
    && (forall k | k in byKey :: LastWith(ns, k, byKey[k]))
  }

  lemma LastOnesGrow(ns: seq<FormulaNode>, byKey: map<string, FormulaNode>, n: FormulaNode)
    requires LastOnes(ns, byKey)
    ensures LastOnes(ns + [n], byKey[Key(n) := n])
  {
    hide Key;
    var all := ns + [n];
    assert all[|ns|] == n;
    forall k | k in byKey && k != Key(n) ensures LastWith(all, k, byKey[k]) {
      var i :| 0 <= i < |ns| && ns[i] == byKey[k] && Key(byKey[k]) == k && forall j | i < j < |ns| :: Key(ns[j]) != k;
      assert all[i] == byKey[k];
    }
  }

  /** Later nodes replace earlier ones with the same key, and ends of edges come after the nodes. */
  method IndexByKey(nodes: seq<FormulaNode>, edges: seq<FormulaEdge>) returns (byKey: map<string, FormulaNode>)
    ensures LastOnes(nodes + Ends(edges), byKey)
    ensures byKey.Keys == AllKeys(nodes, edges)
    ensures forall k | k in byKey :: Key(byKey[k]) == k && byKey[k] in AllNodes(nodes, edges)
  {
    hide Key, LastOnes;
    byKey := map[];
    NoneYet();
    var i := 0;
    assert nodes[..0] == [];
    while i < |nodes|
      invariant i <= |nodes| && LastOnes(nodes[..i], byKey)
    {
      assert nodes[..i + 1] == nodes[..i] + [nodes[i]];
      LastOnesGrow(nodes[..i], byKey, nodes[i]);
      byKey := byKey[Key(nodes[i]) := nodes[i]];
      i := i + 1;
    }
    assert nodes[..i] == nodes == nodes + Ends(edges[..0]);
    i := 0;
    while i < |edges|
      invariant i <= |edges| && LastOnes(nodes + Ends(edges[..i]), byKey)
    {
      var e := edges[i];
      var before := nodes + Ends(edges[..i]);
      assert edges[..i + 1][..i] == edges[..i];
      assert nodes + Ends(edges[..i + 1]) == before + [e.from] + [e.to];
      LastOnesGrow(before, byKey, e.from);
      LastOnesGrow(before + [e.from], byKey[Key(e.from) := e.from], e.to);
      byKey := byKey[Key(e.from) := e.from][Key(e.to) := e.to];
      i := i + 1;
    }
    assert edges[..i] == edges;
    IndexedNodes(nodes, edges, byKey);
  }

  lemma NoneYet()
    ensures LastOnes([], map[])
  {
  }

  lemma {:induction false} EndsAre(edges: seq<FormulaEdge>)
    ensures forall n :: n in Ends(edges) <==> exists e :: e in edges && (n == e.from || n == e.to)
  {
    if edges != [] {
      var last := edges[|edges| - 1];
      EndsAre(edges[..|edges| - 1]);
      assert edges == edges[..|edges| - 1] + [last];
      assert last in edges;
    }
  }

  lemma IndexedNodes(nodes: seq<FormulaNode>, edges: seq<FormulaEdge>, byKey: map<string, FormulaNode>)
    requires LastOnes(nodes + Ends(edges), byKey)
    ensures byKey.Keys == AllKeys(nodes, edges)
    ensures forall k | k in byKey :: Key(byKey[k]) == k && byKey[k] in AllNodes(nodes, edges)
  {
    hide Key;
    var all := nodes + Ends(edges);
    EndsAre(edges);
    forall n ensures n in all <==> n in AllNodes(nodes, edges) {}
    forall k | k in byKey ensures byKey[k] in all && Key(byKey[k]) == k { assert LastWith(all, k, byKey[k]); }
  }

  /** The adjacency lists of the edges: a list per source key, its target keys in the order of the edges. */
  ghost predicate Lists(adj: Adjacency, edges: seq<FormulaEdge>) {
    && (forall x :: Succ(adj, x) == ReadTargets(edges, x))
    && (forall x | x in adj :: adj[x] != [])
  }

  lemma {:induction false} ReadTargetsAppend(edges: seq<FormulaEdge>, e: FormulaEdge, x: string)
    ensures ReadTargets(edges + [e], x) == ReadTargets(edges, x) + (if Key(e.from) == x then [Key(e.to)] else [])
  {
    hide Key, Reads;
    var all := edges + [e];
    if edges == [] {
      assert all[1..] == [];
    } else {
      assert all[0] == edges[0] && all[1..] == edges[1..] + [e];
      ReadTargetsAppend(edges[1..], e, x);
    }
  }

  lemma ListsAppend(adj: Adjacency, edges: seq<FormulaEdge>, e: FormulaEdge)
    requires Lists(adj, edges)
    ensures Lists(adj[Key(e.from) := Succ(adj, Key(e.from)) + [Key(e.to)]], edges + [e])
  {
    hide Key, ReadTargets;
    forall x { ReadTargetsAppend(edges, e, x); }
  }

  lemma ListsGraph(adj: Adjacency, edges: seq<FormulaEdge>)
    requires Lists(adj, edges)
    ensures SameEdges(SortedLists(adj), KeyGraph(edges))
  {
    hide Reads, SortedLists, KeyGraph;
    SortingKeepsEdges(adj);
    KeyGraphEdges([], edges);
  }

  method Adjacencies(edges: seq<FormulaEdge>) returns (adj: Adjacency)
    ensures forall x :: Succ(adj, x) == SortStrings(ReadTargets(edges, x))
    ensures SameEdges(adj, KeyGraph(edges))
  {
    hide Lists, SameEdges, Key;
    NoLists();
    var unsorted: Adjacency := map[];
    var i := 0;
    assert edges[..0] == [];
    while i < |edges|
      invariant i <= |edges| && Lists(unsorted, edges[..i])
    {
      var e := edges[i];
      ListsAppend(unsorted, edges[..i], e);
      assert edges[..i + 1] == edges[..i] + [e];
      unsorted := unsorted[Key(e.from) := Succ(unsorted, Key(e.from)) + [Key(e.to)]];
      i := i + 1;
    }
    assert edges[..i] == edges;
    ListsGraph(unsorted, edges);
    SortedSucc(unsorted, edges);
    adj := SortTargets(unsorted);
  }

  lemma NoLists()
    ensures Lists(map[], [])
  {
  }

  lemma SortedSucc(adj: Adjacency, edges: seq<FormulaEdge>)
    requires Lists(adj, edges)
    ensures forall x :: Succ(SortedLists(adj), x) == SortStrings(ReadTargets(edges, x))
  {
    assert SortStrings([]) == [];
    forall x ensures Succ(SortedLists(adj), x) == SortStrings(ReadTargets(edges, x)) {
      assert Succ(adj, x) == ReadTargets(edges, x);
    }
  }

  /** The evidence of one cyclic component. */
  method Describe(edges: seq<FormulaEdge>, byKey: map<string, FormulaNode>, component: seq<string>, hash: string -> string)
      returns (componentNodes: seq<FormulaNode>, componentEdges: seq<FormulaEdge>, cycleHash: string)
    requires forall k | k in component :: k in byKey && Key(byKey[k]) == k
    ensures Keys(componentNodes) == component
    ensures forall n | n in componentNodes :: n in byKey.Values
    ensures SortedBy(EdgeKey, componentEdges)
    ensures multiset(componentEdges) == multiset(Filter((e: FormulaEdge) => Key(e.from) in component && Key(e.to) in component, edges))
    ensures cycleHash == CycleHash(hash, component, componentEdges)
  {
    hide Key;
    componentNodes := [];
    var i := 0;
    while i < |component|
      invariant i <= |component| && |componentNodes| == i
      invariant forall j | 0 <= j < i :: Key(componentNodes[j]) == component[j] && componentNodes[j] in byKey.Values
    {
      componentNodes := componentNodes + [byKey[component[i]]];
      i := i + 1;
    }
    var inside := InsideEdges(edges, component);
    componentEdges := SortSlice(EdgeKey, inside);
    cycleHash := CycleHash(hash, component, componentEdges);
  }

  method InsideEdges(edges: seq<FormulaEdge>, component: seq<string>) returns (inside: seq<FormulaEdge>)
    ensures inside == Filter((e: FormulaEdge) => Key(e.from) in component && Key(e.to) in component, edges)
  {
    hide Key;
    ghost var keep := (e: FormulaEdge) => Key(e.from) in component && Key(e.to) in component;
    var member := set x | x in component;
    inside := [];
    var i := 0;
    assert edges[..0] == [];
    while i < |edges|
      invariant i <= |edges| && inside == Filter(keep, edges[..i])
    {
      assert edges[..i + 1] == edges[..i] + [edges[i]];
      FilterAppend(keep, edges[..i], edges[i]);
      if Key(edges[i].from) in member && Key(edges[i].to) in member {
        inside := inside + [edges[i]];
      }
      i := i + 1;
    }
    assert edges[..i] == edges;
  }

  /** What holds after the first `i` components have been reported. */
  ghost predicate Reported(nodes: seq<FormulaNode>, edges: seq<FormulaEdge>, hash: string -> string,
      components: seq<seq<string>>, i: nat, findings: seq<CycleFinding>)
    requires i <= |components|
  {
    && (forall f | f in findings :: FindingOk(nodes, edges, hash, f))
    && (forall f | f in findings :: exists j :: 0 <= j < i && Keys(f.nodes) == components[j])
    && (forall j, x | 0 <= j < i && x in components[j] && OnCycle(KeyGraph(edges), x) :: exists f :: f in findings && Key(f.node) == x)
    && (forall f, g | f in findings && g in findings && Key(g.node) in Keys(f.nodes) :: SameEvidence(f, g))
    && (forall a, b | 0 <= a < b < |findings| :: Key(findings[a].node) != Key(findings[b].node))
  }

  ghost predicate BatchOk(batch: seq<CycleFinding>, ns: seq<FormulaNode>, es: seq<FormulaEdge>, h: string) {
    |batch| == |ns| && forall k | 0 <= k < |ns| :: batch[k] == CycleFinding(ns[k], ns, es, h)
  }

  /** One finding per member, all with the same evidence. */
  method Emit(ns: seq<FormulaNode>, es: seq<FormulaEdge>, h: string) returns (batch: seq<CycleFinding>)
    ensures BatchOk(batch, ns, es, h)
  {
    batch := [];
    var i := 0;
    while i < |ns|
      invariant i <= |ns| && |batch| == i && forall k | 0 <= k < i :: batch[k] == CycleFinding(ns[k], ns, es, h)
    {
      batch := batch + [CycleFinding(ns[i], ns, es, h)];
      i := i + 1;
    }
  }

  method StaticFormulaCycles(nodes: seq<FormulaNode>, edges: seq<FormulaEdge>, hash: string -> string) returns (findings: seq<CycleFinding>)
    ensures CyclesOk(nodes, edges, hash, findings)
  {
    hide *;
    var byKey := IndexByKey(nodes, edges);
    var adj := Adjacencies(edges);
    KeyGraphEdges(nodes, edges);
    SameEdgesFacts(adj, KeyGraph(edges), byKey.Keys);
    var components := Components(byKey.Keys, adj);
    var unsorted: seq<CycleFinding> := [];
    ReportedEmpty(nodes, edges, hash, components);
    var i := 0;
    while i < |components|
      invariant i <= |components| && Reported(nodes, edges, hash, components, i, unsorted)
    {
      var component := components[i];
      var cyclic := IsCyclic(byKey.Keys, adj, components, i);
      ComponentMembers(byKey.Keys, adj, components, i);
      if cyclic {
        var ns, es, h := Describe(edges, byKey, component, hash);
        var batch := Emit(ns, es, h);
        BatchFindings(nodes, edges, hash, byKey.Keys, adj, components, i, ns, es, h);
        ReportedTake(nodes, edges, hash, byKey.Keys, adj, components, i, unsorted, batch, ns, es, h);
        unsorted := unsorted + batch;
      } else {
        ReportedSkip(nodes, edges, hash, byKey.Keys, adj, components, i, unsorted);
      }
      i := i + 1;
    }
    findings := SortSlice(FindingKey, unsorted);
    SortedReport(nodes, edges, hash, byKey.Keys, adj, components, unsorted, findings);
  }

  lemma ReportedEmpty(nodes: seq<FormulaNode>, edges: seq<FormulaEdge>, hash: string -> string, components: seq<seq<string>>)
    ensures Reported(nodes, edges, hash, components, 0, [])
  {
  }

  /** Every finding built from a cyclic component is right. */
  lemma BatchFindings(nodes: seq<FormulaNode>, edges: seq<FormulaEdge>, hash: string -> string, keys: set<string>, adj: Adjacency,
      components: seq<seq<string>>, i: nat, ns: seq<FormulaNode>, es: seq<FormulaEdge>, h: string)
    requires SameEdges(adj, KeyGraph(edges)) && EdgeClosed(KeyGraph(edges), keys) && SccPartition(keys, adj, components)
    requires i < |components| && components[i] != [] && OnCycle(adj, components[i][0]) && Keys(ns) == components[i]
    requires forall n | n in ns :: n in AllNodes(nodes, edges)
    requires SortedBy(EdgeKey, es) && h == CycleHash(hash, components[i], es)
    requires multiset(es) == multiset(Filter((e: FormulaEdge) => Key(e.from) in components[i] && Key(e.to) in components[i], edges))
    ensures forall n | n in ns :: FindingOk(nodes, edges, hash, CycleFinding(n, ns, es, h))
    ensures forall x | x in components[i] :: OnCycle(KeyGraph(edges), x)
  {
    hide Closure, Key, Reach, OnCycle, Edge, AllNodes;
    SameEdgesFacts(adj, KeyGraph(edges), keys);
    ComponentHasCycle(keys, adj, components, i);
    assert components[i][0] in components[i];
    forall n | n in ns ensures Key(n) in components[i] {
      var k :| 0 <= k < |ns| && ns[k] == n;
      assert Keys(ns)[k] == Key(n);
    }
  }

  lemma ReportedSkip(nodes: seq<FormulaNode>, edges: seq<FormulaEdge>, hash: string -> string, keys: set<string>, adj: Adjacency,
      components: seq<seq<string>>, i: nat, findings: seq<CycleFinding>)
    requires SameEdges(adj, KeyGraph(edges)) && EdgeClosed(KeyGraph(edges), keys) && SccPartition(keys, adj, components)
    requires i < |components| && components[i] != [] && !OnCycle(adj, components[i][0])
    requires Reported(nodes, edges, hash, components, i, findings)
    ensures Reported(nodes, edges, hash, components, i + 1, findings)
  {
    hide Key, Reach, OnCycle, Edge, FindingOk;
    SameEdgesFacts(adj, KeyGraph(edges), keys);
    ComponentHasCycle(keys, adj, components, i);
    assert components[i][0] in components[i];
  }

  lemma ReportedTake(nodes: seq<FormulaNode>, edges: seq<FormulaEdge>, hash: string -> string, keys: set<string>, adj: Adjacency,
      components: seq<seq<string>>, i: nat, findings: seq<CycleFinding>, batch: seq<CycleFinding>,
      ns: seq<FormulaNode>, es: seq<FormulaEdge>, h: string)
    requires SccPartition(keys, adj, components) && i < |components|
    requires Keys(ns) == components[i] && BatchOk(batch, ns, es, h)
    requires forall n | n in ns :: FindingOk(nodes, edges, hash, CycleFinding(n, ns, es, h))
    requires Reported(nodes, edges, hash, components, i, findings)
    ensures Reported(nodes, edges, hash, components, i + 1, findings + batch)
  {
    hide Key, Reach, OnCycle, Edge, FindingOk, Mutual, SccPartition, Ascending;
    var all := findings + batch;
    assert forall f :: f in all <==> f in findings || f in batch;
    forall f | f in batch ensures f.nodes == ns && f.node in ns && SameEvidence(f, CycleFinding(f.node, ns, es, h)) && f == CycleFinding(f.node, ns, es, h) {}
    forall f | f in all ensures exists j :: 0 <= j < i + 1 && Keys(f.nodes) == components[j] {}
    forall x | x in components[i] ensures exists f :: f in all && Key(f.node) == x {
      var k :| 0 <= k < |ns| && components[i][k] == x;
      assert batch[k] in batch && Key(batch[k].node) == Keys(ns)[k];
    }
    BatchKeys(nodes, edges, hash, keys, adj, components, i, findings, batch, ns, es, h);
    forall f, g | f in all && g in all && Key(g.node) in Keys(f.nodes) ensures SameEvidence(f, g) {
      assert f in batch ==> (g in batch ==> SameEvidence(f, g));
    }
  }

  /** Keys of a new batch are those of its component, hence new. */
  lemma BatchKeys(nodes: seq<FormulaNode>, edges: seq<FormulaEdge>, hash: string -> string, keys: set<string>, adj: Adjacency,
      components: seq<seq<string>>, i: nat, findings: seq<CycleFinding>, batch: seq<CycleFinding>,
      ns: seq<FormulaNode>, es: seq<FormulaEdge>, h: string)
    requires SccPartition(keys, adj, components) && i < |components|
    requires Keys(ns) == components[i] && BatchOk(batch, ns, es, h)
    requires Reported(nodes, edges, hash, components, i, findings)
    ensures forall g | g in batch :: Key(g.node) in components[i]
    ensures forall f, g | f in findings && g in batch :: Key(f.node) !in components[i] && Key(g.node) !in Keys(f.nodes)
    ensures forall a, b | 0 <= a < b < |findings + batch| :: Key((findings + batch)[a].node) != Key((findings + batch)[b].node)
  {
    hide Key, Reach, OnCycle, Edge;
    forall k | 0 <= k < |batch| ensures Key(batch[k].node) == components[i][k] {
      assert Keys(ns)[k] == Key(ns[k]);
    }
    forall f | f in findings ensures forall x | x in components[i] :: x !in Keys(f.nodes) {
      var j :| 0 <= j < i && Keys(f.nodes) == components[j];
      forall x | x in components[i] ensures x !in components[j] { MutualSelf(adj, x); }
    }
    forall f | f in findings ensures Key(f.node) in Keys(f.nodes) {
      assert FindingOk(nodes, edges, hash, f);
      var k :| 0 <= k < |f.nodes| && f.nodes[k] == f.node;
      assert Keys(f.nodes)[k] == Key(f.node);
    }
    AscendingDistinct(components[i]);
    var all := findings + batch;
    forall a, b | 0 <= a < b < |all| ensures Key(all[a].node) != Key(all[b].node) {
      if a < |findings| <= b {
        assert all[a] in findings && all[b] in batch;
      }
    }
  }

  /** Sorting the report by node key keeps its contents and makes the order strict. */
  lemma SortedReport(nodes: seq<FormulaNode>, edges: seq<FormulaEdge>, hash: string -> string, keys: set<string>, adj: Adjacency,
      components: seq<seq<string>>, unsorted: seq<CycleFinding>, findings: seq<CycleFinding>)
    requires keys == AllKeys(nodes, edges) && SameEdges(adj, KeyGraph(edges)) && SccPartition(keys, adj, components)
    requires Reported(nodes, edges, hash, components, |components|, unsorted)
    requires SortedBy(FindingKey, findings) && multiset(findings) == multiset(unsorted)
    ensures CyclesOk(nodes, edges, hash, findings)
  {
    hide Key, Reach, OnCycle, Edge, FindingOk, Reads;
    forall f ensures f in findings <==> f in unsorted { assert f in findings <==> f in multiset(unsorted); }
    forall x | OnCycle(KeyGraph(edges), x) ensures exists f :: f in findings && Key(f.node) == x {
      KeyGraphEdges(nodes, edges);
      CycleThroughEdge(KeyGraph(edges), x);
      var j :| 0 <= j < |components| && x in components[j];
    }
    forall a, b | 0 <= a < b < |unsorted| ensures unsorted[a] != unsorted[b] {}
    PermutationKeeps(unsorted, findings);
    forall i, j | 0 <= i < j < |findings| ensures Less(Key(findings[i].node), Key(findings[j].node)) {
      assert findings[i] in findings && findings[j] in findings;
      var a :| 0 <= a < |unsorted| && unsorted[a] == findings[i];
      var b :| 0 <= b < |unsorted| && unsorted[b] == findings[j];
      assert a != b;
      assert Key(findings[i].node) != Key(findings[j].node);
      assert !Less(FindingKey(findings[j]), FindingKey(findings[i]));
      LessTrichotomy(Key(findings[i].node), Key(findings[j].node));
    }
  }

  // ---------- Independence of the input order ----------

  /** Permuting nodes or edges changes nothing about which reports are right. */
  lemma PermutedInputs(nodes: seq<FormulaNode>, edges: seq<FormulaEdge>, nodes': seq<FormulaNode>, edges': seq<FormulaEdge>,
      hash: string -> string, findings: seq<CycleFinding>)
    requires multiset(nodes) == multiset(nodes') && multiset(edges) == multiset(edges')
    requires CyclesOk(nodes, edges, hash, findings)
    ensures CyclesOk(nodes', edges', hash, findings)
  {
    hide Key, Reach, OnCycle, Edge, FindingOk, AllNodes;
    SameGraph(nodes, edges, nodes', edges');
    forall f | f in findings ensures FindingOk(nodes', edges', hash, f) {
      PermutedFinding(nodes, edges, nodes', edges', hash, f);
    }
  }

  lemma SameGraph(nodes: seq<FormulaNode>, edges: seq<FormulaEdge>, nodes': seq<FormulaNode>, edges': seq<FormulaEdge>)
    requires multiset(nodes) == multiset(nodes') && multiset(edges) == multiset(edges')
    ensures AllNodes(nodes, edges) == AllNodes(nodes', edges')
    ensures forall x, y :: Mutual(KeyGraph(edges), x, y) <==> Mutual(KeyGraph(edges'), x, y)
    ensures forall x :: OnCycle(KeyGraph(edges), x) <==> OnCycle(KeyGraph(edges'), x)
  {
    hide Key, Reach, OnCycle, Edge;
    PermutationKeeps(nodes, nodes');
    assert forall e :: e in edges <==> e in multiset(edges);
    assert forall e :: e in edges' <==> e in multiset(edges');
    forall x, y ensures Reads(edges, x, y) <==> Reads(edges', x, y) {}
    KeyGraphEdges(nodes, edges);
    KeyGraphEdges(nodes', edges');
    SamePaths(KeyGraph(edges), KeyGraph(edges'));
  }

  lemma PermutedFinding(nodes: seq<FormulaNode>, edges: seq<FormulaEdge>, nodes': seq<FormulaNode>, edges': seq<FormulaEdge>,
      hash: string -> string, f: CycleFinding)
    requires multiset(nodes) == multiset(nodes') && multiset(edges) == multiset(edges')
    requires FindingOk(nodes, edges, hash, f)
    ensures FindingOk(nodes', edges', hash, f)
  {
    hide Key, Reach, OnCycle, Edge, AllNodes, Mutual;
    SameGraph(nodes, edges, nodes', edges');
    var keep := (e: FormulaEdge) => Key(e.from) in Keys(f.nodes) && Key(e.to) in Keys(f.nodes);
    FilterMultiset(keep, edges);
    FilterMultiset(keep, edges');
    assert multiset(Filter(keep, edges)) == multiset(Filter(keep, edges'));
  }

  /** Two different edges inside one cyclic component that sort and hash as the same text. */
  ghost predicate Colliding(edges: seq<FormulaEdge>, d: FormulaEdge, e: FormulaEdge) {
    && d in edges && e in edges && d != e && EdgeKey(d) == EdgeKey(e)
    && OnCycle(KeyGraph(edges), Key(d.from))
    && Mutual(KeyGraph(edges), Key(d.from), Key(d.to))
    && Mutual(KeyGraph(edges), Key(d.from), Key(e.from))
    && Mutual(KeyGraph(edges), Key(d.from), Key(e.to))
  }

  /** The report is determined by the input as a set exactly when no two edges of a cycle share their text. */
  lemma DeterminedExactlyWithoutCollisions(nodes: seq<FormulaNode>, edges: seq<FormulaEdge>, hash: string -> string, findings: seq<CycleFinding>)
    requires InjectiveKeys(AllNodes(nodes, edges))
    requires CyclesOk(nodes, edges, hash, findings)
    ensures (forall other | CyclesOk(nodes, edges, hash, other) :: other == findings) <==> !exists d, e :: Colliding(edges, d, e)
  {
    hide CyclesOk, Colliding;
    if d, e :| Colliding(edges, d, e) {
      var other := Swapped(nodes, edges, hash, findings, d, e);
    } else {
      forall other | CyclesOk(nodes, edges, hash, other) ensures other == findings {
        SameReport(nodes, edges, hash, findings, other);
      }
    }
  }

  lemma SameNodeList(all: set<FormulaNode>, a: seq<FormulaNode>, b: seq<FormulaNode>)
    requires InjectiveKeys(all) && Elements(a) <= all && Elements(b) <= all
    requires Ascending(Keys(a)) && Ascending(Keys(b)) && forall y :: y in Keys(a) <==> y in Keys(b)
    ensures a == b
  {
    hide Key;
    AscendingUnique(Keys(a), Keys(b));
    forall i | 0 <= i < |a| ensures a[i] == b[i] {
      assert Keys(a)[i] == Keys(b)[i];
      assert a[i] in Elements(a) && b[i] in Elements(b);
    }
  }

  /** Elements of a finding's edge list are the input edges inside its component. */
  lemma FindingEdges(nodes: seq<FormulaNode>, edges: seq<FormulaEdge>, hash: string -> string, f: CycleFinding)
    requires FindingOk(nodes, edges, hash, f)
    ensures forall e :: e in multiset(f.edges) <==> e in edges && Key(e.from) in Keys(f.nodes) && Key(e.to) in Keys(f.nodes)
  {
    hide Key, Reach, OnCycle, Edge;
    var keep := (e: FormulaEdge) => Key(e.from) in Keys(f.nodes) && Key(e.to) in Keys(f.nodes);
    forall e ensures e in multiset(f.edges) <==> e in edges && keep(e) {
      assert e in Filter(keep, edges) <==> e in multiset(Filter(keep, edges));
    }
  }

  lemma SameTextInside(nodes: seq<FormulaNode>, edges: seq<FormulaEdge>, hash: string -> string, f: CycleFinding, d: FormulaEdge, e: FormulaEdge)
    requires FindingOk(nodes, edges, hash, f) && d in multiset(f.edges) && e in multiset(f.edges)
    requires d != e && EdgeKey(d) == EdgeKey(e)
    ensures Colliding(edges, d, e)
  {
    hide Key, Reach, OnCycle, Edge, AllNodes;
    FindingEdges(nodes, edges, hash, f);
    var graph, x, from := KeyGraph(edges), Key(f.node), Key(d.from);
    forall y | y in Keys(f.nodes) ensures Mutual(graph, from, y) {
      ReachTransitive(graph, from, x, y);
      ReachTransitive(graph, y, x, from);
    }
    if from != x { MutualCycle(graph, from, x); }
  }

  lemma SameFinding(nodes: seq<FormulaNode>, edges: seq<FormulaEdge>, hash: string -> string, f: CycleFinding, g: CycleFinding)
    requires InjectiveKeys(AllNodes(nodes, edges)) && !exists d, e :: Colliding(edges, d, e)
    requires FindingOk(nodes, edges, hash, f) && FindingOk(nodes, edges, hash, g) && Key(f.node) == Key(g.node)
    ensures f == g
  {
    hide Key, Reach, OnCycle, Edge, AllNodes;
    SameNodeList(AllNodes(nodes, edges), f.nodes, g.nodes);
    assert f.node in Elements(f.nodes) && g.node in Elements(g.nodes);
    FindingEdges(nodes, edges, hash, f);
    forall d, e | d in multiset(f.edges) && e in multiset(f.edges) && EdgeKey(d) == EdgeKey(e) ensures d == e {
      if d != e { SameTextInside(nodes, edges, hash, f, d, e); }
    }
    SortedUnique(EdgeKey, f.edges, g.edges);
  }

  lemma SameReport(nodes: seq<FormulaNode>, edges: seq<FormulaEdge>, hash: string -> string, a: seq<CycleFinding>, b: seq<CycleFinding>)
    requires InjectiveKeys(AllNodes(nodes, edges)) && !exists d, e :: Colliding(edges, d, e)
    requires CyclesOk(nodes, edges, hash, a) && CyclesOk(nodes, edges, hash, b)
    ensures a == b
  {
    hide Key, Reach, OnCycle, Edge, AllNodes, FindingOk, Colliding, InjectiveKeys;
    var ka, kb := seq(|a|, i requires 0 <= i < |a| => Key(a[i].node)), seq(|b|, i requires 0 <= i < |b| => Key(b[i].node));
    ReportKeys(nodes, edges, hash, a, ka);
    ReportKeys(nodes, edges, hash, b, kb);
    AscendingUnique(ka, kb);
    forall i | 0 <= i < |a| ensures a[i] == b[i] {
      assert ka[i] == kb[i];
      assert a[i] in a && b[i] in b;
      SameFinding(nodes, edges, hash, a[i], b[i]);
    }
  }

  lemma ReportKeys(nodes: seq<FormulaNode>, edges: seq<FormulaEdge>, hash: string -> string, a: seq<CycleFinding>, ks: seq<string>)
    requires CyclesOk(nodes, edges, hash, a)
    requires |ks| == |a| && forall i | 0 <= i < |a| :: ks[i] == Key(a[i].node)
    ensures Ascending(ks) && forall x :: x in Elements(ks) <==> OnCycle(KeyGraph(edges), x)
  {
    hide Key, Reach, OnCycle, Edge;
    forall x ensures x in ks <==> OnCycle(KeyGraph(edges), x) {
      if x in ks {
        var i :| 0 <= i < |ks| && ks[i] == x;
        assert a[i] in a && FindingOk(nodes, edges, hash, a[i]);
      }
      if OnCycle(KeyGraph(edges), x) {
        var f :| f in a && Key(f.node) == x;
        var i :| 0 <= i < |a| && a[i] == f;
        assert ks[i] == x;
      }
    }
  }

  /** The same report with the two colliding edges exchanged is just as right. */
  lemma Swapped(nodes: seq<FormulaNode>, edges: seq<FormulaEdge>, hash: string -> string, findings: seq<CycleFinding>, d: FormulaEdge, e: FormulaEdge)
      returns (other: seq<CycleFinding>)
    requires CyclesOk(nodes, edges, hash, findings) && Colliding(edges, d, e)
    ensures CyclesOk(nodes, edges, hash, other) && other != findings
  {
    hide FindingOk, Key, OnCycle, Mutual, Keys, SameEvidence, EdgeKey;
    var f :| f in findings && Key(f.node) == Key(d.from);
    assert FindingOk(nodes, edges, hash, f);
    var swapped := SwappedEdges(nodes, edges, hash, f, d, e);
    hide Colliding;
    other := seq(|findings|, i requires 0 <= i < |findings| => Changed(f, swapped, findings[i]));
    ChangedReport(nodes, edges, hash, findings, f, swapped, other);
    var i :| 0 <= i < |findings| && findings[i] == f;
    assert other[i] != findings[i] by { ChangedSelf(f, swapped); }
  }

  /** The finding with the other list of edges, when it carries the evidence of `f`. */
  ghost function Changed(f: CycleFinding, swapped: seq<FormulaEdge>, g: CycleFinding): CycleFinding {
    if SameEvidence(f, g) then g.(edges := swapped) else g
  }

  lemma ChangedSelf(f: CycleFinding, swapped: seq<FormulaEdge>)
    requires swapped != f.edges
    ensures Changed(f, swapped, f) != f
  {
  }

  lemma ChangedReport(nodes: seq<FormulaNode>, edges: seq<FormulaEdge>, hash: string -> string, findings: seq<CycleFinding>, f: CycleFinding,
      swapped: seq<FormulaEdge>, other: seq<CycleFinding>)
    requires CyclesOk(nodes, edges, hash, findings) && f in findings && multiset(swapped) == multiset(f.edges)
    requires |swapped| == |f.edges| && forall i | 0 <= i < |swapped| :: EdgeKey(swapped[i]) == EdgeKey(f.edges[i])
    requires |other| == |findings| && forall i | 0 <= i < |other| :: other[i] == Changed(f, swapped, findings[i])
    ensures CyclesOk(nodes, edges, hash, other)
  {
    hide FindingOk, Key, OnCycle, Keys, SameEvidence, EdgeKey, Changed, Less;
    forall i | 0 <= i < |other| ensures FindingOk(nodes, edges, hash, other[i]) && other[i].node == findings[i].node && other[i].nodes == findings[i].nodes {
      ChangedFinding(nodes, edges, hash, f, findings[i], swapped);
    }
    forall x | OnCycle(KeyGraph(edges), x) ensures exists g :: g in other && Key(g.node) == x {
      var g :| g in findings && Key(g.node) == x;
      var i :| 0 <= i < |findings| && findings[i] == g;
      assert other[i] in other;
    }
    forall g, h | g in other && h in other && Key(h.node) in Keys(g.nodes) ensures SameEvidence(g, h) {
      var i :| 0 <= i < |other| && other[i] == g;
      var j :| 0 <= j < |other| && other[j] == h;
      assert findings[i] in findings && findings[j] in findings;
      ChangedAlike(f, swapped, findings[i], findings[j]);
    }
  }

  lemma ChangedFinding(nodes: seq<FormulaNode>, edges: seq<FormulaEdge>, hash: string -> string, f: CycleFinding, g: CycleFinding, swapped: seq<FormulaEdge>)
    requires FindingOk(nodes, edges, hash, g) && multiset(swapped) == multiset(f.edges)
    requires |swapped| == |f.edges| && forall i | 0 <= i < |swapped| :: EdgeKey(swapped[i]) == EdgeKey(f.edges[i])
    ensures var c := Changed(f, swapped, g); FindingOk(nodes, edges, hash, c) && c.node == g.node && c.nodes == g.nodes
  {
    hide FindingOk, EdgeKey, SameEvidence;
    if SameEvidence(f, g) { SwappedFinding(nodes, edges, hash, f, g, swapped); }
  }

  lemma ChangedAlike(f: CycleFinding, swapped: seq<FormulaEdge>, g: CycleFinding, h: CycleFinding)
    requires SameEvidence(g, h)
    ensures SameEvidence(Changed(f, swapped, g), Changed(f, swapped, h))
  {
  }

  lemma SwappedEdges(nodes: seq<FormulaNode>, edges: seq<FormulaEdge>, hash: string -> string, f: CycleFinding, d: FormulaEdge, e: FormulaEdge)
      returns (swapped: seq<FormulaEdge>)
    requires FindingOk(nodes, edges, hash, f) && Colliding(edges, d, e) && Key(f.node) == Key(d.from)
    ensures swapped != f.edges && multiset(swapped) == multiset(f.edges)
    ensures |swapped| == |f.edges| && forall i | 0 <= i < |swapped| :: EdgeKey(swapped[i]) == EdgeKey(f.edges[i])
  {
    hide *;
    CollidingInside(nodes, edges, hash, f, d, e);
    var p :| 0 <= p < |f.edges| && f.edges[p] == d;
    var q :| 0 <= q < |f.edges| && f.edges[q] == e;
    swapped := f.edges[p := e][q := d];
    SwapSameText(f.edges, p, q);
  }

  lemma CollidingInside(nodes: seq<FormulaNode>, edges: seq<FormulaEdge>, hash: string -> string, f: CycleFinding, d: FormulaEdge, e: FormulaEdge)
    requires FindingOk(nodes, edges, hash, f) && Colliding(edges, d, e) && Key(f.node) == Key(d.from)
    ensures d in f.edges && e in f.edges && d != e && EdgeKey(d) == EdgeKey(e)
  {
    hide Key, Reach, OnCycle, Edge, EdgeKey, AllNodes, SortedBy;
    FindingEdges(nodes, edges, hash, f);
    ReachSelf(KeyGraph(edges), Key(d.from));
    assert d in multiset(f.edges) && e in multiset(f.edges);
  }

  lemma SwapSameText(s: seq<FormulaEdge>, p: nat, q: nat)
    requires p < |s| && q < |s| && s[p] != s[q] && EdgeKey(s[p]) == EdgeKey(s[q])
    ensures var t := s[p := s[q]][q := s[p]];
      t != s && multiset(t) == multiset(s) && forall i | 0 <= i < |t| :: EdgeKey(t[i]) == EdgeKey(s[i])
  {
    hide EdgeKey;
    assert s[p := s[q]][q := s[p]][p] == s[q];
  }

  lemma SwappedFinding(nodes: seq<FormulaNode>, edges: seq<FormulaEdge>, hash: string -> string, f: CycleFinding, g: CycleFinding, swapped: seq<FormulaEdge>)
    requires FindingOk(nodes, edges, hash, g) && SameEvidence(f, g)
    requires multiset(swapped) == multiset(f.edges)
    requires |swapped| == |f.edges| && forall i | 0 <= i < |swapped| :: EdgeKey(swapped[i]) == EdgeKey(f.edges[i])
    ensures FindingOk(nodes, edges, hash, g.(edges := swapped))
  {
    hide Key, Reach, OnCycle, Edge, EdgeKey, AllNodes;
    assert Texts(swapped) == Texts(f.edges);
  }

  /** Node keys joined by the arrow, with the arrow inside a field path. */
  lemma ArrowKeys(u: string, p: string, v: string)
    ensures
      var a, b := FormulaNode(u, p + "|" + v + "->" + u + "|" + p, v), FormulaNode(u, p, v);
      Key(a) != Key(b) && EdgeKey(FormulaEdge(a, b)) == EdgeKey(FormulaEdge(b, a))
  {
    var a, b := FormulaNode(u, p + "|" + v + "->" + u + "|" + p, v), FormulaNode(u, p, v);
    var k := Key(b);
    assert Key(a) == k + "->" + k;
    assert |Key(a)| > |k|;
    hide Key;
    assert (k + "->" + k) + "->" + k == k + "->" + (k + "->" + k);
  }

  /** Such collisions exist for every entity, attribute and path: another field path of the same entity may contain the arrow. */
  lemma ArrowInPathCollides(u: string, p: string, v: string)
    ensures
      var a, b := FormulaNode(u, p + "|" + v + "->" + u + "|" + p, v), FormulaNode(u, p, v);
      Key(a) != Key(b) && Colliding([FormulaEdge(a, b), FormulaEdge(b, a)], FormulaEdge(a, b), FormulaEdge(b, a))
  {
    hide Reach, OnCycle, Edge, Key, EdgeKey;
    var a, b := FormulaNode(u, p + "|" + v + "->" + u + "|" + p, v), FormulaNode(u, p, v);
    var ab, ba := FormulaEdge(a, b), FormulaEdge(b, a);
    var edges := [ab, ba];
    ArrowKeys(u, p, v);
    KeyGraphEdges([], edges);
    var graph := KeyGraph(edges);
    assert ab in edges && ba in edges;
    assert Reads(edges, Key(a), Key(b)) && Reads(edges, Key(b), Key(a));
    ReachEdge(graph, Key(a), Key(b));
    ReachEdge(graph, Key(b), Key(a));
    ReachSelf(graph, Key(a));
    CycleThroughEdge(graph, Key(a));
    assert Colliding(edges, ab, ba);
  }
}
