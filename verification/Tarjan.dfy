/** The depth-first component search that event-loop and formula-cycle detection share. */
module Tarjan {
  import opened Ordering
  import opened Graph

  /** The variables captured by the recursive closure, as a value. */
  datatype State = State(
    index: nat,
    indices: map<string, nat>,
    low: map<string, nat>,
    stack: seq<string>,
    onStack: map<string, bool>,
    components: seq<seq<string>>)

  /** Nodes whose component has been emitted. */
  ghost function Done(indices: map<string, nat>, stack: seq<string>): set<string> {
    indices.Keys - Elements(stack)
  }

  predicate IsOnStack(onStack: map<string, bool>, x: string) {
    x in onStack && onStack[x]
  }

  /** A missing map entry reads as zero. */
  function IndexOf(indices: map<string, nat>, x: string): nat {
    if x in indices then indices[x] else 0
  }

  // ---------- The invariant of the search ----------

  ghost predicate Numbered(nodes: set<string>, s: State) {
    && s.indices.Keys <= nodes
    && s.low.Keys == s.indices.Keys
    && (forall x | x in s.indices :: 1 <= s.indices[x] <= s.index)
    && (forall x | x in s.stack :: x in s.indices)
    && (forall i, j | 0 <= i < j < |s.stack| :: s.indices[s.stack[i]] < s.indices[s.stack[j]])
    && (forall x :: IsOnStack(s.onStack, x) <==> x in s.stack)
  }

  /** Older stack entries reach newer ones. */
  ghost predicate StackChain(adj: Adjacency, stack: seq<string>) {
    forall i, j | 0 <= i < j < |stack| :: Reach(adj, stack[i], stack[j])
  }

  ghost predicate LeadsToGray(adj: Adjacency, indices: map<string, nat>, gray: set<string>, x: string)
    requires x in indices
  {
    exists g :: g in gray && g in indices && indices[g] <= indices[x] && Reach(adj, x, g)
  }

  /** Every stack entry reaches a node still being visited, no younger than itself. */
  ghost predicate GrayBelow(adj: Adjacency, indices: map<string, nat>, stack: seq<string>, gray: set<string>)
    requires forall x | x in stack :: x in indices
  {
    && gray <= Elements(stack)
    && forall x {:trigger LeadsToGray(adj, indices, gray, x)} | x in stack :: LeadsToGray(adj, indices, gray, x)
  }

  /** Finished nodes have visited successors. */
  ghost predicate BlackClosed(adj: Adjacency, indices: map<string, nat>, gray: set<string>) {
    forall x, y | x in indices && x !in gray && Edge(adj, x, y) :: y in indices
  }

  ghost predicate Inv(adj: Adjacency, nodes: set<string>, s: State, gray: set<string>) {
    && Numbered(nodes, s)
    && StackChain(adj, s.stack)
    && GrayBelow(adj, s.indices, s.stack, gray)
    && BlackClosed(adj, s.indices, gray)
    && EdgeClosed(adj, Done(s.indices, s.stack))
    && SccPartition(Done(s.indices, s.stack), adj, s.components)
  }

  /** Edges from above height `h` of the stack to below it are seen by `bound`. */
  ghost predicate CrossingSeen(adj: Adjacency, indices: map<string, nat>, stack: seq<string>, h: nat, b: nat, bound: nat)
    requires forall x | x in stack :: x in indices
    requires b <= h <= |stack|
  {
    forall i, j | h <= i < |stack| && 0 <= j < b && Edge(adj, stack[i], stack[j]) ::
      bound <= indices[stack[j]]
  }

  ghost predicate LowAttained(adj: Adjacency, indices: map<string, nat>, stack: seq<string>, node: string, bound: nat) {
    exists y :: y in stack && y in indices && indices[y] == bound && Reach(adj, node, y)
  }

  /** What one search step keeps: earlier numbers, the old stack, the emitted components. */
  ghost predicate Extends(s0: State, s1: State) {
    && s0.index <= s1.index
    && (forall x | x in s0.indices :: x in s1.indices && s1.indices[x] == s0.indices[x])
    && (forall x | x in s0.low :: x in s1.low && s1.low[x] == s0.low[x])
    && s0.stack <= s1.stack
    && (forall i | |s0.stack| <= i < |s1.stack| :: s1.stack[i] !in s0.indices)
    && s0.components <= s1.components
  }

  ghost predicate Visited(adj: Adjacency, nodes: set<string>, s0: State, s1: State, node: string, gray: set<string>) {
    && Inv(adj, nodes, s1, gray)
    && Extends(s0, s1)
    && node in s1.indices
    && CrossingSeen(adj, s1.indices, s1.stack, |s0.stack|, |s0.stack|, s1.low[node])
    && (if node in s1.stack then LowAttained(adj, s1.indices, s1.stack, node, s1.low[node])
        else s1.stack == s0.stack && s1.low[node] == s1.indices[node] > s0.index)
  }

  ghost predicate ScannedUpTo(ys: seq<string>, indices: map<string, nat>, stack0: seq<string>, bound: nat, k: nat) {
    forall j | 0 <= j < k && j < |ys| :: ys[j] in indices && (ys[j] in stack0 ==> bound <= indices[ys[j]])
  }

  /** The loop over the first `k` successors of `node`, entered in state `s0`. */
  ghost predicate Scanning(adj: Adjacency, nodes: set<string>, s0: State, s: State, node: string, gray: set<string>, k: nat) {
    && Inv(adj, nodes, s, gray + {node})
    && Extends(s0, s)
    && |s0.stack| < |s.stack| && s.stack[|s0.stack|] == node
    && s.low[node] <= s.indices[node] && s0.index < s.indices[node]
    && LowAttained(adj, s.indices, s.stack, node, s.low[node])
    && CrossingSeen(adj, s.indices, s.stack, |s0.stack| + 1, |s0.stack|, s.low[node])
    && ScannedUpTo(Succ(adj, node), s.indices, s0.stack, s.low[node], k)
  }

  // ---------- One lemma per step of the search ----------

  function Entered(s: State, node: string): State {
    State(s.index + 1, s.indices[node := s.index + 1], s.low[node := s.index + 1],
          s.stack + [node], s.onStack[node := true], s.components)
  }

  lemma EnterChain(adj: Adjacency, indices: map<string, nat>, stack: seq<string>, node: string, gray: set<string>)
    requires StackChain(adj, stack) && (forall x | x in stack :: x in indices) && GrayBelow(adj, indices, stack, gray)
    requires forall g | g in gray :: Reach(adj, g, node)
    ensures StackChain(adj, stack + [node])
  {
    hide Reach;
    forall i | 0 <= i < |stack| ensures Reach(adj, stack[i], node) {
      assert LeadsToGray(adj, indices, gray, stack[i]);
      var g :| g in gray && g in indices && indices[g] <= indices[stack[i]] && Reach(adj, stack[i], g);
      ReachTransitive(adj, stack[i], g, node);
    }
  }

  lemma EnterGray(adj: Adjacency, indices: map<string, nat>, indices': map<string, nat>, stack: seq<string>, node: string, gray: set<string>)
    requires (forall x | x in stack :: x in indices) && GrayBelow(adj, indices, stack, gray)
    requires node in indices' && forall x | x in indices :: x in indices' && indices'[x] == indices[x]
    ensures GrayBelow(adj, indices', stack + [node], gray + {node})
  {
    hide Reach;
    ReachSelf(adj, node);
    assert LeadsToGray(adj, indices', gray + {node}, node);
    forall x | x in stack ensures LeadsToGray(adj, indices', gray + {node}, x) {
      assert LeadsToGray(adj, indices, gray, x);
    }
  }

  lemma EnterNumbered(nodes: set<string>, s0: State, node: string)
    requires Numbered(nodes, s0) && node in nodes && node !in s0.indices
    ensures Numbered(nodes, Entered(s0, node))
  {
  }

  lemma EnterExtends(s0: State, node: string)
    requires node !in s0.indices && node !in s0.low
    ensures var s := Entered(s0, node); Extends(s0, s) && Done(s.indices, s.stack) == Done(s0.indices, s0.stack)
  {
    assert Elements(Entered(s0, node).stack) == Elements(s0.stack) + {node};
  }

  lemma EnterInv(adj: Adjacency, nodes: set<string>, s0: State, node: string, gray: set<string>)
    requires Inv(adj, nodes, s0, gray)
    requires node in nodes && node !in s0.indices
    requires forall g | g in gray :: Reach(adj, g, node)
    ensures Inv(adj, nodes, Entered(s0, node), gray + {node}) && Extends(s0, Entered(s0, node))
  {
    hide Reach, SccPartition, EdgeClosed, StackChain, GrayBelow, Numbered, Extends, BlackClosed, Done, Edge;
    var s := Entered(s0, node);
    InvNumbered(adj, nodes, s0, gray);
    StackIndexed(nodes, s0);
    EnterNumbered(nodes, s0, node);
    EnterExtends(s0, node);
    StackIndexed(nodes, s);
    EnterChain(adj, s0.indices, s0.stack, node, gray);
    EnterGray(adj, s0.indices, s.indices, s0.stack, node, gray);
    EnterBlack(adj, s0.indices, s.indices, node, gray);
  }

  lemma EnterBlack(adj: Adjacency, indices: map<string, nat>, indices': map<string, nat>, node: string, gray: set<string>)
    requires BlackClosed(adj, indices, gray) && indices'.Keys == indices.Keys + {node}
    ensures BlackClosed(adj, indices', gray + {node})
  {
    hide Edge;
  }

  lemma StackIndexed(nodes: set<string>, s: State)
    requires Numbered(nodes, s)
    ensures forall x | x in s.stack :: x in s.indices
    ensures s.low.Keys == s.indices.Keys
  {
  }

  lemma Enter(adj: Adjacency, nodes: set<string>, s0: State, node: string, gray: set<string>)
    requires Inv(adj, nodes, s0, gray)
    requires node in nodes && node !in s0.indices
    requires forall g | g in gray :: Reach(adj, g, node)
    ensures Scanning(adj, nodes, s0, Entered(s0, node), node, gray, 0)
  {
    hide Reach, Inv, Extends, Numbered;
    EnterInv(adj, nodes, s0, node, gray);
    var s := Entered(s0, node);
    InvNumbered(adj, nodes, s, gray + {node});
    StackIndexed(nodes, s);
    ReachSelf(adj, node);
    assert s.stack[|s0.stack|] == node;
  }

  /** A lower bound for `low` that is attained may replace it. */
  function WithLow(s: State, node: string, bound: nat): State {
    s.(low := s.low[node := bound])
  }

  lemma LowerKeepsInv(adj: Adjacency, nodes: set<string>, s: State, gray: set<string>, node: string, bound: nat)
    requires Inv(adj, nodes, s, gray) && node in s.indices
    ensures Inv(adj, nodes, WithLow(s, node, bound), gray)
  {
  }

  lemma CrossingWeaken(adj: Adjacency, indices: map<string, nat>, stack: seq<string>, h: nat, b: nat, bound: nat, bound': nat)
    requires (forall x | x in stack :: x in indices) && b <= h <= |stack| && bound' <= bound
    requires CrossingSeen(adj, indices, stack, h, b, bound)
    ensures CrossingSeen(adj, indices, stack, h, b, bound')
  {
    hide Edge;
  }

  lemma ScannedMore(ys: seq<string>, indices: map<string, nat>, indices': map<string, nat>, stack0: seq<string>, bound: nat, bound': nat, k: nat)
    requires ScannedUpTo(ys, indices, stack0, bound, k) && bound' <= bound && k < |ys|
    requires forall x | x in indices :: x in indices' && indices'[x] == indices[x]
    requires ys[k] in indices' && (ys[k] in stack0 ==> bound' <= indices'[ys[k]])
    ensures ScannedUpTo(ys, indices', stack0, bound', k + 1)
  {
  }

  lemma OldEntry(nodes: set<string>, s0: State, s: State)
    requires Numbered(nodes, s0) && Numbered(nodes, s) && s0.stack <= s.stack
    ensures forall x | x in s0.stack :: IsOnStack(s.onStack, x) && x in s0.indices
  {
  }

  lemma InvNumbered(adj: Adjacency, nodes: set<string>, s: State, gray: set<string>)
    requires Inv(adj, nodes, s, gray)
    ensures Numbered(nodes, s)
  {
  }

  lemma WithLowExtends(s0: State, s: State, node: string, bound: nat)
    requires Extends(s0, s) && node !in s0.low
    ensures Extends(s0, WithLow(s, node, bound))
  {
  }

  lemma ScanSeen(adj: Adjacency, nodes: set<string>, s0: State, s: State, node: string, gray: set<string>, k: nat)
    requires Numbered(nodes, s0) && node !in s0.indices
    requires Scanning(adj, nodes, s0, s, node, gray, k) && k < |Succ(adj, node)|
    requires Succ(adj, node)[k] in s.indices
    ensures
      var y := Succ(adj, node)[k];
      var better := IsOnStack(s.onStack, y) && s.indices[y] < s.low[node];
      Scanning(adj, nodes, s0, if better then WithLow(s, node, s.indices[y]) else s, node, gray, k + 1)
  {
    hide Inv, Reach, CrossingSeen, ScannedUpTo, Numbered, Extends, Edge, LowAttained;
    var y := Succ(adj, node)[k];
    InvNumbered(adj, nodes, s, gray + {node});
    StackIndexed(nodes, s);
    ExtendsPrefix(s0, s);
    OldEntry(nodes, s0, s);
    if IsOnStack(s.onStack, y) && s.indices[y] < s.low[node] {
      ScannedMore(Succ(adj, node), s.indices, s.indices, s0.stack, s.low[node], s.indices[y], k);
      OnStackEntry(nodes, s, y);
      SeenLow(adj, s.indices, s.stack, node, k);
      Lowered(adj, nodes, s0, s, node, gray, k, s.indices[y]);
    } else {
      ScannedMore(Succ(adj, node), s.indices, s.indices, s0.stack, s.low[node], s.low[node], k);
    }
  }

  lemma OnStackEntry(nodes: set<string>, s: State, y: string)
    requires Numbered(nodes, s) && IsOnStack(s.onStack, y)
    ensures y in s.stack
  {
  }

  lemma ExtendsPrefix(s0: State, s: State)
    requires Extends(s0, s)
    ensures s0.stack <= s.stack
  {
  }

  lemma SeenLow(adj: Adjacency, indices: map<string, nat>, stack: seq<string>, node: string, k: nat)
    requires k < |Succ(adj, node)| && Succ(adj, node)[k] in stack && Succ(adj, node)[k] in indices
    ensures LowAttained(adj, indices, stack, node, indices[Succ(adj, node)[k]])
  {
    hide Reach;
    EdgeAt(adj, node, k);
    ReachEdge(adj, node, Succ(adj, node)[k]);
  }

  /** A smaller `low` that is attained and bounds one successor more. */
  lemma Lowered(adj: Adjacency, nodes: set<string>, s0: State, s: State, node: string, gray: set<string>, k: nat, bound: nat)
    requires Numbered(nodes, s0) && node !in s0.indices
    requires Scanning(adj, nodes, s0, s, node, gray, k) && bound <= s.low[node]
    requires LowAttained(adj, s.indices, s.stack, node, bound)
    requires ScannedUpTo(Succ(adj, node), s.indices, s0.stack, bound, k + 1)
    ensures Scanning(adj, nodes, s0, WithLow(s, node, bound), node, gray, k + 1)
  {
    hide Inv, Reach, CrossingSeen, ScannedUpTo, Numbered, Extends, Edge, LowAttained;
    InvNumbered(adj, nodes, s, gray + {node});
    StackIndexed(nodes, s0);
    StackIndexed(nodes, s);
    WithLowExtends(s0, s, node, bound);
    LowerKeepsInv(adj, nodes, s, gray + {node}, node, bound);
    CrossingWeaken(adj, s.indices, s.stack, |s0.stack| + 1, |s0.stack|, s.low[node], bound);
  }

  /** Crossing edges after a nested visit: the old part of the stack, then the part it added. */
  lemma CrossingExtend(adj: Adjacency, indices: map<string, nat>, stack: seq<string>, indices': map<string, nat>, stack': seq<string>,
      h: nat, bound: nat, bound': nat)
    requires (forall x | x in stack :: x in indices) && (forall x | x in stack' :: x in indices')
    requires forall x | x in indices :: x in indices' && indices'[x] == indices[x]
    requires h < |stack| && stack <= stack' && bound' <= bound
    requires CrossingSeen(adj, indices, stack, h + 1, h, bound)
    requires CrossingSeen(adj, indices', stack', |stack|, |stack|, bound')
    ensures CrossingSeen(adj, indices', stack', h + 1, h, bound')
  {
    hide Edge;
    forall i, j | h + 1 <= i < |stack'| && 0 <= j < h && Edge(adj, stack'[i], stack'[j])
      ensures bound' <= indices'[stack'[j]]
    {
      assert stack'[j] == stack[j] && stack[j] in indices;
      if i < |stack| { assert stack'[i] == stack[i]; }
    }
  }

  lemma ExtendsTransitive(s0: State, s1: State, s2: State)
    requires Extends(s0, s1) && Extends(s1, s2)
    ensures Extends(s0, s2)
  {
    forall i | |s0.stack| <= i < |s2.stack| ensures s2.stack[i] !in s0.indices {
      if i < |s1.stack| { assert s2.stack[i] == s1.stack[i]; }
    }
  }

  lemma ScanVisited(adj: Adjacency, nodes: set<string>, s0: State, s: State, s1: State, node: string, gray: set<string>, k: nat)
    requires Numbered(nodes, s0) && node !in s0.indices
    requires Scanning(adj, nodes, s0, s, node, gray, k) && k < |Succ(adj, node)|
    requires Succ(adj, node)[k] !in s.indices
    requires Visited(adj, nodes, s, s1, Succ(adj, node)[k], gray + {node})
    ensures node in s1.low && Succ(adj, node)[k] in s1.low
    ensures
      var next := Succ(adj, node)[k];
      Scanning(adj, nodes, s0, if s1.low[next] < s1.low[node] then WithLow(s1, node, s1.low[next]) else s1, node, gray, k + 1)
  {
    hide Inv, Reach, CrossingSeen, ScannedUpTo, Numbered, Extends, Edge, LowAttained, IsOnStack;
    var next := Succ(adj, node)[k];
    var h := |s0.stack|;
    InvNumbered(adj, nodes, s, gray + {node});
    InvNumbered(adj, nodes, s1, gray + {node});
    StackIndexed(nodes, s);
    StackIndexed(nodes, s1);
    ExtendsPrefix(s0, s);
    OldEntry(nodes, s0, s);
    NestedVisit(adj, nodes, s0, s, s1, node, next);
    EdgeAt(adj, node, k);
    ScannedMore(Succ(adj, node), s.indices, s1.indices, s0.stack, s.low[node],
                if s1.low[next] < s1.low[node] then s1.low[next] else s1.low[node], k);
    if s1.low[next] < s1.low[node] {
      assert next in s1.stack;
      LowerKeepsInv(adj, nodes, s1, gray + {node}, node, s1.low[next]);
      CrossingExtend(adj, s.indices, s.stack, s1.indices, s1.stack, h, s.low[node], s1.low[next]);
      LowThrough(adj, s1.indices, s1.stack, node, next, s1.low[next]);
    } else {
      CrossingWeaken(adj, s1.indices, s1.stack, |s.stack|, |s.stack|, s1.low[next], s1.low[node]);
      CrossingExtend(adj, s.indices, s.stack, s1.indices, s1.stack, h, s.low[node], s.low[node]);
      LowKept(adj, s.indices, s.stack, s1.indices, s1.stack, node, s.low[node]);
    }
  }

  lemma EdgeAt(adj: Adjacency, x: string, k: nat)
    requires k < |Succ(adj, x)|
    ensures Edge(adj, x, Succ(adj, x)[k])
  {
  }

  lemma NestedVisit(adj: Adjacency, nodes: set<string>, s0: State, s: State, s1: State, node: string, next: string)
    requires Numbered(nodes, s0) && node !in s0.indices && Numbered(nodes, s) && Numbered(nodes, s1)
    requires Extends(s0, s) && Extends(s, s1)
    requires |s0.stack| < |s.stack| && s.stack[|s0.stack|] == node && next in s1.indices
    ensures Extends(s0, s1) && node in s.low && s1.low[node] == s.low[node] && node in s1.indices && next in s1.low
    ensures Extends(s0, WithLow(s1, node, s1.low[next]))
    ensures s1.indices[node] == s.indices[node] && s1.stack[|s0.stack|] == node && s.indices[node] <= s.index
    ensures s0.stack <= s.stack <= s1.stack && forall x | x in s.indices :: x in s1.indices && s1.indices[x] == s.indices[x]
  {
    hide Numbered, Reach, Edge;
    ExtendsTransitive(s0, s, s1);
    NestedNode(nodes, s0, s, node);
    StackIndexed(nodes, s0);
    StackIndexed(nodes, s1);
  }

  lemma NestedNode(nodes: set<string>, s0: State, s: State, node: string)
    requires Numbered(nodes, s) && node in s.stack
    ensures node in s.indices && node in s.low && s.indices[node] <= s.index
  {
  }

  lemma LowThrough(adj: Adjacency, indices: map<string, nat>, stack: seq<string>, node: string, next: string, bound: nat)
    requires Edge(adj, node, next) && LowAttained(adj, indices, stack, next, bound)
    ensures LowAttained(adj, indices, stack, node, bound)
  {
    hide Reach;
    var y :| y in stack && y in indices && indices[y] == bound && Reach(adj, next, y);
    ReachStep(adj, node, next, y);
  }

  lemma LowKept(adj: Adjacency, indices: map<string, nat>, stack: seq<string>, indices': map<string, nat>, stack': seq<string>, node: string, bound: nat)
    requires LowAttained(adj, indices, stack, node, bound) && stack <= stack'
    requires forall x | x in indices :: x in indices' && indices'[x] == indices[x]
    ensures LowAttained(adj, indices', stack', node, bound)
  {
    hide Reach;
    var y :| y in stack && y in indices && indices[y] == bound && Reach(adj, node, y);
    assert y in stack';
  }

  /** When `node` reaches an older entry, every stack entry still leads to an older gray node. */
  lemma GrayWithout(adj: Adjacency, indices: map<string, nat>, stack: seq<string>, node: string, gray: set<string>, bound: nat)
    requires (forall x | x in stack :: x in indices) && node in indices && node !in gray
    requires GrayBelow(adj, indices, stack, gray + {node})
    requires LowAttained(adj, indices, stack, node, bound) && bound < indices[node]
    ensures GrayBelow(adj, indices, stack, gray)
  {
    hide Reach;
    var g := GrayBehind(adj, indices, stack, node, gray, bound);
    hide LeadsToGray, LowAttained;
    forall x | x in stack ensures LeadsToGray(adj, indices, gray, x) {
      PastNode(adj, indices, gray, node, g, x);
    }
  }

  lemma GrayBehind(adj: Adjacency, indices: map<string, nat>, stack: seq<string>, node: string, gray: set<string>, bound: nat) returns (g: string)
    requires (forall x | x in stack :: x in indices) && node in indices
    requires GrayBelow(adj, indices, stack, gray + {node})
    requires LowAttained(adj, indices, stack, node, bound) && bound < indices[node]
    ensures g in gray && g in indices && indices[g] <= indices[node] && Reach(adj, node, g)
  {
    hide Reach;
    var y :| y in stack && y in indices && indices[y] == bound && Reach(adj, node, y);
    assert LeadsToGray(adj, indices, gray + {node}, y);
    g :| g in gray + {node} && g in indices && indices[g] <= indices[y] && Reach(adj, y, g);
    ReachTransitive(adj, node, y, g);
  }

  /** What leads to `node` leads to the older gray node behind it. */
  lemma PastNode(adj: Adjacency, indices: map<string, nat>, gray: set<string>, node: string, g: string, x: string)
    requires x in indices && node in indices && LeadsToGray(adj, indices, gray + {node}, x)
    requires g in gray && g in indices && indices[g] <= indices[node] && Reach(adj, node, g)
    ensures LeadsToGray(adj, indices, gray, x)
  {
    hide Reach;
    var f :| f in gray + {node} && f in indices && indices[f] <= indices[x] && Reach(adj, x, f);
    if f == node { ReachTransitive(adj, x, node, g); }
  }

  /** The scan is over and an older stack entry is reachable: `node` stays on the stack. */
  lemma Leave(adj: Adjacency, nodes: set<string>, s0: State, s: State, node: string, gray: set<string>)
    requires Inv(adj, nodes, s0, gray) && node !in s0.indices
    requires Scanning(adj, nodes, s0, s, node, gray, |Succ(adj, node)|)
    requires s.low[node] != s.indices[node]
    ensures Visited(adj, nodes, s0, s, node, gray)
  {
    hide Reach, SccPartition, EdgeClosed, StackChain, BlackClosed, CrossingSeen, GrayBelow, LowAttained;
    assert node !in gray by { GrayOnStack(adj, s0.indices, s0.stack, gray); }
    NodeCrossing(adj, nodes, s0, s, node, gray);
    GrayWithout(adj, s.indices, s.stack, node, gray, s.low[node]);
  }

  lemma GrayOnStack(adj: Adjacency, indices: map<string, nat>, stack: seq<string>, gray: set<string>)
    requires (forall x | x in stack :: x in indices) && GrayBelow(adj, indices, stack, gray)
    ensures gray <= Elements(stack)
  {
  }

  /** Once all successors are scanned, edges of `node` itself obey the bound too. */
  lemma NodeCrossing(adj: Adjacency, nodes: set<string>, s0: State, s: State, node: string, gray: set<string>)
    requires Numbered(nodes, s0) && node !in s0.indices
    requires Scanning(adj, nodes, s0, s, node, gray, |Succ(adj, node)|)
    ensures CrossingSeen(adj, s.indices, s.stack, |s0.stack|, |s0.stack|, s.low[node])
    ensures BlackClosed(adj, s.indices, gray)
  {
    hide Reach, SccPartition, EdgeClosed, StackChain;
    forall i, j | |s0.stack| <= i < |s.stack| && 0 <= j < |s0.stack| && Edge(adj, s.stack[i], s.stack[j])
      ensures s.low[node] <= s.indices[s.stack[j]]
    {
      assert s.stack[j] == s0.stack[j];
      if i == |s0.stack| {
        var k :| 0 <= k < |Succ(adj, node)| && Succ(adj, node)[k] == s.stack[j];
      }
    }
    forall x, y | x in s.indices && x !in gray && Edge(adj, x, y) ensures y in s.indices {
      if x == node {
        var k :| 0 <= k < |Succ(adj, node)| && Succ(adj, node)[k] == y;
      }
    }
  }

  /** The scan is over and nothing older is reachable: everything above `node` is its component. */
  lemma Pop(adj: Adjacency, nodes: set<string>, s0: State, s: State, s1: State, node: string, gray: set<string>, component: seq<string>)
    requires Inv(adj, nodes, s0, gray) && node !in s0.indices
    requires Scanning(adj, nodes, s0, s, node, gray, |Succ(adj, node)|)
    requires s.low[node] == s.indices[node]
    requires Elements(component) == Elements(s.stack[|s0.stack|..]) && Ascending(component)
    requires s1 == s.(stack := s0.stack, onStack := s1.onStack, components := s.components + [component])
    requires forall x :: IsOnStack(s1.onStack, x) <==> x in s0.stack
    ensures Visited(adj, nodes, s0, s1, node, gray)
  {
    hide Reach, SccPartition, EdgeClosed, StackChain, BlackClosed, CrossingSeen, GrayBelow, LowAttained, Numbered, Done, Extends, ScannedUpTo, Mutual;
    InvNumbered(adj, nodes, s0, gray);
    InvNumbered(adj, nodes, s, gray + {node});
    StackIndexed(nodes, s0);
    StackIndexed(nodes, s);
    ExtendsPrefix(s0, s);
    GrayOnStack(adj, s0.indices, s0.stack, gray);
    PopNumbered(nodes, s0, s, s1, component);
    StackIndexed(nodes, s1);
    NodeCrossing(adj, nodes, s0, s, node, gray);
    PopInv(adj, nodes, s0, s, s1, node, gray, component);
    CrossingNone(adj, s1.indices, s1.stack, s1.low[node]);
    PopExtends(s0, s, s1, component);
    NodeNumber(nodes, s, node, |s0.stack|);
  }

  lemma NodeNumber(nodes: set<string>, s: State, node: string, h: nat)
    requires Numbered(nodes, s) && h < |s.stack| && s.stack[h] == node
    ensures node in s.indices && node !in s.stack[..h]
  {
  }

  lemma PopExtends(s0: State, s: State, s1: State, component: seq<string>)
    requires Extends(s0, s) && s1 == s.(stack := s0.stack, onStack := s1.onStack, components := s.components + [component])
    ensures Extends(s0, s1)
  {
  }

  /** Taking the component off the stack moves exactly its members to the finished nodes. */
  lemma PopNumbered(nodes: set<string>, s0: State, s: State, s1: State, component: seq<string>)
    requires Numbered(nodes, s) && s0.stack <= s.stack
    requires Elements(component) == Elements(s.stack[|s0.stack|..])
    requires s1 == s.(stack := s0.stack, onStack := s1.onStack, components := s.components + [component])
    requires forall x :: IsOnStack(s1.onStack, x) <==> x in s0.stack
    ensures Numbered(nodes, s1)
    ensures Done(s1.indices, s1.stack) == Done(s.indices, s.stack) + Elements(component)
    ensures Elements(component) !! Done(s.indices, s.stack)
    ensures Elements(component) !! Elements(s0.stack)
  {
    hide IsOnStack;
    var h := |s0.stack|;
    assert s.stack == s0.stack + s.stack[h..];
    assert Elements(s.stack) == Elements(s0.stack) + Elements(component);
    StackSplit(nodes, s.indices, s0.stack, s.stack, h);
  }

  lemma PopInv(adj: Adjacency, nodes: set<string>, s0: State, s: State, s1: State, node: string, gray: set<string>, component: seq<string>)
    requires Inv(adj, nodes, s, gray + {node}) && s0.stack < s.stack && s.stack[|s0.stack|] == node
    requires Elements(component) == Elements(s.stack[|s0.stack|..]) && Ascending(component)
    requires s1 == s.(stack := s0.stack, onStack := s1.onStack, components := s.components + [component])
    requires Numbered(nodes, s1) && Done(s1.indices, s1.stack) == Done(s.indices, s.stack) + Elements(component)
    requires Elements(component) !! Done(s.indices, s.stack) && Elements(component) !! Elements(s0.stack)
    requires forall x | x in s.stack :: x in s.indices
    requires BlackClosed(adj, s.indices, gray) && node in s.indices
    requires CrossingSeen(adj, s.indices, s.stack, |s0.stack|, |s0.stack|, s.indices[node])
    requires gray <= Elements(s0.stack)
    ensures Inv(adj, nodes, s1, gray)
  {
    hide Reach, SccPartition, EdgeClosed, StackChain, BlackClosed, CrossingSeen, GrayBelow, Numbered, Done, Mutual, Ascending;
    var h := |s0.stack|;
    StackGrows(nodes, s);
    PrefixOf(s0.stack, s.stack, component);
    DoneGrows(adj, s.indices, s.stack, h, gray);
    PoppedMutual(adj, s.indices, s.stack, h, node, gray);
    NewComponent(adj, s, Done(s.indices, s.stack), component);
    GrayPopped(adj, s.indices, s0.stack, s.stack, node, gray);
    ChainPrefix(adj, s0.stack, s.stack);
  }

  lemma StackGrows(nodes: set<string>, s: State)
    requires Numbered(nodes, s)
    ensures forall x | x in s.stack :: x in s.indices
    ensures forall i, j | 0 <= i < j < |s.stack| :: s.indices[s.stack[i]] < s.indices[s.stack[j]]
  {
  }

  lemma PrefixOf(stack0: seq<string>, stack: seq<string>, component: seq<string>)
    requires stack0 < stack && Elements(component) == Elements(stack[|stack0|..])
    ensures stack[..|stack0|] == stack0 && component != []
    ensures forall x :: x in component <==> x in stack[|stack0|..]
  {
    assert stack[|stack0|..][0] in Elements(component);
    forall x ensures x in component <==> x in stack[|stack0|..] { assert x in Elements(component) <==> x in component; }
  }

  lemma CrossingNone(adj: Adjacency, indices: map<string, nat>, stack: seq<string>, bound: nat)
    requires forall x | x in stack :: x in indices
    ensures CrossingSeen(adj, indices, stack, |stack|, |stack|, bound)
  {
  }

  lemma ChainPrefix(adj: Adjacency, stack0: seq<string>, stack: seq<string>)
    requires StackChain(adj, stack) && stack0 <= stack
    ensures StackChain(adj, stack0)
  {
    hide Reach;
    forall i, j | 0 <= i < j < |stack0| ensures Reach(adj, stack0[i], stack0[j]) {
      assert stack[i] == stack0[i] && stack[j] == stack0[j];
    }
  }

  lemma GrayPopped(adj: Adjacency, indices: map<string, nat>, stack0: seq<string>, stack: seq<string>, node: string, gray: set<string>)
    requires forall x | x in stack :: x in indices
    requires forall i, j | 0 <= i < j < |stack| :: indices[stack[i]] < indices[stack[j]]
    requires stack0 < stack && stack[|stack0|] == node && gray <= Elements(stack0)
    requires GrayBelow(adj, indices, stack, gray + {node})
    ensures (forall x | x in stack0 :: x in indices) && GrayBelow(adj, indices, stack0, gray)
  {
    hide Reach;
    forall x | x in stack0 ensures x in indices && LeadsToGray(adj, indices, gray, x) {
      assert LeadsToGray(adj, indices, gray + {node}, x);
      var j :| 0 <= j < |stack0| && stack0[j] == x;
      assert stack[j] == x;
    }
  }

  /** Popping the whole segment above height `h` leaves no edge back to the rest of the stack. */
  lemma DoneGrows(adj: Adjacency, indices: map<string, nat>, stack: seq<string>, h: nat, gray: set<string>)
    requires forall x | x in stack :: x in indices
    requires forall i, j | 0 <= i < j < |stack| :: indices[stack[i]] < indices[stack[j]]
    requires h < |stack| && BlackClosed(adj, indices, gray) && gray !! Elements(stack[h..])
    requires EdgeClosed(adj, Done(indices, stack))
    requires CrossingSeen(adj, indices, stack, h, h, indices[stack[h]])
    ensures EdgeClosed(adj, Done(indices, stack[..h]))
  {
    hide Edge;
    var done' := Done(indices, stack[..h]);
    forall x, y | x in done' && Edge(adj, x, y) ensures y in done' {
      if x !in Done(indices, stack) {
        var i :| 0 <= i < |stack| && stack[i] == x;
        assert h <= i by { assert x !in stack[..h]; }
        assert stack[h..][i - h] == x;
        assert Edge(adj, stack[i], y);
        assert forall j | 0 <= j < h :: stack[j] != y;
      }
    }
  }

  /** Entries above height `h` are new, hence disjoint from those below. */
  lemma StackSplit(nodes: set<string>, indices: map<string, nat>, stack0: seq<string>, stack: seq<string>, h: nat)
    requires forall x | x in stack :: x in indices
    requires forall i, j | 0 <= i < j < |stack| :: indices[stack[i]] < indices[stack[j]]
    requires h == |stack0| <= |stack| && stack[..h] == stack0
    ensures Elements(stack[h..]) !! Elements(stack0)
  {
    forall i, j | 0 <= i < h <= j < |stack| ensures stack[i] != stack[j] {
      assert indices[stack[i]] < indices[stack[j]];
    }
    assert forall x | x in stack0 :: exists i :: 0 <= i < h && stack[i] == x;
    assert forall x | x in stack[h..] :: exists j :: h <= j < |stack| && stack[j] == x;
  }

  /** Everything above `node` is mutually reachable, through `node`. */
  lemma PoppedMutual(adj: Adjacency, indices: map<string, nat>, stack: seq<string>, h: nat, node: string, gray: set<string>)
    requires forall x | x in stack :: x in indices
    requires h < |stack| && stack[h] == node && StackChain(adj, stack)
    requires GrayBelow(adj, indices, stack, gray + {node}) && gray <= Elements(stack[..h])
    ensures forall x, y | x in stack[h..] && y in stack[h..] :: Mutual(adj, x, y)
  {
    hide Reach;
    forall i | h <= i < |stack| ensures Mutual(adj, node, stack[i]) {
      var x := stack[i];
      ReachSelf(adj, node);
      assert LeadsToGray(adj, indices, gray + {node}, x);
      var g :| g in gray + {node} && g in indices && indices[g] <= indices[x] && Reach(adj, x, g);
      if g != node {
        var j :| 0 <= j < h && stack[..h][j] == g;
        ReachTransitive(adj, x, g, node);
      }
    }
    forall x, y | x in stack[h..] && y in stack[h..] ensures Mutual(adj, x, y) {
      var i :| h <= i < |stack| && stack[i] == x;
      var j :| h <= j < |stack| && stack[j] == y;
      assert Mutual(adj, node, stack[i]) && Mutual(adj, node, stack[j]);
      ReachTransitive(adj, x, node, y);
      ReachTransitive(adj, y, node, x);
    }
  }

  lemma NewComponent(adj: Adjacency, s: State, done: set<string>, component: seq<string>)
    requires SccPartition(done, adj, s.components) && EdgeClosed(adj, done)
    requires component != [] && Ascending(component) && Elements(component) !! done
    requires forall x, y | x in component && y in component :: Mutual(adj, x, y)
    ensures SccPartition(done + Elements(component), adj, s.components + [component])
  {
    var comps := s.components + [component];
    var n := |s.components|;
    forall x | x in done + Elements(component) ensures exists i :: 0 <= i < |comps| && x in comps[i] {
      if x in done {
        var i :| 0 <= i < n && x in s.components[i];
        assert x in comps[i];
      } else {
        assert x in comps[n];
      }
    }
    forall i, j, x, y | 0 <= i < |comps| && 0 <= j < |comps| && x in comps[i] && y in comps[j]
      ensures i == j <==> Mutual(adj, x, y)
    {
      if i < n && j == n {
        if Reach(adj, x, y) { ReachStaysIn(adj, done, x, y); }
      } else if i == n && j < n {
        if Reach(adj, y, x) { ReachStaysIn(adj, done, y, x); }
      }
    }
  }

  /** With no visit in progress the stack is empty and every visited node is in a component. */
  lemma Finished(adj: Adjacency, nodes: set<string>, s: State)
    requires Inv(adj, nodes, s, {}) && s.indices.Keys == nodes
    ensures s.stack == [] && SccPartition(nodes, adj, s.components)
  {
    if s.stack != [] {
      var x := s.stack[0];
      var leads := LeadsToGray(adj, s.indices, {}, x);
      assert false;
    }
    assert Done(s.indices, s.stack) == nodes;
  }

  // ---------- The search itself ----------

  class Search {
    const adj: Adjacency
    ghost const nodes: set<string>
    var index: nat
    var indices: map<string, nat>
    var low: map<string, nat>
    var stack: seq<string>
    var onStack: map<string, bool>
    var components: seq<seq<string>>

    ghost function Now(): State
      reads this
    {
      State(index, indices, low, stack, onStack, components)
    }

    constructor (adj: Adjacency, ghost nodes: set<string>)
      ensures this.adj == adj && this.nodes == nodes
      ensures Now() == State(0, map[], map[], [], map[], [])
      ensures Inv(adj, nodes, Now(), {})
    {
      this.adj, this.nodes := adj, nodes;
      index, indices, low, stack, onStack, components := 0, map[], map[], [], map[], [];
    }

    /** The recursive closure. `gray` holds the nodes whose visits enclose this one. */
    method Visit(node: string, ghost gray: set<string>)
      requires EdgeClosed(adj, nodes) && Inv(adj, nodes, Now(), gray)
      requires node in nodes && node !in indices
      requires forall g | g in gray :: Reach(adj, g, node)
      modifies this
      ensures Visited(adj, nodes, old(Now()), Now(), node, gray)
      decreases nodes - indices.Keys
    {
      hide EdgeClosed, Inv, Reach, Scanning, Visited, Numbered, Edge, Ascending, Distinct, Succ, Elements, SortStrings, IndexOf;
      ghost var start := Now();
      InvNumbered(adj, nodes, start, gray);
      Enter(adj, nodes, start, node, gray);
      index := index + 1;
      indices := indices[node := index];
      low := low[node := index];
      stack := stack + [node];
      onStack := onStack[node := true];
      var k := 0;
      while k < |Succ(adj, node)|
        invariant k <= |Succ(adj, node)|
        invariant Scanning(adj, nodes, start, Now(), node, gray, k)
      {
        var next := Succ(adj, node)[k];
        ghost var before := Now();
        ScanningFacts(adj, nodes, start, before, node, gray, k);
        EdgeAt(adj, node, k);
        NumberedIndex(nodes, before, next);
        if IndexOf(indices, next) == 0 {
          SuccessorInGraph(adj, nodes, node, next, gray);
          Visit(next, gray + {node});
          ScanVisited(adj, nodes, start, before, Now(), node, gray, k);
          if low[next] < low[node] {
            low := low[node := low[next]];
          }
        } else {
          ScanSeen(adj, nodes, start, before, node, gray, k);
          if IsOnStack(onStack, next) && indices[next] < low[node] {
            low := low[node := indices[next]];
          }
        }
        k := k + 1;
      }
      ScanningFacts(adj, nodes, start, Now(), node, gray, k);
      if low[node] != indices[node] {
        Leave(adj, nodes, start, Now(), node, gray);
        return;
      }
      ghost var full := Now();
      var component := PopTo(node, |old(stack)|);
      component := SortStrings(component);
      components := components + [component];
      Pop(adj, nodes, start, full, Now(), node, gray, component);
    }

    /** The popping loop: takes entries off the stack up to and including `node`. */
    method PopTo(node: string, ghost h: nat) returns (component: seq<string>)
      requires h < |stack| && stack[h] == node && Numbered(nodes, Now())
      modifies this`stack, this`onStack
      ensures stack == old(stack)[..h]
      ensures forall x :: IsOnStack(onStack, x) <==> x in stack
      ensures Distinct(component) && Elements(component) == Elements(old(stack)[h..])
    {
      hide Numbered;
      ghost var full := stack;
      NumberedStack(nodes, Now());
      component := [];
      while true
        invariant h < |stack| <= |full| && stack == full[..|stack|]
        invariant forall x :: IsOnStack(onStack, x) <==> x in stack
        invariant |component| == |full| - |stack|
        invariant forall i | 0 <= i < |component| :: component[i] == full[|full| - 1 - i]
        decreases |stack|
      {
        var last := stack[|stack| - 1];
        LastEntry(full, |stack| - 1);
        stack := stack[..|stack| - 1];
        onStack := onStack[last := false];
        component := component + [last];
        if last == node { break; }
      }
      assert |stack| == h;
      Reversed(component, full[h..]);
    }
  }

  /** In a stack without duplicates, taking off the top entry removes exactly that node. */
  lemma LastEntry(full: seq<string>, n: nat)
    requires Distinct(full) && n < |full|
    ensures forall x :: x in full[..n + 1] <==> x in full[..n] || x == full[n]
    ensures full[n] !in full[..n] && full[..n + 1][..n] == full[..n]
  {
  }

  lemma Reversed(r: seq<string>, s: seq<string>)
    requires |r| == |s| && forall i | 0 <= i < |r| :: r[i] == s[|s| - 1 - i]
    requires Distinct(s)
    ensures Distinct(r) && Elements(r) == Elements(s)
  {
    forall x | x in s ensures x in r {
      var i :| 0 <= i < |s| && s[i] == x;
      assert r[|s| - 1 - i] == x;
    }
  }

  lemma ScanningFacts(adj: Adjacency, nodes: set<string>, s0: State, s: State, node: string, gray: set<string>, k: nat)
    requires Scanning(adj, nodes, s0, s, node, gray, k)
    ensures Inv(adj, nodes, s, gray + {node}) && Numbered(nodes, s)
    ensures node in s.indices && node in s.low && s0.indices.Keys <= s.indices.Keys && node in s.stack
    ensures |s0.stack| < |s.stack| && s.stack[|s0.stack|] == node && s.stack[..|s0.stack|] == s0.stack
    ensures s.indices.Keys <= nodes && s.low.Keys == s.indices.Keys
  {
  }

  lemma NumberedIndex(nodes: set<string>, s: State, x: string)
    requires Numbered(nodes, s)
    ensures IndexOf(s.indices, x) == 0 <==> x !in s.indices
  {
  }

  lemma NumberedStack(nodes: set<string>, s: State)
    requires Numbered(nodes, s)
    ensures Distinct(s.stack)
    ensures forall x :: IsOnStack(s.onStack, x) <==> x in s.stack
  {
    forall i, j | 0 <= i < j < |s.stack| ensures s.stack[i] != s.stack[j] {
      assert s.indices[s.stack[i]] < s.indices[s.stack[j]];
    }
  }

  /** Nodes being visited reach every successor of the newest one. */
  lemma SuccessorInGraph(adj: Adjacency, nodes: set<string>, node: string, next: string, gray: set<string>)
    requires EdgeClosed(adj, nodes) && node in nodes && Edge(adj, node, next)
    requires forall g | g in gray :: Reach(adj, g, node)
    ensures next in nodes && forall g | g in gray + {node} :: Reach(adj, g, next)
  {
    hide Reach;
    ReachEdge(adj, node, next);
    forall g | g in gray ensures Reach(adj, g, next) { ReachTransitive(adj, g, node, next); }
  }

  /** Emits the components of everything reached from `nodes`, each an ascending node list. */
  method Components(nodes: set<string>, adj: Adjacency) returns (comps: seq<seq<string>>)
    ensures SccPartition(Closure(nodes, adj), adj, comps)
  {
    hide Inv, EdgeClosed, Reach, Ascending, Distinct, Visited, SccPartition, Numbered, SortedBy, Closure;
    ghost var all := Closure(nodes, adj);
    ClosureClosed(nodes, adj);
    var unsorted := KeysOf(nodes);
    var keys := SortStrings(unsorted);
    var search := new Search(adj, all);
    var i := 0;
    while i < |keys|
      invariant i <= |keys|
      invariant search.adj == adj && search.nodes == all
      invariant Inv(adj, all, search.Now(), {})
      invariant forall j | 0 <= j < i :: keys[j] in search.indices
    {
      assert keys[i] in Elements(keys);
      FreshIndex(adj, all, search.Now(), keys[i]);
      if IndexOf(search.indices, keys[i]) == 0 {
        ghost var before := search.Now();
        search.Visit(keys[i], {});
        VisitedInv(adj, all, before, search.Now(), keys[i]);
      }
      i := i + 1;
    }
    AllVisited(adj, nodes, search.Now(), keys);
    Finished(adj, all, search.Now());
    comps := search.components;
  }

  lemma FreshIndex(adj: Adjacency, nodes: set<string>, s: State, x: string)
    requires Inv(adj, nodes, s, {})
    ensures IndexOf(s.indices, x) == 0 <==> x !in s.indices
  {
    hide GrayBelow, StackChain, BlackClosed, EdgeClosed, SccPartition;
  }

  /** What is numbered is closed under edges, so numbering all of `nodes` has numbered all they reach. */
  lemma AllVisited(adj: Adjacency, nodes: set<string>, s: State, keys: seq<string>)
    requires Inv(adj, Closure(nodes, adj), s, {}) && Elements(keys) == nodes
    requires forall j | 0 <= j < |keys| :: keys[j] in s.indices
    ensures s.indices.Keys == Closure(nodes, adj)
  {
    hide GrayBelow, StackChain, SccPartition, Closure, Edge, Reach;
    forall x | x in nodes ensures x in s.indices { assert x in Elements(keys); }
    ClosureLeast(nodes, adj, s.indices.Keys);
  }

  lemma VisitedInv(adj: Adjacency, nodes: set<string>, s0: State, s1: State, node: string)
    requires Visited(adj, nodes, s0, s1, node, {})
    ensures Inv(adj, nodes, s1, {}) && node in s1.indices
    ensures forall x | x in s0.indices :: x in s1.indices
  {
  }

  lemma SccPermutation(nodes: set<string>, adj: Adjacency, a: seq<seq<string>>, b: seq<seq<string>>)
    requires SccPartition(nodes, adj, a) && multiset(a) == multiset(b)
    ensures SccPartition(nodes, adj, b)
  {
    hide Mutual;
    forall i, j | 0 <= i < j < |a| ensures a[i] != a[j] {
      assert a[i][0] in a[i] && a[j][0] in a[j];
      MutualSelf(adj, a[i][0]);
    }
    PermutationKeeps(a, b);
    assert forall c :: c in a <==> c in Elements(a);
    assert forall c :: c in b <==> c in Elements(b);
    forall i | 0 <= i < |b| ensures b[i] in a { assert b[i] in Elements(b); }
    forall i, j, x, y | 0 <= i < |b| && 0 <= j < |b| && x in b[i] && y in b[j]
      ensures i == j <==> Mutual(adj, x, y)
    {
      var i' :| 0 <= i' < |a| && a[i'] == b[i];
      var j' :| 0 <= j' < |a| && a[j'] == b[j];
      assert i' == j' <==> Mutual(adj, x, y);
    }
    forall x | x in nodes ensures exists i :: 0 <= i < |b| && x in b[i] {
      var i :| 0 <= i < |a| && x in a[i];
      assert a[i] in Elements(a);
      var j :| 0 <= j < |b| && b[j] == a[i];
    }
  }

  lemma MutualSelf(adj: Adjacency, x: string)
    ensures Mutual(adj, x, x)
  {
    ReachSelf(adj, x);
  }

  /** The components of a graph, in the order of their joined node lists. */
  method StringScc(nodes: set<string>, adj: Adjacency) returns (components: seq<seq<string>>)
    ensures SccPartition(Closure(nodes, adj), adj, components)
    ensures SortedBy((c: seq<string>) => Join(c, "\0"), components)
  {
    var found := Components(nodes, adj);
    components := SortSlice((c: seq<string>) => Join(c, "\0"), found);
    SccPermutation(Closure(nodes, adj), adj, found, components);
  }

  // ---------- Steps that both callers wrap around the search ----------

  /** Every adjacency list sorted. */
  function SortedLists(adj: Adjacency): Adjacency {
    map x | x in adj :: SortStrings(adj[x])
  }

  /** Sorts every adjacency list before the search starts. */
  method SortTargets(adj: Adjacency) returns (sorted: Adjacency)
    ensures sorted == SortedLists(adj)
  {
    sorted := adj;
    var rest := adj.Keys;
    while rest != {}
      invariant rest <= adj.Keys && sorted.Keys == adj.Keys
      invariant forall x | x in adj :: sorted[x] == if x in rest then adj[x] else SortStrings(adj[x])
    {
      var node :| node in rest;
      sorted := sorted[node := SortStrings(sorted[node])];
      rest := rest - {node};
    }
  }

  lemma SortingKeepsEdges(adj: Adjacency)
    ensures SameEdges(SortedLists(adj), adj)
  {
    forall x, y ensures Edge(SortedLists(adj), x, y) <==> Edge(adj, x, y) {
      if x in adj { assert y in SortStrings(adj[x]) <==> y in Elements(SortStrings(adj[x])); }
    }
  }

  /** The test that skips a component without a cycle. */
  method IsCyclic(ghost nodes: set<string>, adj: Adjacency, components: seq<seq<string>>, i: nat) returns (cyclic: bool)
    requires SccPartition(nodes, adj, components) && EdgeClosed(adj, nodes) && i < |components|
    ensures cyclic <==> OnCycle(adj, components[i][0])
  {
    hide Reach, OnCycle;
    var component := components[i];
    var self := false;
    if |component| == 1 {
      var targets := Succ(adj, component[0]);
      var t := 0;
      while t < |targets|
        invariant t <= |targets| && (self <==> component[0] in targets[..t])
      {
        if targets[t] == component[0] { self := true; }
        t := t + 1;
      }
      assert targets[..t] == targets;
    }
    ComponentHasCycle(nodes, adj, components, i);
    cyclic := !(|component| < 2 && !self);
  }
}
