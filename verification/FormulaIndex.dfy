/** The variables a formula reads, and why the index of them is enough. */
module FormulaIndex {
  import opened Wrappers
  import opened Ordering
  import opened FormulaAst
  import opened FormulaSemantics
  import opened FormulaSoundness
  import FormulaTyping

  datatype FormulaRead = FormulaRead(scope: string, symbol: string, span: Span)

  function ReadKey(r: FormulaRead): string {
    r.scope + r.symbol
  }

  /** The selectors of a tree in visiting order. */
  function Selectors(node: Node): seq<FormulaRead>
    decreases node, 1
  {
    (if node.kind == Selector then [FormulaRead(node.scope, node.symbol, node.span)] else []) + SelectorsOf(node.args)
  }

  function SelectorsOf(args: seq<Node>): seq<FormulaRead>
    decreases args, 0
  {
    if args == [] then [] else Selectors(args[0]) + SelectorsOf(args[1..])
  }

  lemma {:induction false} SelectorsAppend(args: seq<Node>, i: nat)
    requires i < |args|
    ensures SelectorsOf(args[..i + 1]) == SelectorsOf(args[..i]) + Selectors(args[i])
  {
    if i == 0 {
      assert args[..1][1..] == [];
    } else {
      SelectorsAppend(args[1..], i - 1);
      assert args[..i + 1][1..] == args[1..][..i] && args[..i][1..] == args[1..][..i - 1];
    }
  }

  /** The visiting closure. */
  method Visit(current: Node, out: seq<FormulaRead>) returns (grown: seq<FormulaRead>)
    ensures grown == out + Selectors(current)
    decreases current
  {
    grown := out;
    if current.kind == Selector {
      grown := grown + [FormulaRead(current.scope, current.symbol, current.span)];
    }
    ghost var own := grown;
    var i := 0;
    assert current.args[..0] == [];
    while i < |current.args|
      invariant i <= |current.args| && grown == own + SelectorsOf(current.args[..i])
    {
      SelectorsAppend(current.args, i);
      grown := Visit(current.args[i], grown);
      i := i + 1;
    }
    assert current.args[..i] == current.args;
  }

  /** Every selector once per occurrence, ordered by scope and symbol. */
  method FormulaReads(node: Node) returns (out: seq<FormulaRead>)
    ensures multiset(out) == multiset(Selectors(node))
    ensures SortedBy(ReadKey, out) && forall i, j | 0 <= i < j < |out| :: !Less(out[j].scope + out[j].symbol, out[i].scope + out[i].symbol)
  {
    var visited := Visit(node, []);
    out := SortSlice(ReadKey, visited);
  }

  /** The read stands for this selector of the tree. */
  predicate ReadOf(m: Node, r: FormulaRead) {
    m.kind == Selector && r == FormulaRead(m.scope, m.symbol, m.span)
  }

  /** The reads are the selectors that occur in the tree, at whatever depth, each with its own place. */
  lemma {:induction false} ReadsAreTheSelectors(node: Node, r: FormulaRead)
    ensures r in Selectors(node) <==> exists m: Node :: FormulaTyping.Occurs(m, node) && ReadOf(m, r)
    decreases node, 1
  {
    hide ReadOf;
    SelectorsFirst(node, r);
    ArgumentReads(node.args, r);
    if ReadOf(node, r) { assert FormulaTyping.Occurs(node, node); }
    forall i, m: Node | 0 <= i < |node.args| && FormulaTyping.Occurs(m, node.args[i]) ensures FormulaTyping.Occurs(m, node) {
      FormulaTyping.OccursDeeper(m, node, i);
    }
  }

  lemma SelectorsFirst(node: Node, r: FormulaRead)
    ensures r in Selectors(node) <==> ReadOf(node, r) || r in SelectorsOf(node.args)
  {
  }

  lemma {:induction false} ArgumentReads(args: seq<Node>, r: FormulaRead)
    ensures r in SelectorsOf(args) <==> exists i, m: Node :: 0 <= i < |args| && FormulaTyping.Occurs(m, args[i]) && ReadOf(m, r)
    decreases args, 0
  {
    hide ReadOf, FormulaTyping.Occurs, Selectors;
    if args != [] {
      ReadsAreTheSelectors(args[0], r);
      ArgumentReads(args[1..], r);
      assert forall i | 0 <= i < |args| - 1 :: args[1..][i] == args[i + 1];
      assert forall i | 0 < i < |args| :: args[i] == args[1..][i - 1];
    }
  }

  /** Two environments give the same answer for every listed read. */
  ghost predicate AgreeOn<T>(listed: seq<FormulaRead>, a: (string, string) -> Option<T>, b: (string, string) -> Option<T>) {
    forall r | r in listed :: a(r.scope, r.symbol) == b(r.scope, r.symbol)
  }

  lemma {:induction false} ChildReads(args: seq<Node>, i: nat)
    requires i < |args|
    ensures forall r | r in Selectors(args[i]) :: r in SelectorsOf(args)
  {
    if i > 0 { ChildReads(args[1..], i - 1); }
  }

  lemma AgreeOnChild<T>(node: Node, i: nat, a: (string, string) -> Option<T>, b: (string, string) -> Option<T>)
    requires i < |node.args| && AgreeOn(Selectors(node), a, b)
    ensures AgreeOn(Selectors(node.args[i]), a, b)
  {
    ChildReads(node.args, i);
  }

  /** Inference depends on the listed reads only. */
  lemma {:induction false} InferFrame(node: Node, registry: Registry, a: Resolver, b: Resolver)
    requires Arity(node) && AgreeOn(Selectors(node), a, b)
    ensures Infer(node, registry, a) == Infer(node, registry, b)
    decreases node, 1
  {
    forall i | 0 <= i < |node.args| ensures Infer(node.args[i], registry, a) == Infer(node.args[i], registry, b) {
      AgreeOnChild(node, i, a, b);
      InferFrame(node.args[i], registry, a, b);
    }
    if node.kind == Selector {
      assert FormulaRead(node.scope, node.symbol, node.span) in Selectors(node);
    } else if node.kind == Call && node.args != [] {
      InferRestFrame(node.args[1..], Infer(node.args[0], registry, a).typ, registry, a, b);
    }
  }

  lemma {:induction false} InferRestFrame(args: seq<Node>, first: Type, registry: Registry, a: Resolver, b: Resolver)
    requires forall i | 0 <= i < |args| :: Arity(args[i]) && Infer(args[i], registry, a) == Infer(args[i], registry, b)
    ensures InferRest(args, first, registry, a) == InferRest(args, first, registry, b)
    decreases args, 0
  {
    if args != [] { InferRestFrame(args[1..], first, registry, a, b); }
  }

  /** Evaluation depends on the listed reads only. */
  lemma {:induction false} EvaluateFrame<D>(node: Node, arith: Arith<D>, a: Table<D>, b: Table<D>)
    requires Arity(node) && AgreeOn(Selectors(node), a, b)
    ensures Evaluate(node, arith, a) == Evaluate(node, arith, b)
    decreases node, 1
  {
    forall i | 0 <= i < |node.args| ensures Evaluate(node.args[i], arith, a) == Evaluate(node.args[i], arith, b) {
      AgreeOnChild(node, i, a, b);
      EvaluateFrame(node.args[i], arith, a, b);
    }
    if node.kind == Selector {
      assert FormulaRead(node.scope, node.symbol, node.span) in Selectors(node);
    } else if node.kind == Call {
      EvaluateArgsFrame(node.args, arith, a, b);
    }
  }

  lemma {:induction false} EvaluateArgsFrame<D>(args: seq<Node>, arith: Arith<D>, a: Table<D>, b: Table<D>)
    requires forall i | 0 <= i < |args| :: Arity(args[i]) && Evaluate(args[i], arith, a) == Evaluate(args[i], arith, b)
    ensures EvaluateArgs(args, arith, a) == EvaluateArgs(args, arith, b)
    decreases args, 0
  {
    if args != [] { EvaluateArgsFrame(args[1..], arith, a, b); }
  }

  /** The indexed reads are a complete dependency set of the whole evaluation. */
  lemma IndexedReadsSuffice<D>(node: Node, listed: seq<FormulaRead>, registry: Registry, arith: Arith<D>, a: Table<D>, b: Table<D>)
    requires Arity(node) && multiset(listed) == multiset(Selectors(node)) && AgreeOn(listed, a, b)
    ensures EvaluateWithSymbols(node, registry, arith, a) == EvaluateWithSymbols(node, registry, arith, b)
  {
    assert forall r :: r in Selectors(node) <==> r in multiset(listed);
    InferFrame(node, registry, TypesOf(a), TypesOf(b));
    EvaluateFrame(node, arith, a, b);
  }

  /** None of them is superfluous: a formula that infers has every listed read bound. */
  lemma {:induction false} EveryReadIsNeeded(node: Node, registry: Registry, symbols: Resolver, r: FormulaRead)
    requires Arity(node) && Infer(node, registry, symbols).issues == [] && r in Selectors(node)
    requires ArgsOnlyWhereUsed(node)
    ensures symbols(r.scope, r.symbol).Some?
    decreases node
  {
    if node.kind == Selector {
      assert SelectorsOf(node.args) == [];
    } else {
      var i := SelectorChild(node.args, r);
      assert Infer(node.args[i], registry, symbols).issues == [] by { ChildInfers(node, registry, symbols, i); }
      EveryReadIsNeeded(node.args[i], registry, symbols, r);
    }
  }

  lemma {:induction false} SelectorChild(args: seq<Node>, r: FormulaRead) returns (i: nat)
    requires r in SelectorsOf(args)
    ensures i < |args| && r in Selectors(args[i])
  {
    if r in Selectors(args[0]) {
      i := 0;
    } else {
      i := SelectorChild(args[1..], r);
      i := i + 1;
    }
  }

  lemma ChildInfers(node: Node, registry: Registry, symbols: Resolver, i: nat)
    requires Arity(node) && ArgsOnlyWhereUsed(node) && i < |node.args| && Infer(node, registry, symbols).issues == []
    ensures Infer(node.args[i], registry, symbols).issues == []
  {
    if node.kind == Call && node.text != "if" && i > 0 {
      ArgumentsInfer(node.args[1..], Infer(node.args[0], registry, symbols).typ, registry, symbols, i - 1);
    }
  }
}
