/** Typing rules of formulas, and what every diagnostic points at. */
module FormulaTyping {
  import opened Wrappers
  import opened FormulaAst
  import opened FormulaSemantics
  import opened FormulaSoundness

  // ---------- The rules ----------

  const TRUTH := Type(BooleanType, NO_UNIT)

  /** Arguments and branches must agree in value type and dimension; units of one dimension mix freely. */
  predicate Alike(u: Type, v: Type) {
    u.valueType == v.valueType && u.unit.dimension == v.unit.dimension
  }

  /** Sums and comparisons need units of one dimension and one value type. */
  predicate Commensurable(u: Unit, v: Unit) { u.dimension == v.dimension && u.valueType == v.valueType }

  predicate Combines(op: string, u: Type, v: Type, t: Type) {
    match op
    case "&&" => u.valueType == BooleanType && v.valueType == BooleanType && t == TRUTH
    case "||" => u.valueType == BooleanType && v.valueType == BooleanType && t == TRUTH
    case "<" => Commensurable(u.unit, v.unit) && t == TRUTH
    case "<=" => Commensurable(u.unit, v.unit) && t == TRUTH
    case ">" => Commensurable(u.unit, v.unit) && t == TRUTH
    case ">=" => Commensurable(u.unit, v.unit) && t == TRUTH
    case "==" => Commensurable(u.unit, v.unit) && t == TRUTH
    case "!=" => Commensurable(u.unit, v.unit) && t == TRUTH
    case "+" => Commensurable(u.unit, v.unit) && t == u
    case "-" => Commensurable(u.unit, v.unit) && t == u
    case "*" => Scales(u, v, t)
    case "/" => Scales(u, v, t)
    case _ => false
  }

  /** One factor is scalar, and the result has the type of the other. */
  predicate Scales(u: Type, v: Type, t: Type) {
    if u.unit.dimension == "scalar" then t == v else v.unit.dimension == "scalar" && t == u
  }

  predicate TakesArguments(name: string, count: nat) {
    match name
    case "if" => count == 3
    case "min" => count >= 2
    case "max" => count >= 2
    case "clamp" => count == 3
    case "abs" => count == 1
    case "floor" => count == 1
    case "ceil" => count == 1
    case "round" => count == 1
    case _ => count >= 1
  }

  ghost predicate HasType(n: Node, registry: Registry, symbols: Resolver, t: Type)
    requires Arity(n)
    decreases n, 1
  {
    match n.kind
    case Decimal => t == Type(DecimalType, if "scalar" in registry.units then registry.units["scalar"] else NO_UNIT)
    case Boolean => t == TRUTH
    case Quantity => n.unit in registry.units && t == Type(registry.units[n.unit].valueType, registry.units[n.unit])
    case Selector => symbols(n.scope, n.symbol) == Some(t)
    case Unary =>
      exists u :: HasType(n.args[0], registry, symbols, u)
        && if n.operator == "!" then u.valueType == BooleanType && t == TRUTH else u.valueType != BooleanType && t == u
    case Binary =>
      exists u, v :: HasType(n.args[0], registry, symbols, u) && HasType(n.args[1], registry, symbols, v) && Combines(n.operator, u, v, t)
    case Call => n.text in registry.functions && TakesArguments(n.text, |n.args|) && CallHasType(n, registry, symbols, t)
    case Invalid => false
  }

  ghost predicate CallHasType(n: Node, registry: Registry, symbols: Resolver, t: Type)
    requires Arity(n) && TakesArguments(n.text, |n.args|)
    decreases n, 0
  {
    if n.text == "if" then
      && (exists c: Type :: HasType(n.args[0], registry, symbols, c) && c.valueType == BooleanType)
      && HasType(n.args[1], registry, symbols, t)
      && exists v: Type :: HasType(n.args[2], registry, symbols, v) && Alike(t, v)
    else
      && HasType(n.args[0], registry, symbols, t)
      && forall i | 1 <= i < |n.args| :: HasTypeAlike(n.args[i], registry, symbols, t)
  }

  ghost predicate HasTypeAlike(n: Node, registry: Registry, symbols: Resolver, t: Type)
    requires Arity(n)
    decreases n, 2
  {
    exists v: Type :: HasType(n, registry, symbols, v) && Alike(v, t)
  }

  /** Inference finds no issue exactly when the rules give a type, and then it finds that type. */
  lemma {:induction false} InfersExactlyTheType(n: Node, registry: Registry, symbols: Resolver, t: Type)
    requires Arity(n)
    ensures HasType(n, registry, symbols, t) <==> Infer(n, registry, symbols).issues == [] && Infer(n, registry, symbols).typ == t
    decreases n, 2
  {
    match n.kind
    case Unary => UnaryInfers(n, registry, symbols, t);
    case Binary => BinaryInfers(n, registry, symbols, t);
    case Call => CallInfers(n, registry, symbols, t);
    case _ =>
  }

  lemma {:induction false} UnaryInfers(n: Node, registry: Registry, symbols: Resolver, t: Type)
    requires Arity(n) && n.kind == Unary
    ensures HasType(n, registry, symbols, t) <==> Infer(n, registry, symbols).issues == [] && Infer(n, registry, symbols).typ == t
    decreases n, 1
  {
    forall u ensures HasType(n.args[0], registry, symbols, u) <==> Infer(n.args[0], registry, symbols) == Inferred(u, []) {
      InfersExactlyTheType(n.args[0], registry, symbols, u);
    }
    assert HasType(n.args[0], registry, symbols, Infer(n.args[0], registry, symbols).typ) <==> Infer(n.args[0], registry, symbols).issues == [];
  }

  lemma {:induction false} BinaryInfers(n: Node, registry: Registry, symbols: Resolver, t: Type)
    requires Arity(n) && n.kind == Binary
    ensures HasType(n, registry, symbols, t) <==> Infer(n, registry, symbols).issues == [] && Infer(n, registry, symbols).typ == t
    decreases n, 1
  {
    hide Combines, InferBinary;
    var left, right := Infer(n.args[0], registry, symbols), Infer(n.args[1], registry, symbols);
    forall u ensures HasType(n.args[0], registry, symbols, u) <==> left == Inferred(u, []) {
      InfersExactlyTheType(n.args[0], registry, symbols, u);
    }
    forall v ensures HasType(n.args[1], registry, symbols, v) <==> right == Inferred(v, []) {
      InfersExactlyTheType(n.args[1], registry, symbols, v);
    }
    assert HasType(n.args[0], registry, symbols, left.typ) <==> left.issues == [];
    assert HasType(n.args[1], registry, symbols, right.typ) <==> right.issues == [];
    CombinesInfers(n, left.typ, right.typ, registry, t);
  }

  lemma CombinesInfers(n: Node, u: Type, v: Type, registry: Registry, t: Type)
    ensures Combines(n.operator, u, v, t) <==> InferBinary(n, u, v, registry) == Inferred(t, [])
  {
  }

  lemma {:induction false} CallInfers(n: Node, registry: Registry, symbols: Resolver, t: Type)
    requires Arity(n) && n.kind == Call
    ensures HasType(n, registry, symbols, t) <==> Infer(n, registry, symbols).issues == [] && Infer(n, registry, symbols).typ == t
    decreases n, 1
  {
    hide CallHasType, InferCall;
    CallRule(n, registry, symbols, t);
    if n.text == "if" { IfInfers(n, registry, symbols, t); } else { OthersInfer(n, registry, symbols, t); }
  }

  /** An argument has a type exactly when it infers without issues. */
  lemma {:induction false} ArgumentTyped(n: Node, registry: Registry, symbols: Resolver) returns (t: Type)
    requires Arity(n)
    ensures t == Infer(n, registry, symbols).typ && (HasType(n, registry, symbols, t) <==> Infer(n, registry, symbols).issues == [])
    ensures forall u | HasType(n, registry, symbols, u) :: u == t && Infer(n, registry, symbols).issues == []
    decreases n, 3
  {
    t := Infer(n, registry, symbols).typ;
    InfersExactlyTheType(n, registry, symbols, t);
    forall u | HasType(n, registry, symbols, u) ensures u == t && Infer(n, registry, symbols).issues == [] {
      InfersExactlyTheType(n, registry, symbols, u);
    }
  }

  lemma {:induction false} IfInfers(n: Node, registry: Registry, symbols: Resolver, t: Type)
    requires Arity(n) && n.kind == Call && n.text == "if"
    ensures n.text in registry.functions && TakesArguments(n.text, |n.args|) && CallHasType(n, registry, symbols, t) <==>
      InferCall(n, registry, symbols) == Inferred(t, [])
    decreases n, 0
  {
    if |n.args| == 3 {
      var c := ArgumentTyped(n.args[0], registry, symbols);
      var u := ArgumentTyped(n.args[1], registry, symbols);
      var v := ArgumentTyped(n.args[2], registry, symbols);
    }
  }

  lemma {:induction false} OthersInfer(n: Node, registry: Registry, symbols: Resolver, t: Type)
    requires Arity(n) && n.kind == Call && n.text != "if"
    ensures n.text in registry.functions && TakesArguments(n.text, |n.args|) && CallHasType(n, registry, symbols, t) <==>
      InferCall(n, registry, symbols) == Inferred(t, [])
    decreases n, 0, 1
  {
    hide InferRest;
    if n.args != [] {
      var first := ArgumentTyped(n.args[0], registry, symbols);
      RestTyped(n, first, registry, symbols);
    }
  }

  lemma {:induction false} RestTyped(n: Node, first: Type, registry: Registry, symbols: Resolver)
    requires Arity(n) && n.args != []
    ensures InferRest(n.args[1..], first, registry, symbols) == [] <==>
      forall i | 1 <= i < |n.args| :: HasTypeAlike(n.args[i], registry, symbols, first)
    decreases n, 0, 0
  {
    hide InferRest;
    var rest := n.args[1..];
    RestInfers(rest, first, registry, symbols);
    forall i | 1 <= i < |n.args|
      ensures HasTypeAlike(n.args[i], registry, symbols, first) <==>
        Infer(rest[i - 1], registry, symbols).issues == [] && SameKind(Infer(rest[i - 1], registry, symbols).typ, first)
    {
      var v := ArgumentTyped(n.args[i], registry, symbols);
    }
    if forall i | 1 <= i < |n.args| :: HasTypeAlike(n.args[i], registry, symbols, first) {
      forall k | 0 <= k < |rest| ensures Infer(rest[k], registry, symbols).issues == [] && SameKind(Infer(rest[k], registry, symbols).typ, first) {
        assert HasTypeAlike(n.args[k + 1], registry, symbols, first);
      }
    }
  }

  lemma CallRule(n: Node, registry: Registry, symbols: Resolver, t: Type)
    requires Arity(n) && n.kind == Call
    ensures HasType(n, registry, symbols, t) <==>
      n.text in registry.functions && TakesArguments(n.text, |n.args|) && CallHasType(n, registry, symbols, t)
  {
    hide CallHasType;
  }

  lemma {:induction false} RestInfers(args: seq<Node>, first: Type, registry: Registry, symbols: Resolver)
    requires forall i | 0 <= i < |args| :: Arity(args[i])
    ensures InferRest(args, first, registry, symbols) == [] <==>
      forall i | 0 <= i < |args| :: Infer(args[i], registry, symbols).issues == [] && SameKind(Infer(args[i], registry, symbols).typ, first)
  {
    hide Infer;
    if args != [] { RestInfers(args[1..], first, registry, symbols); }
  }

  /** A formula has at most one type. */
  lemma TypesAreUnique(n: Node, registry: Registry, symbols: Resolver, t: Type, u: Type)
    requires Arity(n) && HasType(n, registry, symbols, t) && HasType(n, registry, symbols, u)
    ensures t == u
  {
    hide HasType, Infer;
    InfersExactlyTheType(n, registry, symbols, t);
    InfersExactlyTheType(n, registry, symbols, u);
  }

  // ---------- What a diagnostic points at ----------

  ghost predicate Occurs(m: Node, n: Node) {
    m == n || exists i :: 0 <= i < |n.args| && Occurs(m, n.args[i])
  }

  lemma OccursDeeper(m: Node, n: Node, i: nat)
    requires i < |n.args| && Occurs(m, n.args[i])
    ensures Occurs(m, n)
  {
  }

  /** The node `m` breaks a rule, and the issue names the rule and the place. */
  ghost predicate Breaks(m: Node, issue: Diagnostic, registry: Registry, symbols: Resolver)
    requires Arity(m)
  {
    match issue.code
    case UnknownVariable => m.kind == Selector && issue.span == m.span && symbols(m.scope, m.symbol) == None
    case UnknownFunction => m.kind == Call && issue.span == m.span && m.text !in registry.functions
    case SyntaxInvalid => issue.span == m.span && (m.kind == Invalid || (m.kind == Binary && !AnOperator(m.operator)))
    case UnitMismatch =>
      issue.span == m.span
      && (|| (m.kind == Quantity && m.unit !in registry.units)
          || (m.kind == Binary && exists u, v ::
                HasType(m.args[0], registry, symbols, u) && HasType(m.args[1], registry, symbols, v) && Incommensurable(m.operator, u, v)))
    case TypeMismatch =>
      || (m.kind == Unary && issue.span == m.span && exists u :: HasType(m.args[0], registry, symbols, u) && (u.valueType == BooleanType) == (m.operator != "!"))
      || (m.kind == Binary && issue.span == m.span && (m.operator == "&&" || m.operator == "||") && exists u, v ::
            HasType(m.args[0], registry, symbols, u) && HasType(m.args[1], registry, symbols, v)
            && (u.valueType != BooleanType || v.valueType != BooleanType))
      || (m.kind == Call && m.text in registry.functions && MisCalled(m, issue.span, registry, symbols))
    case _ => false
  }

  predicate AnOperator(op: string) {
    op in {"&&", "||", "+", "-", "*", "/", "<", "<=", ">", ">=", "==", "!="}
  }

  predicate Incommensurable(op: string, u: Type, v: Type) {
    if op == "*" || op == "/" then u.unit.dimension != "scalar" && v.unit.dimension != "scalar"
    else op in {"+", "-", "<", "<=", ">", ">=", "==", "!="} && !Commensurable(u.unit, v.unit)
  }

  /** The wrong number of arguments, a condition that is no Boolean, branches that differ, or an argument unlike the first. */
  ghost predicate MisCalled(m: Node, span: Span, registry: Registry, symbols: Resolver)
    requires Arity(m)
  {
    || (span == m.span && !TakesArguments(m.text, |m.args|))
    || (m.text == "if" && TakesArguments(m.text, |m.args|)
        && ((span == m.args[0].span && forall c :: HasType(m.args[0], registry, symbols, c) ==> c.valueType != BooleanType)
            || (span == m.span && forall u, v :: HasType(m.args[1], registry, symbols, u) && HasType(m.args[2], registry, symbols, v) ==> !Alike(u, v))))
    || (m.text != "if" && TakesArguments(m.text, |m.args|) && exists i ::
          1 <= i < |m.args| && span == m.args[i].span
          && forall u, v :: HasType(m.args[0], registry, symbols, u) && HasType(m.args[i], registry, symbols, v) ==> !Alike(v, u))
  }

  ghost predicate Explained(n: Node, issue: Diagnostic, registry: Registry, symbols: Resolver) {
    exists m: Node :: Occurs(m, n) && Arity(m) && Breaks(m, issue, registry, symbols)
  }

  lemma ExplainedDeeper(n: Node, i: nat, issue: Diagnostic, registry: Registry, symbols: Resolver)
    requires i < |n.args| && Explained(n.args[i], issue, registry, symbols)
    ensures Explained(n, issue, registry, symbols)
  {
    hide Breaks, Arity;
    var m: Node :| Occurs(m, n.args[i]) && Arity(m) && Breaks(m, issue, registry, symbols);
    OccursDeeper(m, n, i);
  }

  lemma ExplainedHere(n: Node, issue: Diagnostic, registry: Registry, symbols: Resolver)
    requires Arity(n) && Breaks(n, issue, registry, symbols)
    ensures Explained(n, issue, registry, symbols)
  {
    hide Breaks;
    assert Occurs(n, n);
  }

  /** Every issue of inference names a rule that a node of the tree breaks, and the place where. */
  lemma {:induction false} IssuesAreExplained(n: Node, registry: Registry, symbols: Resolver, issue: Diagnostic)
    requires Arity(n) && issue in Infer(n, registry, symbols).issues
    ensures Explained(n, issue, registry, symbols)
    decreases n, 1
  {
    hide Explained, HasType;
    match n.kind
    case Unary =>
      if issue in Infer(n.args[0], registry, symbols).issues {
        IssuesAreExplained(n.args[0], registry, symbols, issue);
        ExplainedDeeper(n, 0, issue, registry, symbols);
      } else {
        var u := ArgumentTyped(n.args[0], registry, symbols);
        ExplainedHere(n, issue, registry, symbols);
      }
    case Binary => BinaryExplained(n, registry, symbols, issue);
    case Call => CallExplained(n, registry, symbols, issue);
    case _ => ExplainedHere(n, issue, registry, symbols);
  }

  lemma {:induction false} BinaryExplained(n: Node, registry: Registry, symbols: Resolver, issue: Diagnostic)
    requires Arity(n) && n.kind == Binary && issue in Infer(n, registry, symbols).issues
    ensures Explained(n, issue, registry, symbols)
    decreases n, 0
  {
    hide Explained, HasType, InferBinary, Breaks, BadOperands;
    if issue in Infer(n.args[0], registry, symbols).issues {
      IssuesAreExplained(n.args[0], registry, symbols, issue);
      ExplainedDeeper(n, 0, issue, registry, symbols);
    } else if issue in Infer(n.args[1], registry, symbols).issues {
      IssuesAreExplained(n.args[1], registry, symbols, issue);
      ExplainedDeeper(n, 1, issue, registry, symbols);
    } else {
      var u := ArgumentTyped(n.args[0], registry, symbols);
      var v := ArgumentTyped(n.args[1], registry, symbols);
      BinaryIssue(n, u, v, registry, issue);
      BinaryBreaks(n, u, v, issue, registry, symbols);
      ExplainedHere(n, issue, registry, symbols);
    }
  }

  predicate BadOperands(op: string, u: Type, v: Type, code: Code) {
    match code
    case SyntaxInvalid => !AnOperator(op)
    case UnitMismatch => Incommensurable(op, u, v)
    case TypeMismatch => (op == "&&" || op == "||") && (u.valueType != BooleanType || v.valueType != BooleanType)
    case _ => false
  }

  lemma BinaryIssue(n: Node, u: Type, v: Type, registry: Registry, issue: Diagnostic)
    requires issue in InferBinary(n, u, v, registry).issues
    ensures issue.span == n.span && BadOperands(n.operator, u, v, issue.code)
  {
  }

  lemma BinaryBreaks(n: Node, u: Type, v: Type, issue: Diagnostic, registry: Registry, symbols: Resolver)
    requires Arity(n) && n.kind == Binary && issue.span == n.span && BadOperands(n.operator, u, v, issue.code)
    requires HasType(n.args[0], registry, symbols, u) && HasType(n.args[1], registry, symbols, v)
    ensures Breaks(n, issue, registry, symbols)
  {
    hide HasType, Incommensurable, AnOperator;
  }

  lemma {:induction false} CallExplained(n: Node, registry: Registry, symbols: Resolver, issue: Diagnostic)
    requires Arity(n) && n.kind == Call && issue in Infer(n, registry, symbols).issues
    ensures Explained(n, issue, registry, symbols)
    decreases n, 0
  {
    hide Explained, HasType, InferRest;
    if n.text !in registry.functions || !TakesArguments(n.text, |n.args|) {
      ExplainedHere(n, issue, registry, symbols);
    } else if n.text == "if" {
      IfExplained(n, registry, symbols, issue);
    } else if issue in Infer(n.args[0], registry, symbols).issues {
      IssuesAreExplained(n.args[0], registry, symbols, issue);
      ExplainedDeeper(n, 0, issue, registry, symbols);
    } else {
      var first := ArgumentTyped(n.args[0], registry, symbols);
      var i := RestIssue(n.args[1..], first, registry, symbols, issue);
      assert n.args[1..][i] == n.args[i + 1];
      if issue in Infer(n.args[i + 1], registry, symbols).issues {
        IssuesAreExplained(n.args[i + 1], registry, symbols, issue);
        ExplainedDeeper(n, i + 1, issue, registry, symbols);
      } else {
        var v := ArgumentTyped(n.args[i + 1], registry, symbols);
        assert 1 <= i + 1 < |n.args|;
        ExplainedHere(n, issue, registry, symbols);
      }
    }
  }

  lemma {:induction false} IfExplained(n: Node, registry: Registry, symbols: Resolver, issue: Diagnostic)
    requires Arity(n) && n.kind == Call && n.text == "if" && n.text in registry.functions && |n.args| == 3
    requires issue in Infer(n, registry, symbols).issues
    ensures Explained(n, issue, registry, symbols)
    decreases n, 0, 0
  {
    hide Explained, HasType;
    var c := ArgumentTyped(n.args[0], registry, symbols);
    var u := ArgumentTyped(n.args[1], registry, symbols);
    var v := ArgumentTyped(n.args[2], registry, symbols);
    ExplainedHere(n, issue, registry, symbols);
  }

  /** An issue of the later arguments belongs to one of them, or says that it is unlike the first. */
  lemma {:induction false} RestIssue(args: seq<Node>, first: Type, registry: Registry, symbols: Resolver, issue: Diagnostic) returns (i: nat)
    requires (forall i | 0 <= i < |args| :: Arity(args[i])) && issue in InferRest(args, first, registry, symbols)
    ensures i < |args|
    ensures issue in Infer(args[i], registry, symbols).issues
      || (issue == Diagnostic(TypeMismatch, args[i].span) && !SameKind(Infer(args[i], registry, symbols).typ, first))
  {
    hide Infer;
    var value := Infer(args[0], registry, symbols);
    if issue in value.issues || (issue == Diagnostic(TypeMismatch, args[0].span) && !SameKind(value.typ, first)) {
      i := 0;
    } else {
      var k := RestIssue(args[1..], first, registry, symbols, issue);
      i := k + 1;
    }
  }
}
