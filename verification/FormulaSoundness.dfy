/** Well-typed formulas evaluate without faults, and what evaluation may still report. */
module FormulaSoundness {
  import opened FormulaAst
  import opened FormulaSemantics

  /** Stored values are Booleans exactly where their type says so. */
  ghost predicate Agrees<D(!new)>(table: Table<D>) {
    forall scope, symbol | table(scope, symbol).Some? ::
      var v := table(scope, symbol).value;
      v.decimal.Some? != v.boolean.Some? ==> (v.boolean.Some? <==> v.typ.valueType == BooleanType)
  }

  /** Every stored value holds exactly one of a decimal and a Boolean. */
  ghost predicate Complete<D(!new)>(table: Table<D>) {
    forall scope, symbol | table(scope, symbol).Some? ::
      var v := table(scope, symbol).value; v.decimal.Some? != v.boolean.Some?
  }

  /** A finished evaluation holds one value, Boolean exactly when the type is. */
  predicate Fits<D>(value: Value<D>, typ: Type) {
    && value.decimal.Some? != value.boolean.Some?
    && (value.boolean.Some? <==> typ.valueType == BooleanType)
  }

  lemma {:induction false} ArgumentsInfer(args: seq<Node>, first: Type, registry: Registry, symbols: Resolver, i: nat)
    requires forall i | 0 <= i < |args| :: Arity(args[i])
    requires InferRest(args, first, registry, symbols) == [] && i < |args|
    ensures Infer(args[i], registry, symbols).issues == [] && SameKind(Infer(args[i], registry, symbols).typ, first)
  {
    if i > 0 {
      ArgumentsInfer(args[1..], first, registry, symbols, i - 1);
    }
  }

  /** What inference without issues says about each argument of a numeric call. */
  lemma CallArguments(node: Node, registry: Registry, symbols: Resolver)
    requires Arity(node) && node.kind == Call && node.text != "if" && Infer(node, registry, symbols).issues == []
    ensures node.args != [] && Infer(node.args[0], registry, symbols).typ == Infer(node, registry, symbols).typ
    ensures forall i | 0 <= i < |node.args| :: Infer(node.args[i], registry, symbols).issues == []
  {
    var first := Infer(node.args[0], registry, symbols);
    forall i | 0 <= i < |node.args| ensures Infer(node.args[i], registry, symbols).issues == [] {
      if i > 0 { ArgumentsInfer(node.args[1..], first.typ, registry, symbols, i - 1); }
    }
  }

  lemma {:induction false} ArgumentsSound<D(!new)>(args: seq<Node>, registry: Registry, arith: Arith<D>, table: Table<D>)
    requires registry.Valid() && Agrees(table) && forall i | 0 <= i < |args| :: Arity(args[i])
    requires forall i | 0 <= i < |args| :: Infer(args[i], registry, TypesOf(table)).issues == []
    ensures !EvaluateArgs(args, arith, table).Panic?
    ensures EvaluateArgs(args, arith, table).Done? ==>
      |EvaluateArgs(args, arith, table).value| == |args|
      && (args != [] ==> Infer(args[0], registry, TypesOf(table)).typ.valueType != BooleanType)
    decreases args, 0
  {
    if args != [] {
      WellTypedRuns(args[0], registry, arith, table);
      ArgumentsSound(args[1..], registry, arith, table);
    }
  }

  /** No faults, and a result of the inferred kind. */
  lemma {:induction false} WellTypedRuns<D(!new)>(node: Node, registry: Registry, arith: Arith<D>, table: Table<D>)
    requires registry.Valid() && Agrees(table) && Arity(node)
    requires Infer(node, registry, TypesOf(table)).issues == []
    ensures !Evaluate(node, arith, table).Panic?
    ensures Evaluate(node, arith, table).Done? ==>
      Fits(Evaluate(node, arith, table).value, Infer(node, registry, TypesOf(table)).typ)
    decreases node, 1
  {
    match node.kind
    case Unary => WellTypedUnary(node, registry, arith, table);
    case Binary => WellTypedBinary(node, registry, arith, table);
    case Call => WellTypedCall(node, registry, arith, table);
    case _ =>
  }

  lemma {:induction false} WellTypedUnary<D(!new)>(node: Node, registry: Registry, arith: Arith<D>, table: Table<D>)
    requires registry.Valid() && Agrees(table) && Arity(node) && node.kind == Unary
    requires Infer(node, registry, TypesOf(table)).issues == []
    ensures !Evaluate(node, arith, table).Panic?
    ensures Evaluate(node, arith, table).Done? ==>
      Fits(Evaluate(node, arith, table).value, Infer(node, registry, TypesOf(table)).typ)
    decreases node, 0
  {
    WellTypedRuns(node.args[0], registry, arith, table);
  }

  lemma {:induction false} WellTypedBinary<D(!new)>(node: Node, registry: Registry, arith: Arith<D>, table: Table<D>)
    requires registry.Valid() && Agrees(table) && Arity(node) && node.kind == Binary
    requires Infer(node, registry, TypesOf(table)).issues == []
    ensures !Evaluate(node, arith, table).Panic?
    ensures Evaluate(node, arith, table).Done? ==>
      Fits(Evaluate(node, arith, table).value, Infer(node, registry, TypesOf(table)).typ)
    decreases node, 0
  {
    WellTypedRuns(node.args[0], registry, arith, table);
    WellTypedRuns(node.args[1], registry, arith, table);
  }

  lemma {:induction false} WellTypedCall<D(!new)>(node: Node, registry: Registry, arith: Arith<D>, table: Table<D>)
    requires registry.Valid() && Agrees(table) && Arity(node) && node.kind == Call
    requires Infer(node, registry, TypesOf(table)).issues == []
    ensures !Evaluate(node, arith, table).Panic?
    ensures Evaluate(node, arith, table).Done? ==>
      Fits(Evaluate(node, arith, table).value, Infer(node, registry, TypesOf(table)).typ)
    decreases node, 0
  {
    if node.text == "if" {
      WellTypedRuns(node.args[0], registry, arith, table);
      WellTypedRuns(node.args[1], registry, arith, table);
      WellTypedRuns(node.args[2], registry, arith, table);
    } else {
      CallArguments(node, registry, TypesOf(table));
      ArgumentsSound(node.args, registry, arith, table);
    }
  }

  // ---------- Which diagnostics remain ----------

  /** No arithmetic, comparison or numeric call is given a Boolean operand. */
  predicate NumericOperands(node: Node, registry: Registry, symbols: Resolver)
    requires Arity(node)
  {
    && (forall i | 0 <= i < |node.args| :: NumericOperands(node.args[i], registry, symbols))
    && ((node.kind == Binary && !IsLogical(node.operator)) || (node.kind == Call && node.text != "if") ==>
          forall i | 0 <= i < |node.args| :: Infer(node.args[i], registry, symbols).typ.valueType != BooleanType)
  }

  ghost predicate RoundingTotal<D(!new)>(arith: Arith<D>) {
    forall d :: arith.abs(d).Some? && arith.floor(d).Some? && arith.ceil(d).Some? && arith.round(d).Some?
  }

  predicate IsNumericCode(code: Code) {
    code == DivisionByZero || code == NumericNonFinite || code == NumericOutOfRange
  }

  /** The left operand alone decides. */
  predicate ShortCuts<D>(operator: string, left: Outcome<Value<D>>) {
    left.Done? && left.value.boolean.Some? && left.value.boolean.value == (operator == "||")
  }

  /** The same of the operands that evaluation reaches: what a logical operator or `if` skips may be anything. */
  predicate NumericWhereReached<D>(node: Node, registry: Registry, arith: Arith<D>, table: Table<D>)
    requires Arity(node)
  {
    if node.kind == Binary && IsLogical(node.operator) then
      && NumericWhereReached(node.args[0], registry, arith, table)
      && (ShortCuts(node.operator, Evaluate(node.args[0], arith, table)) || NumericWhereReached(node.args[1], registry, arith, table))
    else if node.kind == Call && node.text == "if" && |node.args| == 3 then
      && NumericWhereReached(node.args[0], registry, arith, table)
      && var condition := Evaluate(node.args[0], arith, table);
         condition.Done? && condition.value.boolean.Some? ==>
           NumericWhereReached(if condition.value.boolean.value then node.args[1] else node.args[2], registry, arith, table)
    else
      && (forall i | 0 <= i < |node.args| :: NumericWhereReached(node.args[i], registry, arith, table))
      && ((node.kind == Binary && !IsLogical(node.operator)) || (node.kind == Call && node.text != "if") ==>
            forall i | 0 <= i < |node.args| :: Infer(node.args[i], registry, TypesOf(table)).typ.valueType != BooleanType)
  }

  lemma {:induction false} NumericIsNumericWhereReached<D>(node: Node, registry: Registry, arith: Arith<D>, table: Table<D>)
    requires Arity(node) && NumericOperands(node, registry, TypesOf(table))
    ensures NumericWhereReached(node, registry, arith, table)
  {
    hide Evaluate, Infer;
    forall i | 0 <= i < |node.args| ensures NumericWhereReached(node.args[i], registry, arith, table) {
      NumericIsNumericWhereReached(node.args[i], registry, arith, table);
    }
  }

  lemma {:induction false} ArgumentIssues<D(!new)>(args: seq<Node>, registry: Registry, arith: Arith<D>, table: Table<D>)
    requires registry.Valid() && Agrees(table) && Complete(table) && RoundingTotal(arith)
    requires forall i | 0 <= i < |args| ::
      Arity(args[i]) && NumericWhereReached(args[i], registry, arith, table)
      && Infer(args[i], registry, TypesOf(table)).issues == [] && Infer(args[i], registry, TypesOf(table)).typ.valueType != BooleanType
    ensures EvaluateArgs(args, arith, table).Stopped? ==> IsNumericCode(EvaluateArgs(args, arith, table).issue.code)
    decreases args, 0
  {
    hide NumericWhereReached, Infer, Evaluate;
    if args != [] {
      WellTypedRuns(args[0], registry, arith, table);
      OnlyNumericWhereReached(args[0], registry, arith, table);
      ArgumentIssues(args[1..], registry, arith, table);
    }
  }

  /** With numeric operands wherever it goes, evaluation can still fail for numeric reasons but for no others. */
  lemma {:induction false} OnlyNumericWhereReached<D(!new)>(node: Node, registry: Registry, arith: Arith<D>, table: Table<D>)
    requires registry.Valid() && Agrees(table) && Complete(table) && RoundingTotal(arith) && Arity(node)
    requires Infer(node, registry, TypesOf(table)).issues == []
    requires NumericWhereReached(node, registry, arith, table)
    ensures Evaluate(node, arith, table).Stopped? ==> IsNumericCode(Evaluate(node, arith, table).issue.code)
    decreases node, 1
  {
    match node.kind
    case Unary =>
      OnlyNumericWhereReached(node.args[0], registry, arith, table);
    case Binary =>
      BinaryIssues(node, registry, arith, table);
    case Call =>
      CallIssues(node, registry, arith, table);
    case _ =>
  }

  lemma {:induction false} BinaryIssues<D(!new)>(node: Node, registry: Registry, arith: Arith<D>, table: Table<D>)
    requires registry.Valid() && Agrees(table) && Complete(table) && RoundingTotal(arith) && Arity(node) && node.kind == Binary
    requires Infer(node, registry, TypesOf(table)).issues == [] && NumericWhereReached(node, registry, arith, table)
    ensures Evaluate(node, arith, table).Stopped? ==> IsNumericCode(Evaluate(node, arith, table).issue.code)
    decreases node, 0
  {
    WellTypedRuns(node.args[0], registry, arith, table);
    WellTypedRuns(node.args[1], registry, arith, table);
    OnlyNumericWhereReached(node.args[0], registry, arith, table);
    if !IsLogical(node.operator) || !ShortCuts(node.operator, Evaluate(node.args[0], arith, table)) {
      OnlyNumericWhereReached(node.args[1], registry, arith, table);
    }
  }

  lemma {:induction false} CallIssues<D(!new)>(node: Node, registry: Registry, arith: Arith<D>, table: Table<D>)
    requires registry.Valid() && Agrees(table) && Complete(table) && RoundingTotal(arith) && Arity(node) && node.kind == Call
    requires Infer(node, registry, TypesOf(table)).issues == [] && NumericWhereReached(node, registry, arith, table)
    ensures Evaluate(node, arith, table).Stopped? ==> IsNumericCode(Evaluate(node, arith, table).issue.code)
    decreases node, 0
  {
    if node.text == "if" {
      var condition := Evaluate(node.args[0], arith, table);
      OnlyNumericWhereReached(node.args[0], registry, arith, table);
      WellTypedRuns(node.args[0], registry, arith, table);
      if condition.Done? && condition.value.boolean.Some? {
        OnlyNumericWhereReached(if condition.value.boolean.value then node.args[1] else node.args[2], registry, arith, table);
      }
    } else {
      CallArguments(node, registry, TypesOf(table));
      ArgumentIssues(node.args, registry, arith, table);
      ArgumentsSound(node.args, registry, arith, table);
    }
  }

  /** In particular with numeric operands everywhere, which can be read off the types alone. */
  lemma OnlyNumericIssues<D(!new)>(node: Node, registry: Registry, arith: Arith<D>, table: Table<D>)
    requires registry.Valid() && Agrees(table) && Complete(table) && RoundingTotal(arith) && Arity(node)
    requires Infer(node, registry, TypesOf(table)).issues == []
    requires NumericOperands(node, registry, TypesOf(table))
    ensures Evaluate(node, arith, table).Stopped? ==> IsNumericCode(Evaluate(node, arith, table).issue.code)
  {
    NumericIsNumericWhereReached(node, registry, arith, table);
    OnlyNumericWhereReached(node, registry, arith, table);
  }

  /** The evaluator's own entry point: no panic, the inferred type on the result, and numeric failures only. */
  lemma EvaluationIsTyped<D(!new)>(node: Node, registry: Registry, arith: Arith<D>, table: Table<D>)
    requires registry.Valid() && Agrees(table) && Arity(node)
    ensures !EvaluateWithSymbols(node, registry, arith, table).Panicked?
    ensures EvaluateWithSymbols(node, registry, arith, table).Evaluated? ==>
      Fits(EvaluateWithSymbols(node, registry, arith, table).value, Infer(node, registry, TypesOf(table)).typ)
    ensures
      Complete(table) && RoundingTotal(arith) && NumericOperands(node, registry, TypesOf(table))
      && Infer(node, registry, TypesOf(table)).issues == [] && EvaluateWithSymbols(node, registry, arith, table).Diagnosed? ==>
        exists issue :: EvaluateWithSymbols(node, registry, arith, table).issues == [issue] && IsNumericCode(issue.code)
  {
    if Infer(node, registry, TypesOf(table)).issues == [] {
      WellTypedRuns(node, registry, arith, table);
      if Complete(table) && RoundingTotal(arith) && NumericOperands(node, registry, TypesOf(table)) {
        OnlyNumericIssues(node, registry, arith, table);
      }
    }
  }

  /** Inference accepts `true + true`; only evaluation rejects it, as a type mismatch. */
  lemma BooleanSumSlipsThrough<D>(span: Span, registry: Registry, arith: Arith<D>, table: Table<D>)
    ensures
      var sum := BinaryNode(span, "+", BooleanNode(span, "true"), BooleanNode(span, "true"));
      Arity(sum) && Infer(sum, registry, TypesOf(table)) == Inferred(Type(BooleanType, NO_UNIT), [])
      && EvaluateWithSymbols(sum, registry, arith, table) == Diagnosed([Diagnostic(TypeMismatch, span)])
  {
    var t := BooleanNode(span, "true");
    var sum := BinaryNode(span, "+", t, t);
    assert Arity(t);
    assert Infer(t, registry, TypesOf(table)) == Inferred(Type(BooleanType, NO_UNIT), []);
    assert Evaluate(t, arith, table) == Truth(true);
  }

  // ---------- The operand condition is exact ----------

  lemma {:induction false} ArgumentsNumeric<D(!new)>(args: seq<Node>, registry: Registry, arith: Arith<D>, table: Table<D>, i: nat)
    requires registry.Valid() && Agrees(table) && i < |args|
    requires forall i | 0 <= i < |args| :: Arity(args[i])
    requires ArgsOnlyWhereUsed(args[i]) && Infer(args[i], registry, TypesOf(table)).issues == []
    requires EvaluateArgs(args, arith, table).Done?
    ensures NumericWhereReached(args[i], registry, arith, table) && Infer(args[i], registry, TypesOf(table)).typ.valueType != BooleanType
    decreases args, 0
  {
    hide NumericWhereReached, Infer, Evaluate;
    if i == 0 {
      WellTypedRuns(args[0], registry, arith, table);
      ValueNeedsNumericOperands(args[0], registry, arith, table);
    } else {
      ArgumentsNumeric(args[1..], registry, arith, table, i - 1);
    }
  }

  lemma OperandRuns<D(!new)>(node: Node, registry: Registry, arith: Arith<D>, table: Table<D>)
    requires Arity(node) && node.kind == Unary
    requires Infer(node, registry, TypesOf(table)).issues == [] && Evaluate(node, arith, table).Done?
    ensures Infer(node.args[0], registry, TypesOf(table)).issues == [] && Evaluate(node.args[0], arith, table).Done?
  {
  }

  lemma CallRuns<D(!new)>(node: Node, arith: Arith<D>, table: Table<D>)
    requires Arity(node) && node.kind == Call && node.text != "if" && Evaluate(node, arith, table).Done?
    ensures EvaluateArgs(node.args, arith, table).Done?
  {
  }

  /** `if` runs its condition and the branch it chooses. */
  lemma BranchRuns<D(!new)>(node: Node, registry: Registry, arith: Arith<D>, table: Table<D>)
    requires Arity(node) && node.kind == Call && node.text == "if"
    requires Infer(node, registry, TypesOf(table)).issues == [] && Evaluate(node, arith, table).Done?
    ensures |node.args| == 3 && forall i | 0 <= i < 3 :: Infer(node.args[i], registry, TypesOf(table)).issues == []
    ensures var condition := Evaluate(node.args[0], arith, table);
      condition.Done? && condition.value.boolean.Some?
      && Evaluate(if condition.value.boolean.value then node.args[1] else node.args[2], arith, table).Done?
  {
  }

  /** A logical node runs its left operand, and the right one unless the left decides. */
  lemma LogicalRuns<D(!new)>(node: Node, registry: Registry, arith: Arith<D>, table: Table<D>)
    requires Arity(node) && node.kind == Binary && IsLogical(node.operator)
    requires Infer(node, registry, TypesOf(table)).issues == [] && Evaluate(node, arith, table).Done?
    ensures forall i | 0 <= i < 2 :: Infer(node.args[i], registry, TypesOf(table)).issues == []
    ensures Evaluate(node.args[0], arith, table).Done?
    ensures ShortCuts(node.operator, Evaluate(node.args[0], arith, table)) || Evaluate(node.args[1], arith, table).Done?
  {
  }

  /** A binary node without short-cut runs both its operands and finds numbers. */
  lemma OperandsRun<D(!new)>(node: Node, registry: Registry, arith: Arith<D>, table: Table<D>)
    requires registry.Valid() && Agrees(table) && Arity(node) && node.kind == Binary && !IsLogical(node.operator)
    requires Infer(node, registry, TypesOf(table)).issues == [] && Evaluate(node, arith, table).Done?
    ensures forall i | 0 <= i < 2 ::
      && Infer(node.args[i], registry, TypesOf(table)).issues == [] && Evaluate(node.args[i], arith, table).Done?
      && Infer(node.args[i], registry, TypesOf(table)).typ.valueType != BooleanType
  {
    WellTypedRuns(node.args[0], registry, arith, table);
    WellTypedRuns(node.args[1], registry, arith, table);
  }

  /** The condition is also necessary: a value is only produced when every operand reached is numeric where it must be. */
  lemma {:induction false} ValueNeedsNumericOperands<D(!new)>(node: Node, registry: Registry, arith: Arith<D>, table: Table<D>)
    requires registry.Valid() && Agrees(table) && Arity(node) && ArgsOnlyWhereUsed(node)
    requires Infer(node, registry, TypesOf(table)).issues == [] && Evaluate(node, arith, table).Done?
    ensures NumericWhereReached(node, registry, arith, table)
    decreases node, 1
  {
    hide Evaluate, Infer, InferBinary, InferCall, EvaluateCall;
    match node.kind
    case Unary =>
      OperandRuns(node, registry, arith, table);
      ValueNeedsNumericOperands(node.args[0], registry, arith, table);
    case Binary =>
      if IsLogical(node.operator) {
        LogicalRuns(node, registry, arith, table);
        ValueNeedsNumericOperands(node.args[0], registry, arith, table);
        if !ShortCuts(node.operator, Evaluate(node.args[0], arith, table)) {
          ValueNeedsNumericOperands(node.args[1], registry, arith, table);
        }
      } else {
        OperandsRun(node, registry, arith, table);
        ValueNeedsNumericOperands(node.args[0], registry, arith, table);
        ValueNeedsNumericOperands(node.args[1], registry, arith, table);
      }
    case Call =>
      if node.text == "if" {
        BranchRuns(node, registry, arith, table);
        ValueNeedsNumericOperands(node.args[0], registry, arith, table);
        var condition := Evaluate(node.args[0], arith, table);
        ValueNeedsNumericOperands(if condition.value.boolean.value then node.args[1] else node.args[2], registry, arith, table);
      } else {
        CallArguments(node, registry, TypesOf(table));
        CallRuns(node, arith, table);
        forall i | 0 <= i < |node.args|
          ensures NumericWhereReached(node.args[i], registry, arith, table) && Infer(node.args[i], registry, TypesOf(table)).typ.valueType != BooleanType
        {
          ArgumentsNumeric(node.args, registry, arith, table, i);
        }
      }
    case _ =>
  }

  /** Where no number fails, producing a value and having numeric operands wherever evaluation goes are the same thing, for all trees. */
  lemma RunsExactlyWithNumericOperands<D(!new)>(node: Node, registry: Registry, arith: Arith<D>, table: Table<D>)
    requires registry.Valid() && Agrees(table) && Complete(table) && RoundingTotal(arith)
    requires Arity(node) && ArgsOnlyWhereUsed(node)
    requires Infer(node, registry, TypesOf(table)).issues == []
    requires Evaluate(node, arith, table).Stopped? ==> !IsNumericCode(Evaluate(node, arith, table).issue.code)
    ensures Evaluate(node, arith, table).Done? <==> NumericWhereReached(node, registry, arith, table)
  {
    hide NumericWhereReached, Infer, Evaluate;
    WellTypedRuns(node, registry, arith, table);
    if Evaluate(node, arith, table).Done? {
      ValueNeedsNumericOperands(node, registry, arith, table);
    }
    if NumericWhereReached(node, registry, arith, table) {
      OnlyNumericWhereReached(node, registry, arith, table);
    }
  }

  /** No operator skips an operand. */
  predicate Straight(node: Node) {
    && (node.kind == Binary ==> !IsLogical(node.operator))
    && (node.kind == Call ==> node.text != "if")
    && forall i | 0 <= i < |node.args| :: Straight(node.args[i])
  }

  /** Where nothing can be skipped, the types alone tell. */
  lemma {:induction false} StraightReachesAll<D>(node: Node, registry: Registry, arith: Arith<D>, table: Table<D>)
    requires Arity(node) && Straight(node)
    ensures NumericWhereReached(node, registry, arith, table) <==> NumericOperands(node, registry, TypesOf(table))
  {
    hide Evaluate, Infer;
    forall i | 0 <= i < |node.args|
      ensures NumericWhereReached(node.args[i], registry, arith, table) <==> NumericOperands(node.args[i], registry, TypesOf(table))
    {
      StraightReachesAll(node.args[i], registry, arith, table);
    }
  }
}
