/** Type inference and evaluation of formulas. */
module FormulaSemantics {
  import opened Wrappers
  import opened FormulaAst

  datatype Code =
    | UnitMismatch
    | UnknownVariable
    | TypeMismatch
    | UnknownFunction
    | SyntaxInvalid
    | DivisionByZero
    | NumericNonFinite
    | NumericOutOfRange

  datatype Diagnostic = Diagnostic(code: Code, span: Span)

  type Resolver = (string, string) -> Option<Type>

  datatype Inferred = Inferred(typ: Type, issues: seq<Diagnostic>)

  function Reject(code: Code, span: Span): Inferred {
    Inferred(NO_TYPE, [Diagnostic(code, span)])
  }

  function Infer(node: Node, registry: Registry, symbols: Resolver): Inferred
    requires Arity(node)
    decreases node, 1
  {
    match node.kind
    case Decimal => Inferred(Type(DecimalType, registry.UnitOrZero("scalar")), [])
    case Boolean => Inferred(Type(BooleanType, NO_UNIT), [])
    case Quantity =>
      if node.unit in registry.units then Inferred(Type(registry.units[node.unit].valueType, registry.units[node.unit]), [])
      else Reject(UnitMismatch, node.span)
    case Selector =>
      (match symbols(node.scope, node.symbol)
       case Some(typ) => Inferred(typ, [])
       case None => Reject(UnknownVariable, node.span))
    case Unary =>
      var value := Infer(node.args[0], registry, symbols);
      if value.issues != [] then Inferred(NO_TYPE, value.issues)
      else if node.operator == "!" then
        if value.typ.valueType != BooleanType then Reject(TypeMismatch, node.span)
        else Inferred(Type(BooleanType, NO_UNIT), [])
      else if value.typ.valueType == BooleanType then Reject(TypeMismatch, node.span)
      else value
    case Binary =>
      var left := Infer(node.args[0], registry, symbols);
      var right := Infer(node.args[1], registry, symbols);
      if left.issues + right.issues != [] then Inferred(NO_TYPE, left.issues + right.issues)
      else InferBinary(node, left.typ, right.typ, registry)
    case Call => InferCall(node, registry, symbols)
    case Invalid => Reject(SyntaxInvalid, node.span)
  }

  function InferBinary(node: Node, left: Type, right: Type, registry: Registry): Inferred {
    if IsLogical(node.operator) then
      if left.valueType != BooleanType || right.valueType != BooleanType then Reject(TypeMismatch, node.span)
      else Inferred(Type(BooleanType, NO_UNIT), [])
    else if IsComparison(node.operator) then
      if !registry.AllowsBinary(OperationCompare, left.unit, right.unit) then Reject(UnitMismatch, node.span)
      else Inferred(Type(BooleanType, NO_UNIT), [])
    else if IsAdditive(node.operator) then
      if !registry.AllowsBinary(OperationAdd, left.unit, right.unit) then Reject(UnitMismatch, node.span)
      else Inferred(left, [])
    else if IsMultiplicative(node.operator) then
      if !registry.AllowsBinary(OperationMultiply, left.unit, right.unit) then Reject(UnitMismatch, node.span)
      else if left.unit.dimension == "scalar" then Inferred(right, [])
      else Inferred(left, [])
    else Reject(SyntaxInvalid, node.span)
  }

  predicate IsRounding(name: string) { name == "abs" || name == "floor" || name == "ceil" || name == "round" }

  function InferCall(node: Node, registry: Registry, symbols: Resolver): Inferred
    requires Arity(node)
    decreases node, 0
  {
    if node.text !in registry.functions then Reject(UnknownFunction, node.span)
    else if |node.args| == 0 then Reject(TypeMismatch, node.span)
    else if node.text == "if" then
      if |node.args| != 3 then Reject(TypeMismatch, node.span)
      else
        var condition := Infer(node.args[0], registry, symbols);
        if condition.issues != [] || condition.typ.valueType != BooleanType then Reject(TypeMismatch, node.args[0].span)
        else
          var left := Infer(node.args[1], registry, symbols);
          var right := Infer(node.args[2], registry, symbols);
          if left.issues != [] || right.issues != [] || !SameKind(left.typ, right.typ) then Reject(TypeMismatch, node.span)
          else Inferred(left.typ, [])
    else if (node.text == "min" || node.text == "max") && |node.args| < 2 then Reject(TypeMismatch, node.span)
    else if node.text == "clamp" && |node.args| != 3 then Reject(TypeMismatch, node.span)
    else if IsRounding(node.text) && |node.args| != 1 then Reject(TypeMismatch, node.span)
    else
      var first := Infer(node.args[0], registry, symbols);
      Inferred(first.typ, first.issues + InferRest(node.args[1..], first.typ, registry, symbols))
  }

  predicate SameKind(a: Type, b: Type) {
    a.valueType == b.valueType && a.unit.dimension == b.unit.dimension
  }

  /** The issues of the arguments after the first, which must match it. */
  function InferRest(args: seq<Node>, first: Type, registry: Registry, symbols: Resolver): seq<Diagnostic>
    requires forall i | 0 <= i < |args| :: Arity(args[i])
    decreases args, 0
  {
    if args == [] then []
    else
      var value := Infer(args[0], registry, symbols);
      value.issues
      + (if SameKind(value.typ, first) then [] else [Diagnostic(TypeMismatch, args[0].span)])
      + InferRest(args[1..], first, registry, symbols)
  }

  // ---------- Evaluation ----------

  /** The decimal operations, each of which may fail; only their results matter here. */
  datatype Arith<!D> = Arith(
    zero: D,
    parse: string -> Option<D>,
    compare: (D, D) -> int,
    isZero: D -> bool,
    add: (D, D) -> Option<D>,
    subtract: (D, D) -> Option<D>,
    multiply: (D, D) -> Option<D>,
    divide: (D, D) -> Option<D>,
    abs: D -> Option<D>,
    floor: D -> Option<D>,
    ceil: D -> Option<D>,
    round: D -> Option<D>)

  /** A run-time value: nil pointers are `None`. */
  datatype Value<D> = Value(typ: Type, decimal: Option<D>, boolean: Option<bool>)

  type Table<!D> = (string, string) -> Option<Value<D>>

  /** `Panic` is a nil dereference or an index out of range. */
  datatype Outcome<+T> = Done(value: T) | Stopped(issue: Diagnostic) | Panic

  function Number<D>(d: D): Outcome<Value<D>> { Done(Value(NO_TYPE, Some(d), None)) }

  function Truth<D>(b: bool): Outcome<Value<D>> { Done(Value(NO_TYPE, None, Some(b))) }

  function Computed<D>(result: Option<D>, node: Node): Outcome<Value<D>> {
    match result
    case Some(d) => Number(d)
    case None => Stopped(Diagnostic(NumericOutOfRange, node.span))
  }

  function Compares(op: string, comparison: int): bool {
    if op == "<" then comparison < 0
    else if op == "<=" then comparison <= 0
    else if op == ">" then comparison > 0
    else if op == ">=" then comparison >= 0
    else if op == "==" then comparison == 0
    else comparison != 0
  }

  function Evaluate<D>(node: Node, arith: Arith<D>, table: Table<D>): Outcome<Value<D>>
    requires Arity(node)
    decreases node, 1
  {
    match node.kind
    case Decimal => EvaluateLiteral(node, arith)
    case Quantity => EvaluateLiteral(node, arith)
    case Boolean => Truth(node.text == "true")
    case Selector =>
      (match table(node.scope, node.symbol)
       case Some(value) => if value.decimal.Some? == value.boolean.Some? then Stopped(Diagnostic(UnknownVariable, node.span)) else Done(value)
       case None => Stopped(Diagnostic(UnknownVariable, node.span)))
    case Unary =>
      var value := Evaluate(node.args[0], arith, table);
      if !value.Done? then value
      else if node.operator == "!" then
        if value.value.boolean.None? then Panic else Truth(!value.value.boolean.value)
      else if value.value.decimal.None? then Panic
      else Computed(arith.subtract(arith.zero, value.value.decimal.value), node)
    case Binary =>
      var left := Evaluate(node.args[0], arith, table);
      if !left.Done? then left
      else if IsLogical(node.operator) then
        if left.value.boolean.None? then Panic
        else if node.operator == "&&" && !left.value.boolean.value then Truth(false)
        else if node.operator == "||" && left.value.boolean.value then Truth(true)
        else Evaluate(node.args[1], arith, table)
      else
        var right := Evaluate(node.args[1], arith, table);
        if !right.Done? then right
        else if left.value.decimal.None? || right.value.decimal.None? then Stopped(Diagnostic(TypeMismatch, node.span))
        else EvaluateNumeric(node, left.value.decimal.value, right.value.decimal.value, arith)
    case Call => EvaluateCall(node, arith, table)
    case Invalid => Stopped(Diagnostic(TypeMismatch, node.span))
  }

  function EvaluateLiteral<D>(node: Node, arith: Arith<D>): Outcome<Value<D>> {
    match arith.parse(node.text)
    case Some(d) => Number(d)
    case None => Stopped(Diagnostic(NumericNonFinite, node.span))
  }

  function EvaluateNumeric<D>(node: Node, left: D, right: D, arith: Arith<D>): Outcome<Value<D>>
    requires |node.args| == 2
  {
    if IsComparison(node.operator) then Truth(Compares(node.operator, arith.compare(left, right)))
    else if node.operator == "+" then Computed(arith.add(left, right), node)
    else if node.operator == "-" then Computed(arith.subtract(left, right), node)
    else if node.operator == "*" then Computed(arith.multiply(left, right), node)
    else if node.operator == "/" then
      if arith.isZero(right) then Stopped(Diagnostic(DivisionByZero, node.args[1].span))
      else Computed(arith.divide(left, right), node)
    else Number(arith.zero)
  }

  function EvaluateCall<D>(node: Node, arith: Arith<D>, table: Table<D>): Outcome<Value<D>>
    requires Arity(node)
    decreases node, 0
  {
    if node.text == "if" then
      if |node.args| == 0 then Panic
      else
        var condition := Evaluate(node.args[0], arith, table);
        if !condition.Done? then condition
        else if condition.value.boolean.None? then Panic
        else if condition.value.boolean.value then
          if |node.args| < 2 then Panic else Evaluate(node.args[1], arith, table)
        else if |node.args| < 3 then Panic
        else Evaluate(node.args[2], arith, table)
    else
      match EvaluateArgs(node.args, arith, table)
      case Panic => Panic
      case Stopped(issue) => Stopped(issue)
      case Done(values) => Apply(node, values, arith)
  }

  function EvaluateArgs<D>(args: seq<Node>, arith: Arith<D>, table: Table<D>): Outcome<seq<D>>
    requires forall i | 0 <= i < |args| :: Arity(args[i])
    decreases args, 0
  {
    if args == [] then Done([])
    else
      match Evaluate(args[0], arith, table)
      case Panic => Panic
      case Stopped(issue) => Stopped(issue)
      case Done(value) =>
        if value.decimal.None? then Stopped(Diagnostic(TypeMismatch, args[0].span))
        else
          match EvaluateArgs(args[1..], arith, table)
          case Panic => Panic
          case Stopped(issue) => Stopped(issue)
          case Done(rest) => Done([value.decimal.value] + rest)
  }

  /** The extreme value under `compare`, first one wins. */
  function Extreme<D>(values: seq<D>, current: D, sign: int, arith: Arith<D>): D {
    if values == [] then current
    else Extreme(values[1..], if sign * arith.compare(values[0], current) > 0 then values[0] else current, sign, arith)
  }

  function Apply<D>(node: Node, values: seq<D>, arith: Arith<D>): Outcome<Value<D>> {
    if values == [] then Panic
    else if node.text == "min" then Number(Extreme(values[1..], values[0], -1, arith))
    else if node.text == "max" then Number(Extreme(values[1..], values[0], 1, arith))
    else if node.text == "clamp" then
      if |values| < 2 then Panic
      else
        var low := if arith.compare(values[0], values[1]) < 0 then values[1] else values[0];
        if |values| < 3 then Panic
        else Number(if arith.compare(low, values[2]) > 0 then values[2] else low)
    else
      var result :=
        if node.text == "abs" then arith.abs(values[0])
        else if node.text == "floor" then arith.floor(values[0])
        else if node.text == "ceil" then arith.ceil(values[0])
        else if node.text == "round" then arith.round(values[0])
        else None;
      match result
      case Some(d) => Number(d)
      case None => Stopped(Diagnostic(TypeMismatch, node.span))
  }

  /** Types of a table: what its values carry. */
  function TypesOf<D>(table: Table<D>): Resolver {
    (scope: string, symbol: string) => match table(scope, symbol) case Some(value) => Some(value.typ) case None => None
  }

  datatype Evaluation<D> = Evaluated(value: Value<D>) | Diagnosed(issues: seq<Diagnostic>) | Panicked

  /** Inference first, then evaluation; the result carries the inferred type. */
  function EvaluateWithSymbols<D>(node: Node, registry: Registry, arith: Arith<D>, table: Table<D>): Evaluation<D>
    requires Arity(node)
  {
    var inferred := Infer(node, registry, TypesOf(table));
    if inferred.issues != [] then Diagnosed(inferred.issues)
    else
      match Evaluate(node, arith, table)
      case Done(value) => Evaluated(value.(typ := inferred.typ))
      case Stopped(issue) => Diagnosed([issue])
      case Panic => Panicked
  }
}
