/** The formula AST and the registry of units and functions. */
module FormulaAst {
  datatype Span = Span(start: int, end: int)

  datatype NodeKind = Invalid | Decimal | Boolean | Quantity | Selector | Call | Unary | Binary

  /** One AST node; fields that its kind does not use are empty. */
  datatype Node = Node(
    kind: NodeKind,
    span: Span,
    text: string,
    unit: string,
    scope: string,
    symbol: string,
    operator: string,
    args: seq<Node>)

  function InvalidNode(span: Span): Node { Node(Invalid, span, "", "", "", "", "", []) }

  function DecimalNode(span: Span, text: string): Node { Node(Decimal, span, text, "", "", "", "", []) }

  function BooleanNode(span: Span, text: string): Node { Node(Boolean, span, text, "", "", "", "", []) }

  function QuantityNode(span: Span, text: string, unit: string): Node { Node(Quantity, span, text, unit, "", "", "", []) }

  function SelectorNode(span: Span, scope: string, symbol: string): Node { Node(Selector, span, "", "", scope, symbol, "", []) }

  function CallNode(span: Span, name: string, args: seq<Node>): Node { Node(Call, span, name, "", "", "", "", args) }

  function UnaryNode(span: Span, op: string, child: Node): Node { Node(Unary, span, "", "", "", "", op, [child]) }

  function BinaryNode(span: Span, op: string, left: Node, right: Node): Node { Node(Binary, span, "", "", "", "", op, [left, right]) }

  /** The operand counts that inference and evaluation index without checking. */
  predicate Arity(n: Node) {
    && (n.kind == Unary ==> |n.args| == 1)
    && (n.kind == Binary ==> |n.args| == 2)
    && forall i | 0 <= i < |n.args| :: Arity(n.args[i])
  }

  /** Leaves carry no operands, as the parser builds them. */
  predicate ArgsOnlyWhereUsed(node: Node) {
    && (node.kind != Call && node.kind != Unary && node.kind != Binary ==> node.args == [])
    && forall i | 0 <= i < |node.args| :: ArgsOnlyWhereUsed(node.args[i])
  }

  predicate IsComparison(op: string) { op == "<" || op == "<=" || op == ">" || op == ">=" || op == "==" || op == "!=" }

  predicate IsLogical(op: string) { op == "&&" || op == "||" }

  predicate IsAdditive(op: string) { op == "+" || op == "-" }

  predicate IsMultiplicative(op: string) { op == "*" || op == "/" }

  /** An open set of type names; the zero value is `Other("")`. */
  datatype ValueType = DecimalType | IntegerType | BooleanType | Other(name: string)

  datatype Unit = Unit(name: string, valueType: ValueType, dimension: string, base: string)

  const NO_UNIT := Unit("", Other(""), "", "")

  datatype Type = Type(valueType: ValueType, unit: Unit)

  const NO_TYPE := Type(Other(""), NO_UNIT)

  datatype BinaryOperation = OperationAdd | OperationCompare | OperationMultiply

  const FUNCTIONS_V1 := {"if", "min", "max", "clamp", "abs", "floor", "ceil", "round"}

  datatype Registry = Registry(units: map<string, Unit>, functions: set<string>) {
    /** What the constructor enforces: numeric named units and exactly the v1 functions. */
    predicate Valid() {
      && functions == FUNCTIONS_V1
      && forall name | name in units ::
           units[name].dimension != "" && (units[name].valueType == DecimalType || units[name].valueType == IntegerType)
    }

    /** A missing unit reads as the zero unit. */
    function UnitOrZero(name: string): Unit {
      if name in units then units[name] else NO_UNIT
    }

    predicate AllowsBinary(operation: BinaryOperation, left: Unit, right: Unit) {
      match operation
      case OperationMultiply => left.dimension == "scalar" || right.dimension == "scalar"
      case _ => left.dimension == right.dimension && left.valueType == right.valueType
    }
  }
}
