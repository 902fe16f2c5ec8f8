/** What formulas mean: an independent reading over the real numbers, and what evaluation computes. */
module FormulaMeaning {
  import opened Wrappers
  import opened FormulaAst
  import opened FormulaSemantics
  import opened FormulaSoundness
  import FormulaTyping

  datatype Meant = Numeral(r: real) | Verdict(b: bool)

  type Environment = (string, string) -> Option<Meant>

  // ---------- The meaning ----------

  function Smaller(x: real, y: real): real { if x <= y then x else y }

  function Larger(x: real, y: real): real { if x <= y then y else x }

  function Least(xs: seq<real>): real
    requires xs != []
  {
    if |xs| == 1 then xs[0] else Smaller(xs[0], Least(xs[1..]))
  }

  function Greatest(xs: seq<real>): real
    requires xs != []
  {
    if |xs| == 1 then xs[0] else Larger(xs[0], Greatest(xs[1..]))
  }

  /** The nearest integer, the even one of two equally near. */
  function Nearest(x: real): real {
    var below := x.Floor;
    var rest := x - below as real;
    if rest < 0.5 || (rest == 0.5 && below % 2 == 0) then below as real else below as real + 1.0
  }

  /** The argument that `if` selects. */
  function Branch(b: bool): nat { if b then 1 else 2 }

  /** None where a tree has no meaning: a missing variable, an operand of the wrong kind, a division by zero. */
  function Meaning(n: Node, literal: string -> Option<real>, env: Environment): Option<Meant>
    requires Arity(n)
    decreases n, 1
  {
    match n.kind
    case Decimal => (match literal(n.text) case Some(r) => Some(Numeral(r)) case None => None)
    case Quantity => (match literal(n.text) case Some(r) => Some(Numeral(r)) case None => None)
    case Boolean => Some(Verdict(n.text == "true"))
    case Selector => env(n.scope, n.symbol)
    case Unary =>
      (match Meaning(n.args[0], literal, env)
       case Some(Verdict(b)) => if n.operator == "!" then Some(Verdict(!b)) else None
       case Some(Numeral(r)) => if n.operator == "!" then None else Some(Numeral(-r))
       case None => None)
    case Binary =>
      var left, right := Meaning(n.args[0], literal, env), Meaning(n.args[1], literal, env);
      if n.operator == "&&" then (match left case Some(Verdict(b)) => if b then right else Some(Verdict(false)) case _ => None)
      else if n.operator == "||" then (match left case Some(Verdict(b)) => if b then Some(Verdict(true)) else right case _ => None)
      else
        (match (left, right)
         case (Some(Numeral(x)), Some(Numeral(y))) => OfNumbers(n.operator, x, y)
         case _ => None)
    case Call =>
      if n.text == "if" then
        if n.args == [] then None
        else
          (match Meaning(n.args[0], literal, env)
           case Some(Verdict(b)) => if |n.args| <= Branch(b) then None else Meaning(n.args[Branch(b)], literal, env)
           case _ => None)
      else
        (match MeaningOfAll(n.args, literal, env)
         case Some(xs) => OfCall(n.text, xs)
         case None => None)
    case Invalid => None
  }

  function MeaningOfAll(ns: seq<Node>, literal: string -> Option<real>, env: Environment): Option<seq<real>>
    requires forall i | 0 <= i < |ns| :: Arity(ns[i])
    decreases ns, 0
  {
    if ns == [] then Some([])
    else
      match (Meaning(ns[0], literal, env), MeaningOfAll(ns[1..], literal, env))
      case (Some(Numeral(x)), Some(rest)) => Some([x] + rest)
      case _ => None
  }

  function OfNumbers(op: string, x: real, y: real): Option<Meant> {
    match op
    case "+" => Some(Numeral(x + y))
    case "-" => Some(Numeral(x - y))
    case "*" => Some(Numeral(x * y))
    case "/" => if y == 0.0 then None else Some(Numeral(x / y))
    case "<" => Some(Verdict(x < y))
    case "<=" => Some(Verdict(x <= y))
    case ">" => Some(Verdict(x > y))
    case ">=" => Some(Verdict(x >= y))
    case "==" => Some(Verdict(x == y))
    case "!=" => Some(Verdict(x != y))
    case _ => None
  }

  function OfCall(name: string, xs: seq<real>): Option<Meant> {
    if xs == [] then None
    else
      match name
      case "min" => Some(Numeral(Least(xs)))
      case "max" => Some(Numeral(Greatest(xs)))
      case "clamp" => if |xs| < 3 then None else Some(Numeral(Smaller(Larger(xs[0], xs[1]), xs[2])))
      case "abs" => Some(Numeral(if xs[0] < 0.0 then -xs[0] else xs[0]))
      case "floor" => Some(Numeral(xs[0].Floor as real))
      case "ceil" => Some(Numeral(-((-xs[0]).Floor as real)))
      case "round" => Some(Numeral(Nearest(xs[0])))
      case _ => None
  }

  // ---------- Exact arithmetic ----------

  /** Whatever the operations return is exact; each may still fail. */
  ghost predicate Exact(arith: Arith<real>) {
    && arith.zero == 0.0
    && (forall x, y :: (arith.compare(x, y) < 0 <==> x < y) && (arith.compare(x, y) == 0 <==> x == y))
    && (forall x :: arith.isZero(x) <==> x == 0.0)
    && (forall x, y | arith.add(x, y).Some? :: arith.add(x, y).value == x + y)
    && (forall x, y | arith.subtract(x, y).Some? :: arith.subtract(x, y).value == x - y)
    && (forall x, y | arith.multiply(x, y).Some? :: arith.multiply(x, y).value == x * y)
    && (forall x, y | y != 0.0 && arith.divide(x, y).Some? :: arith.divide(x, y).value == x / y)
    && (forall x | arith.abs(x).Some? :: arith.abs(x).value == if x < 0.0 then -x else x)
    && (forall x | arith.floor(x).Some? :: arith.floor(x).value == x.Floor as real)
    && (forall x | arith.ceil(x).Some? :: arith.ceil(x).value == -((-x).Floor as real))
    && (forall x | arith.round(x).Some? :: arith.round(x).value == Nearest(x))
  }

  /** And none of them fails, but division by zero. */
  ghost predicate Total(arith: Arith<real>) {
    && (forall x, y :: arith.add(x, y).Some? && arith.subtract(x, y).Some? && arith.multiply(x, y).Some?)
    && (forall x, y | y != 0.0 :: arith.divide(x, y).Some?)
    && (forall x :: arith.abs(x).Some? && arith.floor(x).Some? && arith.ceil(x).Some? && arith.round(x).Some?)
  }

  predicate KnownBinary(op: string) {
    op in {"&&", "||", "+", "-", "*", "/", "<", "<=", ">", ">=", "==", "!="}
  }

  predicate KnownOperators(n: Node) {
    && (n.kind == Binary ==> KnownBinary(n.operator))
    && (n.kind == Unary || n.kind == Binary || n.kind == Call ==> forall i | 0 <= i < |n.args| :: KnownOperators(n.args[i]))
  }

  /** What a table says, as an environment. */
  function Read(table: Table<real>): Environment {
    (scope: string, symbol: string) =>
      match table(scope, symbol)
      case Some(Value(_, Some(d), None)) => Some(Numeral(d))
      case Some(Value(_, None, Some(b))) => Some(Verdict(b))
      case _ => None
  }

  function AsMeant(v: Value<real>): Option<Meant> {
    match v
    case Value(_, Some(d), None) => Some(Numeral(d))
    case Value(_, None, Some(b)) => Some(Verdict(b))
    case _ => None
  }

  /** Evaluation stopped, or its value is the meaning. */
  predicate Means(o: Outcome<Value<real>>, m: Option<Meant>) {
    o.Done? ==> m.Some? && AsMeant(o.value) == m
  }

  /** Whatever a tree evaluates to is what it means. */
  lemma {:induction false} EvaluatesToMeaning(n: Node, arith: Arith<real>, table: Table<real>)
    requires Exact(arith) && Arity(n) && KnownOperators(n)
    ensures Means(Evaluate(n, arith, table), Meaning(n, arith.parse, Read(table)))
    decreases n, 2
  {
    match n.kind
    case Unary => EvaluatesToMeaning(n.args[0], arith, table);
    case Binary => BinaryMeans(n, arith, table);
    case Call => CallMeans(n, arith, table);
    case _ =>
  }

  lemma {:induction false} BinaryMeans(n: Node, arith: Arith<real>, table: Table<real>)
    requires Exact(arith) && Arity(n) && KnownOperators(n) && n.kind == Binary
    ensures Means(Evaluate(n, arith, table), Meaning(n, arith.parse, Read(table)))
    decreases n, 1
  {
    hide EvaluateCall, EvaluateNumeric, OfNumbers, Exact;
    EvaluatesToMeaning(n.args[0], arith, table);
    EvaluatesToMeaning(n.args[1], arith, table);
    var left, right := Evaluate(n.args[0], arith, table), Evaluate(n.args[1], arith, table);
    if !IsLogical(n.operator) && left.Done? && right.Done? && left.value.decimal.Some? && right.value.decimal.Some? {
      NumbersMean(n, left.value.decimal.value, right.value.decimal.value, arith);
    }
  }

  lemma NumbersMean(n: Node, x: real, y: real, arith: Arith<real>)
    requires Exact(arith) && n.kind == Binary && |n.args| == 2 && KnownBinary(n.operator) && !IsLogical(n.operator)
    ensures Means(EvaluateNumeric(n, x, y, arith), OfNumbers(n.operator, x, y))
  {
  }

  lemma {:induction false} CallMeans(n: Node, arith: Arith<real>, table: Table<real>)
    requires Exact(arith) && Arity(n) && KnownOperators(n) && n.kind == Call
    ensures Means(Evaluate(n, arith, table), Meaning(n, arith.parse, Read(table)))
    decreases n, 1
  {
    hide EvaluateNumeric, Apply, OfCall, Exact;
    if n.text == "if" {
      forall i | 0 <= i < |n.args| ensures Means(Evaluate(n.args[i], arith, table), Meaning(n.args[i], arith.parse, Read(table))) {
        EvaluatesToMeaning(n.args[i], arith, table);
      }
    } else {
      ArgumentsMean(n.args, arith, table);
      if EvaluateArgs(n.args, arith, table).Done? { AppliedMeans(n, EvaluateArgs(n.args, arith, table).value, arith); }
    }
  }

  lemma {:induction false} ArgumentsMean(ns: seq<Node>, arith: Arith<real>, table: Table<real>)
    requires Exact(arith) && (forall i | 0 <= i < |ns| :: Arity(ns[i]) && KnownOperators(ns[i]))
    ensures EvaluateArgs(ns, arith, table).Done? ==> MeaningOfAll(ns, arith.parse, Read(table)) == Some(EvaluateArgs(ns, arith, table).value)
    decreases ns, 0
  {
    if ns != [] {
      EvaluatesToMeaning(ns[0], arith, table);
      ArgumentsMean(ns[1..], arith, table);
    }
  }

  lemma AppliedMeans(n: Node, xs: seq<real>, arith: Arith<real>)
    requires Exact(arith)
    ensures Means(Apply(n, xs, arith), OfCall(n.text, xs))
  {
    hide Nearest, Extreme, Least, Greatest, Exact, Smaller, Larger;
    if xs != [] {
      ExtremeMeans(xs[1..], xs[0], arith);
      assert [xs[0]] + xs[1..] == xs;
      if n.text == "clamp" && |xs| > 2 { ClampMeans(xs[0], xs[1], xs[2], arith); }
      RoundingMeans(xs[0], arith);
    }
  }

  lemma RoundingMeans(x: real, arith: Arith<real>)
    requires Exact(arith)
    ensures arith.abs(x).Some? ==> arith.abs(x).value == if x < 0.0 then -x else x
    ensures arith.floor(x).Some? ==> arith.floor(x).value == x.Floor as real
    ensures arith.ceil(x).Some? ==> arith.ceil(x).value == -((-x).Floor as real)
    ensures arith.round(x).Some? ==> arith.round(x).value == Nearest(x)
  {
    hide Nearest;
  }

  lemma ClampMeans(x: real, low: real, high: real, arith: Arith<real>)
    requires Exact(arith)
    ensures
      var raised := if arith.compare(x, low) < 0 then low else x;
      (if arith.compare(raised, high) > 0 then high else raised) == Smaller(Larger(x, low), high)
  {
    hide Nearest;
  }

  lemma {:induction false} ExtremeMeans(xs: seq<real>, current: real, arith: Arith<real>)
    requires Exact(arith)
    ensures Extreme(xs, current, -1, arith) == Least([current] + xs)
    ensures Extreme(xs, current, 1, arith) == Greatest([current] + xs)
  {
    if xs == [] {
    } else {
      var x := xs[0];
      assert ([current] + xs)[1..] == xs && xs == [x] + xs[1..];
      ExtremeMeans(xs[1..], x, arith);
      ExtremeMeans(xs[1..], current, arith);
      assert ([current] + xs[1..])[1..] == xs[1..] && ([x] + xs[1..])[1..] == xs[1..];
    }
  }

  // ---------- With total arithmetic, exactly the meaningful trees have a value ----------

  lemma {:induction false} MeaningIsReached(n: Node, arith: Arith<real>, table: Table<real>)
    requires Exact(arith) && Total(arith) && Arity(n) && KnownOperators(n)
    ensures Meaning(n, arith.parse, Read(table)).Some? ==> Evaluate(n, arith, table).Done?
    decreases n, 2
  {
    hide Exact, Total, EvaluateCall, EvaluateNumeric, OfNumbers, OfCall, Means;
    match n.kind
    case Unary => UnaryIsReached(n, arith, table);
    case Binary => BinaryIsReached(n, arith, table);
    case Call => CallIsReached(n, arith, table);
    case _ =>
  }

  lemma {:induction false} UnaryIsReached(n: Node, arith: Arith<real>, table: Table<real>)
    requires Exact(arith) && Total(arith) && Arity(n) && KnownOperators(n) && n.kind == Unary
    ensures Meaning(n, arith.parse, Read(table)).Some? ==> Evaluate(n, arith, table).Done?
    decreases n, 1
  {
    hide EvaluateCall, EvaluateNumeric, OfNumbers, OfCall;
    EvaluatesToMeaning(n.args[0], arith, table);
    MeaningIsReached(n.args[0], arith, table);
  }

  lemma {:induction false} BinaryIsReached(n: Node, arith: Arith<real>, table: Table<real>)
    requires Exact(arith) && Total(arith) && Arity(n) && KnownOperators(n) && n.kind == Binary
    ensures Meaning(n, arith.parse, Read(table)).Some? ==> Evaluate(n, arith, table).Done?
    decreases n, 1
  {
    hide EvaluateCall, EvaluateNumeric, OfNumbers, Exact, Total;
    EvaluatesToMeaning(n.args[0], arith, table);
    EvaluatesToMeaning(n.args[1], arith, table);
    MeaningIsReached(n.args[0], arith, table);
    MeaningIsReached(n.args[1], arith, table);
    var left, right := Evaluate(n.args[0], arith, table), Evaluate(n.args[1], arith, table);
    if !IsLogical(n.operator) && left.Done? && right.Done? && left.value.decimal.Some? && right.value.decimal.Some? {
      NumbersAreReached(n, left.value.decimal.value, right.value.decimal.value, arith);
    }
  }

  lemma NumbersAreReached(n: Node, x: real, y: real, arith: Arith<real>)
    requires Exact(arith) && Total(arith) && n.kind == Binary && |n.args| == 2 && KnownBinary(n.operator) && !IsLogical(n.operator)
    ensures OfNumbers(n.operator, x, y).Some? ==> EvaluateNumeric(n, x, y, arith).Done?
  {
  }

  lemma {:induction false} CallIsReached(n: Node, arith: Arith<real>, table: Table<real>)
    requires Exact(arith) && Total(arith) && Arity(n) && KnownOperators(n) && n.kind == Call
    ensures Meaning(n, arith.parse, Read(table)).Some? ==> Evaluate(n, arith, table).Done?
    decreases n, 1
  {
    hide EvaluateNumeric, Apply, OfCall, Exact, Total;
    if n.text == "if" {
      forall i | 0 <= i < |n.args|
        ensures Means(Evaluate(n.args[i], arith, table), Meaning(n.args[i], arith.parse, Read(table)))
        ensures Meaning(n.args[i], arith.parse, Read(table)).Some? ==> Evaluate(n.args[i], arith, table).Done?
      {
        EvaluatesToMeaning(n.args[i], arith, table);
        MeaningIsReached(n.args[i], arith, table);
      }
    } else {
      ArgumentsAreReached(n.args, arith, table);
      ArgumentsMean(n.args, arith, table);
      if EvaluateArgs(n.args, arith, table).Done? { AppliedIsReached(n, EvaluateArgs(n.args, arith, table).value, arith); }
    }
  }

  lemma {:induction false} ArgumentsAreReached(ns: seq<Node>, arith: Arith<real>, table: Table<real>)
    requires Exact(arith) && Total(arith) && (forall i | 0 <= i < |ns| :: Arity(ns[i]) && KnownOperators(ns[i]))
    ensures MeaningOfAll(ns, arith.parse, Read(table)).Some? ==> EvaluateArgs(ns, arith, table).Done?
    decreases ns, 0
  {
    if ns != [] {
      EvaluatesToMeaning(ns[0], arith, table);
      MeaningIsReached(ns[0], arith, table);
      ArgumentsAreReached(ns[1..], arith, table);
    }
  }

  lemma AppliedIsReached(n: Node, xs: seq<real>, arith: Arith<real>)
    requires Exact(arith) && Total(arith)
    ensures OfCall(n.text, xs).Some? ==> Apply(n, xs, arith).Done?
  {
    hide Nearest, Extreme, Least, Greatest;
  }

  /** With exact arithmetic that never overflows, a tree evaluates to a value if and only if it means one, and to that one. */
  lemma ValuesAreMeanings(n: Node, arith: Arith<real>, table: Table<real>)
    requires Exact(arith) && Total(arith) && Arity(n) && KnownOperators(n)
    ensures
      var o, m := Evaluate(n, arith, table), Meaning(n, arith.parse, Read(table));
      (o.Done? <==> m.Some?) && (o.Done? ==> AsMeant(o.value) == m)
  {
    EvaluatesToMeaning(n, arith, table);
    MeaningIsReached(n, arith, table);
  }

  /** The entry point, which infers first, gives the meaning with the inferred type. */
  lemma EntryPointMeans(n: Node, registry: Registry, arith: Arith<real>, table: Table<real>)
    requires Exact(arith) && Arity(n)
    ensures
      var e := EvaluateWithSymbols(n, registry, arith, table);
      e.Evaluated? ==>
        AsMeant(e.value) == Meaning(n, arith.parse, Read(table)) != None && e.value.typ == Infer(n, registry, TypesOf(table)).typ
  {
    hide Exact, Infer, Evaluate, Meaning;
    if Infer(n, registry, TypesOf(table)).issues == [] {
      InferredIsKnown(n, registry, TypesOf(table));
      EvaluatesToMeaning(n, arith, table);
    }
  }

  /** A tree that infers without issues has known operators only. */
  lemma {:induction false} InferredIsKnown(n: Node, registry: Registry, symbols: Resolver)
    requires Arity(n) && Infer(n, registry, symbols).issues == []
    ensures KnownOperators(n)
  {
    match n.kind
    case Unary => InferredIsKnown(n.args[0], registry, symbols);
    case Binary =>
      InferredIsKnown(n.args[0], registry, symbols);
      InferredIsKnown(n.args[1], registry, symbols);
    case Call =>
      if n.text == "if" {
        InferredIsKnown(n.args[0], registry, symbols);
        InferredIsKnown(n.args[1], registry, symbols);
        InferredIsKnown(n.args[2], registry, symbols);
      } else {
        CallArguments(n, registry, symbols);
        forall i | 0 <= i < |n.args| ensures KnownOperators(n.args[i]) { InferredIsKnown(n.args[i], registry, symbols); }
      }
    case _ =>
  }

  // ---------- Any decimal arithmetic ----------

  /** Each operator applies its own operation to the left and the right operand, in that order. */
  lemma OperatorLaws<D>(n: Node, arith: Arith<D>, table: Table<D>, x: D, y: D)
    requires Arity(n) && n.kind == Binary && !IsLogical(n.operator)
    requires Evaluate(n.args[0], arith, table).Done? && Evaluate(n.args[0], arith, table).value.decimal == Some(x)
    requires Evaluate(n.args[1], arith, table).Done? && Evaluate(n.args[1], arith, table).value.decimal == Some(y)
    ensures
      var o := Evaluate(n, arith, table);
      && (n.operator == "+" ==> o == Computed(arith.add(x, y), n))
      && (n.operator == "-" ==> o == Computed(arith.subtract(x, y), n))
      && (n.operator == "*" ==> o == Computed(arith.multiply(x, y), n))
      && (n.operator == "/" && !arith.isZero(y) ==> o == Computed(arith.divide(x, y), n))
      && (n.operator == "/" && arith.isZero(y) ==> o == Stopped(Diagnostic(DivisionByZero, n.args[1].span)))
      && (n.operator == "<" ==> o == Truth(arith.compare(x, y) < 0))
      && (n.operator == "<=" ==> o == Truth(arith.compare(x, y) <= 0))
      && (n.operator == ">" ==> o == Truth(arith.compare(x, y) > 0))
      && (n.operator == ">=" ==> o == Truth(arith.compare(x, y) >= 0))
      && (n.operator == "==" ==> o == Truth(arith.compare(x, y) == 0))
      && (n.operator == "!=" ==> o == Truth(arith.compare(x, y) != 0))
  {
  }

  ghost predicate TotalOrder<D(!new)>(compare: (D, D) -> int) {
    && (forall x, y :: compare(x, y) < 0 <==> compare(y, x) > 0)
    && (forall x, y, z | compare(x, y) <= 0 && compare(y, z) <= 0 :: compare(x, z) <= 0)
  }

  /** Not more extreme: not greater for the sign 1, not smaller for the sign -1. */
  ghost predicate AtMost<D(!new)>(x: D, y: D, sign: int, compare: (D, D) -> int) { sign * compare(x, y) <= 0 }

  ghost predicate Under<D(!new)>(x: D, y: D, sign: int, compare: (D, D) -> int) { sign * compare(x, y) < 0 }

  /** The value at `k` is the first extreme one: all before it are less extreme, none after it is more. */
  ghost predicate FirstExtreme<D(!new)>(xs: seq<D>, k: nat, sign: int, compare: (D, D) -> int) {
    && k < |xs|
    && (forall i | 0 <= i < k :: Under(xs[i], xs[k], sign, compare))
    && (forall i | k <= i < |xs| :: AtMost(xs[i], xs[k], sign, compare))
  }

  lemma {:induction false} ExtremeIsFirst<D(!new)>(xs: seq<D>, current: D, sign: int, arith: Arith<D>) returns (k: nat)
    requires TotalOrder(arith.compare) && (sign == 1 || sign == -1)
    ensures FirstExtreme([current] + xs, k, sign, arith.compare) && ([current] + xs)[k] == Extreme(xs, current, sign, arith)
  {
    hide AtMost, Under, TotalOrder;
    var all := [current] + xs;
    ExtremeUnfold(xs, current, sign, arith);
    if xs == [] {
      k := 0;
      AtMostSelf(current, sign, arith.compare);
    } else {
      var best := if AtMost(xs[0], current, sign, arith.compare) then current else xs[0];
      var rest := [best] + xs[1..];
      var j := ExtremeIsFirst(xs[1..], best, sign, arith);
      BetterOfTwo(current, xs[0], rest[j], sign, arith.compare);
      AtMostSelf(current, sign, arith.compare);
      AtMostSelf(xs[0], sign, arith.compare);
      k := if j > 0 then j + 1 else if AtMost(xs[0], current, sign, arith.compare) then 0 else 1;
      assert forall i | 2 <= i < |all| :: all[i] == rest[i - 1];
      assert all[k] == rest[j] && rest[0] == best;
      assert if j > 0 then Under(rest[0], rest[j], sign, arith.compare) else AtMost(rest[0], rest[j], sign, arith.compare);
      forall i | 0 <= i < k ensures Under(all[i], all[k], sign, arith.compare) {
        if i >= 2 { assert Under(rest[i - 1], rest[j], sign, arith.compare); }
      }
      forall i | k <= i < |all| ensures AtMost(all[i], all[k], sign, arith.compare) {
        if i >= 2 { assert AtMost(rest[i - 1], rest[j], sign, arith.compare); }
      }
    }
  }

  lemma ExtremeUnfold<D(!new)>(xs: seq<D>, current: D, sign: int, arith: Arith<D>)
    ensures
      Extreme(xs, current, sign, arith) ==
        if xs == [] then current else Extreme(xs[1..], if AtMost(xs[0], current, sign, arith.compare) then current else xs[0], sign, arith)
  {
  }

  lemma AtMostSelf<D(!new)>(x: D, sign: int, compare: (D, D) -> int)
    requires TotalOrder(compare)
    ensures AtMost(x, x, sign, compare)
  {
    assert compare(x, x) == 0;
  }

  /** What the better of two values is under, both are under. */
  lemma BetterOfTwo<D(!new)>(a: D, b: D, r: D, sign: int, compare: (D, D) -> int)
    requires TotalOrder(compare) && (sign == 1 || sign == -1)
    ensures
      var best := if AtMost(b, a, sign, compare) then a else b;
      && (AtMost(best, r, sign, compare) ==> AtMost(a, r, sign, compare) && AtMost(b, r, sign, compare))
      && (Under(best, r, sign, compare) ==> Under(a, r, sign, compare) && Under(b, r, sign, compare))
    ensures !AtMost(b, a, sign, compare) ==> Under(a, b, sign, compare)
  {
    assert compare(a, r) < 0 <==> compare(r, a) > 0;
    assert compare(b, r) < 0 <==> compare(r, b) > 0;
    assert compare(a, b) < 0 <==> compare(b, a) > 0;
    assert compare(b, a) < 0 <==> compare(a, b) > 0;
    assert compare(r, a) < 0 <==> compare(a, r) > 0;
    assert compare(r, b) < 0 <==> compare(b, r) > 0;
  }

  /** `min` and `max` return the first of their arguments that bounds all of them. */
  lemma MinAndMax<D(!new)>(n: Node, arith: Arith<D>, table: Table<D>) returns (k: nat)
    requires Arity(n) && n.kind == Call && (n.text == "min" || n.text == "max") && TotalOrder(arith.compare)
    requires n.args != [] && EvaluateArgs(n.args, arith, table).Done?
    ensures
      var xs := EvaluateArgs(n.args, arith, table).value;
      FirstExtreme(xs, k, if n.text == "max" then 1 else -1, arith.compare) && Evaluate(n, arith, table) == Number(xs[k])
  {
    var xs := EvaluateArgs(n.args, arith, table).value;
    assert xs == [xs[0]] + xs[1..];
    k := ExtremeIsFirst(xs[1..], xs[0], if n.text == "max" then 1 else -1, arith);
  }

  /** `clamp` returns one of its three arguments, inside the bounds whenever the bounds are in order. */
  lemma ClampIsInside<D(!new)>(n: Node, arith: Arith<D>, table: Table<D>)
    requires Arity(n) && n.kind == Call && n.text == "clamp" && |n.args| == 3 && TotalOrder(arith.compare)
    requires EvaluateArgs(n.args, arith, table).Done? && |EvaluateArgs(n.args, arith, table).value| == 3
    ensures
      var xs := EvaluateArgs(n.args, arith, table).value;
      var o := Evaluate(n, arith, table);
      && o.Done? && o.value.decimal.Some? && o.value.decimal.value in xs
      && (arith.compare(xs[1], xs[2]) <= 0 ==>
            arith.compare(xs[1], o.value.decimal.value) <= 0 && arith.compare(o.value.decimal.value, xs[2]) <= 0)
      && (arith.compare(xs[1], xs[0]) <= 0 && arith.compare(xs[0], xs[2]) <= 0 ==> o.value.decimal.value == xs[0])
  {
    var xs := EvaluateArgs(n.args, arith, table).value;
    assert arith.compare(xs[0], xs[1]) < 0 <==> arith.compare(xs[1], xs[0]) > 0;
    assert arith.compare(xs[1], xs[1]) == 0;
    assert arith.compare(xs[2], xs[2]) == 0;
    assert arith.compare(xs[1], xs[0]) < 0 <==> arith.compare(xs[0], xs[1]) > 0;
    assert arith.compare(xs[1], xs[2]) < 0 <==> arith.compare(xs[2], xs[1]) > 0;
    assert arith.compare(xs[0], xs[2]) < 0 <==> arith.compare(xs[2], xs[0]) > 0;
  }

  // ---------- Where evaluation stops ----------

  ghost predicate IsDecimal<D>(o: Outcome<Value<D>>, x: D) { o.Done? && o.value.decimal == Some(x) }

  ghost predicate HasNoDecimal<D>(o: Outcome<Value<D>>) { o.Done? && o.value.decimal == None }

  predicate Overflows<D(!new)>(op: string, x: D, y: D, arith: Arith<D>) {
    match op
    case "+" => arith.add(x, y) == None
    case "-" => arith.subtract(x, y) == None
    case "*" => arith.multiply(x, y) == None
    case "/" => arith.divide(x, y) == None
    case _ => false
  }

  predicate RoundingFails<D(!new)>(name: string, x: D, arith: Arith<D>) {
    match name
    case "abs" => arith.abs(x) == None
    case "floor" => arith.floor(x) == None
    case "ceil" => arith.ceil(x) == None
    case "round" => arith.round(x) == None
    case _ => name != "min" && name != "max" && name != "clamp"
  }

  /** The node `m` is what the evaluation stopped at, for the reason and at the place the diagnostic names. */
  ghost predicate Stops<D(!new)>(m: Node, issue: Diagnostic, arith: Arith<D>, table: Table<D>)
    requires Arity(m)
  {
    match issue.code
    case NumericNonFinite => (m.kind == Decimal || m.kind == Quantity) && issue.span == m.span && arith.parse(m.text) == None
    case UnknownVariable =>
      m.kind == Selector && issue.span == m.span
      && (table(m.scope, m.symbol) == None
          || (table(m.scope, m.symbol).value.decimal == None <==> table(m.scope, m.symbol).value.boolean == None))
    case DivisionByZero =>
      m.kind == Binary && m.operator == "/" && issue.span == m.args[1].span
      && exists y :: IsDecimal(Evaluate(m.args[1], arith, table), y) && arith.isZero(y)
    case NumericOutOfRange =>
      issue.span == m.span
      && ((m.kind == Unary && exists x :: IsDecimal(Evaluate(m.args[0], arith, table), x) && arith.subtract(arith.zero, x) == None)
          || (m.kind == Binary && exists x, y ::
                IsDecimal(Evaluate(m.args[0], arith, table), x) && IsDecimal(Evaluate(m.args[1], arith, table), y)
                && Overflows(m.operator, x, y, arith)))
    case TypeMismatch =>
      || (m.kind == Invalid && issue.span == m.span)
      || (m.kind == Binary && issue.span == m.span && !IsLogical(m.operator)
          && (HasNoDecimal(Evaluate(m.args[0], arith, table)) || HasNoDecimal(Evaluate(m.args[1], arith, table))))
      || (m.kind == Call && m.text != "if" && exists i ::
            0 <= i < |m.args| && issue.span == m.args[i].span && HasNoDecimal(Evaluate(m.args[i], arith, table)))
      || (m.kind == Call && m.text != "if" && m.args != [] && issue.span == m.span && exists x ::
            IsDecimal(Evaluate(m.args[0], arith, table), x) && RoundingFails(m.text, x, arith))
    case _ => false
  }

  ghost predicate Stopping<D(!new)>(n: Node, issue: Diagnostic, arith: Arith<D>, table: Table<D>) {
    exists m: Node :: FormulaTyping.Occurs(m, n) && Arity(m) && Stops(m, issue, arith, table)
  }

  lemma StoppingDeeper<D(!new)>(n: Node, i: nat, issue: Diagnostic, arith: Arith<D>, table: Table<D>)
    requires i < |n.args| && Stopping(n.args[i], issue, arith, table)
    ensures Stopping(n, issue, arith, table)
  {
    hide Stops, Arity;
    var m: Node :| FormulaTyping.Occurs(m, n.args[i]) && Arity(m) && Stops(m, issue, arith, table);
    FormulaTyping.OccursDeeper(m, n, i);
  }

  lemma StoppingHere<D(!new)>(n: Node, issue: Diagnostic, arith: Arith<D>, table: Table<D>)
    requires Arity(n) && Stops(n, issue, arith, table)
    ensures Stopping(n, issue, arith, table)
  {
    hide Stops;
    assert FormulaTyping.Occurs(n, n);
  }

  /** Every diagnostic of evaluation names a node of the tree that could not be computed, the reason and the place. */
  lemma {:induction false} StopsAreExplained<D(!new)>(n: Node, arith: Arith<D>, table: Table<D>)
    requires Arity(n) && Evaluate(n, arith, table).Stopped?
    ensures Stopping(n, Evaluate(n, arith, table).issue, arith, table)
    decreases n, 2
  {
    hide Stopping;
    var issue := Evaluate(n, arith, table).issue;
    match n.kind
    case Unary => UnaryStops(n, arith, table);
    case Binary => BinaryStops(n, arith, table);
    case Call => if n.text == "if" { IfStops(n, arith, table); } else { CallStops(n, arith, table); }
    case _ => StoppingHere(n, issue, arith, table);
  }

  lemma {:induction false} UnaryStops<D(!new)>(n: Node, arith: Arith<D>, table: Table<D>)
    requires Arity(n) && n.kind == Unary && Evaluate(n, arith, table).Stopped?
    ensures Stopping(n, Evaluate(n, arith, table).issue, arith, table)
    decreases n, 1
  {
    hide Stopping;
    var value := Evaluate(n.args[0], arith, table);
    if value.Stopped? {
      StopsAreExplained(n.args[0], arith, table);
      StoppingDeeper(n, 0, value.issue, arith, table);
    } else {
      assert IsDecimal(value, value.value.decimal.value);
      StoppingHere(n, Evaluate(n, arith, table).issue, arith, table);
    }
  }

  lemma {:induction false} BinaryStops<D(!new)>(n: Node, arith: Arith<D>, table: Table<D>)
    requires Arity(n) && n.kind == Binary && Evaluate(n, arith, table).Stopped?
    ensures Stopping(n, Evaluate(n, arith, table).issue, arith, table)
    decreases n, 1
  {
    hide Stopping, Stops, EvaluateCall, EvaluateNumeric;
    var left, right := Evaluate(n.args[0], arith, table), Evaluate(n.args[1], arith, table);
    if left.Stopped? {
      StopsAreExplained(n.args[0], arith, table);
      StoppingDeeper(n, 0, left.issue, arith, table);
    } else if right.Stopped? {
      StopsAreExplained(n.args[1], arith, table);
      StoppingDeeper(n, 1, right.issue, arith, table);
    } else {
      OperandsStop(n, arith, table);
      StoppingHere(n, Evaluate(n, arith, table).issue, arith, table);
    }
  }

  lemma OperandsStop<D(!new)>(n: Node, arith: Arith<D>, table: Table<D>)
    requires Arity(n) && n.kind == Binary && Evaluate(n, arith, table).Stopped?
    requires !Evaluate(n.args[0], arith, table).Stopped? && !Evaluate(n.args[1], arith, table).Stopped?
    ensures Stops(n, Evaluate(n, arith, table).issue, arith, table)
  {
    hide EvaluateNumeric, EvaluateCall, Overflows;
    var left, right := Evaluate(n.args[0], arith, table), Evaluate(n.args[1], arith, table);
    if left.Done? && right.Done? && left.value.decimal.Some? && right.value.decimal.Some? {
      assert IsDecimal(left, left.value.decimal.value) && IsDecimal(right, right.value.decimal.value);
      NumericStops(n, left.value.decimal.value, right.value.decimal.value, arith);
    }
  }

  lemma NumericStops<D(!new)>(n: Node, x: D, y: D, arith: Arith<D>)
    requires |n.args| == 2
    ensures match EvaluateNumeric(n, x, y, arith)
      case Stopped(issue) =>
        || (issue == Diagnostic(DivisionByZero, n.args[1].span) && n.operator == "/" && arith.isZero(y))
        || (issue == Diagnostic(NumericOutOfRange, n.span) && Overflows(n.operator, x, y, arith))
      case _ => true
  {
  }

  lemma {:induction false} IfStops<D(!new)>(n: Node, arith: Arith<D>, table: Table<D>)
    requires Arity(n) && n.kind == Call && n.text == "if" && Evaluate(n, arith, table).Stopped?
    ensures Stopping(n, Evaluate(n, arith, table).issue, arith, table)
    decreases n, 1
  {
    hide Stopping, Stops, EvaluateNumeric;
    var issue := Evaluate(n, arith, table).issue;
    var k := if Evaluate(n.args[0], arith, table).Stopped? then 0 else Branch(Evaluate(n.args[0], arith, table).value.boolean.value);
    StopsAreExplained(n.args[k], arith, table);
    StoppingDeeper(n, k, issue, arith, table);
  }

  lemma {:induction false} CallStops<D(!new)>(n: Node, arith: Arith<D>, table: Table<D>)
    requires Arity(n) && n.kind == Call && n.text != "if" && Evaluate(n, arith, table).Stopped?
    ensures Stopping(n, Evaluate(n, arith, table).issue, arith, table)
    decreases n, 1
  {
    hide Stopping, EvaluateNumeric;
    var issue := Evaluate(n, arith, table).issue;
    if EvaluateArgs(n.args, arith, table).Stopped? {
      var i := ArgumentStops(n.args, arith, table);
      if Evaluate(n.args[i], arith, table).Stopped? {
        StopsAreExplained(n.args[i], arith, table);
        StoppingDeeper(n, i, issue, arith, table);
      } else {
        StoppingHere(n, issue, arith, table);
      }
    } else {
      var x := Evaluate(n.args[0], arith, table).value.decimal.value;
      assert EvaluateArgs(n.args, arith, table).value[0] == x && IsDecimal(Evaluate(n.args[0], arith, table), x);
      StoppingHere(n, issue, arith, table);
    }
  }

  lemma {:induction false} ArgumentStops<D(!new)>(args: seq<Node>, arith: Arith<D>, table: Table<D>) returns (i: nat)
    requires (forall i | 0 <= i < |args| :: Arity(args[i])) && EvaluateArgs(args, arith, table).Stopped?
    ensures i < |args|
    ensures
      var issue, o := EvaluateArgs(args, arith, table).issue, Evaluate(args[i], arith, table);
      o == Stopped(issue) || (HasNoDecimal(o) && issue == Diagnostic(TypeMismatch, args[i].span))
  {
    hide Evaluate;
    var o := Evaluate(args[0], arith, table);
    if o.Stopped? || HasNoDecimal(o) {
      i := 0;
    } else {
      var k := ArgumentStops(args[1..], arith, table);
      i := k + 1;
    }
  }
}
