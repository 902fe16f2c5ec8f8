/** What every parse result looks like: operand counts, and positions when there are no errors. */
module FormulaShape {
  import opened Wrappers
  import opened FormulaAst
  import opened FormulaParser

  /** Token positions never run backwards, as the lexer produces them. */
  ghost predicate Ordered(inp: Input) {
    && (forall i | 0 <= i < |inp.tokens| :: inp.tokens[i].span.start <= inp.tokens[i].span.end)
    && (forall i, j | 0 <= i < j < |inp.tokens| :: inp.tokens[i].span.end <= inp.tokens[j].span.start)
  }

  /** Children lie inside their parent, in order, without overlap. */
  ghost predicate Nested(n: Node) {
    && n.span.start <= n.span.end
    && (forall i | 0 <= i < |n.args| :: Nested(n.args[i]) && Within(n.args[i].span, n.span))
    && (forall i, j | 0 <= i < j < |n.args| :: n.args[i].span.end <= n.args[j].span.start)
  }

  predicate Within(inner: Span, outer: Span) {
    outer.start <= inner.start && inner.end <= outer.end
  }

  predicate Shaped(n: Node) {
    Arity(n) && ArgsOnlyWhereUsed(n)
  }

  // ---------- Which trees grow from tokens ----------

  /** A token the matcher takes for a sign. */
  ghost predicate SignAt(inp: Input, i: int, op: string) {
    0 <= i < |inp.tokens| && inp.tokens[i].text == op && (inp.Is(i, "-") || inp.Is(i, "!"))
  }

  ghost predicate TextAmong(inp: Input, text: string) {
    exists i :: 0 <= i < |inp.tokens| && inp.tokens[i].text == text
  }

  /** Trees as the parser builds them, with errors or without. Without, names and units are known as well. */
  ghost predicate Grown(inp: Input, clean: bool, n: Node) {
    && (forall i | 0 <= i < |n.args| :: Grown(inp, clean, n.args[i]))
    && match n.kind
       case Invalid => !clean && n == InvalidNode(n.span)
       case Decimal => n == DecimalNode(n.span, n.text) && exists t :: inp.canonical(t) == Some(n.text)
       case Boolean => n == BooleanNode(n.span, n.text) && (n.text == "true" || n.text == "false")
       case Quantity =>
         n == QuantityNode(n.span, n.text, n.unit) && (exists t :: inp.canonical(t) == Some(n.text)) && (clean ==> inp.KnowsUnit(n.unit))
       case Selector => n == SelectorNode(n.span, n.scope, n.symbol) && n.symbol != "" && (clean ==> IsScope(n.scope))
       case Call => n == CallNode(n.span, n.text, n.args) && n.text !in RESERVED && (clean ==> inp.KnowsFunction(n.text))
       case Unary => |n.args| == 1 && n == UnaryNode(n.span, n.operator, n.args[0]) && exists i :: SignAt(inp, i, n.operator)
       case Binary =>
         |n.args| == 2 && n == BinaryNode(n.span, n.operator, n.args[0], n.args[1]) && Precedence(n.operator) >= 1 && TextAmong(inp, n.operator)
  }

  ghost predicate Grows(inp: Input, p: Parsed, errors: seq<SyntaxError>) {
    Grown(inp, false, p.node) && (p.errors == errors ==> Grown(inp, true, p.node))
  }

  lemma {:induction false} PrimaryGrows(inp: Input, at: nat, errors: seq<SyntaxError>)
    requires inp.Terminated() && at < |inp.tokens|
    ensures Grows(inp, ParsePrimary(inp, at, errors), errors)
    decreases |inp.tokens| - at, 1
  {
    hide Grows, ParseExpression, ParseNumber, ParseSelector, ParseCall;
    if inp.Is(at, "-") || inp.Is(at, "!") {
      UnaryGrows(inp, at, errors);
    } else if inp.Is(at, "(") {
      GroupGrows(inp, at, errors);
    } else if inp.Is(at, "number") {
      NumberGrows(inp, at, errors);
    } else if inp.Is(at, "selector") {
      SelectorGrows(inp, at, errors);
    } else if inp.Is(at, "identifier") && inp.tokens[at].text != "true" && inp.tokens[at].text != "false" && inp.Is(inp.After(at), "(") {
      CallGrows(inp, at, errors);
    } else {
      LeafGrows(inp, at, errors);
    }
  }

  /** What is neither a prefix, a literal nor a call: a Boolean word or an error. */
  lemma LeafGrows(inp: Input, at: nat, errors: seq<SyntaxError>)
    requires inp.Terminated() && at < |inp.tokens|
    requires !inp.Is(at, "-") && !inp.Is(at, "!") && !inp.Is(at, "(") && !inp.Is(at, "number") && !inp.Is(at, "selector")
    requires inp.Is(at, "identifier") && inp.tokens[at].text != "true" && inp.tokens[at].text != "false" ==> !inp.Is(inp.After(at), "(")
    ensures Grows(inp, ParsePrimary(inp, at, errors), errors)
  {
    hide ParseExpression, ParseNumber, ParseSelector, ParseCall;
    var node := ParsePrimary(inp, at, errors).node;
    assert inp.Is(at, "identifier") ==> node == ParseNamed(inp, at, errors).node;
    assert node == BooleanNode(node.span, node.text) || node == InvalidNode(node.span);
  }

  lemma {:induction false} UnaryGrows(inp: Input, at: nat, errors: seq<SyntaxError>)
    requires inp.Terminated() && at < |inp.tokens| && (inp.Is(at, "-") || inp.Is(at, "!"))
    ensures Grows(inp, ParsePrimary(inp, at, errors), errors)
    decreases |inp.tokens| - at, 0
  {
    PrimaryGrows(inp, inp.After(at), errors);
    assert SignAt(inp, at, inp.tokens[at].text);
  }

  lemma {:induction false} GroupGrows(inp: Input, at: nat, errors: seq<SyntaxError>)
    requires inp.Terminated() && at < |inp.tokens| && inp.Is(at, "(") && !inp.Is(at, "-") && !inp.Is(at, "!")
    ensures Grows(inp, ParsePrimary(inp, at, errors), errors)
    decreases |inp.tokens| - at, 0
  {
    hide ParseExpression, Grown;
    ExpressionGrows(inp, inp.After(at), errors);
  }

  lemma NumberGrows(inp: Input, at: nat, errors: seq<SyntaxError>)
    requires inp.Terminated() && at < |inp.tokens|
    ensures Grows(inp, ParseNumber(inp, at, errors), errors)
  {
    var p := ParseNumber(inp, at, errors);
    assert inp.canonical(inp.tokens[at].text).Some? ==> inp.canonical(inp.tokens[at].text) == Some(p.node.text);
  }

  lemma SelectorGrows(inp: Input, at: nat, errors: seq<SyntaxError>)
    requires inp.Terminated() && at < |inp.tokens|
    ensures Grows(inp, ParseSelector(inp, at, errors), errors)
  {
    hide TrimPrefix, TrimSuffix, FirstColon;
  }

  lemma {:induction false} CallGrows(inp: Input, at: nat, errors: seq<SyntaxError>)
    requires inp.Terminated() && at < |inp.tokens| - 1 && inp.Is(inp.After(at), "(") && inp.tokens[at].text !in RESERVED
    ensures Grows(inp, ParseCall(inp, at, errors), errors)
    decreases |inp.tokens| - at, 0
  {
    hide ParseArgs;
    var open := inp.After(inp.After(at));
    if inp.tokens[open].kind != ")" { ArgsGrow(inp, [], open, errors); }
  }

  lemma {:induction false} BinaryGrows(inp: Input, left: Node, at: nat, errors: seq<SyntaxError>, min: nat)
    requires inp.Terminated() && at < |inp.tokens| && Grown(inp, false, left)
    ensures Grown(inp, false, ParseBinary(inp, left, at, errors, min).node)
    ensures ParseBinary(inp, left, at, errors, min).errors == errors && Grown(inp, true, left) ==>
      Grown(inp, true, ParseBinary(inp, left, at, errors, min).node)
    decreases |inp.tokens| - at, 0
  {
    hide Precedence, ParseBinary, ParsePrimary, Grown, Joined;
    BinaryUnfold(inp, left, at, errors, min);
    var op := inp.tokens[at].text;
    if Precedence(op) >= min {
      OperatorIsInside(inp, at);
      PrimaryGrows(inp, inp.After(at), errors);
      var first := ParsePrimary(inp, inp.After(at), errors);
      BinaryGrows(inp, first.node, first.at, first.errors, Precedence(op) + 1);
      var right := ParseBinary(inp, first.node, first.at, first.errors, Precedence(op) + 1);
      JoinedGrown(inp, false, left, at, right.node);
      if Grown(inp, true, left) && Grown(inp, true, right.node) { JoinedGrown(inp, true, left, at, right.node); }
      BinaryGrows(inp, Joined(left, op, right.node), right.at, right.errors, min);
    }
  }

  lemma JoinedGrown(inp: Input, clean: bool, left: Node, at: nat, right: Node)
    requires at < |inp.tokens| && Precedence(inp.tokens[at].text) >= 1 && Grown(inp, clean, left) && Grown(inp, clean, right)
    ensures Grown(inp, clean, Joined(left, inp.tokens[at].text, right))
  {
    hide Precedence;
  }

  lemma {:induction false} ExpressionGrows(inp: Input, at: nat, errors: seq<SyntaxError>)
    requires inp.Terminated() && at < |inp.tokens|
    ensures Grows(inp, ParseExpression(inp, at, errors), errors)
    decreases |inp.tokens| - at, 2
  {
    hide ParseBinary, ParsePrimary, Grown;
    PrimaryGrows(inp, at, errors);
    var first := ParsePrimary(inp, at, errors);
    BinaryGrows(inp, first.node, first.at, first.errors, 0);
  }

  lemma {:induction false} ArgsGrow(inp: Input, args: seq<Node>, at: nat, errors: seq<SyntaxError>)
    requires inp.Terminated() && at < |inp.tokens| && forall i | 0 <= i < |args| :: Grown(inp, false, args[i])
    ensures var p := ParseArgs(inp, args, at, errors);
      && (forall i | 0 <= i < |p.args| :: Grown(inp, false, p.args[i]))
      && (p.errors == errors && (forall i | 0 <= i < |args| :: Grown(inp, true, args[i])) ==>
            forall i | 0 <= i < |p.args| :: Grown(inp, true, p.args[i]))
    decreases |inp.tokens| - at, 3
  {
    hide ParseExpression, ParseArgs, Grown;
    ArgsUnfold(inp, args, at, errors);
    ExpressionGrows(inp, at, errors);
    var arg := ParseExpression(inp, at, errors);
    var more := args + [arg.node];
    assert forall i | 0 <= i < |more| :: Grown(inp, false, more[i]);
    if arg.errors == errors && forall i | 0 <= i < |args| :: Grown(inp, true, args[i]) {
      assert forall i | 0 <= i < |more| :: Grown(inp, true, more[i]);
    }
    if inp.Is(arg.at, ",") { ArgsGrow(inp, more, inp.After(arg.at), arg.errors); }
  }

  /** Every parse, whatever the tokens and with errors or without, yields such a tree. */
  lemma ParseGrows(inp: Input, errors: seq<SyntaxError>)
    requires inp.Terminated()
    ensures Grows(inp, ParseTokens(inp, errors), errors)
  {
    ExpressionGrows(inp, 0, errors);
  }

  lemma {:induction false} GrownIsShaped(inp: Input, clean: bool, n: Node)
    requires Grown(inp, clean, n)
    ensures Shaped(n)
  {
    forall i | 0 <= i < |n.args| ensures Shaped(n.args[i]) { GrownIsShaped(inp, clean, n.args[i]); }
  }

  /** Whatever the tokens, the tree has the operand counts that inference and evaluation rely on. */
  lemma ParseIsShaped(inp: Input, errors: seq<SyntaxError>)
    requires inp.Terminated()
    ensures Shaped(ParseTokens(inp, errors).node)
  {
    ParseGrows(inp, errors);
    GrownIsShaped(inp, false, ParseTokens(inp, errors).node);
  }

  // ---------- Positions of error-free parses ----------

  /** `n` was read from the tokens `at` up to, not including, `end`. */
  ghost predicate Covers(inp: Input, n: Node, at: nat, end: nat) {
    && Nested(n) && at < end < |inp.tokens|
    && inp.tokens[at].span.start <= n.span.start && n.span.end <= inp.tokens[end - 1].span.end
  }

  /** Every error-free step moves past at least one token. */
  lemma {:induction false} PrimaryCovers(inp: Input, at: nat, errors: seq<SyntaxError>)
    requires inp.Terminated() && Ordered(inp) && at < |inp.tokens|
    requires ParsePrimary(inp, at, errors).errors == errors
    ensures Covers(inp, ParsePrimary(inp, at, errors).node, at, ParsePrimary(inp, at, errors).at)
    decreases |inp.tokens| - at, 1
  {
    hide ParseExpression, ParseNumber, ParseSelector, ParseCall, Covers;
    if inp.Is(at, "-") || inp.Is(at, "!") {
      UnaryCovers(inp, at, errors);
    } else if inp.Is(at, "(") {
      GroupCovers(inp, at, errors);
    } else if inp.Is(at, "number") {
      NumberCovers(inp, at, errors);
    } else if inp.Is(at, "selector") {
      SelectorCovers(inp, at, errors);
    } else if inp.tokens[at].text != "true" && inp.tokens[at].text != "false" {
      CallCovers(inp, at, errors);
    } else {
      LeafCovers(inp, BooleanNode(inp.tokens[at].span, inp.tokens[at].text), at);
    }
  }

  lemma LeafCovers(inp: Input, n: Node, at: nat)
    requires Ordered(inp) && at < |inp.tokens| - 1 && n.args == [] && n.span == inp.tokens[at].span
    ensures Covers(inp, n, at, at + 1)
  {
  }

  lemma SelectorCovers(inp: Input, at: nat, errors: seq<SyntaxError>)
    requires inp.Terminated() && Ordered(inp) && at < |inp.tokens| - 1
    requires ParseSelector(inp, at, errors).errors == errors
    ensures Covers(inp, ParseSelector(inp, at, errors).node, at, ParseSelector(inp, at, errors).at)
  {
    LeafCovers(inp, ParseSelector(inp, at, errors).node, at);
  }

  lemma {:induction false} UnaryCovers(inp: Input, at: nat, errors: seq<SyntaxError>)
    requires inp.Terminated() && Ordered(inp) && at < |inp.tokens| && (inp.Is(at, "-") || inp.Is(at, "!"))
    requires ParsePrimary(inp, at, errors).errors == errors
    ensures Covers(inp, ParsePrimary(inp, at, errors).node, at, ParsePrimary(inp, at, errors).at)
    decreases |inp.tokens| - at, 0
  {
    hide ParseExpression, ParseNumber, ParseSelector, ParseNamed;
    PrimaryUnfold(inp, at, errors);
    PrimaryCovers(inp, at + 1, errors);
    assert inp.tokens[at].span.end <= inp.tokens[at + 1].span.start;
  }

  lemma {:induction false} GroupCovers(inp: Input, at: nat, errors: seq<SyntaxError>)
    requires inp.Terminated() && Ordered(inp) && at < |inp.tokens|
    requires inp.Is(at, "(") && !inp.Is(at, "-") && !inp.Is(at, "!")
    requires ParsePrimary(inp, at, errors).errors == errors
    ensures Covers(inp, ParsePrimary(inp, at, errors).node, at, ParsePrimary(inp, at, errors).at)
    decreases |inp.tokens| - at, 0
  {
    hide ParseExpression;
    ExpressionCovers(inp, at + 1, errors);
    var inner := ParseExpression(inp, at + 1, errors);
    assert inp.tokens[at].span.end <= inp.tokens[at + 1].span.start;
    assert inp.tokens[inner.at - 1].span.end <= inp.tokens[inner.at].span.start;
  }

  lemma NumberCovers(inp: Input, at: nat, errors: seq<SyntaxError>)
    requires inp.Terminated() && Ordered(inp) && at < |inp.tokens| - 1
    requires ParseNumber(inp, at, errors).errors == errors
    ensures Covers(inp, ParseNumber(inp, at, errors).node, at, ParseNumber(inp, at, errors).at)
  {
    var p := ParseNumber(inp, at, errors);
    if inp.Is(at + 1, "[") {
      assert inp.tokens[inp.After(at + 1)].kind == "identifier";
    }
  }

  lemma {:induction false} CallCovers(inp: Input, at: nat, errors: seq<SyntaxError>)
    requires inp.Terminated() && Ordered(inp) && at < |inp.tokens| - 1 && inp.Is(at + 1, "(")
    requires ParseCall(inp, at, errors).errors == errors
    ensures Covers(inp, ParseCall(inp, at, errors).node, at, ParseCall(inp, at, errors).at)
    decreases |inp.tokens| - at, 0
  {
    hide ParseArgs, ParseExpression, Nested, Ordered, Covers, ArgsCovered;
    var open := at + 2;
    if inp.tokens[open].kind != ")" {
      var list := ParseArgs(inp, [], open, errors);
      assert list.errors == errors;
      NoArgs(inp, open);
      ArgsCover(inp, [], open, open, errors);
      CallCovered(inp, ParseCall(inp, at, errors).node, at, list.at);
    } else {
      NoArgs(inp, open);
      CallCovered(inp, ParseCall(inp, at, errors).node, at, open);
    }
  }

  lemma NoArgs(inp: Input, open: nat)
    requires 0 < open < |inp.tokens|
    ensures ArgsCovered(inp, [], open, open)
  {
  }

  /** A call from its name to its closing parenthesis. */
  lemma CallCovered(inp: Input, n: Node, at: nat, close: nat)
    requires Ordered(inp) && at + 2 <= close < |inp.tokens| - 1 && ArgsCovered(inp, n.args, at + 2, close)
    requires n.span == Span(inp.tokens[at].span.start, inp.tokens[close].span.end)
    ensures Covers(inp, n, at, close + 1)
  {
    hide Nested;
    assert inp.tokens[at].span.end <= inp.tokens[at + 2].span.start;
    assert inp.tokens[close - 1].span.end <= inp.tokens[close].span.start;
    NestedCall(n);
  }

  lemma NestedCall(n: Node)
    requires n.span.start <= n.span.end && forall i | 0 <= i < |n.args| :: Nested(n.args[i]) && Within(n.args[i].span, n.span)
    requires forall i, j | 0 <= i < j < |n.args| :: n.args[i].span.end <= n.args[j].span.start
    ensures Nested(n)
  {
  }

  lemma {:induction false} ExpressionCovers(inp: Input, at: nat, errors: seq<SyntaxError>)
    requires inp.Terminated() && Ordered(inp) && at < |inp.tokens|
    requires ParseExpression(inp, at, errors).errors == errors
    ensures Covers(inp, ParseExpression(inp, at, errors).node, at, ParseExpression(inp, at, errors).at)
    decreases |inp.tokens| - at, 2
  {
    hide ParseBinary, ParsePrimary;
    var first := ParsePrimary(inp, at, errors);
    assert first.errors == errors;
    PrimaryCovers(inp, at, errors);
    BinaryCovers(inp, first.node, at, first.at, first.errors, 0);
  }

  lemma {:induction false} BinaryCovers(inp: Input, left: Node, from: nat, at: nat, errors: seq<SyntaxError>, min: nat)
    requires inp.Terminated() && Ordered(inp) && at < |inp.tokens| && Covers(inp, left, from, at)
    requires ParseBinary(inp, left, at, errors, min).errors == errors
    ensures Covers(inp, ParseBinary(inp, left, at, errors, min).node, from, ParseBinary(inp, left, at, errors, min).at)
    decreases |inp.tokens| - at, 0
  {
    hide Precedence, ParseBinary, ParsePrimary, Covers, Ordered, Joined;
    BinaryUnfold(inp, left, at, errors, min);
    var op := inp.tokens[at].text;
    if Precedence(op) >= min {
      OperatorIsInside(inp, at);
      var first := ParsePrimary(inp, at + 1, errors);
      var right := ParseBinary(inp, first.node, first.at, first.errors, Precedence(op) + 1);
      var rest := ParseBinary(inp, Joined(left, op, right.node), right.at, right.errors, min);
      assert first.errors == errors && right.errors == errors;
      PrimaryCovers(inp, at + 1, errors);
      BinaryCovers(inp, first.node, at + 1, first.at, errors, Precedence(op) + 1);
      JoinedNested(inp, left, op, right.node, from, at, right.at);
      BinaryCovers(inp, Joined(left, op, right.node), from, right.at, errors, min);
    }
  }

  lemma JoinedNested(inp: Input, left: Node, op: string, right: Node, from: nat, at: nat, end: nat)
    requires Ordered(inp) && Covers(inp, left, from, at) && Covers(inp, right, at + 1, end)
    ensures Covers(inp, Joined(left, op, right), from, end)
  {
    assert inp.tokens[at - 1].span.end <= inp.tokens[at + 1].span.start;
  }

  /** Arguments read so far lie between the open parenthesis and the current token, in order. */
  ghost predicate ArgsCovered(inp: Input, args: seq<Node>, open: nat, at: nat) {
    && 0 < open <= at < |inp.tokens|
    && (forall i | 0 <= i < |args| :: Nested(args[i]) && inp.tokens[open].span.start <= args[i].span.start
                                      && args[i].span.end <= inp.tokens[at - 1].span.end)
    && (forall i, j | 0 <= i < j < |args| :: args[i].span.end <= args[j].span.start)
  }

  lemma {:induction false} ArgsCover(inp: Input, args: seq<Node>, open: nat, at: nat, errors: seq<SyntaxError>)
    requires inp.Terminated() && Ordered(inp) && ArgsCovered(inp, args, open, at)
    requires ParseArgs(inp, args, at, errors).errors == errors
    ensures ArgsCovered(inp, ParseArgs(inp, args, at, errors).args, open, ParseArgs(inp, args, at, errors).at)
    ensures ParseArgs(inp, args, at, errors).at > at
    decreases |inp.tokens| - at, 3
  {
    hide ParseExpression, ArgsCovered, Covers, Ordered;
    var arg := ParseExpression(inp, at, errors);
    assert arg.errors == errors by {
      if inp.Is(arg.at, ",") { assert arg.errors <= ParseArgs(inp, args + [arg.node], inp.After(arg.at), arg.errors).errors; }
    }
    ExpressionCovers(inp, at, errors);
    ArgCovered(inp, args, open, at, arg.node, arg.at);
    if inp.Is(arg.at, ",") {
      CommaSkipped(inp, args + [arg.node], open, arg.at);
      ArgsCover(inp, args + [arg.node], open, arg.at + 1, errors);
    }
  }

  lemma ArgCovered(inp: Input, args: seq<Node>, open: nat, at: nat, arg: Node, end: nat)
    requires Ordered(inp) && ArgsCovered(inp, args, open, at) && Covers(inp, arg, at, end)
    ensures ArgsCovered(inp, args + [arg], open, end) && at < end
  {
    hide Nested;
    var all := args + [arg];
    assert inp.tokens[at - 1].span.end <= inp.tokens[at].span.start <= inp.tokens[end - 1].span.end;
  }

  lemma CommaSkipped(inp: Input, args: seq<Node>, open: nat, at: nat)
    requires Ordered(inp) && ArgsCovered(inp, args, open, at) && at + 1 < |inp.tokens|
    ensures ArgsCovered(inp, args, open, at + 1)
  {
    assert inp.tokens[at - 1].span.end <= inp.tokens[at].span.start;
  }

  /** An error-free parse consumes every token before the end marker and yields nested, ordered positions. */
  lemma ErrorFreeParse(inp: Input, errors: seq<SyntaxError>)
    requires inp.Terminated() && Ordered(inp)
    requires forall i | 0 <= i < |inp.tokens| - 1 :: inp.tokens[i].kind != "eof"
    requires ParseTokens(inp, errors).errors == errors
    ensures ParseTokens(inp, errors).at == |inp.tokens| - 1
    ensures Covers(inp, ParseTokens(inp, errors).node, 0, |inp.tokens| - 1)
  {
    var root := ParseExpression(inp, 0, errors);
    assert root.errors == errors;
    ExpressionCovers(inp, 0, errors);
  }
}
