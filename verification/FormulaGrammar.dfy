/** The parser against a stratified grammar: or, and, comparison, sum, product, operand. */
module FormulaGrammar {
  import opened Wrappers
  import opened FormulaAst
  import opened FormulaParser
  import opened FormulaLexer
  import opened FormulaShape
  import opened FormulaTiling
  import opened FormulaTokens
  import opened FormulaRoundTrip

  // ---------- The grammar ----------

  /** The operators of each level, loosest first. */
  predicate OperatorOf(level: int, op: string) {
    match level
    case 1 => op == "||"
    case 2 => op == "&&"
    case 3 => op == "<" || op == "<=" || op == ">" || op == ">=" || op == "==" || op == "!="
    case 4 => op == "+" || op == "-"
    case 5 => op == "*" || op == "/"
    case _ => false
  }

  /** A phrase of a level is one of the next level, or two joined by an operator of this level, the left one of the same level. */
  ghost predicate Derives(inp: Input, level: nat, at: nat, end: nat, n: Node)
    requires end < |inp.tokens|
    decreases end - at, 1, 6 - level
  {
    if level >= 6 then Operand(inp, at, end, n)
    else Derives(inp, level + 1, at, end, n) || exists mid :: Joins(inp, level, at, mid, end, n)
  }

  ghost predicate Joins(inp: Input, level: nat, at: nat, mid: int, end: nat, n: Node)
    requires end < |inp.tokens| && level < 6
    decreases end - at, 1, 6 - level, 0
  {
    && at < mid < end && OperatorOf(level, inp.tokens[mid].text) && n.kind == Binary && |n.args| == 2
    && Derives(inp, level, at, mid, n.args[0]) && Derives(inp, level + 1, mid + 1, end, n.args[1])
    && n == BinaryNode(Span(n.args[0].span.start, n.args[1].span.end), inp.tokens[mid].text, n.args[0], n.args[1])
  }

  ghost predicate Operand(inp: Input, at: nat, end: nat, n: Node)
    requires end < |inp.tokens|
    decreases end - at, 0
  {
    && at < end
    && (Signed(inp, at, end, n) || Grouped(inp, at, end, n) || Numeric(inp, at, end, n) || Selecting(inp, at, end, n)
        || Truth(inp, at, end, n) || Calls(inp, at, end, n))
  }

  ghost predicate Signed(inp: Input, at: nat, end: nat, n: Node)
    requires at < end < |inp.tokens|
    decreases end - at, 0, 0
  {
    && (inp.Is(at, "-") || inp.Is(at, "!")) && n.kind == Unary && |n.args| == 1
    && Operand(inp, at + 1, end, n.args[0])
    && n == UnaryNode(Span(inp.tokens[at].span.start, n.args[0].span.end), inp.tokens[at].text, n.args[0])
  }

  ghost predicate Grouped(inp: Input, at: nat, end: nat, n: Node)
    requires at < end < |inp.tokens|
    decreases end - at, 0, 0
  {
    inp.Is(at, "(") && at + 2 < end && inp.Is(end - 1, ")") && Derives(inp, 1, at + 1, end - 1, n)
  }

  predicate Numeric(inp: Input, at: nat, end: nat, n: Node)
    requires at < end < |inp.tokens|
  {
    && inp.Is(at, "number") && inp.canonical(inp.tokens[at].text).Some?
    && var text := inp.canonical(inp.tokens[at].text).value;
       || (end == at + 1 && n == DecimalNode(inp.tokens[at].span, text))
       || (end == at + 4 && inp.Is(at + 1, "[") && inp.tokens[at + 2].kind == "identifier" && inp.Is(at + 3, "]")
           && (inp.registry.Some? ==> inp.tokens[at + 2].text in inp.registry.value.units)
           && n == QuantityNode(Span(inp.tokens[at].span.start, inp.tokens[at + 3].span.end), text, inp.tokens[at + 2].text))
  }

  /** A scope, a colon and a symbol, in braces. */
  predicate Selecting(inp: Input, at: nat, end: nat, n: Node)
    requires at < end < |inp.tokens|
  {
    && inp.Is(at, "selector") && end == at + 1 && n.symbol != ""
    && (n.scope == "self" || n.scope == "source" || n.scope == "target" || n.scope == "scenario")
    && TrimSuffix(TrimPrefix(inp.tokens[at].text, "${"), "}") == n.scope + ":" + n.symbol
    && n == SelectorNode(inp.tokens[at].span, n.scope, n.symbol)
  }

  predicate Truth(inp: Input, at: nat, end: nat, n: Node)
    requires at < end < |inp.tokens|
  {
    && inp.Is(at, "identifier") && end == at + 1 && (inp.tokens[at].text == "true" || inp.tokens[at].text == "false")
    && n == BooleanNode(inp.tokens[at].span, inp.tokens[at].text)
  }

  /** A name, and a list in parentheses; two names are taken for literals before that. */
  ghost predicate Calls(inp: Input, at: nat, end: nat, n: Node)
    requires at < end < |inp.tokens|
    decreases end - at, 0, 0
  {
    && inp.Is(at, "identifier") && inp.tokens[at].text !in {"true", "false", "number", "selector"}
    && (inp.registry.Some? ==> inp.tokens[at].text in inp.registry.value.functions) && at + 2 < end
    && inp.Is(at + 1, "(") && inp.Is(end - 1, ")")
    && (if at + 3 == end then n.args == [] else Lists(inp, at + 2, end - 1, n.args))
    && n == CallNode(Span(inp.tokens[at].span.start, inp.tokens[end - 1].span.end), inp.tokens[at].text, n.args)
  }

  /** One expression, and more after each comma. */
  ghost predicate Lists(inp: Input, at: nat, end: nat, args: seq<Node>)
    requires end < |inp.tokens|
    decreases end - at, 2
  {
    && args != []
    && if |args| == 1 then Derives(inp, 1, at, end, args[0]) else exists mid :: Splits(inp, at, mid, end, args)
  }

  ghost predicate Splits(inp: Input, at: nat, mid: int, end: nat, args: seq<Node>)
    requires end < |inp.tokens| && |args| > 1
    decreases end - at, 2, 0
  {
    at < mid < end && inp.Is(mid, ",") && Derives(inp, 1, at, mid, args[0]) && Lists(inp, mid + 1, end, args[1..])
  }

  // ---------- What parses without errors is derived ----------

  /** Climbing levels are grammar levels. */
  lemma LevelsAgree(op: string)
    ensures Precedence(op) >= 0 ==> 1 <= Precedence(op) <= 5 && OperatorOf(Precedence(op), op)
    ensures forall level | OperatorOf(level, op) :: Precedence(op) == level
  {
  }

  lemma {:induction false} Looser(inp: Input, tight: nat, level: nat, at: nat, end: nat, n: Node)
    requires end < |inp.tokens| && level <= tight && Derives(inp, tight, at, end, n)
    ensures Derives(inp, level, at, end, n)
    decreases tight - level
  {
    hide Operand, Joins;
    if level < tight {
      if level < 6 {
        Looser(inp, tight, level + 1, at, end, n);
      }
    }
  }

  lemma {:induction false} PrimaryDerived(inp: Input, at: nat, errors: seq<SyntaxError>)
    requires inp.Terminated() && at < |inp.tokens|
    requires ParsePrimary(inp, at, errors).errors == errors
    ensures Operand(inp, at, ParsePrimary(inp, at, errors).at, ParsePrimary(inp, at, errors).node)
    decreases |inp.tokens| - at, 1
  {
    hide ParsePrimary, ParseExpression, ParseNumber, ParseSelector, ParseNamed, Operand, Derives;
    PrimaryUnfold(inp, at, errors);
    if inp.Is(at, "-") || inp.Is(at, "!") {
      SignDerived(inp, at, errors);
    } else if inp.Is(at, "(") {
      GroupDerived(inp, at, errors);
    } else if inp.Is(at, "number") {
      NumberDerived(inp, at, errors);
    } else if inp.Is(at, "selector") {
      SelectorDerived(inp, at, errors);
    } else {
      NamedDerived(inp, at, errors);
    }
  }

  lemma {:induction false} SignDerived(inp: Input, at: nat, errors: seq<SyntaxError>)
    requires inp.Terminated() && at < |inp.tokens| && (inp.Is(at, "-") || inp.Is(at, "!"))
    requires ParsePrimary(inp, at, errors).errors == errors
    ensures Operand(inp, at, ParsePrimary(inp, at, errors).at, ParsePrimary(inp, at, errors).node)
    decreases |inp.tokens| - at, 0
  {
    hide ParsePrimary, ParseExpression, ParseNumber, ParseSelector, ParseNamed, Grouped, Numeric, Selecting, Truth, Calls;
    PrimaryUnfold(inp, at, errors);
    PrimaryDerived(inp, at + 1, errors);
    var p := ParsePrimary(inp, at, errors);
    assert Signed(inp, at, p.at, p.node);
  }

  lemma {:induction false} GroupDerived(inp: Input, at: nat, errors: seq<SyntaxError>)
    requires inp.Terminated() && at < |inp.tokens| && inp.Is(at, "(") && !inp.Is(at, "-") && !inp.Is(at, "!")
    requires ParsePrimary(inp, at, errors).errors == errors
    ensures Operand(inp, at, ParsePrimary(inp, at, errors).at, ParsePrimary(inp, at, errors).node)
    decreases |inp.tokens| - at, 0
  {
    hide ParsePrimary, ParseExpression, ParseNumber, ParseSelector, ParseNamed, Signed, Derives, Numeric, Selecting, Truth, Calls;
    PrimaryUnfold(inp, at, errors);
    ExpressionDerived(inp, at + 1, errors);
    var inner := ParseExpression(inp, at + 1, errors);
    assert Grouped(inp, at, inner.at + 1, inner.node);
  }

  lemma NumberDerived(inp: Input, at: nat, errors: seq<SyntaxError>)
    requires inp.Terminated() && at < |inp.tokens| - 1 && inp.Is(at, "number")
    requires ParseNumber(inp, at, errors).errors == errors
    ensures Operand(inp, at, ParseNumber(inp, at, errors).at, ParseNumber(inp, at, errors).node)
  {
    hide Signed, Grouped, Selecting, Truth, Calls;
    var p := ParseNumber(inp, at, errors);
    if inp.Is(at + 1, "[") { assert inp.tokens[inp.After(at + 1)].kind == "identifier"; }
    assert Numeric(inp, at, p.at, p.node);
  }

  lemma SelectorDerived(inp: Input, at: nat, errors: seq<SyntaxError>)
    requires inp.Terminated() && at < |inp.tokens| - 1 && inp.Is(at, "selector")
    requires ParseSelector(inp, at, errors).errors == errors
    ensures Operand(inp, at, ParseSelector(inp, at, errors).at, ParseSelector(inp, at, errors).node)
  {
    hide Signed, Grouped, Numeric, Truth, Calls, TrimPrefix, TrimSuffix, FirstColon;
    var p := ParseSelector(inp, at, errors);
    var raw := TrimSuffix(TrimPrefix(inp.tokens[at].text, "${"), "}");
    var i := FirstColon(raw).value;
    assert raw == raw[..i] + ":" + raw[i + 1..];
    assert Selecting(inp, at, p.at, p.node);
  }

  lemma {:induction false} NamedDerived(inp: Input, at: nat, errors: seq<SyntaxError>)
    requires inp.Terminated() && at < |inp.tokens| - 1 && inp.Is(at, "identifier")
    requires ParseNamed(inp, at, errors).errors == errors && !inp.Is(at, "number") && !inp.Is(at, "selector")
    ensures Operand(inp, at, ParseNamed(inp, at, errors).at, ParseNamed(inp, at, errors).node)
    decreases |inp.tokens| - at, 0
  {
    hide Signed, Grouped, Numeric, Selecting, ParseArgs, Lists;
    var p := ParseNamed(inp, at, errors);
    if inp.tokens[at].text == "true" || inp.tokens[at].text == "false" {
      assert Truth(inp, at, p.at, p.node);
    } else {
      CallDerived(inp, at, errors);
    }
  }

  lemma {:induction false} CallDerived(inp: Input, at: nat, errors: seq<SyntaxError>)
    requires inp.Terminated() && at < |inp.tokens| - 1 && inp.Is(at, "identifier") && inp.Is(inp.After(at), "(")
    requires inp.tokens[at].text !in {"true", "false", "number", "selector"}
    requires ParseCall(inp, at, errors).errors == errors
    ensures Operand(inp, at, ParseCall(inp, at, errors).at, ParseCall(inp, at, errors).node)
    decreases |inp.tokens| - at, 0, 0
  {
    hide Signed, Grouped, Numeric, Selecting, Truth, ParseArgs, Lists;
    var p := ParseCall(inp, at, errors);
    if inp.tokens[at + 2].kind != ")" {
      assert ParseArgs(inp, [], at + 2, errors).errors == errors;
      ArgsDerived(inp, [], at + 2, errors);
    }
    assert Calls(inp, at, p.at, p.node);
  }

  lemma {:induction false} ArgsDerived(inp: Input, args: seq<Node>, at: nat, errors: seq<SyntaxError>)
    requires inp.Terminated() && at < |inp.tokens|
    requires ParseArgs(inp, args, at, errors).errors == errors
    ensures var p := ParseArgs(inp, args, at, errors);
      |args| < |p.args| && p.args[..|args|] == args && at < p.at && Lists(inp, at, p.at, p.args[|args|..])
    decreases |inp.tokens| - at, 3
  {
    hide ParseExpression, ParseArgs, Derives;
    ArgsUnfold(inp, args, at, errors);
    var arg := ParseExpression(inp, at, errors);
    var more := args + [arg.node];
    var p := ParseArgs(inp, args, at, errors);
    assert arg.errors == errors;
    ExpressionDerived(inp, at, errors);
    if inp.Is(arg.at, ",") {
      ArgsDerived(inp, more, inp.After(arg.at), errors);
      var list := p.args[|args|..];
      assert p.args[..|args|] == p.args[..|more|][..|args|] == args;
      assert list[0] == p.args[..|more|][|args|] == arg.node && list[1..] == p.args[|more|..];
      assert Splits(inp, at, arg.at, p.at, list);
    } else {
      assert p.args[|args|..] == [arg.node];
    }
  }

  lemma {:induction false} ExpressionDerived(inp: Input, at: nat, errors: seq<SyntaxError>)
    requires inp.Terminated() && at < |inp.tokens|
    requires ParseExpression(inp, at, errors).errors == errors
    ensures at < ParseExpression(inp, at, errors).at
    ensures Derives(inp, 1, at, ParseExpression(inp, at, errors).at, ParseExpression(inp, at, errors).node)
    decreases |inp.tokens| - at, 2
  {
    hide ParseBinary, ParsePrimary, Operand, Joins, Precedence;
    var first := ParsePrimary(inp, at, errors);
    assert first.errors == errors;
    PrimaryDerived(inp, at, errors);
    OperandMoves(inp, at, first.at, first.node);
    LevelsAgree(inp.tokens[first.at].text);
    BinaryDerived(inp, first.node, at, first.at, errors, 0, 6);
  }

  lemma OperandMoves(inp: Input, at: nat, end: nat, n: Node)
    requires end < |inp.tokens| && Operand(inp, at, end, n)
    ensures at < end && Derives(inp, 6, at, end, n)
  {
    hide Signed, Grouped, Numeric, Selecting, Truth, Calls;
  }

  /** The climbing loop: the left operand is a phrase of level `level`, and no tighter operator follows it. */
  lemma {:induction false} BinaryDerived(inp: Input, left: Node, from: nat, at: nat, errors: seq<SyntaxError>, min: nat, level: nat)
    requires inp.Terminated() && from < at < |inp.tokens| && 1 <= level <= 6 && min <= level && Derives(inp, level, from, at, left)
    requires Precedence(inp.tokens[at].text) <= level
    requires ParseBinary(inp, left, at, errors, min).errors == errors
    ensures var p := ParseBinary(inp, left, at, errors, min);
      && at <= p.at && Derives(inp, if min == 0 then 1 else min, from, p.at, p.node)
      && Precedence(inp.tokens[p.at].text) < min
    decreases |inp.tokens| - at, 0
  {
    hide Precedence, ParseBinary, ParsePrimary, Derives, Joined, Operand;
    BinaryUnfold(inp, left, at, errors, min);
    var op := inp.tokens[at].text;
    if Precedence(op) >= min {
      OperatorIsInside(inp, at);
      var p := Precedence(op);
      LevelsAgree(op);
      var first := ParsePrimary(inp, at + 1, errors);
      var right := ParseBinary(inp, first.node, first.at, first.errors, p + 1);
      var rest := ParseBinary(inp, Joined(left, op, right.node), right.at, right.errors, min);
      assert first.errors == errors && right.errors == errors;
      PrimaryDerived(inp, at + 1, errors);
      OperandMoves(inp, at + 1, first.at, first.node);
      LevelsAgree(inp.tokens[first.at].text);
      BinaryDerived(inp, first.node, at + 1, first.at, errors, p + 1, 6);
      Looser(inp, level, p, from, at, left);
      JoinedDerives(inp, p, from, at, right.at, left, right.node);
      BinaryDerived(inp, Joined(left, op, right.node), from, right.at, errors, min, p);
    } else {
      Looser(inp, level, if min == 0 then 1 else min, from, at, left);
    }
  }

  lemma JoinedDerives(inp: Input, level: nat, from: nat, at: nat, end: nat, left: Node, right: Node)
    requires from < at < end < |inp.tokens| && level < 6 && OperatorOf(level, inp.tokens[at].text)
    requires Derives(inp, level, from, at, left) && Derives(inp, level + 1, at + 1, end, right)
    ensures Derives(inp, level, from, end, Joined(left, inp.tokens[at].text, right))
  {
    hide OperatorOf, Operand;
    assert Joins(inp, level, from, at, end, Joined(left, inp.tokens[at].text, right));
  }

  /** Whatever parses without errors is derived by the grammar, from all tokens before the end marker. */
  lemma ErrorFreeIsDerived(inp: Input, errors: seq<SyntaxError>)
    requires inp.Terminated() && forall i | 0 <= i < |inp.tokens| - 1 :: inp.tokens[i].kind != "eof"
    requires ParseTokens(inp, errors).errors == errors
    ensures ParseTokens(inp, errors).at == |inp.tokens| - 1
    ensures Derives(inp, 1, 0, |inp.tokens| - 1, ParseTokens(inp, errors).node)
  {
    hide ParseExpression, Derives;
    var root := ParseExpression(inp, 0, errors);
    assert root.errors == errors;
    ExpressionDerived(inp, 0, errors);
  }

  // ---------- What is derived parses without errors, in one way ----------

  /** The words that the matcher looks for. */
  const WORDS := {"-", "!", "(", ")", "[", "]", ",", "number", "selector", "identifier"}

  /** No token but a name is taken for one of another kind: the matcher cannot be misled by its text. */
  ghost predicate Plain(inp: Input) {
    forall i | 0 <= i < |inp.tokens| :: PlainToken(inp.tokens[i])
  }

  /** Punctuation, or another token with a text of its own; only names may be called like a literal. */
  predicate PlainToken(t: Token) {
    || t.kind == t.text
    || (t.kind in {"number", "selector", "identifier", "op", "eof"} && t.text !in WORDS)
    || (t.kind == "identifier" && (t.text == "number" || t.text == "selector"))
  }

  lemma PlainMatches(inp: Input, at: nat)
    requires Plain(inp) && at < |inp.tokens|
    ensures forall word | word in WORDS ::
      inp.Is(at, word) <==> inp.tokens[at].kind == word || (inp.tokens[at].kind == "identifier" && inp.tokens[at].text == word)
    ensures inp.tokens[at].kind == "identifier" ==> inp.tokens[at].text !in WORDS - {"number", "selector", "identifier"}
    ensures Precedence(inp.tokens[at].text) >= 0 ==> !inp.Is(at, "[")
    ensures inp.Is(at, ",") || inp.Is(at, ")") ==> Precedence(inp.tokens[at].text) < 0 && !inp.Is(at, "[")
  {
    assert PlainToken(inp.tokens[at]);
  }

  lemma {:induction false} OperandParses(inp: Input, at: nat, end: nat, errors: seq<SyntaxError>, n: Node)
    requires inp.Terminated() && Plain(inp) && end < |inp.tokens| && Operand(inp, at, end, n) && !inp.Is(end, "[")
    ensures ParsePrimary(inp, at, errors) == Parsed(n, end, errors)
    decreases end - at, 0
  {
    hide ParsePrimary, ParseExpression, ParseNumber, ParseSelector, ParseNamed, Signed, Grouped, Numeric, Selecting, Truth, Calls, Plain;
    if Signed(inp, at, end, n) {
      SignParses(inp, at, end, errors, n);
    } else if Grouped(inp, at, end, n) {
      GroupParses(inp, at, end, errors, n);
    } else if Numeric(inp, at, end, n) {
      NumberParses(inp, at, end, errors, n);
    } else if Selecting(inp, at, end, n) {
      SelectorParses(inp, at, end, errors, n);
    } else if Truth(inp, at, end, n) {
      TruthParses(inp, at, end, errors, n);
    } else {
      CallParses(inp, at, end, errors, n);
    }
  }

  lemma {:induction false} SignParses(inp: Input, at: nat, end: nat, errors: seq<SyntaxError>, n: Node)
    requires inp.Terminated() && Plain(inp) && at < end < |inp.tokens| && Signed(inp, at, end, n) && !inp.Is(end, "[")
    ensures ParsePrimary(inp, at, errors) == Parsed(n, end, errors)
    decreases end - at, 0, 0
  {
    hide ParsePrimary, ParseExpression, ParseNumber, ParseSelector, ParseNamed, Operand, Plain;
    PrimaryUnfold(inp, at, errors);
    OperandParses(inp, at + 1, end, errors, n.args[0]);
  }

  lemma {:induction false} GroupParses(inp: Input, at: nat, end: nat, errors: seq<SyntaxError>, n: Node)
    requires inp.Terminated() && Plain(inp) && at < end < |inp.tokens| && Grouped(inp, at, end, n)
    ensures ParsePrimary(inp, at, errors) == Parsed(n, end, errors)
    decreases end - at, 0, 0
  {
    hide ParsePrimary, ParseExpression, ParseNumber, ParseSelector, ParseNamed, Derives, Plain, Precedence;
    PrimaryUnfold(inp, at, errors);
    PlainMatches(inp, at);
    PlainMatches(inp, end - 1);
    ExpressionParses(inp, at + 1, end - 1, errors, n);
  }

  lemma NumberParses(inp: Input, at: nat, end: nat, errors: seq<SyntaxError>, n: Node)
    requires inp.Terminated() && Plain(inp) && at < end < |inp.tokens| && Numeric(inp, at, end, n) && !inp.Is(end, "[")
    ensures ParsePrimary(inp, at, errors) == Parsed(n, end, errors)
  {
    hide ParsePrimary, ParseExpression, ParseSelector, ParseNamed, Plain, Precedence;
    PrimaryUnfold(inp, at, errors);
    PlainMatches(inp, at);
  }

  lemma SelectorParses(inp: Input, at: nat, end: nat, errors: seq<SyntaxError>, n: Node)
    requires inp.Terminated() && Plain(inp) && at < end < |inp.tokens| && Selecting(inp, at, end, n)
    ensures ParsePrimary(inp, at, errors) == Parsed(n, end, errors)
  {
    hide ParsePrimary, ParseExpression, ParseNumber, ParseNamed, Plain, Precedence, TrimPrefix, TrimSuffix, FirstColon;
    PrimaryUnfold(inp, at, errors);
    PlainMatches(inp, at);
    ColonSplits(n.scope, n.symbol);
  }

  lemma TruthParses(inp: Input, at: nat, end: nat, errors: seq<SyntaxError>, n: Node)
    requires inp.Terminated() && Plain(inp) && at < end < |inp.tokens| && Truth(inp, at, end, n)
    ensures ParsePrimary(inp, at, errors) == Parsed(n, end, errors)
  {
    hide ParsePrimary, ParseExpression, ParseNumber, ParseSelector, ParseCall, Plain, Precedence;
    PrimaryUnfold(inp, at, errors);
    PlainMatches(inp, at);
  }

  lemma {:induction false} CallParses(inp: Input, at: nat, end: nat, errors: seq<SyntaxError>, n: Node)
    requires inp.Terminated() && Plain(inp) && at < end < |inp.tokens| && Calls(inp, at, end, n)
    ensures ParsePrimary(inp, at, errors) == Parsed(n, end, errors)
    decreases end - at, 0, 0
  {
    hide ParsePrimary, ParseExpression, ParseNumber, ParseSelector, ParseArgs, Plain, Precedence, Lists;
    PrimaryUnfold(inp, at, errors);
    PlainMatches(inp, at);
    PlainMatches(inp, at + 2);
    PlainMatches(inp, end - 1);
    if at + 3 != end {
      ListStarts(inp, at + 2, end - 1, n.args);
      ArgsParse(inp, [], at + 2, end - 1, errors, n.args);
      assert [] + n.args == n.args;
    }
  }

  lemma {:induction false} Starts(inp: Input, level: nat, at: nat, end: nat, n: Node)
    requires Plain(inp) && end < |inp.tokens| && Derives(inp, level, at, end, n)
    ensures at < end && inp.tokens[at].kind != ")"
    decreases end - at, 6 - level
  {
    hide Signed, Grouped, Numeric, Selecting, Truth, Calls, Plain, OperatorOf;
    if level >= 6 {
      OperandStarts(inp, at, end, n);
    } else if Derives(inp, level + 1, at, end, n) {
      Starts(inp, level + 1, at, end, n);
    } else {
      var mid: nat :| Joins(inp, level, at, mid, end, n);
      Starts(inp, level, at, mid, n.args[0]);
    }
  }

  lemma OperandStarts(inp: Input, at: nat, end: nat, n: Node)
    requires Plain(inp) && end < |inp.tokens| && Operand(inp, at, end, n)
    ensures at < end && inp.tokens[at].kind != ")"
  {
    hide Plain, Derives, Lists, Precedence;
    PlainMatches(inp, at);
  }

  lemma ListStarts(inp: Input, at: nat, end: nat, args: seq<Node>)
    requires Plain(inp) && end < |inp.tokens| && Lists(inp, at, end, args)
    ensures at < end && inp.tokens[at].kind != ")"
  {
    hide Plain, Derives;
    if |args| == 1 {
      Starts(inp, 1, at, end, args[0]);
    } else {
      var mid: nat :| Splits(inp, at, mid, end, args);
      Starts(inp, 1, at, mid, args[0]);
    }
  }

  lemma {:induction false} ArgsParse(inp: Input, before: seq<Node>, at: nat, end: nat, errors: seq<SyntaxError>, args: seq<Node>)
    requires inp.Terminated() && Plain(inp) && end < |inp.tokens| && Lists(inp, at, end, args) && inp.Is(end, ")")
    ensures at < end && ParseArgs(inp, before, at, errors) == ParsedArgs(before + args, end, errors)
    decreases end - at, 2
  {
    hide ParseExpression, ParseArgs, Plain, Derives, Precedence;
    ListStarts(inp, at, end, args);
    ArgsUnfold(inp, before, at, errors);
    PlainMatches(inp, end);
    if |args| == 1 {
      ExpressionParses(inp, at, end, errors, args[0]);
      assert args == [args[0]];
    } else {
      var mid: nat :| Splits(inp, at, mid, end, args);
      PlainMatches(inp, mid);
      ExpressionParses(inp, at, mid, errors, args[0]);
      ArgsParse(inp, before + [args[0]], mid + 1, end, errors, args[1..]);
      assert before + [args[0]] + args[1..] == before + args;
    }
  }

  lemma {:induction false} ExpressionParses(inp: Input, at: nat, end: nat, errors: seq<SyntaxError>, n: Node)
    requires inp.Terminated() && Plain(inp) && end < |inp.tokens| && Derives(inp, 1, at, end, n)
    requires Precedence(inp.tokens[end].text) < 0 && !inp.Is(end, "[")
    ensures at < end && ParseExpression(inp, at, errors) == Parsed(n, end, errors)
    decreases end - at, 1, 6
  {
    hide Plain, Precedence, Derives, ParsePrimary, ParseBinary;
    Starts(inp, 1, at, end, n);
    SpineParses(inp, 1, at, end, errors, n, 0);
    BinaryUnfold(inp, n, end, errors, 0);
  }

  /** Reading a phrase and climbing on with level `min` is climbing on with its tree as left operand. */
  lemma {:induction false} SpineParses(inp: Input, level: nat, at: nat, end: nat, errors: seq<SyntaxError>, n: Node, min: nat)
    requires inp.Terminated() && Plain(inp) && end < |inp.tokens| && Derives(inp, level, at, end, n) && 1 <= level <= 6 && min <= level
    requires Precedence(inp.tokens[end].text) <= level && !inp.Is(end, "[")
    ensures at < end
    ensures
      var first := ParsePrimary(inp, at, errors);
      ParseBinary(inp, first.node, first.at, first.errors, min) == ParseBinary(inp, n, end, errors, min)
    decreases end - at, 1, 6 - level
  {
    hide Plain, Precedence, Operand, ParsePrimary, ParseBinary, OperatorOf;
    Starts(inp, level, at, end, n);
    if level == 6 {
      OperandParses(inp, at, end, errors, n);
    } else if Derives(inp, level + 1, at, end, n) {
      SpineParses(inp, level + 1, at, end, errors, n, min);
    } else {
      var mid: nat :| Joins(inp, level, at, mid, end, n);
      PlainMatches(inp, mid);
      LevelsAgree(inp.tokens[mid].text);
      SpineParses(inp, level, at, mid, errors, n.args[0], min);
      SpineParses(inp, level + 1, mid + 1, end, errors, n.args[1], level + 1);
      TwoSteps(inp, n.args[0], mid, errors, min, n.args[1], end);
    }
  }

  /** Of plain tokens, exactly what the grammar derives parses without errors, and to that tree. */
  lemma ParsesExactlyWhatIsDerived(inp: Input, errors: seq<SyntaxError>, n: Node)
    requires inp.Terminated() && Plain(inp) && forall i | 0 <= i < |inp.tokens| - 1 :: inp.tokens[i].kind != "eof"
    ensures ParseTokens(inp, errors).node == n && ParseTokens(inp, errors).errors == errors <==> Derives(inp, 1, 0, |inp.tokens| - 1, n)
  {
    hide Plain, Derives, ParseExpression, Precedence;
    if ParseTokens(inp, errors).errors == errors { ErrorFreeIsDerived(inp, errors); }
    if Derives(inp, 1, 0, |inp.tokens| - 1, n) {
      var last := |inp.tokens| - 1;
      LastToken(inp);
      ExpressionParses(inp, 0, last, errors, n);
    }
  }

  lemma LastToken(inp: Input)
    requires inp.Terminated()
    ensures Precedence(inp.tokens[|inp.tokens| - 1].text) < 0 && !inp.Is(|inp.tokens| - 1, "[")
  {
  }

  /** The grammar gives plain tokens at most one tree. */
  lemma GrammarIsUnambiguous(inp: Input, m: Node, n: Node)
    requires inp.Terminated() && Plain(inp) && forall i | 0 <= i < |inp.tokens| - 1 :: inp.tokens[i].kind != "eof"
    requires Derives(inp, 1, 0, |inp.tokens| - 1, m) && Derives(inp, 1, 0, |inp.tokens| - 1, n)
    ensures m == n
  {
    hide Plain, Derives, ParseTokens;
    ParsesExactlyWhatIsDerived(inp, [], m);
    ParsesExactlyWhatIsDerived(inp, [], n);
  }

  // ---------- Three operands ----------

  /** The second operator is of a strictly tighter level. */
  predicate Tighter(second: string, first: string) {
    exists i: int, j: int :: 1 <= i <= 5 && 1 <= j <= 5 && OperatorOf(i, first) && OperatorOf(j, second) && i < j
  }

  predicate IsOperator(op: string) { exists i: int :: 1 <= i <= 5 && OperatorOf(i, op) }

  /** `a op1 b op2 c` without parentheses groups to the right exactly when `op2` is strictly tighter, and to the left otherwise. */
  lemma ThreeOperands(inp: Input, a: Node, first: string, b: Node, second: string, c: Node)
    requires inp.Terminated() && Writable(inp, a) && Writable(inp, b) && Writable(inp, c)
    requires a.kind != Binary && b.kind != Binary && c.kind != Binary && IsOperator(first) && IsOperator(second)
    requires
      var ls := PrintBare(a) + [OperatorLexeme(first)] + PrintBare(b) + [OperatorLexeme(second)] + PrintBare(c);
      |inp.tokens| == |ls| + 1 && Here(inp, 0, ls)
    ensures ParseTokens(inp, []).errors == []
    ensures
      var none := Span(0, 0);
      Erase(ParseTokens(inp, []).node) ==
        Erase(if Tighter(second, first) then BinaryNode(none, first, a, BinaryNode(none, second, b, c))
              else BinaryNode(none, second, BinaryNode(none, first, a, b), c))
  {
    hide Print, Precedence, PrintBare, Here, ParseTokens, Erase, OperatorLexeme, OperatorOf, Writable;
    var i: int :| 1 <= i <= 5 && OperatorOf(i, first);
    var j: int :| 1 <= j <= 5 && OperatorOf(j, second);
    LevelsAgree(first);
    LevelsAgree(second);
    var none := Span(0, 0);
    if i < j {
      GroupsRight(a, first, b, second, c);
      WritableJoin(inp, second, b, c);
      WritableJoin(inp, first, a, BinaryNode(none, second, b, c));
      ParsePrint(inp, BinaryNode(none, first, a, BinaryNode(none, second, b, c)));
    } else {
      GroupsLeft(a, first, b, second, c);
      WritableJoin(inp, first, a, b);
      WritableJoin(inp, second, BinaryNode(none, first, a, b), c);
      ParsePrint(inp, BinaryNode(none, second, BinaryNode(none, first, a, b), c));
    }
  }

  lemma WritableJoin(inp: Input, op: string, l: Node, r: Node)
    requires Writable(inp, l) && Writable(inp, r) && Precedence(op) >= 1
    ensures Writable(inp, BinaryNode(Span(0, 0), op, l, r))
  {
    hide Precedence;
  }

  lemma GroupsRight(a: Node, first: string, b: Node, second: string, c: Node)
    requires a.kind != Binary && b.kind != Binary && c.kind != Binary && 1 <= Precedence(first) < Precedence(second)
    ensures Print(BinaryNode(Span(0, 0), first, a, BinaryNode(Span(0, 0), second, b, c)), 0)
         == PrintBare(a) + [OperatorLexeme(first)] + PrintBare(b) + [OperatorLexeme(second)] + PrintBare(c)
  {
    hide Precedence, PrintBare, OperatorLexeme;
    var inner := BinaryNode(Span(0, 0), second, b, c);
    BareBinary(second, b, c);
    BareBinary(first, a, inner);
  }

  lemma GroupsLeft(a: Node, first: string, b: Node, second: string, c: Node)
    requires a.kind != Binary && b.kind != Binary && c.kind != Binary && 1 <= Precedence(second) <= Precedence(first)
    ensures Print(BinaryNode(Span(0, 0), second, BinaryNode(Span(0, 0), first, a, b), c), 0)
         == PrintBare(a) + [OperatorLexeme(first)] + PrintBare(b) + [OperatorLexeme(second)] + PrintBare(c)
  {
    hide Precedence, PrintBare, OperatorLexeme;
    var inner := BinaryNode(Span(0, 0), first, a, b);
    BareBinary(first, a, b);
    BareBinary(second, inner, c);
  }

  lemma BareBinary(op: string, l: Node, r: Node)
    requires Precedence(op) >= 1
    ensures PrintBare(BinaryNode(Span(0, 0), op, l, r)) == Print(l, Precedence(op)) + [OperatorLexeme(op)] + Print(r, Precedence(op) + 1)
  {
    hide Precedence, OperatorLexeme, Print;
  }

  // ---------- Sources ----------

  /** The tokens of every source are plain. */
  lemma LexedIsPlain(c: Classes, source: string, inp: Input)
    requires Ascii(c) && inp.tokens == LexFrom(c, source, 0).tokens
    ensures inp.Terminated() && Plain(inp) && forall i | 0 <= i < |inp.tokens| - 1 :: inp.tokens[i].kind != "eof"
  {
    hide LexFrom, WellScanned;
    LexTokens(c, source, 0);
    forall i | 0 <= i < |inp.tokens| - 1 ensures PlainToken(inp.tokens[i]) && inp.tokens[i].kind != "eof" {
      assert inp.tokens[i] in inp.tokens && TokenOk(source, 0, inp.tokens[i]);
      TokensAreLongest(c, source, 0, i);
      ScannedIsPlain(c, source, inp.tokens[i]);
    }
  }

  lemma ScannedIsPlain(c: Classes, source: string, t: Token)
    requires Ascii(c) && 0 <= t.span.start < t.span.end <= |source| && WellScanned(c, source, t)
    ensures PlainToken(t)
  {
    hide DecodeRune, LongestNumber, WholeWord;
    var s := source[t.span.start..];
    FirstByte(s);
    assert t.text[0] == s[0];
  }

  /** Of all sources, exactly the ones the grammar derives parse without errors, and to the derived tree. */
  lemma SourceParsesExactly(c: Classes, source: string, inp: Input, n: Node)
    requires Ascii(c) && inp.tokens == LexFrom(c, source, 0).tokens
    ensures inp.Terminated()
    ensures
      var lexed := LexFrom(c, source, 0);
      ParseTokens(inp, lexed.errors).errors == [] && ParseTokens(inp, lexed.errors).node == n <==>
        lexed.errors == [] && Derives(inp, 1, 0, |inp.tokens| - 1, n)
  {
    hide LexFrom, Plain, Derives, ParseTokens;
    LexedIsPlain(c, source, inp);
    ParsesExactlyWhatIsDerived(inp, [], n);
  }
}
