/** What holds of parses with errors: every error says what is wrong where it is wrong, and every span lies in what was read. */
module FormulaErrors {
  import opened Wrappers
  import opened FormulaAst
  import opened FormulaParser
  import opened FormulaLexer
  import opened FormulaShape
  import opened FormulaTiling
  import opened FormulaRoundTrip

  /** Nothing that can start an operand. */
  predicate StartsNoOperand(inp: Input, k: nat)
    requires k < |inp.tokens|
  {
    && !inp.Is(k, "-") && !inp.Is(k, "!") && !inp.Is(k, "(")
    && !inp.Is(k, "number") && !inp.Is(k, "selector") && !inp.Is(k, "identifier")
  }

  predicate Follows(inp: Input, k: nat, text: string)
    requires k < |inp.tokens|
  {
    k > 0 && inp.Is(k - 1, text)
  }

  /** An expression behind an opening parenthesis or a comma stops before token `k`. */
  ghost predicate ExpressionEnds(inp: Input, k: nat) {
    exists j: nat, errors: seq<SyntaxError> :: EndsAt(inp, j, errors, k)
  }

  ghost predicate EndsAt(inp: Input, j: nat, errors: seq<SyntaxError>, k: nat) {
    && inp.Terminated() && j < |inp.tokens| && (Follows(inp, j, "(") || Follows(inp, j, ","))
    && ParseExpression(inp, j, errors).at == k
  }

  /** Between the braces stand a scope, a colon and a symbol. */
  ghost predicate IsSelected(text: string, scope: string, symbol: string) {
    TrimSuffix(TrimPrefix(text, "${"), "}") == scope + ":" + symbol && ':' !in scope && symbol != ""
  }

  /** What the error says is true of token `k`, and the error stands there. */
  ghost predicate Wrong(inp: Input, k: nat, e: SyntaxError)
    requires k < |inp.tokens|
  {
    var t := inp.tokens[k];
    && e.span == t.span
    && (|| (e.message == "expected expression" && StartsNoOperand(inp, k))
        || (e.message == "expected )" && !inp.Is(k, ")") && ExpressionEnds(inp, k))
        || (e.message == "expected ]" && !inp.Is(k, "]")
            && ((k > 1 && inp.Is(k - 2, "[")) || (k == |inp.tokens| - 1 && Follows(inp, k, "["))))
        || (e.message == "expected unit" && t.kind != "identifier" && Follows(inp, k, "["))
        || (e.message == "unknown unit" && inp.registry.Some? && t.text !in inp.registry.value.units && Follows(inp, k, "["))
        || (e.message == "invalid decimal literal" && inp.Is(k, "number") && inp.canonical(t.text) == None)
        || (e.message == "invalid selector" && inp.Is(k, "selector") && forall scope, symbol :: !IsSelected(t.text, scope, symbol))
        || (e.message == "unknown selector scope" && inp.Is(k, "selector") && exists scope, symbol ::
              IsSelected(t.text, scope, symbol) && scope != "self" && scope != "source" && scope != "target" && scope != "scenario")
        || (e.message == "bare identifiers are not valid expressions" && inp.Is(k, "identifier") && t.text != "true" && t.text != "false"
            && (k + 1 < |inp.tokens| ==> !inp.Is(k + 1, "(")))
        || (e.message == "unknown function " + t.text && inp.registry.Some? && t.text !in inp.registry.value.functions
            && k + 1 < |inp.tokens| && inp.Is(k + 1, "("))
        || (e.message == "unexpected token" && t.kind != "eof"))
  }

  ghost predicate IsExplained(inp: Input, e: SyntaxError) {
    exists k: nat :: k < |inp.tokens| && Wrong(inp, k, e)
  }

  /** Whatever has been added to the errors is explained. */
  ghost predicate Grown(inp: Input, errors: seq<SyntaxError>, errors': seq<SyntaxError>) {
    errors <= errors' && forall i | |errors| <= i < |errors'| :: IsExplained(inp, errors'[i])
  }

  lemma GrownOn(inp: Input, a: seq<SyntaxError>, b: seq<SyntaxError>, c: seq<SyntaxError>)
    requires Grown(inp, a, b) && Grown(inp, b, c)
    ensures Grown(inp, a, c)
  {
    hide IsExplained;
    forall i | |a| <= i < |c| ensures IsExplained(inp, c[i]) {
      if i < |b| { assert c[i] == b[i]; }
    }
  }

  lemma GrownByOne(inp: Input, errors: seq<SyntaxError>, k: nat, message: string)
    requires k < |inp.tokens| && Wrong(inp, k, SyntaxError(inp.tokens[k].span, message))
    ensures Grown(inp, errors, errors + [SyntaxError(inp.tokens[k].span, message)])
  {
    hide Wrong;
  }

  lemma GrownByNone(inp: Input, errors: seq<SyntaxError>)
    ensures Grown(inp, errors, errors)
  {
  }

  lemma NumberErrors(inp: Input, at: nat, errors: seq<SyntaxError>)
    requires inp.Terminated() && at < |inp.tokens| && inp.Is(at, "number")
    ensures Grown(inp, errors, ParseNumber(inp, at, errors).errors)
  {
    hide Grown, Wrong;
    GrownByNone(inp, errors);
    var t, next := inp.tokens[at], inp.After(at);
    if inp.canonical(t.text).None? {
      assert Wrong(inp, at, SyntaxError(t.span, "invalid decimal literal")) by { NumberWrong(inp, at); }
      GrownByOne(inp, errors, at, "invalid decimal literal");
    } else if inp.Is(next, "[") {
      UnitErrors(inp, at, errors);
    }
  }

  lemma NumberWrong(inp: Input, at: nat)
    requires at < |inp.tokens| && inp.Is(at, "number") && inp.canonical(inp.tokens[at].text).None?
    ensures Wrong(inp, at, SyntaxError(inp.tokens[at].span, "invalid decimal literal"))
  {
  }

  lemma UnitErrors(inp: Input, at: nat, errors: seq<SyntaxError>)
    requires inp.Terminated() && at < |inp.tokens| && inp.canonical(inp.tokens[at].text).Some? && inp.Is(inp.After(at), "[")
    ensures Grown(inp, errors, ParseNumber(inp, at, errors).errors)
  {
    hide Grown;
    var open := inp.After(inp.After(at));
    var unit := inp.tokens[open];
    var close := inp.After(open);
    assert open == inp.After(at) + 1;
    GrownByNone(inp, errors);
    var errors1 := errors + (if unit.kind != "identifier" then [SyntaxError(unit.span, "expected unit")] else []);
    if unit.kind != "identifier" {
      GrownByOne(inp, errors, open, "expected unit");
    } else {
      assert errors1 == errors;
    }
    var errors2 := errors1 + (if !inp.KnowsUnit(unit.text) then [SyntaxError(unit.span, "unknown unit")] else []);
    GrownByNone(inp, errors1);
    if !inp.KnowsUnit(unit.text) {
      GrownByOne(inp, errors1, open, "unknown unit");
    } else {
      assert errors2 == errors1;
    }
    GrownOn(inp, errors, errors1, errors2);
    if !inp.Is(close, "]") {
      GrownByOne(inp, errors2, close, "expected ]");
      GrownOn(inp, errors, errors2, errors2 + [SyntaxError(inp.tokens[close].span, "expected ]")]);
    }
  }

  lemma SelectorErrors(inp: Input, at: nat, errors: seq<SyntaxError>)
    requires inp.Terminated() && at < |inp.tokens| && inp.Is(at, "selector")
    ensures Grown(inp, errors, ParseSelector(inp, at, errors).errors)
  {
    hide Grown, TrimPrefix, TrimSuffix, FirstColon;
    var t := inp.tokens[at];
    var raw := TrimSuffix(TrimPrefix(t.text, "${"), "}");
    GrownByNone(inp, errors);
    var colon := FirstColon(raw);
    if colon.None? || raw[colon.value + 1..] == "" {
      forall scope, symbol ensures !IsSelected(t.text, scope, symbol) {
        if IsSelected(t.text, scope, symbol) { ColonSplits(scope, symbol); }
      }
      GrownByOne(inp, errors, at, "invalid selector");
    } else {
      var scope, symbol := raw[..colon.value], raw[colon.value + 1..];
      assert IsSelected(t.text, scope, symbol);
      if !IsScope(scope) { GrownByOne(inp, errors, at, "unknown selector scope"); }
      assert errors + [] == errors;
    }
  }

  lemma {:induction false} ExpressionErrors(inp: Input, at: nat, errors: seq<SyntaxError>)
    requires inp.Terminated() && at < |inp.tokens|
    ensures Grown(inp, errors, ParseExpression(inp, at, errors).errors)
    decreases |inp.tokens| - at, 2
  {
    hide Grown, ParsePrimary, ParseBinary;
    var first := ParsePrimary(inp, at, errors);
    PrimaryErrors(inp, at, errors);
    BinaryErrors(inp, first.node, first.at, first.errors, 0);
    GrownOn(inp, errors, first.errors, ParseExpression(inp, at, errors).errors);
  }

  lemma {:induction false} BinaryErrors(inp: Input, left: Node, at: nat, errors: seq<SyntaxError>, min: nat)
    requires inp.Terminated() && at < |inp.tokens|
    ensures Grown(inp, errors, ParseBinary(inp, left, at, errors, min).errors)
    decreases |inp.tokens| - at, 0
  {
    hide Grown, ParsePrimary, ParseBinary, Precedence;
    BinaryUnfold(inp, left, at, errors, min);
    GrownByNone(inp, errors);
    var op := inp.tokens[at].text;
    if Precedence(op) >= min {
      OperatorIsInside(inp, at);
      var first := ParsePrimary(inp, inp.After(at), errors);
      PrimaryErrors(inp, inp.After(at), errors);
      BinaryErrors(inp, first.node, first.at, first.errors, Precedence(op) + 1);
      var right := ParseBinary(inp, first.node, first.at, first.errors, Precedence(op) + 1);
      GrownOn(inp, errors, first.errors, right.errors);
      BinaryErrors(inp, Joined(left, op, right.node), right.at, right.errors, min);
      GrownOn(inp, errors, right.errors, ParseBinary(inp, left, at, errors, min).errors);
    }
  }

  lemma {:induction false} PrimaryErrors(inp: Input, at: nat, errors: seq<SyntaxError>)
    requires inp.Terminated() && at < |inp.tokens|
    ensures Grown(inp, errors, ParsePrimary(inp, at, errors).errors)
    decreases |inp.tokens| - at, 1
  {
    hide Grown, ParsePrimary, ParseExpression, ParseNumber, ParseSelector, ParseNamed;
    PrimaryUnfold(inp, at, errors);
    if inp.Is(at, "-") || inp.Is(at, "!") {
      PrimaryErrors(inp, inp.After(at), errors);
    } else if inp.Is(at, "(") {
      ExpressionErrors(inp, inp.After(at), errors);
      var inner := ParseExpression(inp, inp.After(at), errors);
      if !inp.Is(inner.at, ")") {
        assert EndsAt(inp, at + 1, errors, inner.at);
        GrownByOne(inp, inner.errors, inner.at, "expected )");
        GrownOn(inp, errors, inner.errors, ParsePrimary(inp, at, errors).errors);
      }
    } else if inp.Is(at, "number") {
      NumberErrors(inp, at, errors);
    } else if inp.Is(at, "selector") {
      SelectorErrors(inp, at, errors);
    } else if inp.Is(at, "identifier") {
      NamedErrors(inp, at, errors);
    } else {
      GrownByOne(inp, errors, at, "expected expression");
    }
  }

  lemma {:induction false} NamedErrors(inp: Input, at: nat, errors: seq<SyntaxError>)
    requires inp.Terminated() && at < |inp.tokens| && inp.Is(at, "identifier")
    ensures Grown(inp, errors, ParseNamed(inp, at, errors).errors)
    decreases |inp.tokens| - at, 0, 1
  {
    hide Grown, ParseCall;
    var t := inp.tokens[at];
    GrownByNone(inp, errors);
    if t.text == "true" || t.text == "false" {
    } else if !inp.Is(inp.After(at), "(") {
      GrownByOne(inp, errors, at, "bare identifiers are not valid expressions");
    } else {
      CallErrors(inp, at, errors);
    }
  }

  lemma {:induction false} CallErrors(inp: Input, at: nat, errors: seq<SyntaxError>)
    requires inp.Terminated() && at < |inp.tokens| - 1 && inp.Is(inp.After(at), "(")
    ensures Grown(inp, errors, ParseCall(inp, at, errors).errors)
    decreases |inp.tokens| - at, 0, 0
  {
    hide Grown, ParseArgs;
    var t := inp.tokens[at];
    var open := inp.After(inp.After(at));
    GrownByNone(inp, errors);
    if inp.tokens[open].kind != ")" { ArgsErrors(inp, [], open, errors); }
    var list := if inp.tokens[open].kind != ")" then ParseArgs(inp, [], open, errors) else ParsedArgs([], open, errors);
    var errors1 := if inp.Is(list.at, ")") then list.errors else list.errors + [SyntaxError(inp.tokens[list.at].span, "expected )")];
    if !inp.Is(list.at, ")") {
      GrownByOne(inp, list.errors, list.at, "expected )");
      GrownOn(inp, errors, list.errors, errors1);
    }
    if !inp.KnowsFunction(t.text) {
      GrownByOne(inp, errors1, at, "unknown function " + t.text);
      GrownOn(inp, errors, errors1, errors1 + [SyntaxError(t.span, "unknown function " + t.text)]);
    }
  }

  lemma {:induction false} ArgsErrors(inp: Input, args: seq<Node>, at: nat, errors: seq<SyntaxError>)
    requires inp.Terminated() && at < |inp.tokens| && (Follows(inp, at, "(") || Follows(inp, at, ","))
    ensures Grown(inp, errors, ParseArgs(inp, args, at, errors).errors)
    ensures ExpressionEnds(inp, ParseArgs(inp, args, at, errors).at)
    decreases |inp.tokens| - at, 3
  {
    hide Grown, ParseExpression, ParseArgs;
    ArgsUnfold(inp, args, at, errors);
    var arg := ParseExpression(inp, at, errors);
    ExpressionErrors(inp, at, errors);
    assert EndsAt(inp, at, errors, arg.at);
    if inp.Is(arg.at, ",") {
      ArgsErrors(inp, args + [arg.node], inp.After(arg.at), arg.errors);
      GrownOn(inp, errors, arg.errors, ParseArgs(inp, args, at, errors).errors);
    }
  }

  /** Every error the parser adds to those of the lexer tells the truth about the token it stands at. */
  lemma SyntaxErrorsAreExplained(inp: Input, lexErrors: seq<SyntaxError>)
    requires inp.Terminated()
    ensures
      var errors := ParseTokens(inp, lexErrors).errors;
      lexErrors <= errors && forall i | |lexErrors| <= i < |errors| :: IsExplained(inp, errors[i])
  {
    hide IsExplained, ParseExpression;
    ExpressionErrors(inp, 0, lexErrors);
    var root := ParseExpression(inp, 0, lexErrors);
    if inp.tokens[root.at].kind != "eof" {
      LeftOver(inp, root);
      GrownByOne(inp, root.errors, root.at, "unexpected token");
      GrownOn(inp, lexErrors, root.errors, ParseTokens(inp, lexErrors).errors);
    }
  }

  lemma LeftOver(inp: Input, root: Parsed)
    requires root.at < |inp.tokens| && inp.tokens[root.at].kind != "eof"
    ensures Wrong(inp, root.at, SyntaxError(inp.tokens[root.at].span, "unexpected token"))
  {
  }

  // ---------- Spans of any parse ----------

  /** Every span of the tree runs forward inside the bounds. */
  predicate Between(n: Node, lo: int, hi: int) {
    lo <= n.span.start <= n.span.end <= hi && forall i | 0 <= i < |n.args| :: Between(n.args[i], lo, hi)
  }

  predicate AllBetween(ns: seq<Node>, lo: int, hi: int) {
    forall i | 0 <= i < |ns| :: Between(ns[i], lo, hi)
  }

  lemma {:induction false} BetweenWider(n: Node, lo: int, hi: int, lo': int, hi': int)
    requires Between(n, lo, hi) && lo' <= lo && hi <= hi'
    ensures Between(n, lo', hi')
  {
    forall i | 0 <= i < |n.args| ensures Between(n.args[i], lo', hi') { BetweenWider(n.args[i], lo, hi, lo', hi'); }
  }

  /** Tokens in order, with an empty end marker. */
  ghost predicate InLine(inp: Input) {
    inp.Terminated() && Ordered(inp) && inp.tokens[|inp.tokens| - 1].span.start == inp.tokens[|inp.tokens| - 1].span.end
  }

  function Starts(inp: Input, k: nat): int
    requires k < |inp.tokens|
  {
    inp.tokens[k].span.start
  }

  lemma TokensForward(inp: Input, j: nat, k: nat)
    requires InLine(inp) && j <= k < |inp.tokens|
    ensures Starts(inp, j) <= inp.tokens[j].span.end && Starts(inp, j) <= Starts(inp, k)
    ensures inp.tokens[j].span.end <= Starts(inp, inp.After(j))
  {
  }

  lemma NumberSpan(inp: Input, at: nat, errors: seq<SyntaxError>)
    requires InLine(inp) && at < |inp.tokens|
    ensures var p := ParseNumber(inp, at, errors); Between(p.node, Starts(inp, at), Starts(inp, p.at))
  {
    var next := inp.After(at);
    var open := inp.After(next);
    var close := inp.After(open);
    TokensForward(inp, at, next);
    TokensForward(inp, next, open);
    TokensForward(inp, open, close);
    TokensForward(inp, close, close);
  }

  lemma SelectorSpan(inp: Input, at: nat, errors: seq<SyntaxError>)
    requires InLine(inp) && at < |inp.tokens|
    ensures var p := ParseSelector(inp, at, errors); Between(p.node, Starts(inp, at), Starts(inp, p.at))
  {
    hide TrimPrefix, TrimSuffix, FirstColon, IsScope;
    TokensForward(inp, at, at);
  }

  lemma {:induction false} ExpressionSpan(inp: Input, at: nat, errors: seq<SyntaxError>)
    requires InLine(inp) && at < |inp.tokens|
    ensures var p := ParseExpression(inp, at, errors); Between(p.node, Starts(inp, at), Starts(inp, p.at))
    decreases |inp.tokens| - at, 2
  {
    hide ParsePrimary, ParseBinary, Between, InLine, Starts;
    InLineEnds(inp);
    var first := ParsePrimary(inp, at, errors);
    PrimarySpan(inp, at, errors);
    BinarySpan(inp, at, first.node, first.at, first.errors, 0);
  }

  lemma InLineEnds(inp: Input)
    requires InLine(inp)
    ensures inp.Terminated()
  {
  }

  lemma {:induction false} BinarySpan(inp: Input, from: nat, left: Node, at: nat, errors: seq<SyntaxError>, min: nat)
    requires InLine(inp) && from <= at < |inp.tokens| && Between(left, Starts(inp, from), Starts(inp, at))
    ensures var p := ParseBinary(inp, left, at, errors, min); Between(p.node, Starts(inp, from), Starts(inp, p.at))
    decreases |inp.tokens| - at, 0
  {
    hide ParsePrimary, ParseBinary, Precedence, Between, InLine, Starts;
    InLineEnds(inp);
    BinaryUnfold(inp, left, at, errors, min);
    var op := inp.tokens[at].text;
    if Precedence(op) >= min {
      OperatorIsInside(inp, at);
      var first := ParsePrimary(inp, inp.After(at), errors);
      PrimarySpan(inp, inp.After(at), errors);
      BinarySpan(inp, inp.After(at), first.node, first.at, first.errors, Precedence(op) + 1);
      var right := ParseBinary(inp, first.node, first.at, first.errors, Precedence(op) + 1);
      TokensForward(inp, from, at);
      TokensForward(inp, at, inp.After(at));
      TokensForward(inp, at, right.at);
      JoinedBetween(left, op, right.node, Starts(inp, from), Starts(inp, at), Starts(inp, inp.After(at)), Starts(inp, right.at));
      BinarySpan(inp, from, Joined(left, op, right.node), right.at, right.errors, min);
    }
  }

  lemma JoinedBetween(left: Node, op: string, right: Node, a: int, b: int, c: int, d: int)
    requires Between(left, a, b) && Between(right, c, d) && a <= b <= c && b <= d
    ensures Between(Joined(left, op, right), a, d)
  {
    BetweenWider(left, a, b, a, d);
    BetweenWider(right, c, d, a, d);
  }

  lemma {:induction false} PrimarySpan(inp: Input, at: nat, errors: seq<SyntaxError>)
    requires InLine(inp) && at < |inp.tokens|
    ensures var p := ParsePrimary(inp, at, errors); Between(p.node, Starts(inp, at), Starts(inp, p.at))
    decreases |inp.tokens| - at, 1
  {
    hide ParsePrimary, ParseExpression, ParseNumber, ParseSelector, ParseNamed, InLine;
    InLineEnds(inp);
    PrimaryUnfold(inp, at, errors);
    TokensForward(inp, at, inp.After(at));
    if inp.Is(at, "-") || inp.Is(at, "!") {
      PrimarySpan(inp, inp.After(at), errors);
      var child := ParsePrimary(inp, inp.After(at), errors);
      BetweenWider(child.node, Starts(inp, inp.After(at)), Starts(inp, child.at), Starts(inp, at), Starts(inp, child.at));
    } else if inp.Is(at, "(") {
      ExpressionSpan(inp, inp.After(at), errors);
      var inner := ParseExpression(inp, inp.After(at), errors);
      TokensForward(inp, inner.at, inp.After(inner.at));
      BetweenWider(inner.node, Starts(inp, inp.After(at)), Starts(inp, inner.at), Starts(inp, at), Starts(inp, ParsePrimary(inp, at, errors).at));
    } else if inp.Is(at, "number") {
      NumberSpan(inp, at, errors);
    } else if inp.Is(at, "selector") {
      SelectorSpan(inp, at, errors);
    } else if inp.Is(at, "identifier") {
      NamedSpan(inp, at, errors);
    }
  }

  lemma {:induction false} NamedSpan(inp: Input, at: nat, errors: seq<SyntaxError>)
    requires InLine(inp) && at < |inp.tokens|
    ensures var p := ParseNamed(inp, at, errors); Between(p.node, Starts(inp, at), Starts(inp, p.at))
    decreases |inp.tokens| - at, 0, 1
  {
    hide ParseCall, InLine;
    InLineEnds(inp);
    TokensForward(inp, at, inp.After(at));
    var t := inp.tokens[at];
    if t.text != "true" && t.text != "false" && inp.Is(inp.After(at), "(") { CallSpan(inp, at, errors); }
  }

  lemma {:induction false} CallSpan(inp: Input, at: nat, errors: seq<SyntaxError>)
    requires InLine(inp) && at < |inp.tokens| - 1 && inp.Is(inp.After(at), "(")
    ensures var p := ParseCall(inp, at, errors); Between(p.node, Starts(inp, at), Starts(inp, p.at))
    decreases |inp.tokens| - at, 0, 0
  {
    hide ParseArgs, InLine;
    InLineEnds(inp);
    var open := inp.After(inp.After(at));
    var list := if inp.tokens[open].kind != ")" then ParseArgs(inp, [], open, errors) else ParsedArgs([], open, errors);
    if inp.tokens[open].kind != ")" { ArgsSpan(inp, open, [], open, errors); }
    var p := ParseCall(inp, at, errors);
    TokensForward(inp, at, open);
    TokensForward(inp, at, list.at);
    TokensForward(inp, inp.After(at), list.at);
    TokensForward(inp, list.at, inp.After(list.at));
    forall i | 0 <= i < |list.args| ensures Between(list.args[i], Starts(inp, at), Starts(inp, p.at)) {
      BetweenWider(list.args[i], Starts(inp, open), Starts(inp, list.at), Starts(inp, at), Starts(inp, p.at));
    }
  }

  lemma {:induction false} ArgsSpan(inp: Input, from: nat, args: seq<Node>, at: nat, errors: seq<SyntaxError>)
    requires InLine(inp) && from <= at < |inp.tokens| && AllBetween(args, Starts(inp, from), Starts(inp, at))
    ensures var p := ParseArgs(inp, args, at, errors); AllBetween(p.args, Starts(inp, from), Starts(inp, p.at))
    decreases |inp.tokens| - at, 3
  {
    hide ParseExpression, ParseArgs, Between, InLine;
    InLineEnds(inp);
    ArgsUnfold(inp, args, at, errors);
    var arg := ParseExpression(inp, at, errors);
    ExpressionSpan(inp, at, errors);
    var next := if inp.Is(arg.at, ",") then inp.After(arg.at) else arg.at;
    TokensForward(inp, from, at);
    TokensForward(inp, at, arg.at);
    TokensForward(inp, arg.at, next);
    BetweenWider(arg.node, Starts(inp, at), Starts(inp, arg.at), Starts(inp, from), Starts(inp, next));
    forall i | 0 <= i < |args| ensures Between(args[i], Starts(inp, from), Starts(inp, next)) {
      BetweenWider(args[i], Starts(inp, from), Starts(inp, at), Starts(inp, from), Starts(inp, next));
    }
    if inp.Is(arg.at, ",") { ArgsSpan(inp, from, args + [arg.node], next, arg.errors); }
  }

  /** With errors or without, every node of the tree of every source has a span inside the source, and no node reaches past what was read. */
  lemma SpansStayInside(c: Classes, source: string, inp: Input)
    requires inp.tokens == LexFrom(c, source, 0).tokens
    ensures inp.Terminated()
    ensures
      var p := ParseTokens(inp, LexFrom(c, source, 0).errors);
      p.at < |inp.tokens| && Between(p.node, 0, inp.tokens[p.at].span.start) && inp.tokens[p.at].span.start <= |source|
  {
    hide LexFrom, ParseExpression, TokensOk, Between;
    LexTokens(c, source, 0);
    SourceInLine(source, inp);
    var errors := LexFrom(c, source, 0).errors;
    ExpressionSpan(inp, 0, errors);
    var p := ParseExpression(inp, 0, errors);
    BetweenWider(p.node, Starts(inp, 0), Starts(inp, p.at), 0, Starts(inp, p.at));
  }

  lemma SourceInLine(source: string, inp: Input)
    requires TokensOk(source, 0, inp.tokens)
    ensures InLine(inp) && forall k | 0 <= k < |inp.tokens| :: 0 <= Starts(inp, k) <= |source|
  {
  }
}
