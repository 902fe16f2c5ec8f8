/** The precedence-climbing parser over a token sequence. */
module FormulaParser {
  import opened Wrappers
  import opened FormulaAst

  datatype Token = Token(kind: string, text: string, span: Span)

  datatype SyntaxError = SyntaxError(span: Span, message: string)

  /** What the parser reads; `canonical` is the decimal parser followed by the decimal printer. */
  datatype Input = Input(tokens: seq<Token>, registry: Option<Registry>, canonical: string -> Option<string>) {
    /** The lexer always ends with one end marker. */
    predicate Terminated() {
      tokens != [] && tokens[|tokens| - 1].kind == "eof" && tokens[|tokens| - 1].text == ""
    }

    predicate KnowsUnit(name: string) {
      registry.Some? ==> name in registry.value.units
    }

    predicate KnowsFunction(name: string) {
      registry.Some? ==> name in registry.value.functions
    }

    /** The position after taking a token; the last one is never passed. */
    function After(at: nat): (next: nat)
      requires at < |tokens|
      ensures at <= next < |tokens|
    {
      if at < |tokens| - 1 then at + 1 else at
    }

    /** A token is matched by its kind or by its text. */
    predicate Is(at: nat, kind: string)
      requires at < |tokens|
    {
      tokens[at].kind == kind || tokens[at].text == kind
    }
  }

  function Precedence(op: string): int {
    if op == "||" then 1
    else if op == "&&" then 2
    else if IsComparison(op) then 3
    else if IsAdditive(op) then 4
    else if IsMultiplicative(op) then 5
    else -1
  }

  function TrimPrefix(s: string, prefix: string): string {
    if prefix <= s then s[|prefix|..] else s
  }

  function TrimSuffix(s: string, suffix: string): string {
    if |suffix| <= |s| && s[|s| - |suffix|..] == suffix then s[..|s| - |suffix|] else s
  }

  /** The position of the first colon, if any. */
  function FirstColon(s: string): (r: Option<nat>)
    ensures match r
      case None => ':' !in s
      case Some(i) => i < |s| && s[i] == ':' && ':' !in s[..i]
  {
    if s == [] then None
    else if s[0] == ':' then Some(0)
    else match FirstColon(s[1..])
      case None => None
      case Some(i) => Some(i + 1)
  }

  predicate IsScope(s: string) { s == "self" || s == "source" || s == "target" || s == "scenario" }

  /** The matcher compares kinds and texts alike, so these names are taken for operators, literals or values. */
  const RESERVED := {"-", "!", "(", "number", "selector", "true", "false"}

  // ---------- The parser as functions of position and errors so far ----------

  datatype Parsed = Parsed(node: Node, at: nat, errors: seq<SyntaxError>)

  datatype ParsedArgs = ParsedArgs(args: seq<Node>, at: nat, errors: seq<SyntaxError>)

  ghost predicate Steps(inp: Input, at: nat, errors: seq<SyntaxError>, at': nat, errors': seq<SyntaxError>) {
    at <= at' < |inp.tokens| && errors <= errors'
  }

  function ParseExpression(inp: Input, at: nat, errors: seq<SyntaxError>): (p: Parsed)
    requires inp.Terminated() && at < |inp.tokens|
    ensures Steps(inp, at, errors, p.at, p.errors)
    decreases |inp.tokens| - at, 2
  {
    var first := ParsePrimary(inp, at, errors);
    ParseBinary(inp, first.node, first.at, first.errors, 0)
  }

  function ParseBinary(inp: Input, left: Node, at: nat, errors: seq<SyntaxError>, min: nat): (p: Parsed)
    requires inp.Terminated() && at < |inp.tokens|
    ensures Steps(inp, at, errors, p.at, p.errors)
    decreases |inp.tokens| - at, 0
  {
    var op := inp.tokens[at].text;
    if Precedence(op) < min then Parsed(left, at, errors)
    else
      var first := ParsePrimary(inp, inp.After(at), errors);
      var right := ParseBinary(inp, first.node, first.at, first.errors, Precedence(op) + 1);
      ParseBinary(inp, Joined(left, op, right.node), right.at, right.errors, min)
  }

  function Joined(left: Node, op: string, right: Node): Node {
    BinaryNode(Span(left.span.start, right.span.end), op, left, right)
  }

  function ParsePrimary(inp: Input, at: nat, errors: seq<SyntaxError>): (p: Parsed)
    requires inp.Terminated() && at < |inp.tokens|
    ensures Steps(inp, at, errors, p.at, p.errors)
    decreases |inp.tokens| - at, 1
  {
    var t := inp.tokens[at];
    if inp.Is(at, "-") || inp.Is(at, "!") then
      var child := ParsePrimary(inp, inp.After(at), errors);
      Parsed(UnaryNode(Span(t.span.start, child.node.span.end), t.text, child.node), child.at, child.errors)
    else if inp.Is(at, "(") then
      var inner := ParseExpression(inp, inp.After(at), errors);
      if inp.Is(inner.at, ")") then Parsed(inner.node, inp.After(inner.at), inner.errors)
      else Parsed(inner.node, inner.at, inner.errors + [SyntaxError(inp.tokens[inner.at].span, "expected )")])
    else if inp.Is(at, "number") then ParseNumber(inp, at, errors)
    else if inp.Is(at, "selector") then ParseSelector(inp, at, errors)
    else if inp.Is(at, "identifier") then ParseNamed(inp, at, errors)
    else Parsed(InvalidNode(t.span), inp.After(at), errors + [SyntaxError(t.span, "expected expression")])
  }

  /** An identifier: a Boolean, a call, or an error. */
  function ParseNamed(inp: Input, at: nat, errors: seq<SyntaxError>): (p: Parsed)
    requires inp.Terminated() && at < |inp.tokens|
    ensures Steps(inp, at, errors, p.at, p.errors)
    decreases |inp.tokens| - at, 0, 1
  {
    var t := inp.tokens[at];
    if t.text == "true" || t.text == "false" then Parsed(BooleanNode(t.span, t.text), inp.After(at), errors)
    else if !inp.Is(inp.After(at), "(") then
      Parsed(InvalidNode(t.span), inp.After(at), errors + [SyntaxError(t.span, "bare identifiers are not valid expressions")])
    else ParseCall(inp, at, errors)
  }

  function ParseNumber(inp: Input, at: nat, errors: seq<SyntaxError>): (p: Parsed)
    requires inp.Terminated() && at < |inp.tokens|
    ensures Steps(inp, at, errors, p.at, p.errors)
  {
    var t := inp.tokens[at];
    var next := inp.After(at);
    match inp.canonical(t.text)
    case None => Parsed(InvalidNode(t.span), next, errors + [SyntaxError(t.span, "invalid decimal literal")])
    case Some(text) =>
      if !inp.Is(next, "[") then Parsed(DecimalNode(t.span, text), next, errors)
      else
        var open := inp.After(next);
        var unit := inp.tokens[open];
        var close := inp.After(open);
        var errors1 := errors
          + (if unit.kind != "identifier" then [SyntaxError(unit.span, "expected unit")] else [])
          + (if !inp.KnowsUnit(unit.text) then [SyntaxError(unit.span, "unknown unit")] else []);
        if inp.Is(close, "]") then
          Parsed(QuantityNode(Span(t.span.start, inp.tokens[close].span.end), text, unit.text), inp.After(close), errors1)
        else
          Parsed(QuantityNode(Span(t.span.start, unit.span.end), text, unit.text), close,
                 errors1 + [SyntaxError(inp.tokens[close].span, "expected ]")])
  }

  function ParseSelector(inp: Input, at: nat, errors: seq<SyntaxError>): (p: Parsed)
    requires inp.Terminated() && at < |inp.tokens|
    ensures Steps(inp, at, errors, p.at, p.errors)
  {
    var t := inp.tokens[at];
    var next := inp.After(at);
    var raw := TrimSuffix(TrimPrefix(t.text, "${"), "}");
    var invalid := Parsed(InvalidNode(t.span), next, errors + [SyntaxError(t.span, "invalid selector")]);
    match FirstColon(raw)
    case None => invalid
    case Some(i) =>
      if raw[i + 1..] == "" then invalid
      else
        Parsed(SelectorNode(t.span, raw[..i], raw[i + 1..]), next,
               errors + (if IsScope(raw[..i]) then [] else [SyntaxError(t.span, "unknown selector scope")]))
  }

  /** A call whose name is at `at` and whose open parenthesis follows. */
  function ParseCall(inp: Input, at: nat, errors: seq<SyntaxError>): (p: Parsed)
    requires inp.Terminated() && at < |inp.tokens| - 1 && inp.Is(inp.After(at), "(")
    ensures Steps(inp, at, errors, p.at, p.errors)
    decreases |inp.tokens| - at, 0, 0
  {
    var t := inp.tokens[at];
    var open := inp.After(inp.After(at));
    var list := if inp.tokens[open].kind != ")" then ParseArgs(inp, [], open, errors) else ParsedArgs([], open, errors);
    var closed := inp.Is(list.at, ")");
    var errors1 := if closed then list.errors else list.errors + [SyntaxError(inp.tokens[list.at].span, "expected )")];
    var errors2 := if inp.KnowsFunction(t.text) then errors1 else errors1 + [SyntaxError(t.span, "unknown function " + t.text)];
    if closed then
      Parsed(CallNode(Span(t.span.start, inp.tokens[list.at].span.end), t.text, list.args), inp.After(list.at), errors2)
    else Parsed(CallNode(Span(t.span.start, t.span.end), t.text, list.args), list.at, errors2)
  }

  function ParseArgs(inp: Input, args: seq<Node>, at: nat, errors: seq<SyntaxError>): (p: ParsedArgs)
    requires inp.Terminated() && at < |inp.tokens|
    ensures Steps(inp, at, errors, p.at, p.errors)
    decreases |inp.tokens| - at, 3
  {
    var arg := ParseExpression(inp, at, errors);
    if inp.Is(arg.at, ",") then ParseArgs(inp, args + [arg.node], inp.After(arg.at), arg.errors)
    else ParsedArgs(args + [arg.node], arg.at, arg.errors)
  }

  /** The whole parse, with the lexer's own errors first. */
  function ParseTokens(inp: Input, errors: seq<SyntaxError>): (p: Parsed)
    requires inp.Terminated()
    ensures errors <= p.errors
  {
    var root := ParseExpression(inp, 0, errors);
    if inp.tokens[root.at].kind != "eof" then
      root.(errors := root.errors + [SyntaxError(inp.tokens[root.at].span, "unexpected token")])
    else root
  }

  lemma BinaryUnfold(inp: Input, left: Node, at: nat, errors: seq<SyntaxError>, min: nat)
    requires inp.Terminated() && at < |inp.tokens|
    ensures
      var op := inp.tokens[at].text;
      if Precedence(op) < min then ParseBinary(inp, left, at, errors, min) == Parsed(left, at, errors)
      else
        var first := ParsePrimary(inp, inp.After(at), errors);
        var right := ParseBinary(inp, first.node, first.at, first.errors, Precedence(op) + 1);
        ParseBinary(inp, left, at, errors, min) == ParseBinary(inp, Joined(left, op, right.node), right.at, right.errors, min)
  {
    hide ParsePrimary;
  }

  lemma PrimaryUnfold(inp: Input, at: nat, errors: seq<SyntaxError>)
    requires inp.Terminated() && at < |inp.tokens|
    ensures
      var t := inp.tokens[at];
      ParsePrimary(inp, at, errors) ==
        if inp.Is(at, "-") || inp.Is(at, "!") then
          var child := ParsePrimary(inp, inp.After(at), errors);
          Parsed(UnaryNode(Span(t.span.start, child.node.span.end), t.text, child.node), child.at, child.errors)
        else if inp.Is(at, "(") then
          var inner := ParseExpression(inp, inp.After(at), errors);
          if inp.Is(inner.at, ")") then Parsed(inner.node, inp.After(inner.at), inner.errors)
          else Parsed(inner.node, inner.at, inner.errors + [SyntaxError(inp.tokens[inner.at].span, "expected )")])
        else if inp.Is(at, "number") then ParseNumber(inp, at, errors)
        else if inp.Is(at, "selector") then ParseSelector(inp, at, errors)
        else if inp.Is(at, "identifier") then ParseNamed(inp, at, errors)
        else Parsed(InvalidNode(t.span), inp.After(at), errors + [SyntaxError(t.span, "expected expression")])
  {
    hide ParseExpression, ParseNumber, ParseSelector, ParseNamed;
  }

  lemma ArgsUnfold(inp: Input, args: seq<Node>, at: nat, errors: seq<SyntaxError>)
    requires inp.Terminated() && at < |inp.tokens|
    ensures
      var arg := ParseExpression(inp, at, errors);
      ParseArgs(inp, args, at, errors) ==
        if inp.Is(arg.at, ",") then ParseArgs(inp, args + [arg.node], inp.After(arg.at), arg.errors)
        else ParsedArgs(args + [arg.node], arg.at, arg.errors)
  {
    hide ParseExpression;
  }

  /** Operators are never the end marker. */
  lemma OperatorIsInside(inp: Input, at: nat)
    requires inp.Terminated() && at < |inp.tokens| && Precedence(inp.tokens[at].text) >= 0
    ensures at < |inp.tokens| - 1 && inp.After(at) == at + 1 && Precedence(inp.tokens[at].text) >= 1
  {
  }

  // ---------- The parser as it runs ----------

  /** Position and errors are updated in place; each method computes what its function says. */
  class Parser {
    const inp: Input
    var at: nat
    var errors: seq<SyntaxError>

    constructor (inp: Input, errors: seq<SyntaxError>)
      requires inp.Terminated()
      ensures this.inp == inp && this.at == 0 && this.errors == errors
    {
      this.inp, this.at, this.errors := inp, 0, errors;
    }

    ghost predicate Valid()
      reads this
    {
      inp.Terminated() && at < |inp.tokens|
    }

    function Peek(): Token
      requires Valid()
      reads this
    {
      inp.tokens[at]
    }

    method Take() returns (t: Token)
      requires Valid()
      modifies this`at
      ensures Valid() && t == inp.tokens[old(at)] && at == inp.After(old(at))
    {
      t := Peek();
      if at < |inp.tokens| - 1 {
        at := at + 1;
      }
    }

    method Match(kind: string) returns (ok: bool, t: Token)
      requires Valid()
      modifies this`at
      ensures Valid() && t == inp.tokens[old(at)] && ok == inp.Is(old(at), kind)
      ensures at == if ok then inp.After(old(at)) else old(at)
    {
      t := Peek();
      ok := t.kind == kind || t.text == kind;
      if ok { t := Take(); }
    }

    method Report(span: Span, message: string)
      modifies this`errors
      ensures errors == old(errors) + [SyntaxError(span, message)]
    {
      errors := errors + [SyntaxError(span, message)];
    }

    method Expression() returns (n: Node)
      requires Valid()
      modifies this`at, this`errors
      ensures Valid() && Parsed(n, at, errors) == ParseExpression(inp, old(at), old(errors))
      decreases |inp.tokens| - at, 3
    {
      var first := Primary();
      n := Binary(first, 0);
    }

    method Binary(left0: Node, min: nat) returns (left: Node)
      requires Valid()
      modifies this`at, this`errors
      ensures Valid() && Parsed(left, at, errors) == ParseBinary(inp, left0, old(at), old(errors), min)
      decreases |inp.tokens| - at, 1
    {
      hide Precedence, ParseBinary, Steps;
      left := left0;
      while true
        invariant Valid() && at >= old(at)
        invariant ParseBinary(inp, left0, old(at), old(errors), min) == ParseBinary(inp, left, at, errors, min)
        decreases |inp.tokens| - at
      {
        BinaryUnfold(inp, left, at, errors, min);
        if Precedence(Peek().text) < min { break; }
        left := Operation(left);
      }
    }

    /** One round of the loop: the operator, its right operand, and the node over both. */
    method Operation(left: Node) returns (joined: Node)
      requires Valid() && Precedence(Peek().text) >= 0
      modifies this`at, this`errors
      ensures Valid() && at > old(at)
      ensures
        var op := inp.tokens[old(at)].text;
        var first := ParsePrimary(inp, inp.After(old(at)), old(errors));
        var right := ParseBinary(inp, first.node, first.at, first.errors, Precedence(op) + 1);
        joined == Joined(left, op, right.node) && at == right.at && errors == right.errors
      decreases |inp.tokens| - at, 0
    {
      hide ParsePrimary, Precedence, ParseBinary, Input.After;
      OperatorIsInside(inp, at);
      var op := Peek().text;
      var level := Precedence(op);
      var t := Take();
      var first := Primary();
      var right := Binary(first, level + 1);
      joined := BinaryNode(Span(left.span.start, right.span.end), op, left, right);
    }

    method Primary() returns (n: Node)
      requires Valid()
      modifies this`at, this`errors
      ensures Valid() && Parsed(n, at, errors) == ParsePrimary(inp, old(at), old(errors))
      decreases |inp.tokens| - at, 2
    {
      hide ParsePrimary, ParseExpression, ParseNumber, ParseSelector, ParseNamed;
      PrimaryUnfold(inp, at, errors);
      var ok, t := Match("-");
      if !ok { ok, t := Match("!"); }
      if ok {
        var child := Primary();
        return UnaryNode(Span(t.span.start, child.span.end), t.text, child);
      }
      ok, t := Match("(");
      if ok {
        n := Expression();
        ok, t := Match(")");
        if !ok { Report(t.span, "expected )"); }
        return;
      }
      ok, t := Match("number");
      if ok {
        n := Number(t);
        return;
      }
      ok, t := Match("selector");
      if ok {
        n := SelectorOf(t);
        return;
      }
      ok, t := Match("identifier");
      if ok {
        n := Named(t);
        return;
      }
      t := Take();
      Report(t.span, "expected expression");
      n := InvalidNode(t.span);
    }

    /** The number `t` has just been taken. */
    method Number(t: Token) returns (n: Node)
      requires Valid() && at > 0 && t == inp.tokens[at - 1]
      modifies this`at, this`errors
      ensures Valid() && Parsed(n, at, errors) == ParseNumber(inp, old(at) - 1, old(errors))
    {
      match inp.canonical(t.text) {
        case None =>
          Report(t.span, "invalid decimal literal");
          return InvalidNode(t.span);
        case Some(text) =>
          var open, _ := Match("[");
          if !open { return DecimalNode(t.span, text); }
          var unit := Take();
          if unit.kind != "identifier" { Report(unit.span, "expected unit"); }
          if inp.registry.Some? && unit.text !in inp.registry.value.units { Report(unit.span, "unknown unit"); }
          var end := unit.span.end;
          var ok, close := Match("]");
          if ok { end := close.span.end; } else { Report(close.span, "expected ]"); }
          n := QuantityNode(Span(t.span.start, end), text, unit.text);
      }
    }

    method SelectorOf(t: Token) returns (n: Node)
      requires Valid() && at > 0 && t == inp.tokens[at - 1]
      modifies this`at, this`errors
      ensures Valid() && Parsed(n, at, errors) == ParseSelector(inp, old(at) - 1, old(errors))
    {
      var raw := TrimSuffix(TrimPrefix(t.text, "${"), "}");
      var colon := FirstColon(raw);
      if colon.None? || raw[colon.value + 1..] == "" {
        Report(t.span, "invalid selector");
        return InvalidNode(t.span);
      }
      if !IsScope(raw[..colon.value]) { Report(t.span, "unknown selector scope"); }
      n := SelectorNode(t.span, raw[..colon.value], raw[colon.value + 1..]);
    }

    /** The identifier `t` has just been taken: a Boolean, a call, or an error. */
    method Named(t: Token) returns (n: Node)
      requires Valid() && at > 0 && t == inp.tokens[at - 1]
      modifies this`at, this`errors
      ensures Valid() && Parsed(n, at, errors) == ParseNamed(inp, old(at) - 1, old(errors))
      decreases |inp.tokens| - at, 5
    {
      if t.text == "true" || t.text == "false" { return BooleanNode(t.span, t.text); }
      var ok, close := Match("(");
      if !ok {
        Report(t.span, "bare identifiers are not valid expressions");
        return InvalidNode(t.span);
      }
      var args: seq<Node> := [];
      if Peek().kind != ")" { args := Args(); }
      ok, close := Match(")");
      var end := t.span.end;
      if ok { end := close.span.end; } else { Report(close.span, "expected )"); }
      if inp.registry.Some? && t.text !in inp.registry.value.functions { Report(t.span, "unknown function " + t.text); }
      n := CallNode(Span(t.span.start, end), t.text, args);
    }

    /** The argument loop: at least one expression, more after each comma. */
    method Args() returns (args: seq<Node>)
      requires Valid()
      modifies this`at, this`errors
      ensures Valid() && ParsedArgs(args, at, errors) == ParseArgs(inp, [], old(at), old(errors))
      decreases |inp.tokens| - at, 4
    {
      args := [];
      while true
        invariant Valid() && at >= old(at)
        invariant ParseArgs(inp, [], old(at), old(errors)) == ParseArgs(inp, args, at, errors)
        decreases |inp.tokens| - at
      {
        var arg := Expression();
        args := args + [arg];
        var more, _ := Match(",");
        if !more { break; }
      }
    }
  }

  /** Parses to the end; anything left over is an error. */
  method Parse(inp: Input, lexErrors: seq<SyntaxError>) returns (root: Node, errors: seq<SyntaxError>)
    requires inp.Terminated()
    ensures root == ParseTokens(inp, lexErrors).node && errors == ParseTokens(inp, lexErrors).errors
  {
    var p := new Parser(inp, lexErrors);
    root := p.Expression();
    if p.Peek().kind != "eof" { p.Report(p.Peek().span, "unexpected token"); }
    errors := p.errors;
  }
}
