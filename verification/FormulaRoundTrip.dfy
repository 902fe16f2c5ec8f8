/** Printing a formula and parsing the tokens gives the formula back. */
module FormulaRoundTrip {
  import opened Wrappers
  import opened FormulaAst
  import opened FormulaParser
  import opened FormulaShape

  /** A token without its position. */
  datatype Lexeme = Lexeme(kind: string, text: string)

  function Symbol(text: string): Lexeme { Lexeme(text, text) }

  function OperatorLexeme(op: string): Lexeme {
    if IsAdditive(op) || IsMultiplicative(op) then Symbol(op) else Lexeme("op", op)
  }

  /** The tree without positions. */
  function Erase(n: Node): Node
    decreases n, 1
  {
    n.(span := Span(0, 0), args := EraseAll(n.args))
  }

  function EraseAll(ns: seq<Node>): (r: seq<Node>)
    ensures |r| == |ns|
    decreases ns, 0
  {
    if ns == [] then [] else [Erase(ns[0])] + EraseAll(ns[1..])
  }

  // ---------- The printer ----------

  /** Binary nodes that bind less tightly than `min` are put in parentheses, nothing else is. */
  function Print(n: Node, min: nat): seq<Lexeme>
    decreases n, 2
  {
    if n.kind == Binary && |n.args| == 2 && Precedence(n.operator) < min then [Symbol("(")] + PrintBare(n) + [Symbol(")")]
    else PrintBare(n)
  }

  function PrintBare(n: Node): seq<Lexeme>
    decreases n, 1
  {
    match n.kind
    case Decimal => [Lexeme("number", n.text)]
    case Boolean => [Lexeme("identifier", n.text)]
    case Quantity => [Lexeme("number", n.text), Symbol("["), Lexeme("identifier", n.unit), Symbol("]")]
    case Selector => [Lexeme("selector", "${" + n.scope + ":" + n.symbol + "}")]
    case Call => [Lexeme("identifier", n.text), Symbol("(")] + PrintArgs(n.args) + [Symbol(")")]
    case Unary => if |n.args| == 1 then [Symbol(n.operator)] + Print(n.args[0], 6) else []
    case Binary =>
      if |n.args| == 2 && Precedence(n.operator) >= 1 then
        Print(n.args[0], Precedence(n.operator)) + [OperatorLexeme(n.operator)] + Print(n.args[1], Precedence(n.operator) + 1)
      else []
    case Invalid => []
  }

  function PrintArgs(args: seq<Node>): seq<Lexeme>
    decreases args, 3
  {
    if args == [] then []
    else if |args| == 1 then Print(args[0], 0)
    else Print(args[0], 0) + [Symbol(",")] + PrintArgs(args[1..])
  }

  // ---------- Which trees can be written ----------

  /** The spelling of a canonical number: it cannot be mistaken for a sign or a parenthesis. */
  predicate IsNumeral(inp: Input, text: string) {
    inp.canonical(text) == Some(text) && text != "-" && text != "!" && text != "("
  }

  /** Well-formed trees of known names, units and scopes, without calls of the `avoided` names. */
  predicate WritableWithout(inp: Input, avoided: set<string>, n: Node) {
    (forall i | 0 <= i < |n.args| :: WritableWithout(inp, avoided, n.args[i])) && WritableRoot(inp, avoided, n)
  }

  predicate WritableRoot(inp: Input, avoided: set<string>, n: Node) {
    match n.kind
    case Decimal => n == DecimalNode(n.span, n.text) && IsNumeral(inp, n.text)
    case Boolean => n == BooleanNode(n.span, n.text) && (n.text == "true" || n.text == "false")
    case Quantity => n == QuantityNode(n.span, n.text, n.unit) && IsNumeral(inp, n.text) && inp.KnowsUnit(n.unit)
    case Selector => n == SelectorNode(n.span, n.scope, n.symbol) && IsScope(n.scope) && n.symbol != ""
    case Call => n == CallNode(n.span, n.text, n.args) && n.text !in avoided && inp.KnowsFunction(n.text)
    case Unary => |n.args| == 1 && n == UnaryNode(n.span, n.operator, n.args[0]) && (n.operator == "-" || n.operator == "!")
    case Binary => |n.args| == 2 && n == BinaryNode(n.span, n.operator, n.args[0], n.args[1]) && Precedence(n.operator) >= 1
    case Invalid => false
  }

  predicate Writable(inp: Input, n: Node) { WritableWithout(inp, RESERVED, n) }

  /** Writable, but for the words the matcher takes for something else. */
  predicate WritableUpToNames(inp: Input, n: Node) { WritableWithout(inp, {}, n) }

  /** The lexemes `ls` stand at position `at`, with at least one more token after them. */
  predicate Here(inp: Input, at: nat, ls: seq<Lexeme>) {
    at + |ls| < |inp.tokens| && forall i | 0 <= i < |ls| :: Lexeme(inp.tokens[at + i].kind, inp.tokens[at + i].text) == ls[i]
  }

  lemma HereSplit(inp: Input, at: nat, a: seq<Lexeme>, b: seq<Lexeme>)
    requires Here(inp, at, a + b)
    ensures Here(inp, at, a) && Here(inp, at + |a|, b)
    ensures a != [] ==> Lexeme(inp.tokens[at].kind, inp.tokens[at].text) == a[0]
    ensures b != [] ==> Lexeme(inp.tokens[at + |a|].kind, inp.tokens[at + |a|].text) == b[0]
  {
    forall i | 0 <= i < |a| ensures Lexeme(inp.tokens[at + i].kind, inp.tokens[at + i].text) == a[i] {
      assert (a + b)[i] == a[i];
    }
    forall i | 0 <= i < |b| ensures Lexeme(inp.tokens[at + |a| + i].kind, inp.tokens[at + |a| + i].text) == b[i] {
      assert (a + b)[|a| + i] == b[i];
    }
  }

  lemma HereInside(inp: Input, at: nat, ls: seq<Lexeme>)
    requires Here(inp, at, ls)
    ensures at + |ls| < |inp.tokens|
  {
  }

  /** How tightly a printed node holds together: operators that follow must not bind tighter. */
  function Tightness(n: Node, level: nat): int {
    if n.kind == Binary && Precedence(n.operator) >= level then Precedence(n.operator) else 6
  }

  function TextAt(inp: Input, at: nat): string
    requires at < |inp.tokens|
  {
    inp.tokens[at].text
  }

  // ---------- Parsing what was printed ----------

  /** `p` is the node `n`, read from `at` to `end` without new errors. */
  predicate ReadsAs(p: Parsed, n: Node, end: nat, errors: seq<SyntaxError>) {
    Erase(p.node) == Erase(n) && p.at == end && p.errors == errors
  }

  lemma {:induction false} PrimaryReads(inp: Input, at: nat, errors: seq<SyntaxError>, n: Node, min: nat)
    requires inp.Terminated() && Writable(inp, n) && Here(inp, at, Print(n, min))
    requires n.kind == Binary ==> Precedence(n.operator) < min
    requires !inp.Is(at + |Print(n, min)|, "[") && !inp.Is(at + |Print(n, min)|, "(")
    ensures ReadsAs(ParsePrimary(inp, at, errors), n, at + |Print(n, min)|, errors)
    decreases n, 2
  {
    hide PrintBare, Here, ParsePrimary, ReadsAs, Writable;
    WritableKind(inp, n);
    match n.kind
    case Decimal => LeafReads(inp, at, errors, n);
    case Boolean => LeafReads(inp, at, errors, n);
    case Quantity => LeafReads(inp, at, errors, n);
    case Selector => SelectorReads(inp, at, errors, n);
    case Call => CallReads(inp, at, errors, n);
    case Unary => UnaryReads(inp, at, errors, n);
    case Binary => GroupReads(inp, at, errors, n);
  }

  lemma WritableKind(inp: Input, n: Node)
    requires Writable(inp, n)
    ensures n.kind != Invalid && (n.kind == Binary ==> |n.args| == 2)
  {
  }

  lemma {:induction false} UnaryReads(inp: Input, at: nat, errors: seq<SyntaxError>, n: Node)
    requires inp.Terminated() && Writable(inp, n) && n.kind == Unary && Here(inp, at, PrintBare(n))
    requires !inp.Is(at + |PrintBare(n)|, "[") && !inp.Is(at + |PrintBare(n)|, "(")
    ensures ReadsAs(ParsePrimary(inp, at, errors), n, at + |PrintBare(n)|, errors)
    decreases n, 0
  {
    hide Print, Here;
    HereSplit(inp, at, [Symbol(n.operator)], Print(n.args[0], 6));
    PrimaryReads(inp, at + 1, errors, n.args[0], 6);
    var child := ParsePrimary(inp, at + 1, errors);
    EraseOne(child.node);
    EraseOne(n.args[0]);
    assert n.args == [n.args[0]];
  }

  lemma {:induction false} GroupReads(inp: Input, at: nat, errors: seq<SyntaxError>, n: Node)
    requires inp.Terminated() && Writable(inp, n) && n.kind == Binary
    requires Here(inp, at, [Symbol("(")] + PrintBare(n) + [Symbol(")")])
    ensures ReadsAs(ParsePrimary(inp, at, errors), n, at + |PrintBare(n)| + 2, errors)
    decreases n, 2, 0
  {
    HereSplit(inp, at, [Symbol("(")] + PrintBare(n), [Symbol(")")]);
    HereSplit(inp, at, [Symbol("(")], PrintBare(n));
    assert Print(n, 0) == PrintBare(n);
    hide Print, PrintBare, Here, Writable, Erase;
    ExpressionReads(inp, at + 1, errors, n);
  }

  lemma EraseOne(n: Node)
    ensures EraseAll([n]) == [Erase(n)]
  {
    assert [n][1..] == [];
  }

  lemma EraseTwo(l: Node, r: Node)
    ensures EraseAll([l, r]) == [Erase(l), Erase(r)]
  {
    EraseOne(r);
    assert [l, r][1..] == [r];
  }

  lemma LeafReads(inp: Input, at: nat, errors: seq<SyntaxError>, n: Node)
    requires inp.Terminated() && Writable(inp, n) && (n.kind == Decimal || n.kind == Boolean || n.kind == Quantity)
    requires Here(inp, at, PrintBare(n)) && !inp.Is(at + |PrintBare(n)|, "[")
    ensures ReadsAs(ParsePrimary(inp, at, errors), n, at + |PrintBare(n)|, errors)
  {
    hide ParsePrimary, ParseExpression, ParseNumber, ParseSelector, Print, PrintArgs, IsScope, Precedence, IsNumeral;
    PrimaryUnfold(inp, at, errors);
    var ls := PrintBare(n);
    assert inp.tokens[at].kind == ls[0].kind && inp.tokens[at].text == ls[0].text;
    if n.kind != Boolean {
      NumeralFacts(inp, n.text);
      NumberReads(inp, at, errors, n);
    }
  }

  lemma NumeralFacts(inp: Input, text: string)
    requires IsNumeral(inp, text)
    ensures inp.canonical(text) == Some(text) && text != "-" && text != "!" && text != "("
  {
  }

  lemma NumberReads(inp: Input, at: nat, errors: seq<SyntaxError>, n: Node)
    requires inp.Terminated() && Writable(inp, n) && (n.kind == Decimal || n.kind == Quantity)
    requires Here(inp, at, PrintBare(n)) && !inp.Is(at + |PrintBare(n)|, "[")
    ensures ReadsAs(ParseNumber(inp, at, errors), n, at + |PrintBare(n)|, errors)
  {
    hide Print, PrintArgs, IsScope, Precedence;
    var ls := PrintBare(n);
    assert inp.tokens[at].kind == ls[0].kind && inp.tokens[at].text == ls[0].text;
    if n.kind == Quantity {
      assert inp.tokens[at + 1].kind == ls[1].kind && inp.tokens[at + 1].text == ls[1].text;
      assert inp.tokens[at + 2].kind == ls[2].kind && inp.tokens[at + 2].text == ls[2].text;
      assert inp.tokens[at + 3].kind == ls[3].kind && inp.tokens[at + 3].text == ls[3].text;
    }
  }

  lemma SelectorText(scope: string, symbol: string)
    requires IsScope(scope) && symbol != ""
    ensures
      var text := "${" + scope + ":" + symbol + "}";
      var raw := scope + ":" + symbol;
      text[0] == '$' && TrimSuffix(TrimPrefix(text, "${"), "}") == raw
      && FirstColon(raw) == Some(|scope|) && raw[..|scope|] == scope && raw[|scope| + 1..] == symbol
  {
    var raw := scope + ":" + symbol;
    var text := "${" + scope + ":" + symbol + "}";
    assert text == "${" + (raw + "}");
    SuffixTrimmed(raw, "}");
    assert ':' !in scope;
    ColonSplits(scope, symbol);
  }

  lemma {:induction false} FirstColonAt(s: string, i: nat)
    requires i < |s| && s[i] == ':' && ':' !in s[..i]
    ensures FirstColon(s) == Some(i)
  {
    if i > 0 {
      assert s[..i][0] == s[0] && s[1..][..i - 1] == s[..i][1..];
      FirstColonAt(s[1..], i - 1);
    }
  }

  lemma ColonSplits(scope: string, symbol: string)
    requires ':' !in scope
    ensures
      var raw := scope + ":" + symbol;
      FirstColon(raw) == Some(|scope|) && raw[..|scope|] == scope && raw[|scope| + 1..] == symbol
  {
    hide FirstColon;
    var raw := scope + ":" + symbol;
    assert raw[..|scope|] == scope && raw[|scope| + 1..] == symbol;
    FirstColonAt(raw, |scope|);
  }

  lemma SuffixTrimmed(s: string, suffix: string)
    ensures TrimSuffix(s + suffix, suffix) == s
  {
    assert (s + suffix)[|s|..] == suffix && (s + suffix)[..|s|] == s;
  }

  lemma SelectorReads(inp: Input, at: nat, errors: seq<SyntaxError>, n: Node)
    requires inp.Terminated() && Writable(inp, n) && n.kind == Selector && Here(inp, at, PrintBare(n))
    ensures ReadsAs(ParsePrimary(inp, at, errors), n, at + |PrintBare(n)|, errors)
  {
    hide ParsePrimary, ParseExpression, ParseNumber, ParseNamed, TrimPrefix, TrimSuffix, FirstColon, Print, PrintArgs, IsNumeral, Precedence;
    PrimaryUnfold(inp, at, errors);
    SelectorText(n.scope, n.symbol);
    assert Lexeme(inp.tokens[at + 0].kind, inp.tokens[at + 0].text) == PrintBare(n)[0];
  }

  lemma {:induction false} CallReads(inp: Input, at: nat, errors: seq<SyntaxError>, n: Node)
    requires inp.Terminated() && Writable(inp, n) && n.kind == Call && Here(inp, at, PrintBare(n))
    ensures ReadsAs(ParsePrimary(inp, at, errors), n, at + |PrintBare(n)|, errors)
    decreases n, 0
  {
    hide Print, PrintArgs, PrintBare, Here, Writable, WritableWithout, ParseArgs, ParsePrimary, Erase;
    CallPrinted(inp, at, n);
    WritableArgs(inp, n);
    PrimaryIsCall(inp, at, errors);
    if n.args != [] {
      ArgsRead(inp, [], at + 2, errors, n.args);
      assert ParseArgs(inp, [], at + 2, errors).args[0..] == ParseArgs(inp, [], at + 2, errors).args;
    }
    CallErased(ParseCall(inp, at, errors).node, n);
  }

  lemma CallErased(m: Node, n: Node)
    requires m == CallNode(m.span, m.text, m.args) && n == CallNode(n.span, n.text, n.args)
    requires m.text == n.text && EraseAll(m.args) == EraseAll(n.args)
    ensures Erase(m) == Erase(n)
  {
  }

  lemma PrimaryIsCall(inp: Input, at: nat, errors: seq<SyntaxError>)
    requires inp.Terminated() && at < |inp.tokens| - 1
    requires inp.tokens[at].kind == "identifier" && inp.tokens[at].text !in RESERVED
    requires inp.tokens[at + 1].kind == "("
    ensures ParsePrimary(inp, at, errors) == ParseCall(inp, at, errors)
  {
    hide ParseCall, ParseExpression, ParseNumber, ParseSelector;
  }

  lemma WritableArgs(inp: Input, n: Node)
    requires Writable(inp, n) && n.kind == Call
    ensures forall i | 0 <= i < |n.args| :: Writable(inp, n.args[i])
    ensures n == CallNode(n.span, n.text, n.args) && n.text !in RESERVED && inp.KnowsFunction(n.text)
  {
  }

  /** Where the name, the parentheses and the arguments of a printed call stand. */
  lemma CallPrinted(inp: Input, at: nat, n: Node)
    requires Writable(inp, n) && n.kind == Call && Here(inp, at, PrintBare(n))
    ensures inp.tokens[at].kind == "identifier" && inp.tokens[at].text == n.text
    ensures inp.tokens[at + 1].kind == inp.tokens[at + 1].text == "("
    ensures |PrintBare(n)| == 3 + |PrintArgs(n.args)| && Here(inp, at + 2, PrintArgs(n.args))
    ensures
      var close := at + 2 + |PrintArgs(n.args)|;
      close + 1 < |inp.tokens| && inp.tokens[close].kind == inp.tokens[close].text == ")"
    ensures if n.args == [] then PrintArgs(n.args) == [] else inp.tokens[at + 2].kind != ")"
  {
    var head, list := [Lexeme("identifier", n.text), Symbol("(")], PrintArgs(n.args);
    HereSplit(inp, at, head + list, [Symbol(")")]);
    HereSplit(inp, at, head, list);
    assert Lexeme(inp.tokens[at + 1].kind, inp.tokens[at + 1].text) == head[1];
    if n.args != [] {
      PrintStarts(inp, n.args[0], 0, at + 2);
      FirstArg(inp, at + 2, n.args);
      assert Lexeme(inp.tokens[at + 2 + 0].kind, inp.tokens[at + 2 + 0].text) == Print(n.args[0], 0)[0];
    }
  }

  lemma ArgsPrinted(inp: Input, at: nat, args: seq<Node>)
    requires |args| > 1 && Here(inp, at, PrintArgs(args))
    ensures
      var mid := at + |Print(args[0], 0)|;
      Here(inp, at, Print(args[0], 0)) && Here(inp, mid + 1, PrintArgs(args[1..]))
      && inp.tokens[mid].kind == inp.tokens[mid].text == ","
      && at + |PrintArgs(args)| == mid + 1 + |PrintArgs(args[1..])|
  {
    hide Print, PrintArgs, Here;
    var first := Print(args[0], 0);
    MoreArgs(args);
    HereSplit(inp, at, first, [Symbol(",")] + PrintArgs(args[1..]));
    HereSplit(inp, at + |first|, [Symbol(",")], PrintArgs(args[1..]));
  }

  lemma MoreArgs(args: seq<Node>)
    requires |args| > 1
    ensures PrintArgs(args) == Print(args[0], 0) + ([Symbol(",")] + PrintArgs(args[1..]))
  {
    hide Print;
  }

  lemma FirstArg(inp: Input, at: nat, args: seq<Node>)
    requires args != [] && Here(inp, at, PrintArgs(args))
    ensures Here(inp, at, Print(args[0], 0))
  {
    hide Print, Here;
    if |args| > 1 { ArgsPrinted(inp, at, args); }
  }

  lemma {:induction false} PrintStarts(inp: Input, n: Node, min: nat, at: nat)
    requires Writable(inp, n)
    ensures Print(n, min) != [] && Print(n, min)[0].kind != ")"
  {
    if n.kind == Binary { PrintStarts(inp, n.args[0], Precedence(n.operator), at); }
  }

  lemma {:induction false} ArgsRead(inp: Input, before: seq<Node>, at: nat, errors: seq<SyntaxError>, args: seq<Node>)
    requires inp.Terminated() && args != [] && (forall i | 0 <= i < |args| :: Writable(inp, args[i]))
    requires Here(inp, at, PrintArgs(args)) && inp.tokens[at + |PrintArgs(args)|].text == ")" == inp.tokens[at + |PrintArgs(args)|].kind
    ensures
      var p := ParseArgs(inp, before, at, errors);
      p.at == at + |PrintArgs(args)| && p.errors == errors && |p.args| == |before| + |args|
      && p.args[..|before|] == before && EraseAll(p.args[|before|..]) == EraseAll(args)
    decreases args, 9
  {
    hide Print, PrintArgs, Here, Writable, WritableWithout, ParseExpression, ParseArgs, Erase, EraseAll;
    HereInside(inp, at, PrintArgs(args));
    ArgsUnfold(inp, before, at, errors);
    var arg := ParseExpression(inp, at, errors);
    if |args| == 1 {
      OneArg(args);
      ExpressionReads(inp, at, errors, args[0]);
      assert (before + [arg.node])[|before|..] == [arg.node];
      EraseOne(arg.node);
    } else {
      ArgsPrinted(inp, at, args);
      var mid := at + |Print(args[0], 0)|;
      ExpressionReads(inp, at, errors, args[0]);
      ArgsRead(inp, before + [arg.node], mid + 1, errors, args[1..]);
      ArgsErased(before, arg.node, ParseArgs(inp, before + [arg.node], mid + 1, errors).args, args);
    }
  }

  lemma OneArg(args: seq<Node>)
    requires |args| == 1
    ensures PrintArgs(args) == Print(args[0], 0) && EraseAll(args) == [Erase(args[0])]
  {
    hide Print, Erase;
  }

  lemma ArgsErased(before: seq<Node>, arg: Node, parsed: seq<Node>, args: seq<Node>)
    requires args != [] && |parsed| == |before| + |args| && parsed[..|before| + 1] == before + [arg]
    requires Erase(arg) == Erase(args[0]) && EraseAll(parsed[|before| + 1..]) == EraseAll(args[1..])
    ensures parsed[..|before|] == before && EraseAll(parsed[|before|..]) == EraseAll(args)
  {
    assert parsed[..|before|] == parsed[..|before| + 1][..|before|];
    assert parsed[|before|] == parsed[..|before| + 1][|before|];
    assert parsed[|before|..][1..] == parsed[|before| + 1..];
  }

  /** An expression ends at a token that is no operator and opens no suffix. */
  lemma {:induction false} ExpressionReads(inp: Input, at: nat, errors: seq<SyntaxError>, n: Node)
    requires inp.Terminated() && Writable(inp, n) && Here(inp, at, Print(n, 0))
    requires Precedence(TextAt(inp, at + |Print(n, 0)|)) < 0
    requires !inp.Is(at + |Print(n, 0)|, "[") && !inp.Is(at + |Print(n, 0)|, "(")
    ensures ReadsAs(ParseExpression(inp, at, errors), n, at + |Print(n, 0)|, errors)
    decreases n, if n.kind == Binary then 1 else 4
  {
    var left := SpineReads(inp, at, errors, n, 0, 0);
  }

  /** Reading a printed node and going on with operators of level `min` is going on with that node as left operand. */
  lemma {:induction false} SpineReads(inp: Input, at: nat, errors: seq<SyntaxError>, n: Node, level: nat, min: nat) returns (left: Node)
    requires inp.Terminated() && Writable(inp, n) && Here(inp, at, Print(n, level)) && min <= level
    requires Precedence(TextAt(inp, at + |Print(n, level)|)) <= Tightness(n, level)
    requires !inp.Is(at + |Print(n, level)|, "[") && !inp.Is(at + |Print(n, level)|, "(")
    ensures Erase(left) == Erase(n)
    ensures
      var first := ParsePrimary(inp, at, errors);
      ParseBinary(inp, first.node, first.at, first.errors, min) == ParseBinary(inp, left, at + |Print(n, level)|, errors, min)
    decreases n, if n.kind == Binary && Precedence(n.operator) >= level then 0 else 3
  {
    if n.kind != Binary || Precedence(n.operator) < level {
      PrimaryReads(inp, at, errors, n, level);
      left := ParsePrimary(inp, at, errors).node;
    } else {
      left := BinaryReads(inp, at, errors, n, min);
    }
  }

  /** The left operand is read as a spine of its own, then the operator, then the right operand one level tighter. */
  lemma {:induction false} BinaryReads(inp: Input, at: nat, errors: seq<SyntaxError>, n: Node, min: nat) returns (left: Node)
    requires inp.Terminated() && Writable(inp, n) && n.kind == Binary && Here(inp, at, PrintBare(n)) && min <= Precedence(n.operator)
    requires Precedence(TextAt(inp, at + |PrintBare(n)|)) <= Precedence(n.operator)
    requires !inp.Is(at + |PrintBare(n)|, "[") && !inp.Is(at + |PrintBare(n)|, "(")
    ensures Erase(left) == Erase(n)
    ensures
      var first := ParsePrimary(inp, at, errors);
      ParseBinary(inp, first.node, first.at, first.errors, min) == ParseBinary(inp, left, at + |PrintBare(n)|, errors, min)
    decreases n, 0, 0
  {
    hide Print, Here, PrintBare, ParsePrimary, ParseBinary, ParseExpression, Erase, EraseAll;
    WritableChildren(inp, n);
    hide Writable;
    var op, l, r := n.operator, n.args[0], n.args[1];
    var p := Precedence(op);
    var mid := BinaryPrinted(inp, at, n);
    var end := at + |PrintBare(n)|;
    hide Precedence;
    var l' := SpineReads(inp, at, errors, l, p, min);
    var r' := SpineReads(inp, mid + 1, errors, r, p + 1, p + 1);
    left := Joined(l', op, r');
    JoinedErased(n, l', r');
    TwoSteps(inp, l', mid, errors, min, r', end);
  }

  /** Where the operands and the operator of a printed binary node stand. */
  lemma BinaryPrinted(inp: Input, at: nat, n: Node) returns (mid: nat)
    requires |n.args| == 2 && n.kind == Binary && Precedence(n.operator) >= 1 && Here(inp, at, PrintBare(n))
    ensures 1 <= Precedence(n.operator) <= 5
    ensures
      var p := Precedence(n.operator);
      mid == at + |Print(n.args[0], p)| && mid + 1 + |Print(n.args[1], p + 1)| == at + |PrintBare(n)| < |inp.tokens|
      && Here(inp, at, Print(n.args[0], p)) && Here(inp, mid + 1, Print(n.args[1], p + 1))
      && TextAt(inp, mid) == n.operator && !inp.Is(mid, "[") && !inp.Is(mid, "(")
  {
    var op := n.operator;
    var p := Precedence(op);
    var pl, po, pr := Print(n.args[0], p), [OperatorLexeme(op)], Print(n.args[1], p + 1);
    assert PrintBare(n) == pl + po + pr;
    hide Print, PrintBare;
    HereSplit(inp, at, pl + po, pr);
    HereSplit(inp, at, pl, po);
    mid := at + |pl|;
    assert TextAt(inp, mid) == op;
    OperatorToken(inp, mid, op);
  }

  lemma WritableChildren(inp: Input, n: Node)
    requires Writable(inp, n) && n.kind == Binary
    ensures |n.args| == 2 && n == BinaryNode(n.span, n.operator, n.args[0], n.args[1]) && Precedence(n.operator) >= 1
    ensures Writable(inp, n.args[0]) && Writable(inp, n.args[1])
  {
  }

  lemma JoinedErased(n: Node, l: Node, r: Node)
    requires n.kind == Binary && |n.args| == 2 && n == BinaryNode(n.span, n.operator, n.args[0], n.args[1])
    requires Erase(l) == Erase(n.args[0]) && Erase(r) == Erase(n.args[1])
    ensures Erase(Joined(l, n.operator, r)) == Erase(n)
  {
    assert n.args == [n.args[0], n.args[1]];
    EraseTwo(n.args[0], n.args[1]);
    EraseTwo(l, r);
  }

  /** One round of the operator loop. */
  lemma TwoSteps(inp: Input, l: Node, at: nat, errors: seq<SyntaxError>, min: nat, r: Node, end: nat)
    requires inp.Terminated() && at + 1 < |inp.tokens| && end < |inp.tokens|
    requires Precedence(TextAt(inp, at)) >= min && Precedence(TextAt(inp, end)) <= Precedence(TextAt(inp, at))
    requires
      var first := ParsePrimary(inp, at + 1, errors);
      ParseBinary(inp, first.node, first.at, first.errors, Precedence(TextAt(inp, at)) + 1)
        == ParseBinary(inp, r, end, errors, Precedence(TextAt(inp, at)) + 1)
    ensures ParseBinary(inp, l, at, errors, min) == ParseBinary(inp, Joined(l, TextAt(inp, at), r), end, errors, min)
  {
    hide ParsePrimary, Precedence;
    assert ParseBinary(inp, r, end, errors, Precedence(TextAt(inp, at)) + 1) == Parsed(r, end, errors);
  }

  lemma OperatorToken(inp: Input, at: nat, op: string)
    requires at < |inp.tokens| && Precedence(op) >= 1
    requires Lexeme(inp.tokens[at].kind, inp.tokens[at].text) == OperatorLexeme(op)
    ensures !inp.Is(at, "[") && !inp.Is(at, "(")
  {
  }

  /** Printing any writable formula and parsing the tokens gives the same formula, positions aside, without errors. */
  lemma ParsePrint(inp: Input, n: Node)
    requires inp.Terminated() && Writable(inp, n)
    requires |inp.tokens| == |Print(n, 0)| + 1 && Here(inp, 0, Print(n, 0))
    ensures Erase(ParseTokens(inp, []).node) == Erase(n) && ParseTokens(inp, []).errors == []
  {
    ExpressionReads(inp, 0, [], n);
  }

  // ---------- Which trees are read back: the exact condition ----------

  /** The tokens of a printed tree and the end marker. */
  predicate IsPrinted(inp: Input, n: Node) {
    inp.Terminated() && |inp.tokens| == |Print(n, 0)| + 1 && Here(inp, 0, Print(n, 0))
  }

  predicate ReadsBack(inp: Input, n: Node)
    requires inp.Terminated()
  {
    Erase(ParseTokens(inp, []).node) == Erase(n) && ParseTokens(inp, []).errors == []
  }

  /** No call in the tree, however deep, has a reserved name. */
  predicate CallsFree(n: Node) {
    (n.kind == Call ==> n.text !in RESERVED) && forall i | 0 <= i < |n.args| :: CallsFree(n.args[i])
  }

  lemma {:induction false} WritableByNames(inp: Input, n: Node)
    ensures Writable(inp, n) <==> WritableUpToNames(inp, n) && CallsFree(n)
  {
    forall i | 0 <= i < |n.args| ensures Writable(inp, n.args[i]) <==> WritableUpToNames(inp, n.args[i]) && CallsFree(n.args[i]) {
      WritableByNames(inp, n.args[i]);
    }
  }

  lemma {:induction false} GrownCallsFree(inp: Input, clean: bool, n: Node)
    requires Grown(inp, clean, n)
    ensures CallsFree(n)
  {
    forall i | 0 <= i < |n.args| ensures CallsFree(n.args[i]) { GrownCallsFree(inp, clean, n.args[i]); }
  }

  lemma {:induction false} EraseAllAt(ns: seq<Node>, i: nat)
    requires i < |ns|
    ensures EraseAll(ns)[i] == Erase(ns[i])
  {
    if i > 0 { EraseAllAt(ns[1..], i - 1); }
  }

  lemma {:induction false} EraseKeepsCallsFree(n: Node)
    ensures CallsFree(Erase(n)) <==> CallsFree(n)
  {
    forall i | 0 <= i < |n.args| ensures CallsFree(Erase(n).args[i]) <==> CallsFree(n.args[i]) {
      EraseAllAt(n.args, i);
      EraseKeepsCallsFree(n.args[i]);
    }
  }

  lemma {:induction false} EraseKeepsWritable(inp: Input, n: Node)
    ensures Writable(inp, Erase(n)) <==> Writable(inp, n)
  {
    hide WritableRoot;
    forall i | 0 <= i < |n.args| ensures Writable(inp, Erase(n).args[i]) <==> Writable(inp, n.args[i]) {
      EraseAllAt(n.args, i);
      EraseKeepsWritable(inp, n.args[i]);
    }
    EraseKeepsRoot(inp, n);
  }

  lemma EraseKeepsRoot(inp: Input, n: Node)
    ensures WritableRoot(inp, RESERVED, Erase(n)) <==> WritableRoot(inp, RESERVED, n)
  {
    hide Erase, IsNumeral, IsScope, Precedence;
    EraseShape(n);
  }

  /** Only positions change. */
  lemma EraseShape(n: Node)
    ensures |Erase(n).args| == |n.args| && Erase(n) == n.(span := Span(0, 0), args := Erase(n).args)
    ensures |n.args| == 1 ==> Erase(n).args == [Erase(n).args[0]] && n.args == [n.args[0]]
    ensures |n.args| == 2 ==> Erase(n).args == [Erase(n).args[0], Erase(n).args[1]] && n.args == [n.args[0], n.args[1]]
    ensures |n.args| == 0 ==> Erase(n).args == n.args == []
  {
  }

  /** No parse of any tokens, with errors or without, contains a call of a reserved name: such a function cannot be called. */
  lemma ReservedNamesAreNeverCalled(inp: Input, errors: seq<SyntaxError>)
    requires inp.Terminated()
    ensures CallsFree(ParseTokens(inp, errors).node)
  {
    ParseGrows(inp, errors);
    GrownCallsFree(inp, false, ParseTokens(inp, errors).node);
  }

  /** A tree that is writable up to its names is read back if and only if none of its calls has a reserved name. */
  lemma CallNamesSurvive(inp: Input, n: Node)
    requires IsPrinted(inp, n) && WritableUpToNames(inp, n)
    ensures ReadsBack(inp, n) <==> CallsFree(n)
  {
    hide Print, Here, Writable, WritableUpToNames, ParseTokens, CallsFree, Erase;
    if CallsFree(n) {
      WritableByNames(inp, n);
      ParsePrint(inp, n);
    }
    ReservedNamesAreNeverCalled(inp, []);
    EraseKeepsCallsFree(n);
    EraseKeepsCallsFree(ParseTokens(inp, []).node);
  }

  /** With any registry that its constructor accepts the condition is free. */
  lemma {:induction false} RegisteredNamesAreFree(inp: Input, n: Node)
    requires inp.registry.Some? && inp.registry.value.Valid() && WritableUpToNames(inp, n)
    ensures Writable(inp, n)
  {
    forall i | 0 <= i < |n.args| ensures Writable(inp, n.args[i]) { RegisteredNamesAreFree(inp, n.args[i]); }
    if n.kind == Call { assert n.text in FUNCTIONS_V1; }
  }

  /** Without a registry it is not: a call of `number`, arguments and all, is not read back. */
  lemma UnregisteredNumberIsLost(inp: Input, args: seq<Node>)
    requires inp.registry == None && (forall i | 0 <= i < |args| :: WritableUpToNames(inp, args[i]))
    requires IsPrinted(inp, CallNode(Span(0, 0), "number", args))
    ensures WritableUpToNames(inp, CallNode(Span(0, 0), "number", args)) && !ReadsBack(inp, CallNode(Span(0, 0), "number", args))
  {
    hide Print, Here, ParseTokens;
    var n := CallNode(Span(0, 0), "number", args);
    assert WritableUpToNames(inp, n) && !CallsFree(n);
    CallNamesSurvive(inp, n);
  }

  // ---------- Error-free parses are exactly the writable trees ----------

  /** Printed decimals are numerals and print as themselves. */
  ghost predicate Stable(inp: Input) {
    forall t | inp.canonical(t).Some? :: IsNumeral(inp, inp.canonical(t).value)
  }

  /** Sign tokens spell their sign, as all lexed and all printed ones do. */
  ghost predicate SignsAgree(inp: Input) {
    forall i | 0 <= i < |inp.tokens| && (inp.tokens[i].kind == "-" || inp.tokens[i].kind == "!") :: inp.tokens[i].text == inp.tokens[i].kind
  }

  lemma {:induction false} GrownIsWritable(inp: Input, n: Node)
    requires Stable(inp) && SignsAgree(inp) && Grown(inp, true, n)
    ensures Writable(inp, n)
  {
    forall i | 0 <= i < |n.args| ensures Writable(inp, n.args[i]) { GrownIsWritable(inp, n.args[i]); }
    hide Precedence, IsNumeral;
    if n.kind == Decimal || n.kind == Quantity {
      var t :| inp.canonical(t) == Some(n.text);
      assert IsNumeral(inp, inp.canonical(t).value);
    }
  }

  /** Whatever parses without errors is a writable tree. */
  lemma ErrorFreeIsWritable(inp: Input, errors: seq<SyntaxError>)
    requires inp.Terminated() && Stable(inp) && SignsAgree(inp) && ParseTokens(inp, errors).errors == errors
    ensures Writable(inp, ParseTokens(inp, errors).node)
  {
    hide Writable, Grown;
    ParseGrows(inp, errors);
    GrownIsWritable(inp, ParseTokens(inp, errors).node);
  }

  /** Lexemes of sign kind spell their sign. */
  predicate SignsSpelled(ls: seq<Lexeme>) {
    forall l | l in ls && (l.kind == "-" || l.kind == "!") :: l.text == l.kind
  }

  lemma SignsJoin(a: seq<Lexeme>, b: seq<Lexeme>)
    requires SignsSpelled(a) && SignsSpelled(b)
    ensures SignsSpelled(a + b)
  {
  }

  lemma {:induction false} PrintSigns(n: Node, min: nat)
    ensures SignsSpelled(Print(n, min))
    decreases n, 2
  {
    hide PrintBare;
    BareSigns(n);
    SignsJoin([Symbol("(")], PrintBare(n));
    SignsJoin([Symbol("(")] + PrintBare(n), [Symbol(")")]);
  }

  lemma {:induction false} BareSigns(n: Node)
    ensures SignsSpelled(PrintBare(n))
    decreases n, 1
  {
    hide Print, PrintArgs, Precedence;
    match n.kind
    case Call =>
      PrintArgsSigns(n.args);
      var head := [Lexeme("identifier", n.text), Symbol("(")];
      SignsJoin(head, PrintArgs(n.args));
      SignsJoin(head + PrintArgs(n.args), [Symbol(")")]);
    case Unary =>
      if |n.args| == 1 {
        PrintSigns(n.args[0], 6);
        SignsJoin([Symbol(n.operator)], Print(n.args[0], 6));
      }
    case Binary =>
      if |n.args| == 2 && Precedence(n.operator) >= 1 {
        var p := Precedence(n.operator);
        PrintSigns(n.args[0], p);
        PrintSigns(n.args[1], p + 1);
        SignsJoin(Print(n.args[0], p), [OperatorLexeme(n.operator)]);
        SignsJoin(Print(n.args[0], p) + [OperatorLexeme(n.operator)], Print(n.args[1], p + 1));
      }
    case _ =>
  }

  lemma {:induction false} PrintArgsSigns(args: seq<Node>)
    ensures SignsSpelled(PrintArgs(args))
    decreases args, 3
  {
    hide Print;
    if args != [] {
      PrintSigns(args[0], 0);
      PrintArgsSigns(args[1..]);
      SignsJoin(Print(args[0], 0), [Symbol(",")]);
      SignsJoin(Print(args[0], 0) + [Symbol(",")], PrintArgs(args[1..]));
    }
  }

  lemma PrintedSignsAgree(inp: Input, n: Node)
    requires IsPrinted(inp, n)
    ensures SignsAgree(inp)
  {
    hide Print;
    PrintSigns(n, 0);
    var ls := Print(n, 0);
    forall i | 0 <= i < |inp.tokens| && (inp.tokens[i].kind == "-" || inp.tokens[i].kind == "!") ensures inp.tokens[i].text == inp.tokens[i].kind {
      assert i < |ls|;
      assert Lexeme(inp.tokens[0 + i].kind, inp.tokens[0 + i].text) == ls[i];
      assert ls[i] in ls;
    }
  }

  /** Of all trees, well-formed or not, exactly the writable ones are read back from their printed form. */
  lemma ReadsBackExactly(inp: Input, n: Node)
    requires Stable(inp) && IsPrinted(inp, n)
    ensures ReadsBack(inp, n) <==> Writable(inp, n)
  {
    hide Print, Here, Writable, ParseTokens, Stable, SignsAgree, Erase;
    if Writable(inp, n) { ParsePrint(inp, n); }
    if ReadsBack(inp, n) {
      PrintedSignsAgree(inp, n);
      ErrorFreeIsWritable(inp, []);
      EraseKeepsWritable(inp, n);
      EraseKeepsWritable(inp, ParseTokens(inp, []).node);
    }
  }

  lemma {:induction false} WritableElsewhere(inp: Input, other: Input, n: Node)
    requires inp.registry == other.registry && inp.canonical == other.canonical
    ensures Writable(inp, n) <==> Writable(other, n)
  {
    forall i | 0 <= i < |n.args| ensures Writable(inp, n.args[i]) <==> Writable(other, n.args[i]) { WritableElsewhere(inp, other, n.args[i]); }
  }

  /** Printing what an error-free parse returned and parsing again returns it again. */
  lemma ReprintReadsBack(inp: Input, errors: seq<SyntaxError>, printed: Input)
    requires inp.Terminated() && Stable(inp) && SignsAgree(inp) && ParseTokens(inp, errors).errors == errors
    requires printed.registry == inp.registry && printed.canonical == inp.canonical && IsPrinted(printed, ParseTokens(inp, errors).node)
    ensures ReadsBack(printed, ParseTokens(inp, errors).node)
  {
    hide Print, Here, Writable, Stable, SignsAgree, Erase, ParseTokens;
    ErrorFreeIsWritable(inp, errors);
    WritableElsewhere(inp, printed, ParseTokens(inp, errors).node);
    ParsePrint(printed, ParseTokens(inp, errors).node);
  }
}
