/** Writing a formula as text, lexing it and parsing the tokens. */
module FormulaSpelling {
  import opened Wrappers
  import opened FormulaAst
  import opened FormulaParser
  import opened FormulaShape
  import opened FormulaRoundTrip
  import opened FormulaLexer
  import opened Text
  import opened FormulaTiling

  /** A space belongs to no word in any Unicode version. */
  predicate SpaceSeparates(c: Classes) { !c.isLetter(32) && !c.isDigit(32) }

  predicate Separated(rest: string) { rest == [] || rest[0] == ' ' }

  /** Scanned on its own, the text is one token of the wanted kind. */
  predicate LexesAlone(c: Classes, l: Lexeme) {
    l.text != [] && var sc := Scan(c, l.text);
      IsToken(sc.what) && !sc.what.OpenSelector? && sc.width == |l.text| && KindOf(sc.what, l.text) == l.kind
  }

  function Spell(ls: seq<Lexeme>): string {
    if ls == [] then [] else ls[0].text + [' '] + Spell(ls[1..])
  }

  // ---------- A following space never changes how a token is read ----------

  lemma DecodeBefore(s: string, rest: string)
    requires s != [] && Separated(rest)
    ensures DecodeRune(s + rest) == DecodeRune(s)
    ensures (s + rest)[DecodeRune(s).width..] == s[DecodeRune(s).width..] + rest
  {
    assert forall i | 0 <= i < |s| :: (s + rest)[i] == s[i];
    assert rest != [] ==> (s + rest)[|s|] == ' ';
    assert !IsTail(' ');
  }

  lemma {:induction false} DigitsBefore(s: string, rest: string)
    requires Separated(rest)
    ensures Digits(s + rest) == Digits(s)
  {
    if s == [] {
      assert s + rest == rest;
    } else {
      assert (s + rest)[1..] == s[1..] + rest;
      DigitsBefore(s[1..], rest);
    }
  }

  lemma FractionBefore(s: string, rest: string)
    requires Separated(rest)
    ensures Fraction(s + rest) == Fraction(s)
  {
    if s == [] {
      assert s + rest == rest;
    } else {
      assert (s + rest)[1..] == s[1..] + rest;
      DigitsBefore(s[1..], rest);
    }
  }

  lemma ExponentBefore(s: string, rest: string)
    requires Separated(rest)
    ensures Exponent(s + rest) == Exponent(s)
  {
    if s == [] {
      assert s + rest == rest;
    } else {
      var t := s[1..];
      assert (s + rest)[1..] == t + rest;
      assert t == [] ==> t + rest == rest;
      var sign := if StartsWith(t, '+') || StartsWith(t, '-') then 1 else 0;
      assert (s + rest)[1 + sign..] == s[1 + sign..] + rest;
      DigitsBefore(s[1 + sign..], rest);
    }
  }

  lemma NumberBefore(s: string, rest: string)
    requires Separated(rest)
    ensures NumberTail(s + rest) == NumberTail(s)
  {
    hide Digits, Fraction, Exponent;
    DigitsBefore(s, rest);
    var digits := Digits(s);
    assert (s + rest)[digits..] == s[digits..] + rest;
    FractionBefore(s[digits..], rest);
    var fraction := digits + Fraction(s[digits..]);
    assert (s + rest)[fraction..] == s[fraction..] + rest;
    ExponentBefore(s[fraction..], rest);
  }

  lemma {:induction false} IdentifierBefore(c: Classes, s: string, rest: string)
    requires Separated(rest) && SpaceSeparates(c)
    ensures IdentifierTail(c, s + rest) == IdentifierTail(c, s)
  {
    hide DecodeRune;
    if s == [] {
      assert s + rest == rest;
      if rest != [] { SpaceDecodes(rest); }
    } else {
      DecodeBefore(s, rest);
      IdentifierBefore(c, s[DecodeRune(s).width..], rest);
    }
  }

  lemma SpaceDecodes(s: string)
    requires s != [] && s[0] == ' '
    ensures DecodeRune(s) == Rune(32, 1)
  {
  }

  lemma {:induction false} BraceBefore(s: string, rest: string)
    requires '}' in s
    ensures FirstBrace(s + rest) == FirstBrace(s)
  {
    assert (s + rest)[0] == s[0] && (s + rest)[1..] == s[1..] + rest;
    if s[0] != '}' { BraceBefore(s[1..], rest); }
  }

  /** Longest match stops at a space. */
  lemma ScanBefore(c: Classes, s: string, rest: string)
    requires s != [] && Separated(rest) && SpaceSeparates(c) && !Scan(c, s).what.OpenSelector?
    ensures Scan(c, s + rest) == Scan(c, s)
  {
    hide DecodeRune, IsSpace, IsPunctuation, NumberTail, IdentifierTail;
    DecodeBefore(s, rest);
    var r := DecodeRune(s);
    var tail := s[r.width..];
    NumberBefore(tail, rest);
    IdentifierBefore(c, tail, rest);
    assert tail == [] ==> tail + rest == rest;
    if r.code == '$' as int { SelectorBefore(s, rest); }
    hide FirstBrace;
  }

  lemma SelectorBefore(s: string, rest: string)
    requires s != [] && Separated(rest)
    ensures "${" <= s <==> "${" <= s + rest
    ensures "${" <= s ==> (s + rest)[2..] == s[2..] + rest
    ensures "${" <= s && FirstBrace(s[2..]).Some? ==> FirstBrace((s + rest)[2..]) == FirstBrace(s[2..])
  {
    DollarBefore(s, rest);
    if "${" <= s {
      assert (s + rest)[2..] == s[2..] + rest;
      if '}' in s[2..] { BraceBefore(s[2..], rest); }
    }
  }

  lemma DollarBefore(s: string, rest: string)
    requires s != [] && Separated(rest)
    ensures "${" <= s <==> "${" <= s + rest
  {
    assert "${"[1] == '{';
    assert (s + rest)[0] == s[0];
    assert |s| > 1 ==> (s + rest)[1] == s[1];
    assert |s| == 1 && rest != [] ==> (s + rest)[1] == ' ';
  }

  // ---------- Lexing what was spelled ----------

  /** The tokens are the lexemes in order, then the end marker. */
  ghost predicate Spells(tokens: seq<Token>, ls: seq<Lexeme>) {
    && |tokens| == |ls| + 1
    && (forall i | 0 <= i < |ls| :: Lexeme(tokens[i].kind, tokens[i].text) == ls[i])
    && tokens[|ls|].kind == "eof" && tokens[|ls|].text == ""
  }

  lemma {:induction false} LexSpelled(c: Classes, source: string, at: nat, ls: seq<Lexeme>)
    requires at <= |source| && source[at..] == Spell(ls) && SpaceSeparates(c)
    requires forall l | l in ls :: LexesAlone(c, l)
    ensures Spells(LexFrom(c, source, at).tokens, ls) && LexFrom(c, source, at).errors == []
    decreases |ls|
  {
    hide Scan, LexFrom, Spell, Spells, LexesAlone;
    if ls == [] {
      SpelledEnd(c, source, at);
    } else {
      var l := ls[0];
      assert l in ls;
      var mid := at + |l.text|;
      SpelledHead(c, source, at, ls);
      LexUnfold(c, source, at);
      LexUnfold(c, source, mid);
      LexSpelled(c, source, mid + 1, ls[1..]);
      SpelledToken(c, source, at, l, LexFrom(c, source, mid + 1), ls);
    }
  }

  lemma SpelledEnd(c: Classes, source: string, at: nat)
    requires at <= |source| && source[at..] == Spell([])
    ensures Spells(LexFrom(c, source, at).tokens, []) && LexFrom(c, source, at).errors == []
  {
    assert at == |source|;
  }

  /** The scan of a spelled lexeme takes the lexeme, and the next scan takes the space. */
  lemma SpelledHead(c: Classes, source: string, at: nat, ls: seq<Lexeme>)
    requires ls != [] && at <= |source| && source[at..] == Spell(ls) && SpaceSeparates(c) && LexesAlone(c, ls[0])
    ensures
      var l := ls[0];
      var mid := at + |l.text|;
      at < mid < |source| && source[at..mid] == l.text && Scan(c, source[at..]) == Scan(c, l.text)
      && Scan(c, l.text).width == |l.text| && Scan(c, source[mid..]) == Scanned(Blank, 1) && source[mid + 1..] == Spell(ls[1..])
  {
    hide Scan, Spell;
    var l := ls[0];
    var rest := [' '] + Spell(ls[1..]);
    assert source[at..] == l.text + rest by { SpellUnfold(ls); }
    ScanBefore(c, l.text, rest);
    Slices(source, at, l.text, rest);
    Slices(source, at + |l.text|, [' '], Spell(ls[1..]));
    ScanSpace(c, rest);
  }

  lemma SpellUnfold(ls: seq<Lexeme>)
    requires ls != []
    ensures Spell(ls) == ls[0].text + ([' '] + Spell(ls[1..]))
  {
  }

  lemma Slices(source: string, at: nat, a: string, b: string)
    requires at <= |source| && source[at..] == a + b
    ensures at + |a| + |b| == |source| && source[at..at + |a|] == a && source[at + |a|..] == b
  {
    assert |source[at..]| == |a| + |b|;
    assert source[at..][..|a|] == a && source[at..][|a|..] == b;
  }

  lemma ScanSpace(c: Classes, s: string)
    requires s != [] && s[0] == ' '
    ensures Scan(c, s) == Scanned(Blank, 1)
  {
    SpaceDecodes(s);
  }

  lemma SpelledToken(c: Classes, source: string, at: nat, l: Lexeme, rest: Lexed, ls: seq<Lexeme>)
    requires ls != [] && ls[0] == l && LexesAlone(c, l) && at + |l.text| < |source| && source[at..at + |l.text|] == l.text
    requires Spells(rest.tokens, ls[1..]) && rest.errors == []
    ensures
      var mid := at + |l.text|;
      var all := Then(Piece(source, at, Scan(c, l.text)), Then(Piece(source, mid, Scanned(Blank, 1)), rest));
      Spells(all.tokens, ls) && all.errors == []
  {
    hide Scan, Spells;
    var mid := at + |l.text|;
    var token := Token(l.kind, l.text, Span(at, mid));
    assert Piece(source, at, Scan(c, l.text)) == Lexed([token], []);
    assert Then(Piece(source, mid, Scanned(Blank, 1)), rest) == rest;
    SpellsCons(token, rest.tokens, l, ls);
  }

  lemma SpellsCons(token: Token, tokens: seq<Token>, l: Lexeme, ls: seq<Lexeme>)
    requires ls != [] && ls[0] == l && Spells(tokens, ls[1..]) && token.kind == l.kind && token.text == l.text
    ensures Spells([token] + tokens, ls)
  {
    var all := [token] + tokens;
    assert forall i | 1 <= i < |all| :: all[i] == tokens[i - 1];
    assert forall i | 1 <= i < |ls| :: ls[i] == ls[1..][i - 1];
  }

  // ---------- Which formulas can be spelled ----------

  /** Literals, names and units are single tokens. */
  predicate Spellable(c: Classes, n: Node) {
    && (forall i | 0 <= i < |n.args| :: Spellable(c, n.args[i]))
    && match n.kind
       case Decimal => LexesAlone(c, Lexeme("number", n.text))
       case Quantity => LexesAlone(c, Lexeme("number", n.text)) && LexesAlone(c, Lexeme("identifier", n.unit))
       case Boolean => LexesAlone(c, Lexeme("identifier", n.text))
       case Selector => LexesAlone(c, Lexeme("selector", "${" + n.scope + ":" + n.symbol + "}"))
       case Call => LexesAlone(c, Lexeme("identifier", n.text))
       case _ => true
  }

  /** The operator nowhere occurs. */
  predicate Avoids(op: string, n: Node) {
    (n.kind == Binary ==> n.operator != op) && forall i | 0 <= i < |n.args| :: Avoids(op, n.args[i])
  }

  lemma PunctuationLexes(c: Classes, text: string)
    requires |text| == 1 && IsPunctuation(text[0] as int)
    ensures LexesAlone(c, Symbol(text))
  {
    var r := text[0] as int;
    assert !IsSpace(r);
    assert DecodeRune(text) == Rune(r, 1);
    assert Scan(c, text) == Scanned(Punctuation, 1);
  }

  lemma SymbolsLex(c: Classes)
    ensures forall text | text in ["(", ")", ",", "[", "]", "+", "-", "*", "/", "!"] :: LexesAlone(c, Symbol(text))
  {
    hide LexesAlone;
    forall text | text in ["(", ")", ",", "[", "]", "+", "-", "*", "/", "!"] ensures LexesAlone(c, Symbol(text)) {
      var s := "()+-*/!,[]";
      assert s[0] == '(' && s[1] == ')' && s[2] == '+' && s[3] == '-' && s[4] == '*' && s[5] == '/'
             && s[6] == '!' && s[7] == ',' && s[8] == '[' && s[9] == ']';
      PunctuationLexes(c, text);
    }
  }

  lemma OperatorLexes(c: Classes, op: string)
    requires Precedence(op) >= 1 && op != "!="
    ensures LexesAlone(c, OperatorLexeme(op))
  {
    if IsAdditive(op) || IsMultiplicative(op) {
      SymbolsLex(c);
    } else {
      OperatorScans(c, op);
    }
  }

  lemma OperatorScans(c: Classes, op: string)
    requires IsLogical(op) || (IsComparison(op) && op != "!=")
    ensures Scan(c, op) == Scanned(Operator, |op|)
  {
    hide NumberTail, IdentifierTail;
    var r := op[0] as int;
    assert DecodeRune(op) == Rune(r, 1);
    assert !IsSpace(r) && !IsPunctuation(r) && IsOperatorStart(r);
    if |op| > 1 { assert op[1..][0] == op[1]; }
  }

  lemma {:induction false} PrintLexes(c: Classes, inp: Input, n: Node, min: nat)
    requires Writable(inp, n) && Spellable(c, n) && Avoids("!=", n)
    ensures forall l | l in Print(n, min) :: LexesAlone(c, l)
    decreases n, 2
  {
    hide LexesAlone;
    SymbolsLex(c);
    PrintBareLexes(c, inp, n);
  }

  lemma {:induction false} PrintBareLexes(c: Classes, inp: Input, n: Node)
    requires Writable(inp, n) && Spellable(c, n) && Avoids("!=", n)
    ensures forall l | l in PrintBare(n) :: LexesAlone(c, l)
    decreases n, 1
  {
    hide LexesAlone, Print, PrintArgs;
    SymbolsLex(c);
    match n.kind
    case Unary => PrintLexes(c, inp, n.args[0], 6);
    case Binary =>
      PrintLexes(c, inp, n.args[0], Precedence(n.operator));
      PrintLexes(c, inp, n.args[1], Precedence(n.operator) + 1);
      OperatorLexes(c, n.operator);
    case Call => PrintArgsLexes(c, inp, n.args);
    case _ =>
  }

  lemma {:induction false} PrintArgsLexes(c: Classes, inp: Input, args: seq<Node>)
    requires forall i | 0 <= i < |args| :: Writable(inp, args[i]) && Spellable(c, args[i]) && Avoids("!=", args[i])
    ensures forall l | l in PrintArgs(args) :: LexesAlone(c, l)
    decreases args, 3
  {
    hide LexesAlone, Print;
    SymbolsLex(c);
    if args != [] {
      PrintLexes(c, inp, args[0], 0);
      PrintArgsLexes(c, inp, args[1..]);
    }
  }

  /** Spelling a formula, lexing the text and parsing the tokens gives the formula back without errors. */
  lemma SourceRoundTrip(c: Classes, inp: Input, n: Node)
    requires SpaceSeparates(c) && Writable(inp, n) && Spellable(c, n) && Avoids("!=", n)
    requires inp.tokens == LexFrom(c, Spell(Print(n, 0)), 0).tokens
    ensures LexFrom(c, Spell(Print(n, 0)), 0).errors == []
    ensures inp.Terminated() && Erase(ParseTokens(inp, []).node) == Erase(n) && ParseTokens(inp, []).errors == []
  {
    hide LexFrom, Spell, Print, LexesAlone;
    var source := Spell(Print(n, 0));
    PrintLexes(c, inp, n, 0);
    assert source[0..] == source;
    LexSpelled(c, source, 0, Print(n, 0));
    ParsePrint(inp, n);
  }

  // ---------- The inequality operator cannot be written ----------

  lemma {:induction false} GrownAvoids(inp: Input, clean: bool, n: Node)
    requires Grown(inp, clean, n) && forall t | t in inp.tokens :: t.text != "!="
    ensures Avoids("!=", n)
  {
    hide Precedence;
    forall i | 0 <= i < |n.args| ensures Avoids("!=", n.args[i]) { GrownAvoids(inp, clean, n.args[i]); }
  }

  /** No source at all, with errors or without, parses to a tree with the inequality operator. */
  lemma SourceAvoidsInequality(c: Classes, source: string, inp: Input, errors: seq<SyntaxError>)
    requires inp.tokens == LexFrom(c, source, 0).tokens
    ensures inp.Terminated() && Avoids("!=", ParseTokens(inp, errors).node)
  {
    hide LexFrom, Grown, ParseTokens;
    LexedInput(c, source, inp);
    NoInequality(c, source, 0);
    ParseGrows(inp, errors);
    GrownAvoids(inp, false, ParseTokens(inp, errors).node);
  }

  lemma {:induction false} EraseKeepsAvoids(op: string, n: Node)
    ensures Avoids(op, Erase(n)) <==> Avoids(op, n)
  {
    forall i | 0 <= i < |n.args| ensures Avoids(op, Erase(n).args[i]) <==> Avoids(op, n.args[i]) {
      EraseAllAt(n.args, i);
      EraseKeepsAvoids(op, n.args[i]);
    }
  }

  /** `source` is read, without errors, as the tree `n`. */
  ghost predicate Denotes(c: Classes, registry: Option<Registry>, canonical: string -> Option<string>, source: string, n: Node) {
    var lexed := LexFrom(c, source, 0);
    var inp := Input(lexed.tokens, registry, canonical);
    inp.Terminated() && lexed.errors == [] && ReadsBack(inp, n)
  }

  /** A tree whose words can be spelled has a source at all if and only if it is writable and avoids the inequality operator. */
  lemma HasSourceExactly(c: Classes, registry: Option<Registry>, canonical: string -> Option<string>, n: Node)
    requires SpaceSeparates(c) && Spellable(c, n) && Stable(Input([], registry, canonical))
    ensures (exists source :: Denotes(c, registry, canonical, source, n)) <==>
      (Writable(Input([], registry, canonical), n) && Avoids("!=", n))
  {
    hide LexFrom, Erase, ParseTokens, Spell, Print, Writable, Spellable;
    var bare := Input([], registry, canonical);
    if Writable(bare, n) && Avoids("!=", n) {
      var source := Spell(Print(n, 0));
      var inp := Input(LexFrom(c, source, 0).tokens, registry, canonical);
      WritableElsewhere(bare, inp, n);
      SourceRoundTrip(c, inp, n);
      assert Denotes(c, registry, canonical, source, n);
    }
    if source :| Denotes(c, registry, canonical, source, n) { DenotedIsWritable(c, registry, canonical, source, n); }
  }

  lemma DenotedIsWritable(c: Classes, registry: Option<Registry>, canonical: string -> Option<string>, source: string, n: Node)
    requires Stable(Input([], registry, canonical)) && Denotes(c, registry, canonical, source, n)
    ensures Writable(Input([], registry, canonical), n) && Avoids("!=", n)
  {
    hide LexFrom, Erase, ParseTokens, Writable;
    var inp := Input(LexFrom(c, source, 0).tokens, registry, canonical);
    var node := ParseTokens(inp, []).node;
    SourceAvoidsInequality(c, source, inp, []);
    EraseKeepsAvoids("!=", n);
    EraseKeepsAvoids("!=", node);
    LexedSigns(c, source, 0);
    ErrorFreeIsWritable(inp, []);
    EraseKeepsWritable(inp, n);
    EraseKeepsWritable(inp, node);
    WritableElsewhere(Input([], registry, canonical), inp, n);
  }

  /** Whatever source parses without errors, printing its tree and parsing the tokens returns the tree. */
  lemma SourceReprints(c: Classes, source: string, inp: Input, printed: Input)
    requires inp.tokens == LexFrom(c, source, 0).tokens && Stable(inp)
    ensures inp.Terminated()
    ensures
      var p := ParseTokens(inp, LexFrom(c, source, 0).errors);
      p.errors == [] && printed.registry == inp.registry && printed.canonical == inp.canonical && IsPrinted(printed, p.node) ==>
        Writable(inp, p.node) && ReadsBack(printed, p.node)
  {
    hide LexFrom, ParseTokens, Writable, IsPrinted, Erase, Stable;
    LexedInput(c, source, inp);
    LexedSigns(c, source, 0);
    var errors := LexFrom(c, source, 0).errors;
    var p := ParseTokens(inp, errors);
    if p.errors == [] && printed.registry == inp.registry && printed.canonical == inp.canonical && IsPrinted(printed, p.node) {
      assert errors == [] by { assert errors <= p.errors; }
      ErrorFreeIsWritable(inp, errors);
      ReprintReadsBack(inp, errors, printed);
    }
  }
}
