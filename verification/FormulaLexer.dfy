/** The byte-level lexer. A Go string is a sequence of bytes; here each byte is one `char` below 256. */
module FormulaLexer {
  import opened Wrappers
  import opened FormulaAst
  import opened FormulaParser
  import opened Text

  /** The Unicode tables the lexer consults; nothing below depends on their contents. */
  datatype Classes = Classes(isLetter: int -> bool, isDigit: int -> bool)

  datatype Rune = Rune(code: int, width: nat)

  const RUNE_ERROR := Rune(0xFFFD, 1)

  predicate IsTail(b: char) { 0x80 <= b as int <= 0xBF }

  /** The first rune of a non-empty string; ill-formed bytes decode one at a time. */
  function DecodeRune(s: string): (r: Rune)
    requires s != []
    ensures 1 <= r.width <= |s|
  {
    var b := s[0] as int;
    if b < 0x80 then Rune(b, 1)
    else if 0xC2 <= b <= 0xDF && |s| > 1 && IsTail(s[1]) then
      Rune((b - 0xC0) * 64 + (s[1] as int - 0x80), 2)
    else if 0xE0 <= b <= 0xEF && |s| > 2 && IsTail(s[1]) && IsTail(s[2])
         && (b == 0xE0 ==> s[1] as int >= 0xA0) && (b == 0xED ==> s[1] as int <= 0x9F) then
      Rune((b - 0xE0) * 4096 + (s[1] as int - 0x80) * 64 + (s[2] as int - 0x80), 3)
    else if 0xF0 <= b <= 0xF4 && |s| > 3 && IsTail(s[1]) && IsTail(s[2]) && IsTail(s[3])
         && (b == 0xF0 ==> s[1] as int >= 0x90) && (b == 0xF4 ==> s[1] as int <= 0x8F) then
      Rune((b - 0xF0) * 262144 + (s[1] as int - 0x80) * 4096 + (s[2] as int - 0x80) * 64 + (s[3] as int - 0x80), 4)
    else RUNE_ERROR
  }

  predicate IsPunctuation(r: int) { exists i :: 0 <= i < |"()+-*/!,[]"| && "()+-*/!,[]"[i] as int == r }

  predicate IsOperatorStart(r: int) {
    r == '<' as int || r == '>' as int || r == '=' as int || r == '&' as int || r == '|' as int
  }

  predicate IsAsciiDigit(b: char) { '0' <= b <= '9' }

  /** How many digits `s` starts with. */
  function Digits(s: string): (n: nat)
    ensures n <= |s|
  {
    if s != [] && IsAsciiDigit(s[0]) then 1 + Digits(s[1..]) else 0
  }

  function StartsWith(s: string, b: char): bool { s != [] && s[0] == b }

  /** The optional fraction: a point and digits. */
  function Fraction(s: string): (n: nat)
    ensures n <= |s|
  {
    if StartsWith(s, '.') then 1 + Digits(s[1..]) else 0
  }

  /** The optional exponent: a letter, an optional sign and digits. */
  function Exponent(s: string): (n: nat)
    ensures n <= |s|
  {
    if StartsWith(s, 'e') || StartsWith(s, 'E') then
      var sign := if StartsWith(s[1..], '+') || StartsWith(s[1..], '-') then 1 else 0;
      1 + sign + Digits(s[1 + sign..])
    else 0
  }

  /** What follows the first rune of a number. */
  function NumberTail(s: string): (n: nat)
    ensures n <= |s|
  {
    var digits := Digits(s);
    var fraction := digits + Fraction(s[digits..]);
    fraction + Exponent(s[fraction..])
  }

  predicate IsIdentifierRune(c: Classes, r: int) { c.isLetter(r) || c.isDigit(r) || r == '_' as int }

  function IdentifierTail(c: Classes, s: string): (n: nat)
    ensures n <= |s|
  {
    if s == [] then 0
    else
      var r := DecodeRune(s);
      if IsIdentifierRune(c, r.code) then r.width + IdentifierTail(c, s[r.width..]) else 0
  }

  /** The position of the first closing brace, if any. */
  function FirstBrace(s: string): (r: Option<nat>)
    ensures match r
      case None => '}' !in s
      case Some(i) => i < |s| && s[i] == '}' && '}' !in s[..i]
  {
    if s == [] then None
    else if s[0] == '}' then Some(0)
    else match FirstBrace(s[1..])
      case None => None
      case Some(i) => Some(i + 1)
  }

  datatype What = Blank | Punctuation | Operator | Selector | OpenSelector | Number | Identifier | Unsupported

  datatype Scanned = Scanned(what: What, width: nat)

  /** What a non-empty rest of the source starts with. */
  function Scan(c: Classes, s: string): (r: Scanned)
    requires s != []
    ensures 1 <= r.width <= |s|
  {
    var r := DecodeRune(s);
    if IsSpace(r.code) then Scanned(Blank, r.width)
    else if IsPunctuation(r.code) then Scanned(Punctuation, r.width)
    else if IsOperatorStart(r.code) then
      if StartsWith(s[r.width..], '=') then Scanned(Operator, r.width + 1)
      else if (r.code == '&' as int || r.code == '|' as int) && r.width < |s| && s[r.width] as int == r.code then Scanned(Operator, r.width + 1)
      else Scanned(Operator, r.width)
    else if r.code == '$' as int && "${" <= s then
      match FirstBrace(s[2..])
      case None => Scanned(OpenSelector, |s|)
      case Some(end) => Scanned(What.Selector, 2 + end + 1)
    else if c.isDigit(r.code) || r.code == '.' as int then Scanned(Number, r.width + NumberTail(s[r.width..]))
    else if c.isLetter(r.code) || r.code == '_' as int then Scanned(Identifier, r.width + IdentifierTail(c, s[r.width..]))
    else Scanned(Unsupported, r.width)
  }

  function KindOf(what: What, text: string): string {
    match what
    case Operator => "op"
    case Number => "number"
    case Identifier => "identifier"
    case Selector => "selector"
    case OpenSelector => "selector"
    case _ => text
  }

  predicate IsToken(what: What) { !what.Blank? && !what.Unsupported? }

  datatype Lexed = Lexed(tokens: seq<Token>, errors: seq<SyntaxError>)

  /** The tokens and errors of one scanned piece. */
  function Piece(source: string, at: nat, sc: Scanned): Lexed
    requires at + sc.width <= |source|
  {
    var span := Span(at, at + sc.width);
    var text := source[at..at + sc.width];
    Lexed(if IsToken(sc.what) then [Token(KindOf(sc.what, text), text, span)] else [],
          match sc.what
          case OpenSelector => [SyntaxError(span, "unterminated selector")]
          case Unsupported => [SyntaxError(span, "unsupported character")]
          case _ => [])
  }

  function Then(a: Lexed, b: Lexed): Lexed {
    Lexed(a.tokens + b.tokens, a.errors + b.errors)
  }

  /** Everything from position `at` on, with the end marker. */
  function LexFrom(c: Classes, source: string, at: nat): Lexed
    requires at <= |source|
    decreases |source| - at
  {
    if at == |source| then Lexed([Token("eof", "", Span(|source|, |source|))], [])
    else
      var sc := Scan(c, source[at..]);
      Then(Piece(source, at, sc), LexFrom(c, source, at + sc.width))
  }

  // ---------- The lexer as it runs ----------

  method SkipDigits(source: string, from: nat) returns (offset: nat)
    requires from <= |source|
    ensures offset == from + Digits(source[from..])
  {
    offset := from;
    while offset < |source| && IsAsciiDigit(source[offset])
      invariant from <= offset <= |source|
      invariant offset + Digits(source[offset..]) == from + Digits(source[from..])
    {
      assert source[offset..][1..] == source[offset + 1..];
      offset := offset + 1;
    }
  }

  method SkipFraction(source: string, from: nat) returns (offset: nat)
    requires from <= |source|
    ensures offset == from + Fraction(source[from..])
  {
    offset := from;
    if offset < |source| && source[offset] == '.' {
      assert source[from..][1..] == source[from + 1..];
      offset := SkipDigits(source, offset + 1);
    }
  }

  method SkipExponent(source: string, from: nat) returns (offset: nat)
    requires from <= |source|
    ensures offset == from + Exponent(source[from..])
  {
    offset := from;
    if offset < |source| && (source[offset] == 'e' || source[offset] == 'E') {
      assert source[from..][1..] == source[from + 1..];
      offset := offset + 1;
      if offset < |source| && (source[offset] == '+' || source[offset] == '-') {
        offset := offset + 1;
      }
      assert source[offset..] == source[from..][offset - from..];
      offset := SkipDigits(source, offset);
    }
  }

  /** The rest of a number after its first rune. */
  method SkipNumber(source: string, from: nat) returns (offset: nat)
    requires from <= |source|
    ensures offset == from + NumberTail(source[from..])
  {
    hide Digits, Fraction, Exponent;
    ghost var tail := source[from..];
    offset := SkipDigits(source, from);
    assert source[offset..] == tail[offset - from..];
    offset := SkipFraction(source, offset);
    assert source[offset..] == tail[offset - from..];
    offset := SkipExponent(source, offset);
  }

  method SkipIdentifier(c: Classes, source: string, from: nat) returns (offset: nat)
    requires from <= |source|
    ensures offset == from + IdentifierTail(c, source[from..])
  {
    hide DecodeRune, IsIdentifierRune;
    offset := from;
    while offset < |source|
      invariant from <= offset <= |source|
      invariant offset + IdentifierTail(c, source[offset..]) == from + IdentifierTail(c, source[from..])
    {
      var r := DecodeRune(source[offset..]);
      if !IsIdentifierRune(c, r.code) { break; }
      assert source[offset..][r.width..] == source[offset + r.width..];
      offset := offset + r.width;
    }
  }

  /** One round of the main loop: how far the piece at `start` reaches and what it is. */
  method Advance(c: Classes, source: string, start: nat) returns (what: What, offset: nat)
    requires start < |source|
    ensures start < offset <= |source| && Scanned(what, offset - start) == Scan(c, source[start..])
  {
    hide DecodeRune, IsSpace, IsPunctuation, Digits, IdentifierTail;
    var rest := source[start..];
    var r := DecodeRune(rest);
    offset := start + r.width;
    assert source[offset..] == rest[r.width..];
    if IsSpace(r.code) { return Blank, offset; }
    if IsPunctuation(r.code) { return Punctuation, offset; }
    if IsOperatorStart(r.code) {
      if offset < |source| && source[offset] == '=' {
        offset := offset + 1;
      } else if (r.code == '&' as int || r.code == '|' as int) && offset < |source| && source[offset] as int == r.code {
        offset := offset + 1;
      }
      return Operator, offset;
    }
    if r.code == '$' as int && "${" <= rest {
      assert source[start + 2..] == rest[2..];
      match FirstBrace(source[start + 2..]) {
        case None => return OpenSelector, |source|;
        case Some(end) => return What.Selector, start + 2 + end + 1;
      }
    }
    if c.isDigit(r.code) || r.code == '.' as int {
      offset := SkipNumber(source, offset);
      return Number, offset;
    }
    if c.isLetter(r.code) || r.code == '_' as int {
      offset := SkipIdentifier(c, source, offset);
      return Identifier, offset;
    }
    what := Unsupported;
  }

  method Lex(c: Classes, source: string) returns (tokens: seq<Token>, errors: seq<SyntaxError>)
    ensures Lexed(tokens, errors) == LexFrom(c, source, 0)
  {
    hide Scan, Then;
    tokens, errors := [], [];
    var offset := 0;
    ThenEmpty(LexFrom(c, source, 0));
    while offset < |source|
      invariant offset <= |source|
      invariant Then(Lexed(tokens, errors), LexFrom(c, source, offset)) == LexFrom(c, source, 0)
    {
      var start := offset;
      var what;
      what, offset := Advance(c, source, start);
      var text, span := source[start..offset], Span(start, offset);
      ghost var piece := Piece(source, start, Scanned(what, offset - start));
      ThenAssociates(Lexed(tokens, errors), piece, LexFrom(c, source, offset));
      hide LexFrom;
      ThenPiece(Lexed(tokens, errors), piece);
      match what {
        case Blank =>
        case Unsupported =>
          errors := errors + [SyntaxError(span, "unsupported character")];
        case OpenSelector =>
          errors := errors + [SyntaxError(span, "unterminated selector")];
          tokens := tokens + [Token("selector", text, span)];
        case _ =>
          tokens := tokens + [Token(KindOf(what, text), text, span)];
      }
    }
    ThenPiece(Lexed(tokens, errors), LexFrom(c, source, offset));
    tokens := tokens + [Token("eof", "", Span(|source|, |source|))];
  }

  lemma ThenEmpty(a: Lexed)
    ensures Then(Lexed([], []), a) == a
  {
  }

  lemma ThenPiece(a: Lexed, b: Lexed)
    ensures Then(a, b) == Lexed(a.tokens + b.tokens, a.errors + b.errors)
    ensures b.errors == [] ==> a.errors + b.errors == a.errors
    ensures b.tokens == [] ==> a.tokens + b.tokens == a.tokens
  {
  }

  lemma ThenAssociates(a: Lexed, b: Lexed, c: Lexed)
    ensures Then(Then(a, b), c) == Then(a, Then(b, c))
  {
  }
}
