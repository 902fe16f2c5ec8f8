/** What a token is, said without the scanner: UTF-8, numbers, identifiers, operators and selectors as longest matches. */
module FormulaTokens {
  import opened Wrappers
  import opened Text
  import opened FormulaAst
  import opened FormulaParser
  import opened FormulaLexer
  import opened FormulaTiling

  // ---------- Runes ----------

  /** The scalar values of Unicode. */
  predicate IsScalar(r: int) { 0 <= r < 0xD800 || 0xE000 <= r <= 0x10FFFF }

  /** The UTF-8 form of a scalar value, section 3 of RFC 3629. */
  function EncodeRune(r: int): (s: string)
    requires IsScalar(r)
    ensures 1 <= |s| <= 4
  {
    if r < 0x80 then [r as char]
    else if r < 0x800 then [(0xC0 + r / 64) as char, Tail(r)]
    else if r < 0x10000 then [(0xE0 + r / 64 / 64) as char, Tail(r / 64), Tail(r)]
    else [(0xF0 + r / 64 / 64 / 64) as char, Tail(r / 64 / 64), Tail(r / 64), Tail(r)]
  }

  /** The byte that carries the lowest six bits. */
  function Tail(r: nat): char { (0x80 + r % 64) as char }

  lemma SixBits(r: nat)
    ensures r == 64 * (r / 64) + (Tail(r) as int - 0x80) && IsTail(Tail(r))
  {
  }

  lemma OnlySixBits(q: nat, b: char)
    requires IsTail(b)
    ensures (64 * q + (b as int - 0x80)) / 64 == q && Tail(64 * q + (b as int - 0x80)) == b
  {
  }

  /** A well-formed rune decodes to its value and length, whatever follows. */
  lemma DecodesEncoded(r: int, rest: string)
    requires IsScalar(r)
    ensures DecodeRune(EncodeRune(r) + rest) == Rune(r, |EncodeRune(r)|)
  {
    hide Tail, IsTail;
    var s := EncodeRune(r) + rest;
    assert forall i | 0 <= i < |EncodeRune(r)| :: s[i] == EncodeRune(r)[i];
    if r >= 0x80 {
      SixBits(r);
      SixBits(r / 64);
      SixBits(r / 64 / 64);
    }
  }

  /** Everything else decodes to the replacement rune, one byte at a time. */
  lemma DecodesOnlyEncoded(s: string)
    requires s != []
    ensures DecodeRune(s) == RUNE_ERROR || (IsScalar(DecodeRune(s).code) && s[..DecodeRune(s).width] == EncodeRune(DecodeRune(s).code))
  {
    hide Tail;
    var b, r := s[0] as int, DecodeRune(s);
    if r == RUNE_ERROR {
    } else if r.width == 1 {
      assert s[..1] == [s[0]];
    } else if r.width == 2 {
      OnlySixBits(b - 0xC0, s[1]);
      assert s[..2] == [s[0], s[1]];
    } else if r.width == 3 {
      OnlySixBits(b - 0xE0, s[1]);
      OnlySixBits(64 * (b - 0xE0) + (s[1] as int - 0x80), s[2]);
      assert s[..3] == [s[0], s[1], s[2]];
    } else {
      OnlySixBits(b - 0xF0, s[1]);
      OnlySixBits(64 * (b - 0xF0) + (s[1] as int - 0x80), s[2]);
      OnlySixBits(64 * (64 * (b - 0xF0) + (s[1] as int - 0x80)) + (s[2] as int - 0x80), s[3]);
      assert s[..4] == [s[0], s[1], s[2], s[3]];
    }
  }

  // ---------- Numbers ----------

  predicate AllDigits(t: string) { forall i | 0 <= i < |t| :: '0' <= t[i] <= '9' }

  predicate IsFraction(t: string) { t == "" || (t[0] == '.' && AllDigits(t[1..])) }

  predicate IsExponent(t: string) {
    || t == ""
    || ((t[0] == 'e' || t[0] == 'E') && AllDigits(t[1..]))
    || (|t| > 1 && (t[0] == 'e' || t[0] == 'E') && (t[1] == '+' || t[1] == '-') && AllDigits(t[2..]))
  }

  /** What may follow the first rune of a number: digits, a fraction and an exponent. */
  predicate NumberShape(t: string) {
    exists i: nat, j: nat :: i <= j <= |t| && AllDigits(t[..i]) && IsFraction(t[i..j]) && IsExponent(t[j..])
  }

  predicate LongestNumber(s: string, n: nat) {
    n <= |s| && NumberShape(s[..n]) && forall m | n < m <= |s| :: !NumberShape(s[..m])
  }

  /** All digits from `a` up to `b`. */
  predicate DigitsIn(s: string, a: nat, b: nat) {
    a <= b <= |s| && forall k | a <= k < b :: '0' <= s[k] <= '9'
  }

  predicate DigitAt(s: string, k: nat) { k < |s| && '0' <= s[k] <= '9' }

  predicate ByteAt(s: string, k: nat, b: char, c: char) { k < |s| && (s[k] == b || s[k] == c) }

  /** The same cuts, as positions in a text of which `m` bytes are read. */
  predicate Reads(s: string, i: nat, j: nat, m: nat) {
    && i <= j <= m <= |s| && DigitsIn(s, 0, i)
    && (i == j || (s[i] == '.' && DigitsIn(s, i + 1, j)))
    && (j == m || (ByteAt(s, j, 'e', 'E') && (DigitsIn(s, j + 1, m) || (j + 1 < m && ByteAt(s, j + 1, '+', '-') && DigitsIn(s, j + 2, m)))))
  }

  lemma ShapeReads(s: string, m: nat) returns (i: nat, j: nat)
    requires m <= |s| && NumberShape(s[..m])
    ensures Reads(s, i, j, m)
  {
    hide IsFraction, IsExponent, AllDigits, DigitsIn;
    var t := s[..m];
    i, j :| i <= j <= |t| && AllDigits(t[..i]) && IsFraction(t[i..j]) && IsExponent(t[j..]);
    CutsAgree(s, m, i, j);
  }

  lemma ReadsShape(s: string, i: nat, j: nat, m: nat)
    requires Reads(s, i, j, m)
    ensures NumberShape(s[..m])
  {
    hide IsFraction, IsExponent, AllDigits, DigitsIn;
    var t := s[..m];
    CutsAgree(s, m, i, j);
    assert AllDigits(t[..i]) && IsFraction(t[i..j]) && IsExponent(t[j..]);
  }

  lemma CutsAgree(s: string, m: nat, i: nat, j: nat)
    requires i <= j <= m <= |s|
    ensures AllDigits(s[..m][..i]) && IsFraction(s[..m][i..j]) && IsExponent(s[..m][j..]) <==> Reads(s, i, j, m)
  {
    hide IsFraction, IsExponent, AllDigits, DigitsIn;
    assert s[..m][..i] == s[..m][0..i] && s[..m][j..] == s[..m][j..m];
    DigitsSlice(s, m, 0, i);
    FractionSlice(s, m, i, j);
    ExponentSlice(s, m, j);
  }

  lemma FractionSlice(s: string, m: nat, i: nat, j: nat)
    requires i <= j <= m <= |s|
    ensures IsFraction(s[..m][i..j]) <==> i == j || (s[i] == '.' && DigitsIn(s, i + 1, j))
  {
    hide AllDigits, DigitsIn;
    if i < j { DigitsSlice(s, m, i + 1, j); }
  }

  lemma ExponentSlice(s: string, m: nat, j: nat)
    requires j <= m <= |s|
    ensures IsExponent(s[..m][j..m]) <==>
      (j == m || (ByteAt(s, j, 'e', 'E') && (DigitsIn(s, j + 1, m) || (j + 1 < m && ByteAt(s, j + 1, '+', '-') && DigitsIn(s, j + 2, m)))))
  {
    hide AllDigits, DigitsIn;
    if j < m { DigitsSlice(s, m, j + 1, m); }
    if j + 1 < m { DigitsSlice(s, m, j + 2, m); }
  }

  lemma DigitsSlice(s: string, m: nat, a: nat, b: nat)
    requires a <= b <= m <= |s|
    ensures AllDigits(s[..m][a..b]) <==> DigitsIn(s, a, b)
    ensures a > 0 ==> s[..m][a - 1..b][1..] == s[..m][a..b]
    ensures a > 1 ==> s[..m][a - 2..b][2..] == s[..m][a..b]
  {
    var t := s[..m][a..b];
    assert forall k | 0 <= k < |t| :: t[k] == s[a + k];
    if DigitsIn(s, a, b) { assert AllDigits(t); }
    if AllDigits(t) { forall k | a <= k < b ensures '0' <= s[k] <= '9' { assert t[k - a] == s[k]; } }
  }

  lemma {:induction false} DigitsFrom(s: string, a: nat)
    requires a <= |s|
    ensures DigitsIn(s, a, a + Digits(s[a..])) && !DigitAt(s, a + Digits(s[a..]))
    decreases |s| - a
  {
    if a < |s| && IsAsciiDigit(s[a]) {
      assert s[a..][1..] == s[a + 1..];
      DigitsFrom(s, a + 1);
    }
  }

  /** Where the loops cut, and that nothing they could still take follows. */
  lemma TailReads(s: string) returns (i: nat, j: nat)
    ensures Reads(s, i, j, NumberTail(s)) && !DigitAt(s, i)
    ensures if ByteAt(s, i, '.', '.') then i < j && !DigitAt(s, j) else j == i
    ensures
      var n := NumberTail(s);
      if ByteAt(s, j, 'e', 'E') then
        n > j && !DigitAt(s, n) && DigitsIn(s, if ByteAt(s, j + 1, '+', '-') then j + 2 else j + 1, n)
      else n == j
  {
    hide Digits, DigitsIn, DigitAt;
    var n := NumberTail(s);
    i := Digits(s);
    assert s[0..] == s;
    DigitsFrom(s, 0);
    j := i + Fraction(s[i..]);
    if ByteAt(s, i, '.', '.') {
      assert s[i..][1..] == s[i + 1..];
      DigitsFrom(s, i + 1);
    }
    if ByteAt(s, j, 'e', 'E') {
      var k := if ByteAt(s, j + 1, '+', '-') then j + 2 else j + 1;
      assert s[j..][1..] == s[j + 1..] && s[j..][k - j..] == s[k..];
      DigitsFrom(s, k);
      assert n == k + Digits(s[k..]);
    }
  }

  /** No longer text can be read: the first cut that differs would leave a digit where none can stand. */
  lemma NoLongerRead(s: string, i: nat, j: nat, n: nat, k: nat, l: nat, m: nat)
    requires n == NumberTail(s) && Reads(s, k, l, m) && !DigitAt(s, i) && DigitsIn(s, 0, i) && i <= j <= n <= |s|
    requires if ByteAt(s, i, '.', '.') then i < j && !DigitAt(s, j) && DigitsIn(s, i + 1, j) else j == i
    requires if ByteAt(s, j, 'e', 'E') then n > j && !DigitAt(s, n) else n == j
    requires ByteAt(s, j, 'e', 'E') ==> DigitsIn(s, if ByteAt(s, j + 1, '+', '-') then j + 2 else j + 1, n)
    ensures m <= n
  {
    assert k > i ==> DigitAt(s, i);
    assert m > n && k < i ==> DigitAt(s, k);
    assert k == i && l > j ==> DigitAt(s, j);
    assert k == i && i < l < j ==> DigitAt(s, l);
    assert k == i && l == j && m > n ==> DigitAt(s, n);
  }

  /** What the loops skip is exactly the longest text that may follow the first rune of a number. */
  lemma NumbersAreLongest(s: string, n: nat)
    ensures n == NumberTail(s) <==> LongestNumber(s, n)
  {
    hide NumberTail, NumberShape, Reads, DigitsIn, DigitAt, ByteAt;
    var i, j := TailReads(s);
    ReadsShape(s, i, j, NumberTail(s));
    TailFacts(s, i, j);
    forall m | NumberTail(s) < m <= |s| ensures !NumberShape(s[..m]) {
      if NumberShape(s[..m]) {
        var k, l := ShapeReads(s, m);
        NoLongerRead(s, i, j, NumberTail(s), k, l, m);
      }
    }
  }

  lemma TailFacts(s: string, i: nat, j: nat)
    requires Reads(s, i, j, NumberTail(s))
    ensures i <= j <= NumberTail(s) && DigitsIn(s, 0, i) && (i < j ==> DigitsIn(s, i + 1, j))
  {
    hide NumberTail, DigitsIn;
  }

  // ---------- Identifiers ----------

  predicate WordRune(c: Classes, r: int) { c.isLetter(r) || c.isDigit(r) || r == 0x5F }

  /** The first `n` bytes are letters, digits and underscores, rune by rune. */
  predicate WordRun(c: Classes, s: string, n: nat) {
    n == 0 || (s != [] && WordRune(c, DecodeRune(s).code) && DecodeRune(s).width <= n && WordRun(c, s[DecodeRune(s).width..], n - DecodeRune(s).width))
  }

  /** And no further such rune follows. */
  predicate WholeWord(c: Classes, s: string, n: nat) {
    n <= |s| && WordRun(c, s, n) && (n < |s| ==> !WordRune(c, DecodeRune(s[n..]).code))
  }

  /** The loop over an identifier takes exactly the whole run. */
  lemma {:induction false} IdentifiersAreWholeWords(c: Classes, s: string, n: nat)
    ensures n == IdentifierTail(c, s) <==> WholeWord(c, s, n)
  {
    hide DecodeRune;
    assert s[0..] == s;
    if s != [] && WordRune(c, DecodeRune(s).code) {
      var w := DecodeRune(s).width;
      if w <= n <= |s| {
        IdentifiersAreWholeWords(c, s[w..], n - w);
        assert s[w..][n - w..] == s[n..];
      }
    }
  }

  // ---------- Which token a rest of the source starts with ----------

  const PUNCTUATION := {"(", ")", "+", "-", "*", "/", "!", ",", "[", "]"}

  /** Every text that can be an operator token; the parser knows the ones with a level. */
  const OPERATORS := {"<", ">", "=", "&", "|", "<=", ">=", "==", "&=", "|=", "&&", "||"}

  /** What the Unicode classes say of ASCII and of white space. */
  ghost predicate Ascii(c: Classes) {
    && (forall r | 0 <= r < 0x80 :: c.isDigit(r) <==> 0x30 <= r <= 0x39)
    && (forall r | 0 <= r < 0x80 :: c.isLetter(r) <==> 0x41 <= r <= 0x5A || 0x61 <= r <= 0x7A)
    && (forall r | IsSpace(r) :: !c.isDigit(r) && !c.isLetter(r))
    && (forall r | c.isDigit(r) :: !c.isLetter(r))
  }

  predicate StartsSelector(s: string) { |s| >= 2 && s[0] == '$' && s[1] == '{' }

  /** The kind of the first piece, by its first rune alone. */
  lemma KindByFirstRune(c: Classes, s: string)
    requires Ascii(c) && s != []
    ensures
      var r, what := DecodeRune(s).code, Scan(c, s).what;
      && (what.Blank? <==> IsSpace(r))
      && (what.Punctuation? <==> [s[0]] in PUNCTUATION)
      && (what.Operator? <==> [s[0]] in OPERATORS)
      && (what.Selector? || what.OpenSelector? <==> StartsSelector(s))
      && (what.Number? <==> c.isDigit(r) || s[0] == '.')
      && (what.Identifier? <==> c.isLetter(r) || s[0] == '_')
  {
    hide NumberTail, IdentifierTail, FirstBrace;
    var r := DecodeRune(s).code;
    FirstByte(s);
    PunctuationByte(r);
  }

  lemma FirstByte(s: string)
    requires s != []
    ensures if s[0] as int < 0x80 then DecodeRune(s) == Rune(s[0] as int, 1) else DecodeRune(s).code >= 0x80
  {
  }

  lemma PunctuationByte(r: int)
    ensures IsPunctuation(r) <==> 0 <= r < 0x80 && [r as char] in PUNCTUATION
  {
    var all := "()+-*/!,[]";
    if 0 <= r < 0x80 && [r as char] in PUNCTUATION {
      assert all[0] == '(' && all[1] == ')' && all[2] == '+' && all[3] == '-' && all[4] == '*';
      assert all[5] == '/' && all[6] == '!' && all[7] == ',' && all[8] == '[' && all[9] == ']';
    }
  }

  /** An operator is the longest text at the front that can be one. */
  lemma OperatorsAreLongest(c: Classes, s: string, n: nat)
    requires Ascii(c) && s != []
    ensures Scan(c, s) == Scanned(Operator, n) <==>
      n <= |s| && s[..n] in OPERATORS && forall m | n < m <= |s| :: s[..m] !in OPERATORS
  {
    hide NumberTail, IdentifierTail, FirstBrace, DecodeRune, IsSpace, IsPunctuation;
    KindByFirstRune(c, s);
    FirstByte(s);
    OperatorPrefixes(s);
  }

  lemma OperatorPrefixes(s: string)
    requires s != []
    ensures s[..1] == [s[0]] && s[..0] !in OPERATORS
    ensures |s| > 1 ==> s[..2] == [s[0], s[1]]
    ensures forall m | 2 < m <= |s| :: s[..m] !in OPERATORS
  {
  }

  /** A selector reaches up to the first closing brace; without one the rest of the source is taken. */
  lemma SelectorsEndAtTheFirstBrace(c: Classes, s: string, n: nat)
    requires Ascii(c) && s != []
    ensures Scan(c, s) == Scanned(What.Selector, n) <==>
      StartsSelector(s) && 3 <= n <= |s| && s[n - 1] == '}' && '}' !in s[2..n - 1]
    ensures Scan(c, s).what.OpenSelector? <==> StartsSelector(s) && '}' !in s[2..]
    ensures Scan(c, s).what.OpenSelector? ==> Scan(c, s).width == |s|
  {
    hide NumberTail, IdentifierTail, FirstBrace, DecodeRune, IsSpace, IsPunctuation;
    KindByFirstRune(c, s);
    FirstByte(s);
    if StartsSelector(s) {
      var rest := s[2..];
      if 3 <= n <= |s| { assert s[2..n - 1] == rest[..n - 3] && s[n - 1] == rest[n - 3]; }
      match FirstBrace(rest)
      case None => assert 3 <= n <= |s| ==> rest[n - 3] in rest;
      case Some(i) =>
        assert rest[i] in rest;
        if i < n - 3 <= |rest| { assert rest[..n - 3][i] == rest[i]; }
        if 0 <= n - 3 < i { assert rest[..i][n - 3] == rest[n - 3]; }
    }
  }

  /** A number is its first rune and the longest tail, an identifier its first rune and the whole run behind it. */
  lemma WordsAndNumbers(c: Classes, s: string, n: nat)
    requires Ascii(c) && s != []
    ensures
      var w := DecodeRune(s).width;
      && (Scan(c, s) == Scanned(Number, n) <==> (c.isDigit(DecodeRune(s).code) || s[0] == '.') && n >= w && LongestNumber(s[w..], n - w))
      && (Scan(c, s) == Scanned(Identifier, n) <==> (c.isLetter(DecodeRune(s).code) || s[0] == '_') && n >= w && WholeWord(c, s[w..], n - w))
  {
    hide NumberTail, IdentifierTail, FirstBrace, DecodeRune, IsSpace, IsPunctuation, LongestNumber, WholeWord;
    KindByFirstRune(c, s);
    var w := DecodeRune(s).width;
    if n >= w {
      NumbersAreLongest(s[w..], n - w);
      IdentifiersAreWholeWords(c, s[w..], n - w);
    }
  }

  /** White space, punctuation and what no token can start with are one rune each. */
  lemma SingleRunes(c: Classes, s: string)
    requires Ascii(c) && s != []
    ensures
      var sc := Scan(c, s);
      (sc.what.Blank? || sc.what.Punctuation? || sc.what.Unsupported? ==> sc.width == DecodeRune(s).width)
      && (sc.what.Punctuation? ==> sc.width == 1)
  {
    hide NumberTail, IdentifierTail, FirstBrace, DecodeRune, IsSpace, IsPunctuation;
    KindByFirstRune(c, s);
    FirstByte(s);
  }

  // ---------- Every token of a source ----------

  /** What stands at the start of a token's span, said by kind; an open selector takes the rest of the source. */
  ghost predicate WellScanned(c: Classes, source: string, t: Token)
    requires 0 <= t.span.start < t.span.end <= |source|
  {
    var s, n := source[t.span.start..], t.span.end - t.span.start;
    var r := DecodeRune(s);
    && t.text == s[..n]
    && (|| (t.kind == t.text && t.text in PUNCTUATION)
        || (t.kind == "op" && t.text in OPERATORS && forall m | n < m <= |s| :: s[..m] !in OPERATORS)
        || (t.kind == "number" && (c.isDigit(r.code) || s[0] == '.') && n >= r.width && LongestNumber(s[r.width..], n - r.width))
        || (t.kind == "identifier" && (c.isLetter(r.code) || s[0] == '_') && n >= r.width && WholeWord(c, s[r.width..], n - r.width))
        || (t.kind == "selector" && StartsSelector(s)
            && (if '}' in s[2..] then n >= 3 && s[n - 1] == '}' && '}' !in s[2..n - 1] else n == |s|)))
  }

  lemma PieceIsWellScanned(c: Classes, source: string, at: nat)
    requires Ascii(c) && at < |source|
    ensures
      var sc := Scan(c, source[at..]);
      IsToken(sc.what) ==>
        |Piece(source, at, sc).tokens| == 1
        && var t := Piece(source, at, sc).tokens[0];
           t.span == Span(at, at + sc.width) && WellScanned(c, source, t)
  {
    hide Scan, DecodeRune, LongestNumber, WholeWord;
    var s := source[at..];
    var sc := Scan(c, s);
    assert source[at..at + sc.width] == s[..sc.width];
    match sc.what
    case Punctuation =>
      KindByFirstRune(c, s);
      SingleRunes(c, s);
      assert s[..1] == [s[0]];
    case Operator => OperatorsAreLongest(c, s, sc.width);
    case Selector =>
      SelectorsEndAtTheFirstBrace(c, s, sc.width);
      assert s[2..][sc.width - 3] == '}';
    case OpenSelector => SelectorsEndAtTheFirstBrace(c, s, sc.width);
    case Number => WordsAndNumbers(c, s, sc.width);
    case Identifier => WordsAndNumbers(c, s, sc.width);
    case _ =>
  }

  /** Every token of every source is one of the five kinds, and the longest of its kind. */
  lemma {:induction false} TokensAreLongest(c: Classes, source: string, at: nat, i: nat)
    requires Ascii(c) && at <= |source| && i < |LexFrom(c, source, at).tokens| - 1
    ensures
      var t := LexFrom(c, source, at).tokens[i];
      0 <= t.span.start < t.span.end <= |source| && WellScanned(c, source, t)
    decreases |source| - at
  {
    hide Scan, WellScanned, Piece, LexFrom;
    if at == |source| {
      LexEnd(c, source);
    } else {
      LexUnfold(c, source, at);
      var sc := Scan(c, source[at..]);
      var rest := LexFrom(c, source, at + sc.width);
      PieceToken(c, source, at, sc);
      PieceIsWellScanned(c, source, at);
      NoTokenPiece(source, at, sc);
      var n := |Piece(source, at, sc).tokens|;
      if i >= n { TokensAreLongest(c, source, at + sc.width, i - n); }
    }
  }

  lemma NoTokenPiece(source: string, at: nat, sc: Scanned)
    requires at + sc.width <= |source|
    ensures !IsToken(sc.what) ==> Piece(source, at, sc).tokens == []
  {
  }

  predicate OpenToken(t: Token) { t.kind == "selector" && (|t.text| < 3 || t.text[|t.text| - 1] != '}') }

  predicate Unterminated(e: SyntaxError) { e.message == "unterminated selector" }

  /** The lexer knows two errors, and reports the second one exactly for the token it could not close. */
  lemma {:induction false} OpenSelectorsAreReported(c: Classes, source: string, at: nat, span: Span)
    requires Ascii(c) && at <= |source|
    ensures
      var lexed := LexFrom(c, source, at);
      && (forall e | e in lexed.errors :: Unterminated(e) || e.message == "unsupported character")
      && ((exists e :: e in lexed.errors && Unterminated(e) && e.span == span) <==> (exists t :: t in lexed.tokens && OpenToken(t) && t.span == span))
    decreases |source| - at
  {
    hide Scan, Piece, LexFrom, OpenToken, Unterminated;
    var lexed := LexFrom(c, source, at);
    if at == |source| {
      EndHasNoSelector(c, source);
    } else {
      LexUnfold(c, source, at);
      var sc := Scan(c, source[at..]);
      var piece, rest := Piece(source, at, sc), LexFrom(c, source, at + sc.width);
      OpenSelectorsAreReported(c, source, at + sc.width, span);
      OpenPiece(c, source, at);
      assert forall e :: e in lexed.errors <==> e in piece.errors || e in rest.errors;
      assert forall t :: t in lexed.tokens <==> t in piece.tokens || t in rest.tokens;
    }
  }

  lemma EndHasNoSelector(c: Classes, source: string)
    ensures LexFrom(c, source, |source|).errors == [] && forall t | t in LexFrom(c, source, |source|).tokens :: !OpenToken(t)
  {
    assert LexFrom(c, source, |source|) == Lexed([Token("eof", "", Span(|source|, |source|))], []);
  }

  lemma OpenPiece(c: Classes, source: string, at: nat)
    requires Ascii(c) && at < |source|
    ensures
      var sc := Scan(c, source[at..]);
      var piece := Piece(source, at, sc);
      && (forall e | e in piece.errors :: (Unterminated(e) || e.message == "unsupported character") && e.span == Span(at, at + sc.width))
      && (forall t | t in piece.tokens :: t.span == Span(at, at + sc.width))
      && ((exists e :: e in piece.errors && Unterminated(e)) <==> (exists t :: t in piece.tokens && OpenToken(t)))
  {
    hide Scan;
    var s := source[at..];
    var sc := Scan(c, s);
    var piece := Piece(source, at, sc);
    var text := source[at..at + sc.width];
    assert text == s[..sc.width];
    SelectorsEndAtTheFirstBrace(c, s, sc.width);
    PunctuationIsNoSelector(c, s);
    if sc.what.OpenSelector? {
      if sc.width >= 3 { assert s[2..][sc.width - 3] == s[sc.width - 1]; }
      assert piece.errors[0] in piece.errors && Unterminated(piece.errors[0]);
      assert piece.tokens[0] in piece.tokens && OpenToken(piece.tokens[0]);
    } else {
      assert sc.what.Unsupported? ==>
        piece.errors == [SyntaxError(Span(at, at + sc.width), "unsupported character")]
        && "unsupported character"[2] == 's' && "unterminated selector"[2] == 't';
      assert IsToken(sc.what) ==> piece.tokens == [Token(KindOf(sc.what, text), text, Span(at, at + sc.width))];
    }
  }

  lemma PunctuationIsNoSelector(c: Classes, s: string)
    requires Ascii(c) && s != []
    ensures Scan(c, s).what.Punctuation? ==> s[..Scan(c, s).width] != "selector"
  {
    hide Scan;
    SingleRunes(c, s);
  }
}
