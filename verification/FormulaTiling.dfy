/** The lexer's tokens, blanks and errors tile the source; what that gives the parser. */
module FormulaTiling {
  import opened FormulaAst
  import opened FormulaParser
  import opened FormulaLexer
  import opened Text
  import opened FormulaShape

  predicate In(k: int, span: Span) { span.start <= k < span.end }

  predicate InToken(tokens: seq<Token>, k: int) {
    exists i :: 0 <= i < |tokens| && In(k, tokens[i].span)
  }

  predicate InUnsupported(errors: seq<SyntaxError>, k: int) {
    exists i :: 0 <= i < |errors| && errors[i].message == "unsupported character" && In(k, errors[i].span)
  }

  /** Byte `k` belongs to a white-space rune. */
  ghost predicate InBlank(source: string, k: int) {
    exists a: nat :: a < |source| && IsSpace(DecodeRune(source[a..]).code) && a <= k < a + DecodeRune(source[a..]).width
  }

  /** Tokens from `at` on: in bounds, non-empty, in order, and each the text of its own span. */
  ghost predicate TokensOk(source: string, at: nat, tokens: seq<Token>) {
    && tokens != []
    && tokens[|tokens| - 1] == Token("eof", "", Span(|source|, |source|))
    && (forall i | 0 <= i < |tokens| - 1 :: TokenOk(source, at, tokens[i]))
    && (forall i, j | 0 <= i < j < |tokens| :: tokens[i].span.end <= tokens[j].span.start)
  }

  ghost predicate TokenOk(source: string, at: nat, t: Token) {
    at <= t.span.start < t.span.end <= |source| && t.text == source[t.span.start..t.span.end] && t.kind != "eof"
  }

  /** Every byte from `at` on is accounted for, and what is rejected is not also a token. */
  ghost predicate Tiles(source: string, at: nat, lexed: Lexed) {
    && (forall k | at <= k < |source| :: InToken(lexed.tokens, k) || InUnsupported(lexed.errors, k) || InBlank(source, k))
    && (forall k | InUnsupported(lexed.errors, k) :: at <= k < |source| && !InToken(lexed.tokens, k))
  }

  lemma {:induction false} LexTokens(c: Classes, source: string, at: nat)
    requires at <= |source|
    ensures TokensOk(source, at, LexFrom(c, source, at).tokens)
    decreases |source| - at
  {
    hide Scan, LexFrom, TokensOk, TokenOk, Piece, Tiles;
    if at == |source| {
      LexEnd(c, source);
    } else {
      LexUnfold(c, source, at);
      var sc := Scan(c, source[at..]);
      LexTokens(c, source, at + sc.width);
      PieceToken(c, source, at, sc);
      PrependToken(source, at, at + sc.width, Piece(source, at, sc).tokens, LexFrom(c, source, at + sc.width).tokens);
    }
  }

  lemma LexEnd(c: Classes, source: string)
    ensures TokensOk(source, |source|, LexFrom(c, source, |source|).tokens)
    ensures Tiles(source, |source|, LexFrom(c, source, |source|))
  {
    assert LexFrom(c, source, |source|) == Lexed([Token("eof", "", Span(|source|, |source|))], []);
  }

  lemma PieceToken(c: Classes, source: string, at: nat, sc: Scanned)
    requires at < |source| && sc == Scan(c, source[at..])
    ensures forall t | t in Piece(source, at, sc).tokens :: TokenOk(source, at, t) && t.span.end <= at + sc.width
    ensures |Piece(source, at, sc).tokens| <= 1
  {
    hide Scan, KindOf;
    assert source[at..][..sc.width] == source[at..at + sc.width];
    KindIsKnown(c, source[at..]);
  }

  lemma PunctuationIsOneByte(s: string)
    requires s != [] && IsPunctuation(DecodeRune(s).code)
    ensures DecodeRune(s).width == 1
  {
  }

  /** No piece is taken for the end marker. */
  lemma KindIsKnown(c: Classes, s: string)
    requires s != []
    ensures IsToken(Scan(c, s).what) ==> KindOf(Scan(c, s).what, s[..Scan(c, s).width]) != "eof"
  {
    hide DecodeRune, NumberTail, IdentifierTail, FirstBrace, IsSpace, IsPunctuation, IsOperatorStart;
    if IsPunctuation(DecodeRune(s).code) { PunctuationIsOneByte(s); }
  }

  lemma PrependToken(source: string, at: nat, next: nat, first: seq<Token>, rest: seq<Token>)
    requires at <= next <= |source| && TokensOk(source, next, rest) && |first| <= 1
    requires forall t | t in first :: TokenOk(source, at, t) && t.span.end <= next
    ensures TokensOk(source, at, first + rest)
  {
    var all := first + rest;
    forall i | 0 <= i < |all| - 1 ensures TokenOk(source, at, all[i]) {
      if i < |first| { assert first[i] in first; } else { assert TokenOk(source, next, rest[i - |first|]); }
    }
    forall i, j | 0 <= i < j < |all| ensures all[i].span.end <= all[j].span.start {
      if i < |first| {
        assert first[i] in first;
        assert j - |first| < |rest| - 1 ==> TokenOk(source, next, rest[j - |first|]);
      }
    }
  }

  lemma {:induction false} LexTiles(c: Classes, source: string, at: nat)
    requires at <= |source|
    ensures Tiles(source, at, LexFrom(c, source, at))
    decreases |source| - at
  {
    hide Scan, LexFrom, Tiles, TokensOk, Piece, Then;
    if at == |source| {
      LexEnd(c, source);
    } else {
      LexUnfold(c, source, at);
      BlankPiece(c, source, at);
      var sc := Scan(c, source[at..]);
      var next := at + sc.width;
      LexTiles(c, source, next);
      LexTokens(c, source, next);
      PieceTiles(source, at, sc, LexFrom(c, source, next));
    }
  }

  lemma BlankPiece(c: Classes, source: string, at: nat)
    requires at < |source|
    ensures
      var sc := Scan(c, source[at..]);
      sc.what == Blank ==> forall k | at <= k < at + sc.width :: InBlank(source, k)
  {
    hide DecodeRune, IsPunctuation;
  }

  lemma LexUnfold(c: Classes, source: string, at: nat)
    requires at < |source|
    ensures
      var sc := Scan(c, source[at..]);
      LexFrom(c, source, at) == Then(Piece(source, at, sc), LexFrom(c, source, at + sc.width))
  {
    hide Scan;
  }

  lemma PieceTiles(source: string, at: nat, sc: Scanned, rest: Lexed)
    requires sc.width >= 1 && at + sc.width <= |source| && Tiles(source, at + sc.width, rest) && TokensOk(source, at + sc.width, rest.tokens)
    requires sc.what == Blank ==> forall k | at <= k < at + sc.width :: InBlank(source, k)
    ensures Tiles(source, at, Then(Piece(source, at, sc), rest))
  {
    hide InBlank, InToken, InUnsupported, TokensOk;
    var all := Then(Piece(source, at, sc), rest);
    forall k ensures InToken(all.tokens, k) <==> (IsToken(sc.what) && at <= k < at + sc.width) || InToken(rest.tokens, k) {
      PieceTokens(source, at, sc, rest, k);
    }
    forall k ensures InUnsupported(all.errors, k) <==> (sc.what == Unsupported && at <= k < at + sc.width) || InUnsupported(rest.errors, k) {
      PieceErrors(source, at, sc, rest, k);
    }
    forall k | InToken(rest.tokens, k) ensures k >= at + sc.width { LaterTokens(source, at + sc.width, rest.tokens, k); }
  }

  lemma PieceTokens(source: string, at: nat, sc: Scanned, rest: Lexed, k: int)
    requires sc.width >= 1 && at + sc.width <= |source|
    ensures InToken(Then(Piece(source, at, sc), rest).tokens, k) <==> (IsToken(sc.what) && at <= k < at + sc.width) || InToken(rest.tokens, k)
  {
    var piece := Piece(source, at, sc);
    var all := Then(piece, rest);
    if i :| 0 <= i < |rest.tokens| && In(k, rest.tokens[i].span) {
      assert all.tokens[|piece.tokens| + i] == rest.tokens[i];
    }
    if IsToken(sc.what) { assert all.tokens[0].span == Span(at, at + sc.width); }
  }

  lemma PieceErrors(source: string, at: nat, sc: Scanned, rest: Lexed, k: int)
    requires sc.width >= 1 && at + sc.width <= |source|
    ensures InUnsupported(Then(Piece(source, at, sc), rest).errors, k) <==>
            (sc.what == Unsupported && at <= k < at + sc.width) || InUnsupported(rest.errors, k)
  {
    var piece := Piece(source, at, sc);
    var all := Then(piece, rest);
    if i :| 0 <= i < |rest.errors| && rest.errors[i].message == "unsupported character" && In(k, rest.errors[i].span) {
      assert all.errors[|piece.errors| + i] == rest.errors[i];
    }
    if sc.what == Unsupported { assert all.errors[0].span == Span(at, at + sc.width); }
    if sc.what == OpenSelector { assert all.errors[0].message[2] == 't' && "unsupported character"[2] == 's'; }
  }

  lemma LaterTokens(source: string, at: nat, tokens: seq<Token>, k: int)
    requires TokensOk(source, at, tokens) && at <= |source| && InToken(tokens, k)
    ensures k >= at
  {
    var i :| 0 <= i < |tokens| && In(k, tokens[i].span);
    assert i < |tokens| - 1 ==> TokenOk(source, at, tokens[i]);
  }

  /** The whole source: ordered disjoint tokens that spell their spans, and no byte unaccounted for. */
  lemma LexerTiling(c: Classes, source: string)
    ensures TokensOk(source, 0, LexFrom(c, source, 0).tokens)
    ensures Tiles(source, 0, LexFrom(c, source, 0))
  {
    LexTokens(c, source, 0);
    LexTiles(c, source, 0);
  }

  /** The lexer never produces the inequality operator: the exclamation mark is a token of its own. */
  lemma {:induction false} NoInequality(c: Classes, source: string, at: nat)
    requires at <= |source|
    ensures forall t | t in LexFrom(c, source, at).tokens :: t.text != "!="
    decreases |source| - at
  {
    hide Scan, LexFrom;
    if at == |source| {
      LexEnd(c, source);
    } else {
      LexUnfold(c, source, at);
      var sc := Scan(c, source[at..]);
      NoInequality(c, source, at + sc.width);
      PieceNotInequality(c, source, at);
    }
  }

  lemma PieceNotInequality(c: Classes, source: string, at: nat)
    requires at < |source|
    ensures forall t | t in Piece(source, at, Scan(c, source[at..])).tokens :: t.text != "!="
  {
    hide Scan;
    var sc := Scan(c, source[at..]);
    if source[at] == '!' {
      BangIsAlone(c, source[at..]);
    } else {
      assert source[at..at + sc.width][0] == source[at];
    }
  }

  lemma BangIsAlone(c: Classes, s: string)
    requires s != [] && s[0] == '!'
    ensures Scan(c, s) == Scanned(Punctuation, 1)
  {
    assert "()+-*/!,[]"[6] == '!';
  }

  /** Every lexed sign token spells its sign. */
  lemma {:induction false} LexedSigns(c: Classes, source: string, at: nat)
    requires at <= |source|
    ensures forall t | t in LexFrom(c, source, at).tokens && (t.kind == "-" || t.kind == "!") :: t.text == t.kind
    decreases |source| - at
  {
    hide Scan, LexFrom;
    if at == |source| {
      LexEnd(c, source);
    } else {
      LexUnfold(c, source, at);
      LexedSigns(c, source, at + Scan(c, source[at..]).width);
    }
  }

  // ---------- From source to tree ----------

  /** Tokens of any source are fit for the parser. */
  lemma LexedInput(c: Classes, source: string, inp: Input)
    requires inp.tokens == LexFrom(c, source, 0).tokens
    ensures inp.Terminated() && Ordered(inp)
    ensures forall i | 0 <= i < |inp.tokens| - 1 :: inp.tokens[i].kind != "eof"
  {
    LexTokens(c, source, 0);
    assert forall i | 0 <= i < |inp.tokens| - 1 :: TokenOk(source, 0, inp.tokens[i]);
  }

  /** Every source has a parse; an error-free one uses all of the source and nests every position inside it. */
  lemma SourceParses(c: Classes, source: string, inp: Input)
    requires inp.tokens == LexFrom(c, source, 0).tokens
    ensures inp.Terminated() && Shaped(ParseTokens(inp, LexFrom(c, source, 0).errors).node)
    ensures
      var p := ParseTokens(inp, LexFrom(c, source, 0).errors);
      p.errors == [] ==> Nested(p.node) && 0 <= p.node.span.start && p.node.span.end <= |source|
                         && p.at == |inp.tokens| - 1
                         && forall k | 0 <= k < |source| :: InToken(inp.tokens, k) || InBlank(source, k)
  {
    hide InBlank, InToken, InUnsupported, Nested;
    LexedInput(c, source, inp);
    LexerTiling(c, source);
    var errors := LexFrom(c, source, 0).errors;
    ParseIsShaped(inp, errors);
    if ParseTokens(inp, errors).errors == [] {
      ErrorFreeParse(inp, errors);
      NoErrorsNoGap(source, LexFrom(c, source, 0));
    }
  }

  lemma NoErrorsNoGap(source: string, lexed: Lexed)
    requires Tiles(source, 0, lexed) && lexed.errors == []
    ensures forall k | 0 <= k < |source| :: InToken(lexed.tokens, k) || InBlank(source, k)
  {
    hide InBlank, InToken;
    assert forall k :: !InUnsupported(lexed.errors, k);
  }
}
