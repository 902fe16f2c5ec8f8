/** Canonical texts are JSON: what a text denotes by the grammar of RFC 8259, said without the encoder. */
module CanonicalGrammar {
  import opened Wrappers
  import opened Ordering
  import opened CanonicalJson

  // ---------- Strings ----------

  function DigitValue(c: char): int {
    if '0' <= c <= '9' then c as int - '0' as int
    else if 'a' <= c <= 'f' then c as int - 'a' as int + 10
    else if 'A' <= c <= 'F' then c as int - 'A' as int + 10
    else -1
  }

  /** The code that four hexadecimal digits name. */
  predicate HexNames(h: string, code: int) {
    && |h| == 4 && (forall i | 0 <= i < 4 :: DigitValue(h[i]) >= 0)
    && code == 4096 * DigitValue(h[0]) + 256 * DigitValue(h[1]) + 16 * DigitValue(h[2]) + DigitValue(h[3])
  }

  /** `\"`, `\\`, `\/`, `\b`, `\f`, `\n`, `\r` and `\t`. */
  predicate ShortNames(letter: char, c: char) {
    || (letter == '\"' && c as int == 0x22)
    || (letter == '\\' && c as int == 0x5C)
    || (letter == '/' && c as int == 0x2F)
    || (letter == 'b' && c as int == 0x08)
    || (letter == 'f' && c as int == 0x0C)
    || (letter == 'n' && c as int == 0x0A)
    || (letter == 'r' && c as int == 0x0D)
    || (letter == 't' && c as int == 0x09)
  }

  /** Section 7 of RFC 8259: a character stands for itself, or for a two-character or a hexadecimal escape. */
  predicate Spelling(e: string, c: char) {
    || (e == [c] && c as int >= 0x20 && c as int != 0x22 && c as int != 0x5C)
    || (|e| == 2 && e[0] as int == 0x5C && ShortNames(e[1], c))
    || (|e| == 6 && e[0] as int == 0x5C && e[1] == 'u' && HexNames(e[2..], c as int))
  }

  ghost predicate Spells(body: string, s: string)
    decreases |s|
  {
    if s == "" then body == "" else exists cut: nat :: SpellsFrom(body, cut, s)
  }

  ghost predicate SpellsFrom(body: string, cut: nat, s: string)
    requires s != ""
    decreases |s|, 0
  {
    cut <= |body| && Spelling(body[..cut], s[0]) && Spells(body[cut..], s[1..])
  }

  ghost predicate IsString(text: string, s: string) {
    |text| >= 2 && text[0] as int == 0x22 && text[|text| - 1] as int == 0x22 && Spells(text[1..|text| - 1], s)
  }

  // ---------- Values ----------

  /** A text denotes a value; numbers are written as their format says. */
  ghost predicate Denotes<N(!new)>(text: string, v: Json<N>, numbers: Numbers<N>)
    decreases v, 1
  {
    match v
    case Null => text == "null"
    case Bool(b) => text == if b then "true" else "false"
    case Str(s) => IsString(text, s)
    case Num(n) => numbers(n) == Some(text)
    case Arr(items) => exists parts: seq<string> :: IsArray(text, parts, v, numbers)
    case Obj(_) => exists keys: seq<string>, parts: seq<string> :: IsObject(text, keys, parts, v, numbers)
  }

  /** The items in order, between brackets, separated by commas. */
  ghost predicate IsArray<N(!new)>(text: string, parts: seq<string>, v: Json<N>, numbers: Numbers<N>)
    requires v.Arr?
    decreases v, 0
  {
    && |parts| == |v.items| && text == "[" + Join(parts, ",") + "]"
    && forall i | 0 <= i < |parts| :: Denotes(parts[i], v.items[i], numbers)
  }

  /** Every member once, in ascending order of the keys, between braces, separated by commas. */
  ghost predicate IsObject<N(!new)>(text: string, keys: seq<string>, parts: seq<string>, v: Json<N>, numbers: Numbers<N>)
    requires v.Obj?
    decreases v, 0
  {
    && Ascending(keys) && Elements(keys) == v.members.Keys && |parts| == |keys| && text == "{" + Join(parts, ",") + "}"
    && forall i | 0 <= i < |parts| :: keys[i] in v.members && DenotesMember(parts[i], keys[i], v.members[keys[i]], numbers)
  }

  ghost predicate DenotesMember<N(!new)>(text: string, key: string, value: Json<N>, numbers: Numbers<N>)
    decreases value, 3
  {
    exists cut: nat :: IsMember(text, cut, key, value, numbers)
  }

  /** The key as a string, a colon, the value. */
  ghost predicate IsMember<N(!new)>(text: string, cut: nat, key: string, value: Json<N>, numbers: Numbers<N>)
    decreases value, 2
  {
    cut < |text| && text[cut] == ':' && IsString(text[..cut], key) && Denotes(text[cut + 1..], value, numbers)
  }

  // ---------- Every canonical text denotes its value ----------

  lemma HexDigitValue(n: int)
    requires 0 <= n < 16
    ensures DigitValue(HexDigit(n)) == n
  {
  }

  lemma Hex4Names(code: int)
    requires 0 <= code < 0x10000
    ensures HexNames(Hex4(code), code)
  {
    hide HexDigit, DigitValue;
    HexDigitValue(code / 4096);
    HexDigitValue(code / 256 % 16);
    HexDigitValue(code / 16 % 16);
    HexDigitValue(code % 16);
    FourDigits(code);
  }

  lemma FourDigits(code: int)
    requires 0 <= code < 0x10000
    ensures code == 4096 * (code / 4096) + 256 * (code / 256 % 16) + 16 * (code / 16 % 16) + code % 16
  {
    assert code / 16 == 16 * (code / 256) + code / 16 % 16;
    assert code / 256 == 16 * (code / 4096) + code / 256 % 16;
  }

  /** Every character is written in one of the ways the grammar allows, and means itself. */
  lemma EscapeSpells(c: char)
    ensures Spelling(Escape(c), c)
  {
    hide Hex4, HexNames;
    if ShortEscape(c).None? && NeedsHex(c) {
      Hex4Names(c as int);
      assert Escape(c)[2..] == Hex4(c as int);
    }
  }

  /** A character is escaped exactly when it is a quote, a backslash, a control character, or one that HTML or JavaScript would read. */
  lemma EscapedExactly(c: char)
    ensures Escape(c) == [c] <==> c as int >= 0x20 && c !in "\"\\<>&" && c as int != 0x2028 && c as int != 0x2029
    ensures |Escape(c)| == 2 <==> c in "\"\\\n\r\t" || c as int == 8 || c as int == 12
    ensures forall i | 2 <= i < |Escape(c)| :: '0' <= Escape(c)[i] <= '9' || 'a' <= Escape(c)[i] <= 'f'
  {
    var all, short := "\"\\<>&", "\"\\\n\r\t";
    assert all[0] == '\"' && all[1] == '\\' && all[2] == '<' && all[3] == '>' && all[4] == '&';
    assert short[0] == '\"' && short[1] == '\\' && short[2] == '\n' && short[3] == '\r' && short[4] == '\t';
    assert |Hex4(0)| == 4;
  }

  lemma {:induction false} EscapeAllSpells(s: string)
    ensures Spells(EscapeAll(s), s)
  {
    hide Escape, Spelling;
    if s != "" {
      var body, cut := EscapeAll(s), |Escape(s[0])|;
      EscapeSpells(s[0]);
      EscapeAllSpells(s[1..]);
      assert body[..cut] == Escape(s[0]) && body[cut..] == EscapeAll(s[1..]);
      assert SpellsFrom(body, cut, s);
    }
  }

  lemma QuoteIsString(s: string)
    ensures IsString(Quote(s), s)
  {
    hide EscapeAll, Spells;
    EscapeAllSpells(s);
    assert Quote(s)[1..|Quote(s)| - 1] == EscapeAll(s);
  }

  lemma {:induction false} TextDenotes<N(!new)>(v: Json<N>, numbers: Numbers<N>)
    requires Encode(v, numbers).Some?
    ensures Denotes(Encode(v, numbers).value, v, numbers)
    decreases v, 2
  {
    hide Quote, EncodeItems, EncodeMembers, IsString, SortedKeys, IsArray, IsObject;
    match v
    case Str(s) => QuoteIsString(s);
    case Arr(items) => ArrayDenotes(v, numbers);
    case Obj(_) => ObjectDenotes(v, numbers);
    case _ =>
  }

  lemma {:induction false} ArrayDenotes<N(!new)>(v: Json<N>, numbers: Numbers<N>)
    requires v.Arr? && EncodeItems(v.items, "", numbers).Some?
    ensures Denotes("[" + (EncodeItems(v.items, "", numbers).value + "]"), v, numbers)
    decreases v, 1
  {
    hide EncodeItems;
    var parts := ItemParts(v.items, "", numbers);
    var text := EncodeItems(v.items, "", numbers).value;
    assert "[" + (text + "]") == "[" + text + "]";
    assert IsArray("[" + (text + "]"), parts, v, numbers);
  }

  lemma {:induction false} ItemParts<N(!new)>(items: seq<Json<N>>, sep: string, numbers: Numbers<N>) returns (parts: seq<string>)
    requires EncodeItems(items, sep, numbers).Some?
    ensures |parts| == |items| && forall i | 0 <= i < |parts| :: Denotes(parts[i], items[i], numbers)
    ensures EncodeItems(items, sep, numbers).value == (if items == [] then "" else sep) + Join(parts, ",")
    decreases items, 0
  {
    hide Encode, Denotes;
    if items == [] {
      parts := [];
    } else {
      TextDenotes(items[0], numbers);
      var rest := ItemParts(items[1..], ",", numbers);
      parts := [Encode(items[0], numbers).value] + rest;
      assert parts[1..] == rest;
      assert forall i | 1 <= i < |parts| :: parts[i] == rest[i - 1] && items[i] == items[1..][i - 1];
      JoinStart(parts);
    }
  }

  lemma JoinStart(parts: seq<string>)
    requires parts != []
    ensures Join(parts, ",") == parts[0] + (if |parts| == 1 then "" else "," + Join(parts[1..], ","))
  {
  }

  lemma {:induction false} ObjectDenotes<N(!new)>(v: Json<N>, numbers: Numbers<N>)
    requires v.Obj? && EncodeMembers(v, SortedKeys(v.members.Keys), "", numbers).Some?
    ensures Denotes("{" + (EncodeMembers(v, SortedKeys(v.members.Keys), "", numbers).value + "}"), v, numbers)
    decreases v, 1
  {
    hide EncodeMembers, SortedKeys, DenotesMember, Ascending;
    var keys := SortedKeys(v.members.Keys);
    assert forall k | k in keys :: k in Elements(keys);
    var parts := MemberParts(v, keys, "", numbers);
    var text := EncodeMembers(v, keys, "", numbers).value;
    assert "{" + (text + "}") == "{" + text + "}";
    assert IsObject("{" + (text + "}"), keys, parts, v, numbers);
  }

  lemma {:induction false} MemberParts<N(!new)>(v: Json<N>, keys: seq<string>, sep: string, numbers: Numbers<N>) returns (parts: seq<string>)
    requires v.Obj? && (forall k | k in keys :: k in v.members) && EncodeMembers(v, keys, sep, numbers).Some?
    ensures |parts| == |keys|
    ensures forall i | 0 <= i < |parts| :: DenotesMember(parts[i], keys[i], v.members[keys[i]], numbers)
    ensures EncodeMembers(v, keys, sep, numbers).value == (if keys == [] then "" else sep) + Join(parts, ",")
    decreases v, 0, |keys|
  {
    hide Encode, DenotesMember, Quote;
    if keys == [] {
      parts := [];
    } else {
      var value := v.members[keys[0]];
      var text := Encode(value, numbers).value;
      MemberDenotes(keys[0], value, numbers);
      var rest := MemberParts(v, keys[1..], ",", numbers);
      parts := [Quote(keys[0]) + ":" + text] + rest;
      assert parts[1..] == rest;
      assert forall i | 1 <= i < |parts| :: parts[i] == rest[i - 1] && keys[i] == keys[1..][i - 1];
      JoinStart(parts);
      assert EncodeMembers(v, keys, sep, numbers).value == sep + Quote(keys[0]) + ":" + text + EncodeMembers(v, keys[1..], ",", numbers).value;
    }
  }

  lemma {:induction false} MemberDenotes<N(!new)>(key: string, value: Json<N>, numbers: Numbers<N>)
    requires Encode(value, numbers).Some?
    ensures DenotesMember(Quote(key) + ":" + Encode(value, numbers).value, key, value, numbers)
    decreases value, 3
  {
    hide Encode, Quote, IsString, Denotes;
    var text := Quote(key) + ":" + Encode(value, numbers).value;
    QuoteIsString(key);
    TextDenotes(value, numbers);
    assert text[..|Quote(key)|] == Quote(key) && text[|Quote(key)| + 1..] == Encode(value, numbers).value;
    assert IsMember(text, |Quote(key)|, key, value, numbers);
  }

  // ---------- Reading off the members of an object ----------

  lemma FirstLettersAscend(keys: seq<string>)
    requires forall i | 0 <= i < |keys| :: keys[i] != ""
    requires forall i, j | 0 <= i < j < |keys| :: keys[i][0] < keys[j][0]
    ensures Ascending(keys)
  {
  }

  lemma {:induction false} NeighboursAscend(keys: seq<string>)
    requires forall i | 0 <= i < |keys| - 1 :: Less(keys[i], keys[i + 1])
    ensures Ascending(keys)
  {
    hide Less;
    if |keys| > 1 {
      NeighboursAscend(keys[1..]);
      forall j | 1 < j < |keys| ensures Less(keys[0], keys[j]) {
        assert Less(keys[1..][0], keys[1..][j - 1]);
        LessTransitive(keys[0], keys[1], keys[j]);
      }
      forall i, j | 1 <= i < j < |keys| ensures Less(keys[i], keys[j]) { assert Less(keys[1..][i - 1], keys[1..][j - 1]); }
    }
  }

  /** The first place where two texts differ decides. */
  lemma {:induction false} LessAt(x: string, y: string, at: nat)
    requires at < |x| && at < |y| && x[at] < y[at] && forall i | 0 <= i < at :: x[i] == y[i]
    ensures Less(x, y)
  {
    if at > 0 { LessAt(x[1..], y[1..], at - 1); }
  }

  /** The text of an object with these keys lists exactly its members, in their ascending order. */
  lemma ObjectReads<N(!new)>(v: Json<N>, keys: seq<string>, numbers: Numbers<N>) returns (parts: seq<string>)
    requires v.Obj? && Encode(v, numbers).Some? && Ascending(keys) && Elements(keys) == v.members.Keys
    ensures IsObject(Encode(v, numbers).value, keys, parts, v, numbers)
  {
    hide Encode, DenotesMember, Ascending;
    TextDenotes(v, numbers);
    var ks: seq<string>, ps: seq<string> :| IsObject(Encode(v, numbers).value, ks, ps, v, numbers);
    AscendingUnique(ks, keys);
    parts := ps;
  }
}
