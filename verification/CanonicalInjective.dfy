/** Equal canonical texts mean equal values. */
module CanonicalInjective {
  import opened Wrappers
  import opened Ordering
  import opened CanonicalJson

  // ---------- Strings delimit themselves ----------

  lemma HexDigitInjective(m: int, n: int)
    requires 0 <= m < 16 && 0 <= n < 16 && HexDigit(m) == HexDigit(n)
    ensures m == n
  {
    var d := "0123456789abcdef";
    assert forall i | 0 <= i < 10 :: d[i] as int == 48 + i;
    assert forall i | 10 <= i < 16 :: d[i] as int == 87 + i;
  }

  lemma Hex4Injective(m: int, n: int)
    requires 0 <= m < 0x10000 && 0 <= n < 0x10000 && Hex4(m) == Hex4(n)
    ensures m == n
  {
    hide HexDigit;
    assert Hex4(m)[0] == Hex4(n)[0] && Hex4(m)[1] == Hex4(n)[1] && Hex4(m)[2] == Hex4(n)[2] && Hex4(m)[3] == Hex4(n)[3];
    HexDigitInjective(m / 4096, n / 4096);
    HexDigitInjective(m / 256 % 16, n / 256 % 16);
    HexDigitInjective(m / 16 % 16, n / 16 % 16);
    HexDigitInjective(m % 16, n % 16);
    Digits4(m);
    Digits4(n);
  }

  lemma Digits4(n: int)
    requires 0 <= n < 0x10000
    ensures n == n / 4096 * 4096 + n / 256 % 16 * 256 + n / 16 % 16 * 16 + n % 16
  {
    assert n == n / 16 * 16 + n % 16;
    assert n / 16 == n / 16 / 16 * 16 + n / 16 % 16 && n / 16 / 16 == n / 256;
    assert n / 256 == n / 256 / 16 * 16 + n / 256 % 16 && n / 256 / 16 == n / 4096;
  }

  /** The first two characters tell how long an escape is. */
  lemma EscapeShape(c: char)
    ensures (ShortEscape(c).Some? || NeedsHex(c)) <==> Escape(c)[0] == '\\'
    ensures ShortEscape(c).Some? ==> |Escape(c)| == 2 && Escape(c)[1] == ShortEscape(c).value != 'u'
    ensures ShortEscape(c).None? && NeedsHex(c) ==> |Escape(c)| == 6 && Escape(c)[1] == 'u' && Escape(c)[2..] == Hex4(c as int)
    ensures ShortEscape(c).None? && !NeedsHex(c) ==> Escape(c) == [c]
    ensures Escape(c)[0] != '\"' && (NeedsHex(c) ==> c as int < 0x10000)
  {
  }

  lemma ShortEscapeInjective(c: char, d: char)
    requires ShortEscape(c).Some? && ShortEscape(c) == ShortEscape(d)
    ensures c == d
  {
  }

  lemma EscapePrefixFree(c: char, s: string, d: char, t: string)
    requires Escape(c) + s == Escape(d) + t
    ensures c == d && s == t
  {
    hide Escape, ShortEscape, NeedsHex, Hex4;
    EscapeShape(c);
    EscapeShape(d);
    var left, right := Escape(c) + s, Escape(d) + t;
    assert left[0] == Escape(c)[0] && right[0] == Escape(d)[0];
    if Escape(c)[0] == '\\' {
      assert left[1] == Escape(c)[1] && right[1] == Escape(d)[1];
      SplitSame(Escape(c), s, Escape(d), t);
      if ShortEscape(c).Some? {
        ShortEscapeInjective(c, d);
      } else {
        Hex4Injective(c as int, d as int);
      }
    } else {
      SplitSame(Escape(c), s, Escape(d), t);
    }
  }

  lemma {:induction false} EscapedPrefixFree(a: string, s: string, b: string, t: string)
    requires EscapeAll(a) + ['\"'] + s == EscapeAll(b) + ['\"'] + t
    ensures a == b && s == t
  {
    hide EscapeAll;
    EscapedStart(a, s);
    EscapedStart(b, t);
    if a == [] && b == [] {
      SplitSame(['\"'], s, ['\"'], t);
    } else {
      EscapePrefixFree(a[0], EscapeAll(a[1..]) + ['\"'] + s, b[0], EscapeAll(b[1..]) + ['\"'] + t);
      EscapedPrefixFree(a[1..], s, b[1..], t);
      assert a == [a[0]] + a[1..] && b == [b[0]] + b[1..];
    }
  }

  /** An escaped text before its closing quote: the quote itself, or an escape that does not start with one. */
  lemma EscapedStart(a: string, s: string)
    ensures var all := EscapeAll(a) + ['\"'] + s;
      if a == [] then all == ['\"'] + s else all == Escape(a[0]) + (EscapeAll(a[1..]) + ['\"'] + s) && all[0] != '\"'
  {
    hide Escape;
    if a != [] { EscapeShape(a[0]); }
  }

  lemma QuotePrefixFree(a: string, s: string, b: string, t: string)
    requires Quote(a) + s == Quote(b) + t
    ensures a == b && s == t
  {
    var left, right := EscapeAll(a) + ['\"'] + s, EscapeAll(b) + ['\"'] + t;
    assert Quote(a) + s == ['\"'] + left && Quote(b) + t == ['\"'] + right;
    SplitSame(['\"'], left, ['\"'], right);
    EscapedPrefixFree(a, s, b, t);
  }

  // ---------- Values, followed by something that cannot continue a number ----------

  /** What may follow a value: nothing, or a character no number contains. */
  predicate Follows(s: string) { s == [] || !IsNumberChar(s[0]) }

  lemma NumberPrefixFree(a: string, s: string, b: string, t: string)
    requires a + s == b + t && Follows(s) && Follows(t)
    requires (forall i | 0 <= i < |a| :: IsNumberChar(a[i])) && (forall i | 0 <= i < |b| :: IsNumberChar(b[i]))
    ensures a == b && s == t
  {
    if |a| < |b| { ShorterNumber(a, s, b, t); }
    if |b| < |a| { ShorterNumber(b, t, a, s); }
    SplitSame(a, s, b, t);
  }

  lemma ShorterNumber(a: string, s: string, b: string, t: string)
    requires |a| < |b| && Follows(s) && forall i | 0 <= i < |b| :: IsNumberChar(b[i])
    ensures a + s != b + t
  {
    assert (b + t)[|a|] == b[|a|];
    if s != [] { assert (a + s)[|a|] == s[0]; }
  }

  /** The first character of a value's text tells its kind. */
  function Head<N>(v: Json<N>, c: char): bool {
    match v
    case Null => c == 'n'
    case Bool(b) => c == if b then 't' else 'f'
    case Str(_) => c == '\"'
    case Num(_) => c == '-' || '0' <= c <= '9'
    case Arr(_) => c == '['
    case Obj(_) => c == '{'
  }

  lemma EncodeHead<N(!new)>(v: Json<N>, numbers: Numbers<N>)
    requires Faithful(numbers) && Encode(v, numbers).Some?
    ensures Encode(v, numbers).value != [] && Head(v, Encode(v, numbers).value[0])
  {
    hide EncodeItems, EncodeMembers, EscapeAll, SortedKeys;
  }

  /** The central fact: a value's text, followed by a delimiter, determines the value and the rest. */
  lemma {:induction false} ValuePrefixFree<N(!new)>(v: Json<N>, s: string, w: Json<N>, t: string, numbers: Numbers<N>)
    requires Faithful(numbers) && Encode(v, numbers).Some? && Encode(w, numbers).Some? && Follows(s) && Follows(t)
    requires Encode(v, numbers).value + s == Encode(w, numbers).value + t
    ensures v == w && s == t
    decreases v, 1
  {
    var a, b := Encode(v, numbers).value, Encode(w, numbers).value;
    EncodeHead(v, numbers);
    EncodeHead(w, numbers);
    assert (a + s)[0] == a[0] && (b + t)[0] == b[0];
    hide Quote, EncodeItems, EncodeMembers, SortedKeys, Head;
    match v {
      case Null => SplitSame(a, s, b, t);
      case Bool(_) => SplitSame(a, s, b, t);
      case Str(x) => QuotePrefixFree(x, s, w.s, t);
      case Num(n) => NumberPrefixFree(a, s, b, t);
      case Arr(items) =>
        var x, y := EncodeItems(items, "", numbers).value, EncodeItems(w.items, "", numbers).value;
        assert a + s == "[" + (x + ("]" + s)) && b + t == "[" + (y + ("]" + t));
        SplitSame("[", x + ("]" + s), "[", y + ("]" + t));
        ItemsPrefixFree(items, s, w.items, t, "", numbers);
      case Obj(members) => ObjectPrefixFree(v, s, w, t, numbers);
    }
  }

  lemma {:induction false} ObjectPrefixFree<N(!new)>(v: Json<N>, s: string, w: Json<N>, t: string, numbers: Numbers<N>)
    requires Faithful(numbers) && Encode(v, numbers).Some? && Encode(w, numbers).Some? && Follows(s) && Follows(t) && v.Obj? && w.Obj?
    requires Encode(v, numbers).value + s == Encode(w, numbers).value + t
    ensures v == w && s == t
    decreases v, 0, |v.members.Keys| + 1
  {
    hide Quote, EncodeMembers, SortedKeys;
    var a, b := Encode(v, numbers).value, Encode(w, numbers).value;
    var kv, kw := SortedKeys(v.members.Keys), SortedKeys(w.members.Keys);
    var x, y := EncodeMembers(v, kv, "", numbers).value, EncodeMembers(w, kw, "", numbers).value;
    assert a + s == "{" + (x + ("}" + s)) && b + t == "{" + (y + ("}" + t));
    SplitSame("{", x + ("}" + s), "{", y + ("}" + t));
    KeyCount(kv, v.members.Keys);
    MembersPrefixFree(v, kv, s, w, kw, t, "", numbers);
    assert Elements(kv) == Elements(kw);
    forall k | k in v.members ensures v.members[k] == w.members[k] { assert k in Elements(kv); }
    assert v.members == w.members;
  }

  lemma KeyCount(ks: seq<string>, keys: set<string>)
    requires Ascending(ks) && Elements(ks) == keys
    ensures |ks| <= |keys|
  {
    AscendingDistinct(ks);
    DistinctSize(ks);
  }

  /** The text of a non-empty item list, taken apart. */
  lemma ItemsUnfold<N>(items: seq<Json<N>>, sep: string, close: string, numbers: Numbers<N>)
    requires items != [] && EncodeItems(items, sep, numbers).Some?
    ensures Encode(items[0], numbers).Some? && EncodeItems(items[1..], ",", numbers).Some?
    ensures EncodeItems(items, sep, numbers).value + close
         == sep + (Encode(items[0], numbers).value + (EncodeItems(items[1..], ",", numbers).value + close))
  {
    hide Encode;
  }

  /** What follows an item is a comma or the closing bracket. */
  lemma RestFollows<N>(items: seq<Json<N>>, close: string, numbers: Numbers<N>)
    requires EncodeItems(items, ",", numbers).Some? && close != [] && !IsNumberChar(close[0])
    ensures var rest := EncodeItems(items, ",", numbers).value + close;
      rest != [] && rest[0] == (if items == [] then close[0] else ',') && Follows(rest)
  {
    if items != [] { ItemsUnfold(items, ",", close, numbers); }
    hide Encode, EncodeItems;
    if items == [] { EmptyItems<N>(",", numbers); assert "" + close == close; }
  }

  lemma EmptyItems<N>(sep: string, numbers: Numbers<N>)
    ensures EncodeItems<N>([], sep, numbers) == Some("")
  {
  }

  lemma {:induction false} ItemsPrefixFree<N(!new)>(xs: seq<Json<N>>, s: string, ys: seq<Json<N>>, t: string, sep: string, numbers: Numbers<N>)
    requires Faithful(numbers) && EncodeItems(xs, sep, numbers).Some? && EncodeItems(ys, sep, numbers).Some? && (sep == "" || sep == ",")
    requires EncodeItems(xs, sep, numbers).value + ("]" + s) == EncodeItems(ys, sep, numbers).value + ("]" + t)
    ensures xs == ys && s == t
    decreases xs, 0
  {
    hide Encode, EncodeItems, Faithful;
    var cs, ct := "]" + s, "]" + t;
    EmptyItems<N>(sep, numbers);
    assert "" + cs == cs && "" + ct == ct;
    if xs == [] && ys == [] {
      SplitSame("]", s, "]", t);
    } else if xs == [] {
      NonEmptyItems(ys, sep, ct, numbers);
    } else if ys == [] {
      NonEmptyItems(xs, sep, cs, numbers);
    } else {
      ItemsUnfold(xs, sep, cs, numbers);
      ItemsUnfold(ys, sep, ct, numbers);
      var rx, ry := EncodeItems(xs[1..], ",", numbers).value + cs, EncodeItems(ys[1..], ",", numbers).value + ct;
      SplitSame(sep, Encode(xs[0], numbers).value + rx, sep, Encode(ys[0], numbers).value + ry);
      RestFollows(xs[1..], cs, numbers);
      RestFollows(ys[1..], ct, numbers);
      ValuePrefixFree(xs[0], rx, ys[0], ry, numbers);
      ItemsPrefixFree(xs[1..], s, ys[1..], t, ",", numbers);
      assert xs == [xs[0]] + xs[1..] && ys == [ys[0]] + ys[1..];
    }
  }

  /** A non-empty list does not start like an empty one. */
  lemma NonEmptyItems<N(!new)>(items: seq<Json<N>>, sep: string, close: string, numbers: Numbers<N>)
    requires Faithful(numbers) && items != [] && EncodeItems(items, sep, numbers).Some? && (sep == "" || sep == ",")
    ensures var text := EncodeItems(items, sep, numbers).value + close; text != [] && text[0] != ']'
  {
    ItemsUnfold(items, sep, close, numbers);
    EncodeHead(items[0], numbers);
  }

  lemma MembersUnfold<N>(v: Json<N>, keys: seq<string>, sep: string, close: string, numbers: Numbers<N>)
    requires v.Obj? && (forall k | k in keys :: k in v.members) && keys != [] && EncodeMembers(v, keys, sep, numbers).Some?
    ensures Encode(v.members[keys[0]], numbers).Some? && EncodeMembers(v, keys[1..], ",", numbers).Some?
    ensures EncodeMembers(v, keys, sep, numbers).value + close
         == sep + (Quote(keys[0]) + (":" + (Encode(v.members[keys[0]], numbers).value + (EncodeMembers(v, keys[1..], ",", numbers).value + close))))
  {
    hide Encode, Quote;
  }

  lemma EmptyMembersText<N>(v: Json<N>, sep: string, close: string, numbers: Numbers<N>)
    requires v.Obj?
    ensures EncodeMembers(v, [], sep, numbers) == Some("") && "" + close == close
  {
  }

  /** A member list that starts like an empty one is empty. */
  lemma NonEmptyMembers<N>(v: Json<N>, keys: seq<string>, sep: string, close: string, numbers: Numbers<N>)
    requires v.Obj? && (forall k | k in keys :: k in v.members) && keys != [] && EncodeMembers(v, keys, sep, numbers).Some?
    requires sep == "" || sep == ","
    ensures var text := EncodeMembers(v, keys, sep, numbers).value + close; text != [] && text[0] != '}'
  {
    MembersUnfold(v, keys, sep, close, numbers);
  }

  lemma MembersFollow<N>(v: Json<N>, keys: seq<string>, close: string, numbers: Numbers<N>)
    requires v.Obj? && (forall k | k in keys :: k in v.members) && EncodeMembers(v, keys, ",", numbers).Some?
    requires close != [] && close[0] == '}'
    ensures Follows(EncodeMembers(v, keys, ",", numbers).value + close)
  {
    hide Encode, Quote;
  }

  lemma {:induction false} MembersPrefixFree<N(!new)>(v: Json<N>, kv: seq<string>, s: string, w: Json<N>, kw: seq<string>, t: string, sep: string, numbers: Numbers<N>)
    requires Faithful(numbers) && v.Obj? && w.Obj? && (sep == "" || sep == ",")
    requires (forall k | k in kv :: k in v.members) && (forall k | k in kw :: k in w.members)
    requires EncodeMembers(v, kv, sep, numbers).Some? && EncodeMembers(w, kw, sep, numbers).Some?
    requires EncodeMembers(v, kv, sep, numbers).value + ("}" + s) == EncodeMembers(w, kw, sep, numbers).value + ("}" + t)
    ensures kv == kw && s == t && forall k | k in kv :: v.members[k] == w.members[k]
    decreases v, 0, |kv|
  {
    hide Encode, EncodeMembers, Quote, Faithful, Follows, IsNumberChar;
    var cs, ct := "}" + s, "}" + t;
    EmptyMembersText(v, sep, cs, numbers);
    EmptyMembersText(w, sep, ct, numbers);
    if kv == [] && kw == [] {
      SplitSame("}", s, "}", t);
    } else if kv == [] {
      NonEmptyMembers(w, kw, sep, ct, numbers);
    } else if kw == [] {
      NonEmptyMembers(v, kv, sep, cs, numbers);
    } else {
      MembersUnfold(v, kv, sep, cs, numbers);
      MembersUnfold(w, kw, sep, ct, numbers);
      var rx, ry := EncodeMembers(v, kv[1..], ",", numbers).value + cs, EncodeMembers(w, kw[1..], ",", numbers).value + ct;
      var vx, vy := Encode(v.members[kv[0]], numbers).value + rx, Encode(w.members[kw[0]], numbers).value + ry;
      SplitSame(sep, Quote(kv[0]) + (":" + vx), sep, Quote(kw[0]) + (":" + vy));
      QuotePrefixFree(kv[0], ":" + vx, kw[0], ":" + vy);
      SplitSame(":", vx, ":", vy);
      MembersFollow(v, kv[1..], cs, numbers);
      MembersFollow(w, kw[1..], ct, numbers);
      ValuePrefixFree(v.members[kv[0]], rx, w.members[kw[0]], ry, numbers);
      MembersPrefixFree(v, kv[1..], s, w, kw[1..], t, ",", numbers);
      assert kv == [kv[0]] + kv[1..] && kw == [kw[0]] + kw[1..];
    }
  }

  /** Canonical texts of accepted values are equal exactly when the values are. */
  lemma CanonicalIsInjective<N(!new)>(v: Json<N>, w: Json<N>, numbers: Numbers<N>)
    requires Faithful(numbers) && Encode(v, numbers).Some? && Encode(w, numbers).Some?
    ensures Encode(v, numbers) == Encode(w, numbers) <==> v == w
  {
    hide Encode;
    if Encode(v, numbers) == Encode(w, numbers) {
      ValuePrefixFree(v, "", w, "", numbers);
    }
  }

  // ---------- Member order ----------

  /** What decoding makes of a member list: later members replace earlier ones. */
  function FromMembers<N>(ms: seq<(string, Json<N>)>): map<string, Json<N>> {
    if ms == [] then map[] else FromMembers(ms[..|ms| - 1])[ms[|ms| - 1].0 := ms[|ms| - 1].1]
  }

  ghost predicate DistinctNames<N>(ms: seq<(string, Json<N>)>) {
    forall i, j | 0 <= i < j < |ms| :: ms[i].0 != ms[j].0
  }

  lemma {:induction false} FromMembersAt<N>(ms: seq<(string, Json<N>)>)
    requires DistinctNames(ms)
    ensures forall k :: k in FromMembers(ms) <==> exists i :: 0 <= i < |ms| && ms[i].0 == k
    ensures forall i | 0 <= i < |ms| :: FromMembers(ms)[ms[i].0] == ms[i].1
  {
    if ms != [] {
      var n := |ms| - 1;
      FromMembersAt(ms[..n]);
      forall k ensures k in FromMembers(ms) <==> exists i :: 0 <= i < |ms| && ms[i].0 == k {
        if k in FromMembers(ms[..n]) {
          var i :| 0 <= i < n && ms[..n][i].0 == k;
          assert ms[i].0 == k;
        }
        if i :| 0 <= i < |ms| && ms[i].0 == k { assert i < n ==> ms[..n][i].0 == k; }
      }
      forall i | 0 <= i < |ms| ensures FromMembers(ms)[ms[i].0] == ms[i].1 {
        if i < n { assert ms[..n][i] == ms[i]; }
      }
    }
  }

  /** The order in which an object's members arrive does not reach the canonical text. */
  lemma MemberOrderIsIrrelevant<N>(a: seq<(string, Json<N>)>, b: seq<(string, Json<N>)>, numbers: Numbers<N>)
    requires DistinctNames(a) && DistinctNames(b) && Elements(a) == Elements(b)
    ensures Encode(Obj(FromMembers(a)), numbers) == Encode(Obj(FromMembers(b)), numbers)
  {
    hide Encode;
    FromMembersAt(a);
    FromMembersAt(b);
    forall k ensures k in FromMembers(a) <==> k in FromMembers(b) {
      if i :| 0 <= i < |a| && a[i].0 == k { assert a[i] in Elements(b); }
      if i :| 0 <= i < |b| && b[i].0 == k { assert b[i] in Elements(a); }
    }
    forall k | k in FromMembers(a) ensures FromMembers(a)[k] == FromMembers(b)[k] {
      var i :| 0 <= i < |a| && a[i].0 == k;
      assert a[i] in Elements(b);
      var j :| 0 <= j < |b| && b[j] == a[i];
      assert FromMembers(b)[b[j].0] == b[j].1;
    }
    assert FromMembers(a) == FromMembers(b);
  }

  // ---------- The contract version: numbers keep their text ----------

  /** A number literal is accepted exactly when it is its own canonical decimal text. */
  function ContractNumbers(canonical: string -> Option<string>): Numbers<string> {
    (t: string) => if canonical(t) == Some(t) then Some(t) else None
  }

  /** Canonical decimal texts are numerals. */
  ghost predicate PrintsNumerals(canonical: string -> Option<string>) {
    forall t | canonical(t) == Some(t) :: IsNumberText(t)
  }

  /** Every number in the value, however deep, is accepted. */
  predicate AllNumbers<N>(v: Json<N>, numbers: Numbers<N>) {
    match v
    case Num(n) => numbers(n).Some?
    case Arr(items) => forall i | 0 <= i < |items| :: AllNumbers(items[i], numbers)
    case Obj(members) => forall k | k in members :: AllNumbers(members[k], numbers)
    case _ => true
  }

  lemma {:induction false} ItemsAccepted<N>(items: seq<Json<N>>, sep: string, numbers: Numbers<N>)
    ensures EncodeItems(items, sep, numbers).Some? <==> forall i | 0 <= i < |items| :: Encode(items[i], numbers).Some?
  {
    hide Encode;
    if items != [] {
      ItemsAccepted(items[1..], ",", numbers);
      assert forall i | 1 <= i < |items| :: items[i] == items[1..][i - 1];
    }
  }

  lemma {:induction false} MembersAccepted<N>(v: Json<N>, keys: seq<string>, sep: string, numbers: Numbers<N>)
    requires v.Obj? && forall k | k in keys :: k in v.members
    ensures EncodeMembers(v, keys, sep, numbers).Some? <==> forall k | k in keys :: Encode(v.members[k], numbers).Some?
  {
    hide Encode, Quote;
    if keys != [] {
      MembersAccepted(v, keys[1..], ",", numbers);
      assert forall k :: k in keys <==> k == keys[0] || k in keys[1..];
    }
  }

  /** A value has a canonical text exactly when all its numbers, however deep, are accepted. */
  lemma {:induction false} AcceptedExactly<N>(v: Json<N>, numbers: Numbers<N>)
    ensures Encode(v, numbers).Some? <==> AllNumbers(v, numbers)
    decreases v
  {
    match v {
      case Arr(items) =>
        ItemsAccepted(items, "", numbers);
        forall i | 0 <= i < |items| ensures Encode(items[i], numbers).Some? <==> AllNumbers(items[i], numbers) {
          AcceptedExactly(items[i], numbers);
        }
      case Obj(members) =>
        var keys := SortedKeys(members.Keys);
        assert forall k :: k in keys <==> k in Elements(keys);
        MembersAccepted(v, keys, "", numbers);
        forall k | k in members ensures Encode(members[k], numbers).Some? <==> AllNumbers(members[k], numbers) {
          AcceptedExactly(members[k], numbers);
        }
      case _ =>
    }
  }

  /** In the contract version, an accepted tree contains canonical decimals only, and equal texts mean equal trees. */
  lemma ContractCanonicalForm(v: Json<string>, w: Json<string>, canonical: string -> Option<string>)
    requires PrintsNumerals(canonical)
    ensures Encode(v, ContractNumbers(canonical)).Some? <==> AllNumbers(v, ContractNumbers(canonical))
    ensures Encode(v, ContractNumbers(canonical)).Some? && Encode(w, ContractNumbers(canonical)).Some? ==>
      (Encode(v, ContractNumbers(canonical)) == Encode(w, ContractNumbers(canonical)) <==> v == w)
  {
    hide Encode;
    AcceptedExactly(v, ContractNumbers(canonical));
    if Encode(v, ContractNumbers(canonical)).Some? && Encode(w, ContractNumbers(canonical)).Some? {
      CanonicalIsInjective(v, w, ContractNumbers(canonical));
    }
  }
}
