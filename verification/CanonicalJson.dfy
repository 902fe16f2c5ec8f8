/** Canonical JSON: sorted members, no white space, one text per value. Strings are sequences of code points. */
module CanonicalJson {
  import opened Wrappers
  import opened Ordering

  /** Decoded JSON; `N` is what the decoder keeps of a number. */
  datatype Json<N> =
    | Null
    | Bool(b: bool)
    | Str(s: string)
    | Num(n: N)
    | Arr(items: seq<Json<N>>)
    | Obj(members: map<string, Json<N>>)

  // ---------- Strings ----------

  function HexDigit(n: int): char
    requires 0 <= n < 16
  {
    "0123456789abcdef"[n]
  }

  function Hex4(code: int): (h: string)
    requires 0 <= code < 0x10000
    ensures |h| == 4
  {
    [HexDigit(code / 4096), HexDigit(code / 256 % 16), HexDigit(code / 16 % 16), HexDigit(code % 16)]
  }

  /** The second character of a two-character escape, if the encoder uses one. */
  function ShortEscape(c: char): Option<char> {
    if c == '\"' then Some('\"')
    else if c == '\\' then Some('\\')
    else if c as int == 8 then Some('b')
    else if c as int == 12 then Some('f')
    else if c == '\n' then Some('n')
    else if c == '\r' then Some('r')
    else if c == '\t' then Some('t')
    else None
  }

  /** Control characters, HTML-sensitive characters and the two line separators. */
  predicate NeedsHex(c: char) {
    c as int < 0x20 || c == '<' || c == '>' || c == '&' || c as int == 0x2028 || c as int == 0x2029
  }

  function Escape(c: char): (e: string)
    ensures |e| >= 1
  {
    if ShortEscape(c).Some? then ['\\', ShortEscape(c).value]
    else if NeedsHex(c) then ['\\', 'u'] + Hex4(c as int)
    else [c]
  }

  function EscapeAll(s: string): string {
    if s == [] then [] else Escape(s[0]) + EscapeAll(s[1..])
  }

  function Quote(s: string): string {
    ['\"'] + EscapeAll(s) + ['\"']
  }

  // ---------- Values ----------

  predicate IsNumberChar(c: char) { '0' <= c <= '9' || c == '-' || c == '+' || c == '.' || c == 'e' || c == 'E' }

  predicate IsNumberText(t: string) {
    t != [] && (t[0] == '-' || '0' <= t[0] <= '9') && forall i | 0 <= i < |t| :: IsNumberChar(t[i])
  }

  /** How numbers are written, if they are accepted at all. */
  type Numbers<!N> = N -> Option<string>

  /** Number texts look like numbers and determine the number. */
  ghost predicate Faithful<N(!new)>(numbers: Numbers<N>) {
    && (forall n | numbers(n).Some? :: IsNumberText(numbers(n).value))
    && (forall m, n | numbers(m).Some? && numbers(m) == numbers(n) :: m == n)
  }

  ghost function SortedKeys(keys: set<string>): (ks: seq<string>)
    ensures Ascending(ks) && Elements(ks) == keys
  {
    SortStrings(Listed(keys))
  }

  ghost function Listed(keys: set<string>): (ks: seq<string>)
    ensures Distinct(ks) && Elements(ks) == keys
  {
    if keys == {} then []
    else
      var k :| k in keys;
      var rest := Listed(keys - {k});
      assert k !in Elements(rest);
      assert Elements([k] + rest) == {k} + Elements(rest);
      [k] + rest
  }

  function Concat(a: Option<string>, b: Option<string>): Option<string> {
    if a.Some? && b.Some? then Some(a.value + b.value) else None
  }

  ghost function Encode<N>(v: Json<N>, numbers: Numbers<N>): Option<string>
    decreases v, 1
  {
    match v
    case Null => Some("null")
    case Bool(b) => Some(if b then "true" else "false")
    case Str(s) => Some(Quote(s))
    case Num(n) => numbers(n)
    case Arr(items) => Concat(Some("["), Concat(EncodeItems(items, "", numbers), Some("]")))
    case Obj(members) => Concat(Some("{"), Concat(EncodeMembers(v, SortedKeys(members.Keys), "", numbers), Some("}")))
  }

  /** The items, the first after `sep` and the others after a comma. */
  ghost function EncodeItems<N>(items: seq<Json<N>>, sep: string, numbers: Numbers<N>): Option<string>
    decreases items, 0
  {
    if items == [] then Some("")
    else Concat(Concat(Some(sep), Encode(items[0], numbers)), EncodeItems(items[1..], ",", numbers))
  }

  ghost function EncodeMembers<N>(v: Json<N>, keys: seq<string>, sep: string, numbers: Numbers<N>): Option<string>
    requires v.Obj? && forall k | k in keys :: k in v.members
    decreases v, 0, |keys|
  {
    if keys == [] then Some("")
    else Concat(Concat(Some(sep + Quote(keys[0]) + ":"), Encode(v.members[keys[0]], numbers)), EncodeMembers(v, keys[1..], ",", numbers))
  }

  // ---------- The writer as it runs ----------

  lemma {:induction false} ItemsAppend<N>(items: seq<Json<N>>, i: nat, numbers: Numbers<N>)
    requires i < |items|
    ensures EncodeItems(items[..i + 1], "", numbers)
         == Concat(EncodeItems(items[..i], "", numbers), Concat(Some(if i > 0 then "," else ""), Encode(items[i], numbers)))
  {
    ItemsAppendFrom(items, i, "", numbers);
  }

  lemma {:induction false} ItemsAppendFrom<N>(items: seq<Json<N>>, i: nat, sep: string, numbers: Numbers<N>)
    requires i < |items|
    ensures EncodeItems(items[..i + 1], sep, numbers)
         == Concat(EncodeItems(items[..i], sep, numbers), Concat(Some(if i > 0 then "," else sep), Encode(items[i], numbers)))
  {
    hide Encode;
    assert items[..i + 1][0] == items[0];
    if i == 0 {
      assert items[..1][1..] == [] && items[..0] == [];
      ConcatUnit(Concat(Some(sep), Encode(items[0], numbers)));
    } else {
      assert items[..i + 1][1..] == items[1..][..i] && items[..i][1..] == items[1..][..i - 1] && items[..i][0] == items[0];
      ItemsAppendFrom(items[1..], i - 1, ",", numbers);
      ConcatAssociates(Concat(Some(sep), Encode(items[0], numbers)), EncodeItems(items[1..][..i - 1], ",", numbers),
                       Concat(Some(","), Encode(items[i], numbers)));
    }
  }

  lemma ConcatUnit(a: Option<string>)
    ensures Concat(a, Some("")) == a && Concat(Some(""), a) == a
  {
    if a.Some? { assert a.value + "" == a.value && "" + a.value == a.value; }
  }

  lemma ConcatAssociates(a: Option<string>, b: Option<string>, c: Option<string>)
    ensures Concat(Concat(a, b), c) == Concat(a, Concat(b, c))
  {
    if a.Some? && b.Some? && c.Some? { assert (a.value + b.value) + c.value == a.value + (b.value + c.value); }
  }

  lemma {:induction false} MembersAppend<N>(v: Json<N>, keys: seq<string>, i: nat, sep: string, numbers: Numbers<N>)
    requires v.Obj? && (forall k | k in keys :: k in v.members) && i < |keys|
    ensures EncodeMembers(v, keys[..i + 1], sep, numbers)
         == Concat(EncodeMembers(v, keys[..i], sep, numbers),
                   Concat(Some((if i > 0 then "," else sep) + Quote(keys[i]) + ":"), Encode(v.members[keys[i]], numbers)))
  {
    hide Encode;
    assert keys[..i + 1][0] == keys[0];
    if i == 0 {
      assert keys[..1][1..] == [] && keys[..0] == [];
      ConcatUnit(Concat(Some(sep + Quote(keys[0]) + ":"), Encode(v.members[keys[0]], numbers)));
    } else {
      assert keys[..i + 1][1..] == keys[1..][..i] && keys[..i][1..] == keys[1..][..i - 1] && keys[..i][0] == keys[0];
      MembersAppend(v, keys[1..], i - 1, ",", numbers);
      ConcatAssociates(Concat(Some(sep + Quote(keys[0]) + ":"), Encode(v.members[keys[0]], numbers)),
                       EncodeMembers(v, keys[1..][..i - 1], ",", numbers),
                       Concat(Some("," + Quote(keys[i]) + ":"), Encode(v.members[keys[i]], numbers)));
    }
  }

  /** Appends the canonical text of `v`, or fails on a number that is not accepted. */
  method WriteCanonical<N>(output: string, v: Json<N>, numbers: Numbers<N>) returns (ok: bool, grown: string)
    ensures ok <==> Encode(v, numbers).Some?
    ensures ok ==> grown == output + Encode(v, numbers).value
    decreases v, 1
  {
    hide EncodeItems, EncodeMembers, Quote, SortedKeys;
    ok, grown := true, output;
    match v {
      case Null => grown := output + "null";
      case Bool(b) => grown := output + (if b then "true" else "false");
      case Str(s) => grown := output + Quote(s);
      case Num(n) =>
        var text := numbers(n);
        if text.None? { return false, output; }
        grown := output + text.value;
      case Arr(items) =>
        ok, grown := WriteItems(output + "[", items, numbers);
        Bracketed(output, "[", EncodeItems(items, "", numbers), "]");
        grown := grown + "]";
      case Obj(members) =>
        ok, grown := WriteMembers(output + "{", v, numbers);
        Bracketed(output, "{", EncodeMembers(v, SortedKeys(members.Keys), "", numbers), "}");
        grown := grown + "}";
    }
  }

  lemma Bracketed(output: string, open: string, body: Option<string>, close: string)
    ensures body.Some? ==> ((output + open) + body.value) + close == output + Concat(Some(open), Concat(body, Some(close))).value
    ensures body.Some? <==> Concat(Some(open), Concat(body, Some(close))).Some?
  {
  }

  method WriteItems<N>(output: string, items: seq<Json<N>>, numbers: Numbers<N>) returns (ok: bool, grown: string)
    ensures ok <==> EncodeItems(items, "", numbers).Some?
    ensures ok ==> grown == output + EncodeItems(items, "", numbers).value
    decreases items, 0
  {
    hide Encode;
    ok, grown := true, output;
    var i := 0;
    assert items[..0] == [];
    while i < |items|
      invariant i <= |items|
      invariant EncodeItems(items[..i], "", numbers).Some? && grown == output + EncodeItems(items[..i], "", numbers).value
    {
      ItemsAppend(items, i, numbers);
      if i > 0 { grown := grown + ","; }
      ok, grown := WriteCanonical(grown, items[i], numbers);
      if !ok {
        PrefixFails(items, i, "", numbers);
        return;
      }
      i := i + 1;
    }
    assert items[..i] == items;
  }

  /** A failing prefix makes the whole fail. */
  lemma {:induction false} PrefixFails<N>(items: seq<Json<N>>, i: nat, sep: string, numbers: Numbers<N>)
    requires i < |items| && Encode(items[i], numbers).None?
    ensures EncodeItems(items, sep, numbers).None?
  {
    hide Encode;
    if i > 0 { PrefixFails(items[1..], i - 1, ",", numbers); }
  }

  lemma {:induction false} MemberFails<N>(v: Json<N>, keys: seq<string>, i: nat, sep: string, numbers: Numbers<N>)
    requires v.Obj? && (forall k | k in keys :: k in v.members) && i < |keys| && Encode(v.members[keys[i]], numbers).None?
    ensures EncodeMembers(v, keys, sep, numbers).None?
  {
    hide Encode;
    if i > 0 { MemberFails(v, keys[1..], i - 1, ",", numbers); }
  }

  /** The keys of a map, sorted. */
  method KeysInOrder(members: set<string>) returns (keys: seq<string>)
    ensures keys == SortedKeys(members) && forall k | k in keys :: k in members
  {
    hide SortedKeys, Ascending;
    var unsorted := KeysOf(members);
    keys := SortStrings(unsorted);
    AscendingUnique(keys, SortedKeys(members));
    assert forall k | k in keys :: k in Elements(keys);
  }

  lemma EmptyMembers<N>(v: Json<N>, numbers: Numbers<N>)
    requires v.Obj?
    ensures EncodeMembers(v, [], "", numbers) == Some("")
  {
  }

  lemma MemberText(output: string, before: Option<string>, sep: string, name: string, value: Option<string>)
    requires before.Some?
    ensures value.Some? ==>
      ((output + before.value) + sep + name + ":") + value.value == output + Concat(before, Concat(Some(sep + name + ":"), value)).value
    ensures value.Some? <==> Concat(before, Concat(Some(sep + name + ":"), value)).Some?
    ensures (output + before.value) + "" == output + before.value
  {
  }

  method WriteMembers<N>(output: string, v: Json<N>, numbers: Numbers<N>) returns (ok: bool, grown: string)
    requires v.Obj?
    ensures ok <==> EncodeMembers(v, SortedKeys(v.members.Keys), "", numbers).Some?
    ensures ok ==> grown == output + EncodeMembers(v, SortedKeys(v.members.Keys), "", numbers).value
    decreases v, 0
  {
    hide Encode, Quote, SortedKeys, EncodeMembers, Concat;
    EmptyMembers(v, numbers);
    ok, grown := true, output;
    var keys := KeysInOrder(v.members.Keys);
    var i := 0;
    assert keys[..0] == [];
    ok := true;
    while i < |keys|
      invariant i <= |keys|
      invariant EncodeMembers(v, keys[..i], "", numbers).Some? && grown == output + EncodeMembers(v, keys[..i], "", numbers).value
    {
      MembersAppend(v, keys, i, "", numbers);
      MemberText(output, EncodeMembers(v, keys[..i], "", numbers), if i > 0 then "," else "", Quote(keys[i]),
                 Encode(v.members[keys[i]], numbers));
      if i > 0 { grown := grown + ","; }
      grown := grown + Quote(keys[i]) + ":";
      ok, grown := WriteCanonical(grown, v.members[keys[i]], numbers);
      if !ok {
        MemberFails(v, keys, i, "", numbers);
        return;
      }
      i := i + 1;
    }
    assert keys[..i] == keys;
  }
}
