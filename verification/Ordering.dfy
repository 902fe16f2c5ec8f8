/** The order of Go strings and the contract of its sort package. */
module Ordering {

  /** `a < b` on Go strings; code-point order and UTF-8 byte order agree. */
  predicate Less(a: string, b: string) {
    b != [] && (a == [] || a[0] < b[0] || (a[0] == b[0] && Less(a[1..], b[1..])))
  }

  lemma {:induction false} LessTrichotomy(a: string, b: string)
    ensures a == b || Less(a, b) || Less(b, a)
    ensures !(Less(a, b) && Less(b, a))
    ensures a == b ==> !Less(a, b)
  {
    if a != [] && b != [] {
      LessTrichotomy(a[1..], b[1..]);
      if a[0] == b[0] {
        assert a == [a[0]] + a[1..] && b == [b[0]] + b[1..];
      }
    }
  }

  lemma {:induction false} LessTransitive(a: string, b: string, c: string)
    requires Less(a, b) && Less(b, c)
    ensures Less(a, c)
  {
    if a != [] && a[0] == b[0] && b[0] == c[0] {
      LessTransitive(a[1..], b[1..], c[1..]);
    }
  }

  /** `a <= b` chains with `b <= c`. */
  lemma AtMostTransitive(a: string, b: string, c: string)
    requires !Less(b, a) && !Less(c, b)
    ensures !Less(c, a)
  {
    if Less(c, a) {
      LessTrichotomy(a, b);
      LessTrichotomy(b, c);
      if a != b && b != c {
        LessTransitive(a, b, c);
        LessTrichotomy(a, c);
      }
    }
  }

  /** What sort.Slice promises about the order of its result. */
  ghost predicate SortedBy<T(!new)>(key: T -> string, s: seq<T>) {
    forall i, j | 0 <= i < j < |s| :: !Less(key(s[j]), key(s[i]))
  }

  /** Strictly ascending: what sort.Strings yields for distinct strings. */
  ghost predicate Ascending(s: seq<string>) {
    forall i, j | 0 <= i < j < |s| :: Less(s[i], s[j])
  }

  ghost predicate Distinct<T>(s: seq<T>) {
    forall i, j | 0 <= i < j < |s| :: s[i] != s[j]
  }

  ghost function Elements<T>(s: seq<T>): set<T> {
    set x | x in s
  }

  function Insert<T(!new)>(key: T -> string, x: T, s: seq<T>): (r: seq<T>)
    requires SortedBy(key, s)
    ensures SortedBy(key, r)
    ensures multiset(r) == multiset(s) + multiset{x}
  {
    if s == [] then [x]
    else if Less(key(s[0]), key(x)) then
      var rest := Insert(key, x, s[1..]);
      assert s == [s[0]] + s[1..];
      assert SortedBy(key, [s[0]] + rest) by { SortedCons(key, s[0], rest, s[1..], x); }
      [s[0]] + rest
    else
      assert SortedBy(key, [x] + s) by { SortedFront(key, x, s); }
      [x] + s
  }

  lemma SortedFront<T(!new)>(key: T -> string, x: T, s: seq<T>)
    requires SortedBy(key, s) && s != [] && !Less(key(s[0]), key(x))
    ensures SortedBy(key, [x] + s)
  {
    forall j | 0 <= j < |s| ensures !Less(key(s[j]), key(x)) {
      if j > 0 { AtMostTransitive(key(x), key(s[0]), key(s[j])); }
    }
  }

  lemma SortedCons<T(!new)>(key: T -> string, y: T, r: seq<T>, s: seq<T>, x: T)
    requires SortedBy(key, r) && multiset(r) == multiset(s) + multiset{x}
    requires forall z | z in s :: !Less(key(z), key(y))
    requires Less(key(y), key(x))
    ensures SortedBy(key, [y] + r)
  {
    forall j | 0 <= j < |r| ensures !Less(key(r[j]), key(y)) {
      assert r[j] in multiset(r);
      LessTrichotomy(key(x), key(y));
    }
  }

  /** A sort: one that meets the contract, whatever the algorithm. */
  function SortBy<T(!new)>(key: T -> string, s: seq<T>): (r: seq<T>)
    ensures SortedBy(key, r)
    ensures multiset(r) == multiset(s)
  {
    if s == [] then []
    else
      assert s == [s[0]] + s[1..];
      Insert(key, s[0], SortBy(key, s[1..]))
  }

  /** sort.Slice is not stable: callers know the order of the keys and nothing about ties. */
  method SortSlice<T(!new)>(key: T -> string, s: seq<T>) returns (r: seq<T>)
    ensures SortedBy(key, r)
    ensures multiset(r) == multiset(s)
  {
    r := SortBy(key, s);
  }

  /** No element of a sorted sequence has a smaller key than its head. */
  lemma HeadLeast<T(!new)>(key: T -> string, a: seq<T>, x: T)
    requires SortedBy(key, a) && x in a
    ensures !Less(key(x), key(a[0]))
  {
    LessTrichotomy(key(x), key(x));
    var i :| 0 <= i < |a| && a[i] == x;
    assert i > 0 ==> !Less(key(a[i]), key(a[0]));
  }

  lemma TailMultiset<T>(a: seq<T>)
    requires a != []
    ensures multiset(a[1..]) == multiset(a) - multiset{a[0]}
  {
    assert a == [a[0]] + a[1..];
  }

  /** Equal keys mean equal elements. */
  ghost predicate InjectiveOn<T(!new)>(key: T -> string, elements: multiset<T>) {
    forall x, y | x in elements && y in elements && key(x) == key(y) :: x == y
  }

  lemma SameHead<T(!new)>(key: T -> string, a: seq<T>, b: seq<T>)
    requires a != [] && b != [] && multiset(a) == multiset(b)
    requires SortedBy(key, a) && SortedBy(key, b) && InjectiveOn(key, multiset(a))
    ensures a[0] == b[0]
    ensures multiset(a[1..]) == multiset(b[1..])
    ensures InjectiveOn(key, multiset(a[1..])) && SortedBy(key, a[1..]) && SortedBy(key, b[1..])
  {
    hide Less;
    assert a[0] in multiset(b) && b[0] in multiset(a);
    HeadLeast(key, b, a[0]);
    HeadLeast(key, a, b[0]);
    LessTrichotomy(key(a[0]), key(b[0]));
    TailMultiset(a);
    TailMultiset(b);
  }

  /** Any two sorts of the same elements agree when keys are injective. */
  lemma {:induction false} SortedUnique<T(!new)>(key: T -> string, a: seq<T>, b: seq<T>)
    requires multiset(a) == multiset(b)
    requires SortedBy(key, a) && SortedBy(key, b) && InjectiveOn(key, multiset(a))
    ensures a == b
  {
    hide Less, SortedBy, InjectiveOn;
    assert |multiset(a)| == |a| && |multiset(b)| == |b|;
    if a != [] {
      SameHead(key, a, b);
      SortedUnique(key, a[1..], b[1..]);
      assert a == [a[0]] + a[1..] && b == [b[0]] + b[1..];
    }
  }

  /** Distinctness is a property of the multiset of elements. */
  lemma {:induction false} DistinctMultiset<T>(s: seq<T>)
    ensures Distinct(s) <==> forall x | x in multiset(s) :: multiset(s)[x] == 1
  {
    if s != [] {
      var t := s[1..];
      assert s == [s[0]] + t;
      DistinctMultiset(t);
      if Distinct(s) {
        assert forall x | x in t :: x != s[0];
      } else if Distinct(t) {
        assert s[0] in t;
        assert multiset(s)[s[0]] == 2;
      } else {
        var x :| x in multiset(t) && multiset(t)[x] != 1;
        assert multiset(s)[x] != 1;
      }
    }
  }

  /** Lists without repetition and with the same elements are permutations of each other. */
  lemma DistinctSameElements<T(!new)>(a: seq<T>, b: seq<T>)
    requires Distinct(a) && Distinct(b) && forall x :: x in a <==> x in b
    ensures multiset(a) == multiset(b)
  {
    DistinctMultiset(a);
    DistinctMultiset(b);
    forall x ensures multiset(a)[x] == multiset(b)[x] {
      assert x in multiset(a) <==> x in a;
      assert x in multiset(b) <==> x in b;
    }
  }

  lemma PermutationKeeps<T>(a: seq<T>, b: seq<T>)
    requires multiset(a) == multiset(b)
    ensures |a| == |b| && Elements(a) == Elements(b)
    ensures Distinct(a) <==> Distinct(b)
  {
    assert |multiset(a)| == |a| && |multiset(b)| == |b|;
    assert forall x :: x in a <==> x in multiset(a);
    assert forall x :: x in b <==> x in multiset(b);
    DistinctMultiset(a);
    DistinctMultiset(b);
  }

  /** sort.Strings. Ties are equal strings, so it is a function of the elements. */
  function SortStrings(s: seq<string>): (r: seq<string>)
    ensures multiset(r) == multiset(s)
    ensures SortedBy((x: string) => x, r)
    ensures Elements(r) == Elements(s) && |r| == |s|
    ensures Distinct(s) ==> Ascending(r)
  {
    var r := SortBy((x: string) => x, s);
    assert Elements(r) == Elements(s) && |r| == |s| && (Distinct(s) ==> Ascending(r)) by {
      PermutationKeeps(r, s);
      forall i, j | 0 <= i < j < |r| && r[i] != r[j] ensures Less(r[i], r[j]) {
        LessTrichotomy(r[i], r[j]);
      }
    }
    r
  }

  /** Two ascending sequences with the same elements are the same sequence. */
  lemma AscendingUnique(a: seq<string>, b: seq<string>)
    requires Ascending(a) && Ascending(b) && Elements(a) == Elements(b)
    ensures a == b
  {
    AscendingDistinct(a);
    AscendingDistinct(b);
    forall x ensures x in a <==> x in b { assert x in a <==> x in Elements(a); assert x in b <==> x in Elements(b); }
    DistinctSameElements(a, b);
    forall i, j | 0 <= i < j < |a| ensures !Less(a[j], a[i]) { LessTrichotomy(a[i], a[j]); }
    forall i, j | 0 <= i < j < |b| ensures !Less(b[j], b[i]) { LessTrichotomy(b[i], b[j]); }
    SortedUnique((x: string) => x, a, b);
  }

  lemma AscendingDistinct(a: seq<string>)
    requires Ascending(a)
    ensures Distinct(a)
  {
    forall i, j | 0 <= i < j < |a| ensures a[i] != a[j] { LessTrichotomy(a[i], a[j]); }
  }

  /** strings.Join. */
  function Join(parts: seq<string>, sep: string): string {
    if parts == [] then ""
    else if |parts| == 1 then parts[0]
    else parts[0] + sep + Join(parts[1..], sep)
  }

  /** The elements of `s` that satisfy `keep`, in order. */
  function Filter<T(!new)>(keep: T -> bool, s: seq<T>): (r: seq<T>)
    ensures forall x :: x in r <==> x in s && keep(x)
  {
    if s == [] then []
    else
      assert s == [s[0]] + s[1..];
      (if keep(s[0]) then [s[0]] else []) + Filter(keep, s[1..])
  }

  lemma {:induction false} FilterAppend<T(!new)>(keep: T -> bool, s: seq<T>, x: T)
    ensures Filter(keep, s + [x]) == Filter(keep, s) + (if keep(x) then [x] else [])
  {
    if s == [] {
    } else {
      assert (s + [x])[1..] == s[1..] + [x];
      FilterAppend(keep, s[1..], x);
    }
  }

  lemma {:induction false} FilterMultiset<T(!new)>(keep: T -> bool, s: seq<T>)
    ensures forall x :: multiset(Filter(keep, s))[x] == if keep(x) then multiset(s)[x] else 0
  {
    if s == [] {
    } else {
      assert s == [s[0]] + s[1..];
      FilterMultiset(keep, s[1..]);
    }
  }

  lemma {:induction false} FilterTwice<T(!new)>(f: T -> bool, g: T -> bool, both: T -> bool, s: seq<T>)
    requires forall x :: both(x) <==> f(x) && g(x)
    ensures Filter(g, Filter(f, s)) == Filter(both, s)
  {
    if s == [] {
    } else {
      FilterTwice(f, g, both, s[1..]);
      var rest := Filter(f, s[1..]);
      if f(s[0]) { assert ([s[0]] + rest)[1..] == rest; }
      assert (if f(s[0]) then [s[0]] else []) + rest == Filter(f, s);
      if !f(s[0]) { assert [] + rest == rest; }
    }
  }

  // ---------- Mapping ----------

  function Map<T, U>(f: T -> U, s: seq<T>): (r: seq<U>)
    ensures |r| == |s| && forall i | 0 <= i < |s| :: r[i] == f(s[i])
  {
    seq(|s|, i requires 0 <= i < |s| => f(s[i]))
  }

  function Without<T>(s: seq<T>, i: nat): seq<T>
    requires i < |s|
  {
    s[..i] + s[i + 1..]
  }

  lemma WithoutMultiset<T>(s: seq<T>, i: nat)
    requires i < |s|
    ensures multiset(s) == multiset(Without(s, i)) + multiset{s[i]}
    ensures multiset(Without(s, i)) == multiset(s) - multiset{s[i]}
  {
    assert s == s[..i] + [s[i]] + s[i + 1..];
  }

  lemma MapWithout<T, U>(f: T -> U, s: seq<T>, i: nat)
    requires i < |s|
    ensures Map(f, Without(s, i)) == Without(Map(f, s), i)
  {
  }

  lemma {:induction false} MapMultiset<T, U>(f: T -> U, a: seq<T>, b: seq<T>)
    requires multiset(a) == multiset(b)
    ensures multiset(Map(f, a)) == multiset(Map(f, b))
    decreases |a|
  {
    assert |multiset(a)| == |a| && |multiset(b)| == |b|;
    if a != [] {
      assert a[0] in multiset(b);
      var i :| 0 <= i < |b| && b[i] == a[0];
      WithoutMultiset(a, 0);
      WithoutMultiset(b, i);
      var c, d := Without(a, 0), Without(b, i);
      MapStep(f, a, 0, b, i) by { MapMultiset(f, c, d); }
    }
  }

  lemma MapStep<T, U>(f: T -> U, a: seq<T>, i: nat, b: seq<T>, j: nat)
    requires i < |a| && j < |b| && a[i] == b[j]
    requires multiset(Map(f, Without(a, i))) == multiset(Map(f, Without(b, j)))
    ensures multiset(Map(f, a)) == multiset(Map(f, b))
  {
    hide Without;
    MapWithout(f, a, i);
    MapWithout(f, b, j);
    WithoutMultiset(Map(f, a), i);
    WithoutMultiset(Map(f, b), j);
  }

  // ---------- Sizes and keys of sets ----------

  lemma {:induction false} ProperSubset<T>(a: set<T>, b: set<T>)
    requires a < b
    ensures |a| < |b|
  {
    if a != {} {
      var x :| x in a;
      ProperSubset(a - {x}, b - {x});
    } else {
      var x :| x in b;
    }
  }

  lemma {:induction false} DistinctSize<T>(s: seq<T>)
    requires Distinct(s)
    ensures |Elements(s)| == |s|
  {
    if s != [] {
      var n := |s| - 1;
      DistinctSize(s[..n]);
      assert s == s[..n] + [s[n]];
      assert s[n] !in s[..n];
      assert Elements(s) == Elements(s[..n]) + {s[n]};
    }
  }

  /** The keys of a Go map in some order. */
  method KeysOf(nodes: set<string>) returns (keys: seq<string>)
    ensures Elements(keys) == nodes && Distinct(keys)
  {
    keys := [];
    var rest := nodes;
    while rest != {}
      invariant Elements(keys) + rest == nodes && Elements(keys) !! rest && Distinct(keys)
    {
      var k :| k in rest;
      rest := rest - {k};
      keys := keys + [k];
    }
  }

  // ---------- Taking joined strings apart ----------

  lemma SplitSame(a: string, s: string, b: string, t: string)
    requires a + s == b + t && |a| == |b|
    ensures a == b && s == t
  {
    assert (a + s)[..|a|] == a && (b + t)[..|b|] == b;
    assert (a + s)[|a|..] == s && (b + t)[|b|..] == t;
  }

  /** Where the separator does not occur in front, it cuts a string in one way. */
  lemma CutOnce(a: string, x: string, b: string, y: string, sep: char)
    requires sep !in a && sep !in b && a + [sep] + x == b + [sep] + y
    ensures a == b && x == y
  {
    if |a| < |b| { CutInside(a, x, b, y, sep); }
    if |b| < |a| { CutInside(b, y, a, x, sep); }
    assert a + [sep] + x == a + ([sep] + x) && b + [sep] + y == b + ([sep] + y);
    SplitSame(a, [sep] + x, b, [sep] + y);
    SplitSame([sep], x, [sep], y);
  }

  lemma CutInside(a: string, x: string, b: string, y: string, sep: char)
    requires |a| < |b| && sep !in b
    ensures a + [sep] + x != b + [sep] + y
  {
    assert (a + [sep] + x)[|a|] == sep && (b + [sep] + y)[|a|] == b[|a|];
  }

  /** Joined lists of non-empty strings that avoid the separator can be taken apart. */
  lemma {:induction false} JoinInjective(a: seq<string>, b: seq<string>, sep: char)
    requires (forall s | s in a :: s != "" && sep !in s) && (forall s | s in b :: s != "" && sep !in s)
    requires Join(a, [sep]) == Join(b, [sep])
    ensures a == b
  {
    assert a == [] || (a[0] in a && sep !in a[0]);
    assert b == [] || (b[0] in b && sep !in b[0]);
    if |a| > 1 && |b| > 1 {
      CutOnce(a[0], Join(a[1..], [sep]), b[0], Join(b[1..], [sep]), sep);
      assert a == [a[0]] + a[1..] && b == [b[0]] + b[1..];
      assert (forall s | s in a[1..] :: s in a) && (forall s | s in b[1..] :: s in b);
      JoinInjective(a[1..], b[1..], sep);
    } else if |a| > 1 {
      JoinedContains(a, sep);
    } else if |b| > 1 {
      JoinedContains(b, sep);
    }
  }

  lemma JoinedContains(a: seq<string>, sep: char)
    requires |a| > 1
    ensures sep in Join(a, [sep])
  {
    assert Join(a, [sep])[|a[0]|] == sep;
  }
}
