/** The normal form of a draft patch: the order of targets, operations and evidence is not content. */
module DraftNormal {
  import opened Wrappers
  import opened Ordering
  import opened CanonicalJson
  import opened DraftPatch

  // ---------- Content, without order ----------

  datatype OperationContent = OperationContent(ordinal: int, kind: Kind, path: string, value: Json<string>, evidence: multiset<string>)

  datatype TargetContent = TargetContent(entityId: string, kind: string, expectedVersion: int, operations: multiset<OperationContent>)

  ghost function ContentOfOperation(o: Operation): OperationContent {
    OperationContent(o.ordinal, o.kind, o.path, o.value, multiset(o.evidence))
  }

  ghost function ContentOfTarget(t: Target): TargetContent {
    TargetContent(t.entityId, t.kind, t.expectedVersion, multiset(Map(ContentOfOperation, t.operations)))
  }

  /** Equal but for the order of targets, of the operations of a target and of the evidence of an operation. */
  ghost predicate Rearranged(p: Patch, q: Patch) {
    && p.(targets := q.targets) == q
    && multiset(Map(ContentOfTarget, p.targets)) == multiset(Map(ContentOfTarget, q.targets))
  }

  // ---------- Mapping over sequences ----------

  lemma MapTwice<T, U, V>(f: T -> U, g: U -> V, h: T -> V, s: seq<T>)
    requires forall x | x in s :: g(f(x)) == h(x)
    ensures Map(g, Map(f, s)) == Map(h, s)
  {
  }

  /** Distinctness by `f` depends on the contents only, if `f` does. */
  lemma SameDistinct<T(!new), U(!new), K>(f: T -> K, content: T -> U, g: U -> K, a: seq<T>, b: seq<T>)
    requires (forall x | x in a :: g(content(x)) == f(x)) && (forall x | x in b :: g(content(x)) == f(x))
    requires multiset(Map(content, a)) == multiset(Map(content, b))
    ensures DistinctBy(f, a) <==> DistinctBy(f, b)
  {
    MapTwice(content, g, f, a);
    MapTwice(content, g, f, b);
    MapMultiset(g, Map(content, a), Map(content, b));
    PermutationKeeps(Map(f, a), Map(f, b));
  }

  /** Whatever one side contains has a counterpart of the same content on the other. */
  lemma Counterpart<T, U>(content: T -> U, a: seq<T>, b: seq<T>, x: T) returns (y: T)
    requires multiset(Map(content, a)) == multiset(Map(content, b)) && x in a
    ensures y in b && content(y) == content(x)
  {
    var i :| 0 <= i < |a| && a[i] == x;
    assert Map(content, a)[i] in multiset(Map(content, b));
    var j :| 0 <= j < |b| && Map(content, b)[j] == content(x);
    y := b[j];
  }

  lemma SameLength<T, U>(content: T -> U, a: seq<T>, b: seq<T>)
    requires multiset(Map(content, a)) == multiset(Map(content, b))
    ensures |a| == |b|
  {
    assert |multiset(Map(content, a))| == |a| && |multiset(Map(content, b))| == |b|;
  }

  // ---------- Acceptance depends on the content only ----------

  lemma SameOperation(o: Operation, r: Operation, entityId: string, allowed: AllowedTarget, scope: Scope)
    requires ContentOfOperation(o) == ContentOfOperation(r)
    ensures o.Valid() <==> r.Valid()
    ensures OperationInScope(o, entityId, allowed, scope) <==> OperationInScope(r, entityId, allowed, scope)
  {
    hide AllowedOperation, Distinct, Unambiguous;
    PermutationKeeps(o.evidence, r.evidence);
    assert |o.evidence| == |r.evidence|;
    assert forall e :: e in o.evidence <==> e in Elements(o.evidence);
    assert forall e :: e in r.evidence <==> e in Elements(r.evidence);
    assert ValueOk(o, entityId, scope) <==> ValueOk(r, entityId, scope);
  }

  lemma TargetForward(t: Target, u: Target, scope: Scope)
    requires ContentOfTarget(t) == ContentOfTarget(u)
    ensures t.Valid() ==> u.Valid()
    ensures TargetInScope(t, scope) ==> TargetInScope(u, scope)
  {
    hide OperationInScope, Operation.Valid, DistinctBy;
    SameLength(ContentOfOperation, t.operations, u.operations);
    SameDistinct(OrdinalOf, ContentOfOperation, (c: OperationContent) => c.ordinal, t.operations, u.operations);
    SameDistinct(PathOf, ContentOfOperation, (c: OperationContent) => c.path, t.operations, u.operations);
    var found := FindTarget(scope.allowed, t.entityId);
    forall r | r in u.operations
      ensures t.Valid() ==> r.Valid()
      ensures TargetInScope(t, scope) ==> OperationInScope(r, u.entityId, found.value, scope) && r.ordinal <= |u.operations|
    {
      var o := Counterpart(ContentOfOperation, u.operations, t.operations, r);
      if found.Some? { SameOperation(o, r, t.entityId, found.value, scope); }
      else { SameOperation(o, r, t.entityId, AllowedTarget("", "", 0, []), scope); }
    }
  }

  lemma AcceptedForward(p: Patch, q: Patch, scope: Scope)
    requires Rearranged(p, q)
    ensures p.Valid() ==> q.Valid()
    ensures Accepted(p, scope) ==> Accepted(q, scope)
  {
    hide TargetInScope, Target.Valid, DistinctBy;
    SameLength(ContentOfTarget, p.targets, q.targets);
    SameDistinct(EntityOf, ContentOfTarget, (c: TargetContent) => c.entityId, p.targets, q.targets);
    forall u | u in q.targets
      ensures p.Valid() ==> u.Valid()
      ensures Accepted(p, scope) ==> TargetInScope(u, scope)
    {
      var t := Counterpart(ContentOfTarget, q.targets, p.targets, u);
      TargetForward(t, u, scope);
    }
  }

  /** Rearranging targets, operations or evidence changes neither validity nor acceptance. */
  lemma AcceptanceIgnoresOrder(p: Patch, q: Patch, scope: Scope)
    requires Rearranged(p, q)
    ensures p.Valid() <==> q.Valid()
    ensures Accepted(p, scope) <==> Accepted(q, scope)
  {
    hide Accepted, Patch.Valid;
    AcceptedForward(p, q, scope);
    AcceptedForward(q, p, scope);
  }

  // ---------- The normal form ----------

  function Bars(n: int): string {
    if n <= 0 then "" else "|" + Bars(n - 1)
  }

  function Spaced(path: string, rest: string): string {
    if path == "" then "\0" + rest else ['|', path[0]] + Spaced(path[1..], rest)
  }

  /** A string that orders operations by path and then by ordinal. */
  function OperationKey(o: Operation): string {
    Spaced(o.path, Bars(o.ordinal))
  }

  lemma {:induction false} BarsOrder(m: int, n: int)
    requires m >= 0 && n >= 0
    ensures Less(Bars(m), Bars(n)) <==> m < n
    decreases m
  {
    if m > 0 && n > 0 { BarsOrder(m - 1, n - 1); }
  }

  lemma {:induction false} SpacedOrder(a: string, x: string, b: string, y: string)
    ensures Less(Spaced(a, x), Spaced(b, y)) <==> if a != b then Less(a, b) else Less(x, y)
  {
    var l, r := Spaced(a, x), Spaced(b, y);
    if a == "" && b == "" {
      assert l[1..] == x && r[1..] == y;
    } else if a != "" && b != "" {
      SpacedOrder(a[1..], x, b[1..], y);
      assert l[1..][1..] == Spaced(a[1..], x) && r[1..][1..] == Spaced(b[1..], y);
      assert l[1..][0] == a[0] && r[1..][0] == b[0];
      assert Less(l, r) <==> Less(l[1..], r[1..]);
      assert a == [a[0]] + a[1..] && b == [b[0]] + b[1..];
    }
  }

  /** Comparing the keys is the comparison the source sorts by: path first, then ordinal. */
  lemma OperationOrder(o: Operation, r: Operation)
    requires o.ordinal >= 1 && r.ordinal >= 1
    ensures Less(OperationKey(o), OperationKey(r)) <==> if o.path != r.path then Less(o.path, r.path) else o.ordinal < r.ordinal
  {
    SpacedOrder(o.path, Bars(o.ordinal), r.path, Bars(r.ordinal));
    BarsOrder(o.ordinal, r.ordinal);
  }

  function NormalOperation(o: Operation): Operation {
    o.(evidence := SortStrings(o.evidence))
  }

  function NormalTarget(t: Target): Target {
    t.(operations := Map(NormalOperation, SortBy(OperationKey, t.operations)))
  }

  function Normal(p: Patch): Patch {
    p.(targets := Map(NormalTarget, SortBy(EntityOf, p.targets)))
  }

  // ---------- Normal forms keep the content ----------

  lemma NormalOperationContent(o: Operation)
    ensures ContentOfOperation(NormalOperation(o)) == ContentOfOperation(o)
  {
  }

  lemma NormalTargetContent(t: Target)
    ensures ContentOfTarget(NormalTarget(t)) == ContentOfTarget(t)
  {
    var sorted := SortBy(OperationKey, t.operations);
    forall o | o in sorted ensures ContentOfOperation(NormalOperation(o)) == ContentOfOperation(o) { NormalOperationContent(o); }
    MapTwice(NormalOperation, ContentOfOperation, ContentOfOperation, sorted);
    MapMultiset(ContentOfOperation, sorted, t.operations);
  }

  lemma NormalIsRearranged(p: Patch)
    ensures Rearranged(p, Normal(p)) && Rearranged(Normal(p), p)
  {
    var sorted := SortBy(EntityOf, p.targets);
    forall t | t in sorted ensures ContentOfTarget(NormalTarget(t)) == ContentOfTarget(t) { NormalTargetContent(t); }
    MapTwice(NormalTarget, ContentOfTarget, ContentOfTarget, sorted);
    MapMultiset(ContentOfTarget, sorted, p.targets);
  }

  // ---------- Equal contents have one normal form ----------

  /** Sorting by a key of the content lines up equal contents. */
  lemma SortedContents<T(!new), U(!new)>(key: T -> string, content: T -> U, contentKey: U -> string, a: seq<T>, b: seq<T>)
    requires multiset(Map(content, a)) == multiset(Map(content, b))
    requires (forall x | x in a :: contentKey(content(x)) == key(x)) && (forall x | x in b :: contentKey(content(x)) == key(x))
    requires DistinctBy(key, a)
    requires SortedBy(key, a) && SortedBy(key, b)
    ensures Map(content, a) == Map(content, b)
  {
    hide Less;
    var ca, cb := Map(content, a), Map(content, b);
    forall x, y | x in multiset(ca) && y in multiset(ca) && contentKey(x) == contentKey(y) ensures x == y {
      var i :| 0 <= i < |ca| && ca[i] == x;
      var j :| 0 <= j < |ca| && ca[j] == y;
      assert key(a[i]) == key(a[j]);
    }
    assert SortedBy(contentKey, ca);
    assert SortedBy(contentKey, cb);
    SortedUnique(contentKey, ca, cb);
  }

  lemma SortKeepsDistinct<T(!new), K>(f: T -> K, key: T -> string, s: seq<T>)
    ensures DistinctBy(f, s) <==> DistinctBy(f, SortBy(key, s))
  {
    var sorted := SortBy(key, s);
    MapMultiset(f, s, sorted);
    PermutationKeeps(Map(f, s), Map(f, sorted));
  }

  lemma SameNormalOperation(o: Operation, r: Operation)
    requires ContentOfOperation(o) == ContentOfOperation(r)
    ensures NormalOperation(o) == NormalOperation(r)
  {
    hide SortedBy;
    SortedUnique((x: string) => x, SortStrings(o.evidence), SortStrings(r.evidence)) by {
      assert InjectiveOn((x: string) => x, multiset(SortStrings(o.evidence)));
    }
  }

  lemma DistinctKeys(ops: seq<Operation>)
    requires DistinctBy(OrdinalOf, ops) && forall o | o in ops :: o.ordinal >= 1
    ensures DistinctBy(OperationKey, ops)
  {
    hide Less, OperationKey;
    forall i, j | 0 <= i < j < |ops| ensures OperationKey(ops[i]) != OperationKey(ops[j]) {
      assert OrdinalOf(ops[i]) != OrdinalOf(ops[j]);
      OperationOrder(ops[i], ops[j]);
      OperationOrder(ops[j], ops[i]);
      LessTrichotomy(ops[i].path, ops[j].path);
      LessTrichotomy(OperationKey(ops[i]), OperationKey(ops[j]));
    }
  }

  lemma SameNormalOperations(a: seq<Operation>, b: seq<Operation>)
    requires Map(ContentOfOperation, a) == Map(ContentOfOperation, b)
    ensures Map(NormalOperation, a) == Map(NormalOperation, b)
  {
    hide NormalOperation, ContentOfOperation;
    assert |Map(ContentOfOperation, a)| == |Map(ContentOfOperation, b)|;
    forall i | 0 <= i < |a| ensures NormalOperation(a[i]) == NormalOperation(b[i]) {
      assert Map(ContentOfOperation, a)[i] == Map(ContentOfOperation, b)[i];
      SameNormalOperation(a[i], b[i]);
    }
  }

  /** Whatever an unstable sort does with a target, its operations come out as in the normal form. */
  lemma AnySortOfOperations(t: Target, u: Target, sorted: seq<Operation>)
    requires t.Valid() && ContentOfTarget(t) == ContentOfTarget(u)
    requires SortedBy(OperationKey, sorted) && multiset(sorted) == multiset(u.operations)
    ensures Map(NormalOperation, sorted) == NormalTarget(t).operations
  {
    hide SortedBy, DistinctBy, Distinct, OperationKey;
    hide ContentOfOperation, NormalOperation;
    var normal := SortBy(OperationKey, t.operations);
    DistinctKeys(t.operations);
    SortKeepsDistinct(OperationKey, OperationKey, t.operations);
    MapMultiset(ContentOfOperation, t.operations, normal);
    MapMultiset(ContentOfOperation, u.operations, sorted);
    var key := (c: OperationContent) => Spaced(c.path, Bars(c.ordinal));
    forall o: Operation ensures key(ContentOfOperation(o)) == OperationKey(o) { KeyOfContent(o); }
    SortedContents(OperationKey, ContentOfOperation, key, normal, sorted);
    SameNormalOperations(normal, sorted);
  }

  lemma KeyOfContent(o: Operation)
    ensures Spaced(ContentOfOperation(o).path, Bars(ContentOfOperation(o).ordinal)) == OperationKey(o)
  {
  }

  lemma SameNormalTarget(t: Target, u: Target)
    requires t.Valid() && ContentOfTarget(t) == ContentOfTarget(u)
    ensures NormalTarget(t) == NormalTarget(u)
  {
    hide SortedBy, Target.Valid;
    AnySortOfOperations(t, u, SortBy(OperationKey, u.operations));
  }

  lemma SameNormalTargets(a: seq<Target>, b: seq<Target>)
    requires (forall t | t in a :: t.Valid()) && Map(ContentOfTarget, a) == Map(ContentOfTarget, b)
    ensures Map(NormalTarget, a) == Map(NormalTarget, b)
  {
    hide Target.Valid, NormalTarget, ContentOfTarget;
    assert |Map(ContentOfTarget, a)| == |Map(ContentOfTarget, b)|;
    forall i | 0 <= i < |a| ensures NormalTarget(a[i]) == NormalTarget(b[i]) {
      assert Map(ContentOfTarget, a)[i] == Map(ContentOfTarget, b)[i];
      SameNormalTarget(a[i], b[i]);
    }
  }

  /** The same for the targets. */
  lemma AnySortOfTargets(p: Patch, q: Patch, sorted: seq<Target>)
    requires p.Valid() && Rearranged(p, q)
    requires SortedBy(EntityOf, sorted) && multiset(sorted) == multiset(q.targets)
    ensures Map(NormalTarget, sorted) == Normal(p).targets
  {
    hide SortedBy, DistinctBy, Target.Valid, NormalTarget;
    var normal := SortBy(EntityOf, p.targets);
    SortKeepsDistinct(EntityOf, EntityOf, p.targets);
    MapMultiset(ContentOfTarget, p.targets, normal);
    MapMultiset(ContentOfTarget, q.targets, sorted);
    SortedContents(EntityOf, ContentOfTarget, (c: TargetContent) => c.entityId, normal, sorted);
    forall t | t in normal ensures t.Valid() {
      assert t in multiset(normal);
      TargetOfValid(p, t);
    }
    SameNormalTargets(normal, sorted);
  }

  lemma TargetOfValid(p: Patch, t: Target)
    requires p.Valid() && t in multiset(p.targets)
    ensures t.Valid()
  {
  }

  lemma RearrangedComposes(p: Patch, q: Patch, r: Patch)
    requires Rearranged(p, q) && Rearranged(q, r)
    ensures Rearranged(p, r) && Rearranged(q, p)
  {
  }

  /** Two valid patches have the same normal form exactly when one is a rearrangement of the other. */
  lemma NormalFormIsUnique(p: Patch, q: Patch)
    requires p.Valid() && q.Valid()
    ensures Normal(p) == Normal(q) <==> Rearranged(p, q)
  {
    hide Patch.Valid, Rearranged;
    if Rearranged(p, q) {
      SameTargets(p, q);
    }
    NormalIsRearranged(p);
    NormalIsRearranged(q);
    if Normal(p) == Normal(q) {
      RearrangedComposes(p, Normal(p), q);
    }
  }

  lemma SameTargets(p: Patch, q: Patch)
    requires p.Valid() && Rearranged(p, q)
    ensures Normal(p) == Normal(q)
  {
    hide Patch.Valid;
    AnySortOfTargets(p, q, SortBy(EntityOf, q.targets));
  }

  /** Normalizing again changes nothing. */
  lemma NormalIsIdempotent(p: Patch)
    requires p.Valid()
    ensures Normal(p).Valid() && Normal(Normal(p)) == Normal(p)
  {
    hide Patch.Valid, Rearranged;
    NormalIsRearranged(p);
    ValidIgnoresOrder(p, Normal(p));
    NormalFormIsUnique(p, Normal(p));
  }

  lemma ValidIgnoresOrder(p: Patch, q: Patch)
    requires Rearranged(p, q)
    ensures p.Valid() <==> q.Valid()
  {
    hide Patch.Valid, Rearranged;
    var scope := Scope("", p.schema, p.base, p.evidenceManifest, [], {}, map[], path => true, text => None);
    AcceptanceIgnoresOrder(p, q, scope);
  }

  // ---------- Normalizing as it runs ----------

  method NormalizeTarget(t: Target) returns (u: Target)
    requires t.Valid()
    ensures u == NormalTarget(t)
  {
    hide SortedBy, Target.Valid, NormalOperation, NormalTarget, OperationKey;
    var operations := SortSlice(OperationKey, t.operations);
    ghost var sorted := operations;
    SortedIsNormalTarget(t, sorted);
    var i := 0;
    while i < |operations|
      invariant i <= |operations| == |sorted|
      invariant forall k | 0 <= k < i :: operations[k] == NormalOperation(sorted[k])
      invariant operations[i..] == sorted[i..]
    {
      assert operations[i] == operations[i..][0] == sorted[i..][0] == sorted[i];
      var operation := NormalizeOperation(operations[i]);
      operations := operations[i := operation];
      i := i + 1;
    }
    assert operations == Map(NormalOperation, sorted);
    u := t.(operations := operations);
  }

  lemma SortedIsNormalTarget(t: Target, sorted: seq<Operation>)
    requires t.Valid() && SortedBy(OperationKey, sorted) && multiset(sorted) == multiset(t.operations)
    ensures t.(operations := Map(NormalOperation, sorted)) == NormalTarget(t)
  {
    hide SortedBy, Target.Valid, OperationKey, NormalOperation;
    AnySortOfOperations(t, t, sorted);
  }

  method NormalizeOperation(o: Operation) returns (r: Operation)
    ensures r == NormalOperation(o)
  {
    hide SortedBy;
    var evidence := SortSlice((x: string) => x, o.evidence);
    SortedUnique((x: string) => x, evidence, SortStrings(o.evidence)) by {
      assert InjectiveOn((x: string) => x, multiset(evidence));
    }
    r := o.(evidence := evidence);
  }

  /** Copies and sorts level by level. The sorts are not stable, and still there is one result. */
  method Normalize(p: Patch) returns (q: Patch)
    requires p.Valid()
    ensures q == Normal(p)
  {
    hide Patch.Valid, SortedBy, Rearranged, NormalTarget, Target.Valid, Normal;
    var targets := SortSlice(EntityOf, p.targets);
    ghost var sorted := targets;
    SortedIsNormal(p, sorted);
    var i := 0;
    while i < |targets|
      invariant i <= |targets| == |sorted|
      invariant forall k | 0 <= k < i :: targets[k] == NormalTarget(sorted[k])
      invariant targets[i..] == sorted[i..]
    {
      assert sorted[i] in multiset(p.targets);
      TargetOfValid(p, sorted[i]);
      assert targets[i] == targets[i..][0] == sorted[i..][0] == sorted[i];
      var target := NormalizeTarget(targets[i]);
      targets := targets[i := target];
      i := i + 1;
    }
    assert targets == Map(NormalTarget, sorted);
    q := p.(targets := targets);
  }

  lemma SortedIsNormal(p: Patch, sorted: seq<Target>)
    requires p.Valid() && SortedBy(EntityOf, sorted) && multiset(sorted) == multiset(p.targets)
    ensures p.(targets := Map(NormalTarget, sorted)) == Normal(p)
  {
    hide Patch.Valid, SortedBy, NormalTarget;
    AnySortOfTargets(p, p, sorted);
  }
}
