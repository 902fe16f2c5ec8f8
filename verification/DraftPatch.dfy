/** Draft patches: what the server accepts from a provider. */
module DraftPatch {
  import opened Wrappers
  import opened Text
  import opened Ordering
  import opened CanonicalJson
  import opened CanonicalInjective
  import AuditChain

  datatype Kind = Replace | Add | Remove

  datatype Operation = Operation(ordinal: int, kind: Kind, path: string, value: Json<string>, evidence: seq<string>)
  {
    ghost predicate Valid() {
      && ordinal >= 1 && ValidPointer(path) && evidence != []
      && (forall e | e in evidence :: ValidToken(e))
      && Distinct(evidence)
    }
  }

  datatype Target = Target(entityId: string, kind: string, expectedVersion: int, operations: seq<Operation>)
  {
    ghost predicate Valid() {
      && ValidToken(entityId) && ValidToken(kind) && expectedVersion >= 1 && operations != []
      && (forall o | o in operations :: o.Valid())
      && DistinctBy(OrdinalOf, operations)
    }
  }

  /** What a design was computed from. */
  datatype FrozenBase = FrozenBase(
    projectId: string, revisionId: string, configHash: string, manifestHash: string, materializationHash: string,
    graphNamespace: string, graphSnapshot: string, graphHash: string)
  {
    predicate Valid() {
      && ValidToken(projectId) && ValidToken(revisionId) && AuditChain.ValidHash(configHash) && AuditChain.ValidHash(manifestHash)
      && AuditChain.ValidHash(materializationHash) && ValidToken(graphNamespace) && graphSnapshot == revisionId
      && AuditChain.ValidHash(graphHash)
    }
  }

  datatype Patch = Patch(
    id: string, schema: AuditChain.Version, base: FrozenBase, evidenceManifest: AuditChain.Version,
    targets: seq<Target>, rationale: string, assumptions: seq<string>, hash: string)
  {
    ghost predicate Valid() {
      && HeadValid() && targets != []
      && (forall t | t in targets :: t.Valid())
      && DistinctBy(EntityOf, targets)
    }

    /** Everything but the targets. */
    predicate HeadValid() {
      && ValidToken(id) && schema.Valid() && base.Valid() && evidenceManifest.Valid()
      && ValidText(rationale) && assumptions != [] && AuditChain.ValidHash(hash)
      && (forall a | a in assumptions :: ValidText(a))
    }
  }

  function OrdinalOf(o: Operation): int { o.ordinal }

  function PathOf(o: Operation): string { o.path }

  function EntityOf(t: Target): string { t.entityId }

  ghost predicate DistinctBy<T(!new), K>(f: T -> K, s: seq<T>) {
    forall i, j | 0 <= i < j < |s| :: f(s[i]) != f(s[j])
  }

  // ---------- The frozen server context ----------

  datatype AllowedPath = AllowedPath(path: string, operations: seq<Kind>)

  datatype AllowedTarget = AllowedTarget(entityId: string, kind: string, expectedVersion: int, paths: seq<AllowedPath>)

  datatype JsonType = StringType | BooleanType | IntegerType | DecimalType | ObjectType | ArrayType

  datatype Code =
    | SchemaViolation | IdentityMismatch | ScopeViolation | CollectionViolation
    | EvidenceViolation | TypeViolation | ArrayAmbiguous | ValueRejected(detail: string)

  /** What may be written at one path. The two schema checks stand for validation against the JSON schemas. */
  datatype ValueScope = ValueScope(
    valueType: JsonType, elementType: Option<JsonType>, original: Json<string>,
    schema: Json<string> -> Option<Code>, elementSchema: Json<string> -> Option<Code>)

  datatype Scope = Scope(
    patchId: string, schema: AuditChain.Version, base: FrozenBase, evidenceManifest: AuditChain.Version,
    allowed: seq<AllowedTarget>, evidence: set<string>, values: map<string, ValueScope>,
    forbidden: string -> bool, numbers: Numbers<string>)

  function ValueKey(entityId: string, path: string): string {
    entityId + "\0" + path
  }

  /** The first allowed target with the id, as a search from the front finds it. */
  function FindTarget(allowed: seq<AllowedTarget>, id: string): Option<AllowedTarget> {
    if allowed == [] then None
    else if allowed[0].entityId == id then Some(allowed[0])
    else FindTarget(allowed[1..], id)
  }

  predicate AllowedOperation(t: AllowedTarget, path: string, kind: Kind) {
    exists i :: 0 <= i < |t.paths| && t.paths[i].path == path && kind in t.paths[i].operations
  }

  predicate MatchesType(v: Json<string>, expected: JsonType) {
    match expected
    case StringType => v.Str?
    case BooleanType => v.Bool?
    case IntegerType => v.Num? && '.' !in v.n && 'e' !in v.n && 'E' !in v.n
    case DecimalType => v.Num?
    case ObjectType => v.Obj?
    case ArrayType => v.Arr?
  }

  /** The collection an original value is read as; null reads as the empty one. */
  function CollectionOf(original: Json<string>): Option<seq<Json<string>>> {
    match original
    case Null => Some([])
    case Arr(items) => Some(items)
    case _ => None
  }

  /** What an operation may do to a value: adding needs an absent element, removing needs exactly one. */
  predicate Unambiguous(original: Json<string>, kind: Kind, value: Json<string>, numbers: Numbers<string>) {
    && AllNumbers(value, numbers)
    && CollectionOf(original).Some?
    && var count := multiset(CollectionOf(original).value)[value];
       (kind == Add && count == 0) || (kind == Remove && count == 1)
  }

  predicate ValueOk(o: Operation, entityId: string, scope: Scope) {
    var key := ValueKey(entityId, o.path);
    && key in scope.values
    && var v := scope.values[key];
       if o.kind == Replace then MatchesType(o.value, v.valueType) && v.schema(o.value) == None
       else
         && v.valueType == ArrayType && v.elementType.Some?
         && MatchesType(o.value, v.elementType.value)
         && Unambiguous(v.original, o.kind, o.value, scope.numbers)
         && v.elementSchema(o.value) == None
  }

  predicate OperationInScope(o: Operation, entityId: string, allowed: AllowedTarget, scope: Scope) {
    && AllowedOperation(allowed, o.path, o.kind)
    && !scope.forbidden(o.path)
    && ValueOk(o, entityId, scope)
    && (forall e | e in o.evidence :: e in scope.evidence)
  }

  /** Everything that must hold of the operations of one target, numbered up to `count`. */
  ghost predicate OperationsOk(ops: seq<Operation>, count: nat, entityId: string, allowed: AllowedTarget, scope: Scope) {
    && DistinctBy(OrdinalOf, ops) && DistinctBy(PathOf, ops)
    && (forall o | o in ops :: OperationInScope(o, entityId, allowed, scope) && o.ordinal <= count)
  }

  /** One target: known, unchanged, with operations numbered within their count on different paths. */
  ghost predicate TargetInScope(t: Target, scope: Scope) {
    var allowed := FindTarget(scope.allowed, t.entityId);
    && allowed.Some? && t.kind == allowed.value.kind && t.expectedVersion == allowed.value.expectedVersion
    && t.operations != []
    && OperationsOk(t.operations, |t.operations|, t.entityId, allowed.value, scope)
  }

  ghost predicate Accepted(p: Patch, scope: Scope) {
    && p.Valid()
    && |p.targets| <= |scope.allowed|
    && forall t | t in p.targets :: TargetInScope(t, scope)
  }

  // ---------- What a refusal means ----------

  /** The first thing wrong with the value of an operation. A schema check may answer with any code of its own. */
  function ValueFault(o: Operation, entityId: string, scope: Scope): Option<Code> {
    var key := ValueKey(entityId, o.path);
    if key !in scope.values then Some(ScopeViolation)
    else
      var v := scope.values[key];
      if o.kind == Replace then
        if !MatchesType(o.value, v.valueType) then Some(TypeViolation) else v.schema(o.value)
      else if v.valueType != ArrayType || v.elementType.None? then Some(CollectionViolation)
      else if !MatchesType(o.value, v.elementType.value) then Some(TypeViolation)
      else if !Unambiguous(v.original, o.kind, o.value, scope.numbers) then Some(ArrayAmbiguous)
      else v.elementSchema(o.value)
  }

  /** The first thing wrong with operation `i`, given those before it. */
  ghost function OperationFault(t: Target, i: nat, allowed: AllowedTarget, scope: Scope): Option<Code>
    requires i < |t.operations|
  {
    var o, before := t.operations[i], t.operations[..i];
    if o.ordinal > |t.operations| || o.ordinal in (set b | b in before :: b.ordinal) then Some(SchemaViolation)
    else if !AllowedOperation(allowed, o.path, o.kind) || scope.forbidden(o.path) then Some(ScopeViolation)
    else if o.path in (set b | b in before :: b.path) then Some(ArrayAmbiguous)
    else if ValueFault(o, t.entityId, scope).Some? then ValueFault(o, t.entityId, scope)
    else if exists e :: e in o.evidence && e !in scope.evidence then Some(EvidenceViolation)
    else None
  }

  /** Operation `i` is the first one that is refused, for the reason the code names. */
  ghost predicate OperationBlamed(c: Code, t: Target, i: int, allowed: AllowedTarget, scope: Scope) {
    && 0 <= i < |t.operations|
    && OperationsOk(t.operations[..i], |t.operations|, t.entityId, allowed, scope)
    && OperationFault(t, i, allowed, scope) == Some(c)
  }

  /** The target is unknown, changed or empty, or one of its operations is to blame. */
  ghost predicate TargetBlamed(c: Code, t: Target, scope: Scope) {
    var allowed := FindTarget(scope.allowed, t.entityId);
    if allowed.None? || t.kind != allowed.value.kind || t.expectedVersion != allowed.value.expectedVersion || t.operations == []
    then c == ScopeViolation
    else exists i :: OperationBlamed(c, t, i, allowed.value, scope)
  }

  /** The patch is malformed or too large, or its first refused target is to blame. */
  ghost predicate PatchBlamed(c: Code, p: Patch, scope: Scope) {
    if !p.Valid() || |p.targets| > |scope.allowed| then c == SchemaViolation
    else exists i :: 0 <= i < |p.targets| && TargetBlamed(c, p.targets[i], scope) && forall t | t in p.targets[..i] :: TargetInScope(t, scope)
  }

  // ---------- Growing prefixes ----------

  lemma DistinctGrows<T>(s: seq<T>, x: T)
    ensures Distinct(s + [x]) <==> Distinct(s) && x !in s
  {
    if Distinct(s + [x]) {
      forall i, j | 0 <= i < j < |s| ensures s[i] != s[j] { assert (s + [x])[i] != (s + [x])[j]; }
      forall i | 0 <= i < |s| ensures s[i] != x { assert (s + [x])[i] != (s + [x])[|s|]; }
    }
  }

  lemma DistinctByGrows<T(!new), K>(f: T -> K, s: seq<T>, x: T)
    ensures DistinctBy(f, s + [x]) <==> DistinctBy(f, s) && f(x) !in (set y | y in s :: f(y))
    ensures (set y | y in s + [x] :: f(y)) == (set y | y in s :: f(y)) + {f(x)}
  {
    assert forall y :: y in s + [x] <==> y in s || y == x;
    if DistinctBy(f, s + [x]) {
      forall i, j | 0 <= i < j < |s| ensures f(s[i]) != f(s[j]) { assert f((s + [x])[i]) != f((s + [x])[j]); }
      forall y | y in s ensures f(y) != f(x) {
        var i :| 0 <= i < |s| && s[i] == y;
        assert f((s + [x])[i]) != f((s + [x])[|s|]);
      }
    }
  }

  lemma OperationsGrow(ops: seq<Operation>, o: Operation, count: nat, entityId: string, allowed: AllowedTarget, scope: Scope)
    ensures OperationsOk(ops + [o], count, entityId, allowed, scope) <==>
      (OperationsOk(ops, count, entityId, allowed, scope) && OperationInScope(o, entityId, allowed, scope)
       && o.ordinal <= count && o.ordinal !in (set p | p in ops :: p.ordinal) && o.path !in (set p | p in ops :: p.path))
  {
    hide OperationInScope;
    DistinctByGrows(OrdinalOf, ops, o);
    DistinctByGrows(PathOf, ops, o);
    assert (set p | p in ops :: OrdinalOf(p)) == (set p | p in ops :: p.ordinal);
    assert (set p | p in ops :: PathOf(p)) == (set p | p in ops :: p.path);
    assert forall p :: p in ops + [o] <==> p in ops || p == o;
  }

  lemma {:induction false} OperationsPrefix(ops: seq<Operation>, i: nat, count: nat, entityId: string, allowed: AllowedTarget, scope: Scope)
    requires i <= |ops|
    ensures OperationsOk(ops, count, entityId, allowed, scope) ==> OperationsOk(ops[..i], count, entityId, allowed, scope)
  {
    hide OperationInScope;
    assert forall o | o in ops[..i] :: o in ops;
  }

  // ---------- Shape checks as they run ----------

  method CheckOperation(o: Operation) returns (ok: bool)
    ensures ok <==> o.Valid()
  {
    hide ValidPointer, ValidToken;
    var path := CheckPointer(o.path);
    if o.ordinal < 1 || !path || |o.evidence| == 0 { return false; }
    var seen: set<string> := {};
    var i := 0;
    while i < |o.evidence|
      invariant i <= |o.evidence| && seen == Elements(o.evidence[..i]) && Distinct(o.evidence[..i])
      invariant forall e | e in o.evidence[..i] :: ValidToken(e)
    {
      var e := o.evidence[i];
      assert o.evidence[..i + 1] == o.evidence[..i] + [e];
      DistinctGrows(o.evidence[..i], e);
      if !ValidToken(e) { return false; }
      if e in seen { return false; }
      seen := seen + {e};
      i := i + 1;
    }
    assert o.evidence[..i] == o.evidence;
    ok := true;
  }

  method CheckTarget(t: Target) returns (ok: bool)
    ensures ok <==> t.Valid()
  {
    hide Operation.Valid, ValidToken;
    if !ValidToken(t.entityId) || !ValidToken(t.kind) || t.expectedVersion < 1 || |t.operations| == 0 { return false; }
    var ordinals: set<int> := {};
    var i := 0;
    while i < |t.operations|
      invariant i <= |t.operations| && ordinals == (set p | p in t.operations[..i] :: OrdinalOf(p))
      invariant DistinctBy(OrdinalOf, t.operations[..i]) && forall o | o in t.operations[..i] :: o.Valid()
    {
      var o := t.operations[i];
      assert t.operations[..i + 1] == t.operations[..i] + [o];
      DistinctByGrows(OrdinalOf, t.operations[..i], o);
      ok := CheckOperation(o);
      if !ok { return; }
      if o.ordinal in ordinals { return false; }
      ordinals := ordinals + {o.ordinal};
      i := i + 1;
    }
    assert t.operations[..i] == t.operations;
    ok := true;
  }

  method CheckPatch(p: Patch) returns (ok: bool)
    ensures ok <==> p.Valid()
  {
    hide Target.Valid, ValidToken, ValidText, AuditChain.ValidHash, AuditChain.Version.Valid, FrozenBase.Valid;
    if !ValidToken(p.id) || !p.schema.Valid() || !p.base.Valid() || !p.evidenceManifest.Valid() || |p.targets| == 0
       || !ValidText(p.rationale) || |p.assumptions| == 0 || !AuditChain.ValidHash(p.hash) {
      return false;
    }
    var seen: set<string> := {};
    var i := 0;
    while i < |p.targets|
      invariant i <= |p.targets| && seen == (set t | t in p.targets[..i] :: EntityOf(t))
      invariant DistinctBy(EntityOf, p.targets[..i]) && forall t | t in p.targets[..i] :: t.Valid()
    {
      var t := p.targets[i];
      assert p.targets[..i + 1] == p.targets[..i] + [t];
      DistinctByGrows(EntityOf, p.targets[..i], t);
      ok := CheckTarget(t);
      if !ok { return; }
      if t.entityId in seen { return false; }
      seen := seen + {t.entityId};
      i := i + 1;
    }
    assert p.targets[..i] == p.targets;
    var k := 0;
    while k < |p.assumptions|
      invariant k <= |p.assumptions| && forall a | a in p.assumptions[..k] :: ValidText(a)
    {
      if !ValidText(p.assumptions[k]) { return false; }
      k := k + 1;
    }
    ok := true;
  }

  // ---------- Scope checks as they run ----------

  method CanonicalText(v: Json<string>, numbers: Numbers<string>) returns (text: Option<string>)
    ensures text == Encode(v, numbers)
  {
    hide Encode;
    var ok, written := WriteCanonical("", v, numbers);
    assert ok ==> "" + Encode(v, numbers).value == Encode(v, numbers).value;
    text := if ok then Some(written) else None;
  }

  /** Comparing canonical texts, as the loop does, compares the elements themselves. */
  method CheckCollection(original: Json<string>, kind: Kind, value: Json<string>, numbers: Numbers<string>) returns (ok: bool)
    requires Faithful(numbers)
    ensures ok <==> Unambiguous(original, kind, value, numbers)
  {
    hide Encode, AllNumbers, Faithful;
    AcceptedExactly(value, numbers);
    var elements := CollectionOf(original);
    if elements.None? { return false; }
    var wanted := CanonicalText(value, numbers);
    if wanted.None? { return false; }
    var matches := 0;
    var i := 0;
    assert elements.value[..0] == [];
    while i < |elements.value|
      invariant i <= |elements.value| && matches == multiset(elements.value[..i])[value]
    {
      var candidate := elements.value[i];
      assert elements.value[..i + 1] == elements.value[..i] + [candidate];
      var text := CanonicalText(candidate, numbers);
      if text.Some? { CanonicalIsInjective(candidate, value, numbers); }
      if text == wanted { matches := matches + 1; }
      i := i + 1;
    }
    assert elements.value[..i] == elements.value;
    ok := (kind == Add && matches == 0) || (kind == Remove && matches == 1);
  }

  method CheckValue(o: Operation, entityId: string, scope: Scope) returns (error: Option<Code>)
    requires Faithful(scope.numbers)
    ensures error == None <==> ValueOk(o, entityId, scope)
    ensures error == ValueFault(o, entityId, scope)
  {
    hide Faithful, Unambiguous;
    var key := ValueKey(entityId, o.path);
    if key !in scope.values { return Some(ScopeViolation); }
    var v := scope.values[key];
    var expected := v.valueType;
    if o.kind != Replace {
      if v.valueType != ArrayType || v.elementType.None? { return Some(CollectionViolation); }
      expected := v.elementType.value;
    }
    if !MatchesType(o.value, expected) { return Some(TypeViolation); }
    var schema := v.schema;
    if o.kind != Replace {
      schema := v.elementSchema;
      var ok := CheckCollection(v.original, o.kind, o.value, scope.numbers);
      if !ok { return Some(ArrayAmbiguous); }
    }
    error := schema(o.value);
  }

  method KnownEvidence(o: Operation, scope: Scope) returns (known: bool)
    ensures known <==> forall e | e in o.evidence :: e in scope.evidence
  {
    for i := 0 to |o.evidence|
      invariant forall e | e in o.evidence[..i] :: e in scope.evidence
    {
      if o.evidence[i] !in scope.evidence { return false; }
    }
    known := true;
  }

  /** The loop over the operations of one target. */
  method ValidateOperations(t: Target, allowed: AllowedTarget, scope: Scope) returns (error: Option<Code>)
    requires Faithful(scope.numbers)
    ensures error == None <==> OperationsOk(t.operations, |t.operations|, t.entityId, allowed, scope)
    ensures error.Some? ==> exists i :: OperationBlamed(error.value, t, i, allowed, scope)
  {
    hide OperationsOk, ValueOk, ValueFault, Faithful;
    var ordinals: set<int>, paths: set<string> := {}, {};
    var n := |t.operations|;
    var i := 0;
    NoOperations(n, t.entityId, allowed, scope);
    assert t.operations[..0] == [];
    while i < n
      invariant i <= n
      invariant ordinals == (set p | p in t.operations[..i] :: p.ordinal) && paths == (set p | p in t.operations[..i] :: p.path)
      invariant OperationsOk(t.operations[..i], n, t.entityId, allowed, scope)
    {
      var o := t.operations[i];
      assert t.operations[..i + 1] == t.operations[..i] + [o];
      OperationsGrow(t.operations[..i], o, n, t.entityId, allowed, scope);
      OperationsPrefix(t.operations, i + 1, n, t.entityId, allowed, scope);
      if o.ordinal in ordinals || o.ordinal > n {
        assert OperationBlamed(SchemaViolation, t, i, allowed, scope);
        return Some(SchemaViolation);
      }
      ordinals := ordinals + {o.ordinal};
      if !AllowedOperation(allowed, o.path, o.kind) {
        assert OperationBlamed(ScopeViolation, t, i, allowed, scope);
        return Some(ScopeViolation);
      }
      if scope.forbidden(o.path) {
        assert OperationBlamed(ScopeViolation, t, i, allowed, scope);
        return Some(ScopeViolation);
      }
      if o.path in paths {
        assert OperationBlamed(ArrayAmbiguous, t, i, allowed, scope);
        return Some(ArrayAmbiguous);
      }
      paths := paths + {o.path};
      error := CheckValue(o, t.entityId, scope);
      if error.Some? {
        assert OperationBlamed(error.value, t, i, allowed, scope);
        return;
      }
      var known := KnownEvidence(o, scope);
      if !known {
        assert OperationBlamed(EvidenceViolation, t, i, allowed, scope);
        return Some(EvidenceViolation);
      }
      i := i + 1;
    }
    assert t.operations[..i] == t.operations;
    error := None;
  }

  lemma NoOperations(count: nat, entityId: string, allowed: AllowedTarget, scope: Scope)
    ensures OperationsOk([], count, entityId, allowed, scope)
  {
  }

  method ValidateTarget(t: Target, scope: Scope) returns (error: Option<Code>)
    requires Faithful(scope.numbers)
    ensures error == None <==> TargetInScope(t, scope)
    ensures error.Some? ==> TargetBlamed(error.value, t, scope)
  {
    hide OperationsOk, OperationBlamed, Faithful;
    var allowed := FindTarget(scope.allowed, t.entityId);
    if allowed.None? || t.kind != allowed.value.kind || t.expectedVersion != allowed.value.expectedVersion || |t.operations| == 0 {
      return Some(ScopeViolation);
    }
    error := ValidateOperations(t, allowed.value, scope);
  }

  /** The loop over the targets. */
  method ValidateScope(p: Patch, scope: Scope) returns (error: Option<Code>)
    requires Faithful(scope.numbers)
    ensures error == None <==> Accepted(p, scope)
    ensures error.Some? ==> PatchBlamed(error.value, p, scope)
  {
    hide TargetInScope, TargetBlamed, Faithful, Target.Valid;
    var ok := CheckPatch(p);
    if !ok || |p.targets| == 0 || |p.targets| > |scope.allowed| { return Some(SchemaViolation); }
    var seen: set<string> := {};
    var i := 0;
    while i < |p.targets|
      invariant i <= |p.targets| && seen == (set t | t in p.targets[..i] :: EntityOf(t))
      invariant forall t | t in p.targets[..i] :: TargetInScope(t, scope)
    {
      var t := p.targets[i];
      assert p.targets[..i + 1] == p.targets[..i] + [t];
      DistinctByGrows(EntityOf, p.targets[..i], t);
      if t.entityId in seen { return Some(ScopeViolation); }
      seen := seen + {t.entityId};
      error := ValidateTarget(t, scope);
      if error.Some? {
        assert TargetBlamed(error.value, p.targets[i], scope);
        return;
      }
      i := i + 1;
    }
    assert p.targets[..i] == p.targets;
    error := None;
  }

  // ---------- The refusal code is determined ----------

  /** An accepted operation has no fault, so the first fault is at one place only. */
  lemma OneOperationBlamed(t: Target, i: int, j: int, allowed: AllowedTarget, scope: Scope, c: Code, d: Code)
    requires OperationBlamed(c, t, i, allowed, scope) && OperationBlamed(d, t, j, allowed, scope)
    ensures i == j && c == d
  {
    hide OperationBlamed, OperationFault;
    BlamedFault(t, i, allowed, scope, c);
    BlamedFault(t, j, allowed, scope, d);
    if i < j { NoFaultInside(t, i, j, allowed, scope, d); }
    if j < i { NoFaultInside(t, j, i, allowed, scope, c); }
  }

  lemma BlamedFault(t: Target, i: int, allowed: AllowedTarget, scope: Scope, c: Code)
    requires OperationBlamed(c, t, i, allowed, scope)
    ensures 0 <= i < |t.operations| && OperationFault(t, i, allowed, scope) == Some(c)
  {
  }

  lemma NoFaultInside(t: Target, i: int, j: int, allowed: AllowedTarget, scope: Scope, d: Code)
    requires 0 <= i < j && OperationBlamed(d, t, j, allowed, scope)
    ensures OperationFault(t, i, allowed, scope) == None
  {
    hide AllowedOperation, Unambiguous;
    var ok, o := t.operations[..j], t.operations[i];
    assert ok[i] == o && o in ok;
    assert ok[..i] == t.operations[..i];
    OperationsGrow(ok[..i], o, |t.operations|, t.entityId, allowed, scope);
    OperationsPrefix(ok, i + 1, |t.operations|, t.entityId, allowed, scope);
    assert ok[..i + 1] == ok[..i] + [o];
    assert OperationInScope(o, t.entityId, allowed, scope);
  }

  /** One patch and one scope have at most one refusal code, and none if the patch is accepted. */
  lemma RefusalIsDetermined(p: Patch, scope: Scope, c: Code, d: Code)
    requires PatchBlamed(c, p, scope)
    ensures !Accepted(p, scope)
    ensures PatchBlamed(d, p, scope) ==> c == d
  {
    hide TargetBlamed, TargetInScope, Patch.Valid;
    if p.Valid() && |p.targets| <= |scope.allowed| {
      var i :| 0 <= i < |p.targets| && TargetBlamed(c, p.targets[i], scope) && forall t | t in p.targets[..i] :: TargetInScope(t, scope);
      BlamedIsRefused(p.targets[i], scope, c);
      if PatchBlamed(d, p, scope) {
        var j :| 0 <= j < |p.targets| && TargetBlamed(d, p.targets[j], scope) && forall t | t in p.targets[..j] :: TargetInScope(t, scope);
        BlamedIsRefused(p.targets[j], scope, d);
        OneTargetCode(p.targets[i], scope, c, d);
      }
    }
  }

  lemma OneTargetCode(t: Target, scope: Scope, c: Code, d: Code)
    requires TargetBlamed(c, t, scope) && TargetBlamed(d, t, scope)
    ensures c == d
  {
    hide OperationBlamed;
    var allowed := FindTarget(scope.allowed, t.entityId);
    if allowed.Some? {
      var a := allowed.value;
      if i, j :| OperationBlamed(c, t, i, a, scope) && OperationBlamed(d, t, j, a, scope) {
        OneOperationBlamed(t, i, j, a, scope, c, d);
      }
    }
  }

  lemma BlamedIsRefused(t: Target, scope: Scope, c: Code)
    requires TargetBlamed(c, t, scope)
    ensures !TargetInScope(t, scope)
  {
    hide OperationBlamed, OperationsOk;
    var allowed := FindTarget(scope.allowed, t.entityId);
    if TargetInScope(t, scope) {
      var i :| OperationBlamed(c, t, i, allowed.value, scope);
      BlamedNotOk(t, i, allowed.value, scope, c);
    }
  }

  lemma BlamedNotOk(t: Target, i: int, allowed: AllowedTarget, scope: Scope, c: Code)
    requires OperationBlamed(c, t, i, allowed, scope)
    ensures !OperationsOk(t.operations, |t.operations|, t.entityId, allowed, scope)
  {
    hide AllowedOperation, Unambiguous;
    var o := t.operations[i];
    OperationsPrefix(t.operations, i + 1, |t.operations|, t.entityId, allowed, scope);
    assert t.operations[..i + 1] == t.operations[..i] + [o];
    OperationsGrow(t.operations[..i], o, |t.operations|, t.entityId, allowed, scope);
  }

  // ---------- Consequences of acceptance ----------

  ghost function Range(n: nat): (r: set<int>)
    ensures |r| == n && forall k :: k in r <==> 1 <= k <= n
  {
    if n == 0 then {} else Range(n - 1) + {n}
  }

  ghost function Image<T, K(!new)>(f: T -> K, s: seq<T>): (r: set<K>)
    ensures forall i | 0 <= i < |s| :: f(s[i]) in r
    ensures forall k | k in r :: exists i :: 0 <= i < |s| && f(s[i]) == k
  {
    set x | x in s :: f(x)
  }

  lemma {:induction false} DistinctBySize<T(!new)>(f: T -> int, s: seq<T>)
    requires DistinctBy(f, s)
    ensures |Image(f, s)| == |s|
  {
    if s != [] {
      var n := |s| - 1;
      assert s == s[..n] + [s[n]];
      DistinctByGrows(f, s[..n], s[n]);
      DistinctBySize(f, s[..n]);
      assert Image(f, s) == Image(f, s[..n]) + {f(s[n])};
    }
  }

  lemma AcceptedOrdinals(p: Patch, scope: Scope, t: Target)
    requires Accepted(p, scope) && t in p.targets
    ensures DistinctBy(OrdinalOf, t.operations)
    ensures forall o | o in t.operations :: 1 <= o.ordinal <= |t.operations|
  {
    hide OperationInScope, DistinctBy;
    assert t.Valid() && TargetInScope(t, scope);
    forall o | o in t.operations ensures 1 <= o.ordinal <= |t.operations| { assert o.Valid(); }
  }

  /** Accepted operations are numbered exactly one to n, in some order. */
  lemma OrdinalsAreContiguous(p: Patch, scope: Scope, t: Target)
    requires Accepted(p, scope) && t in p.targets
    ensures (set o | o in t.operations :: o.ordinal) == Range(|t.operations|)
  {
    hide Accepted, DistinctBy, Range;
    AcceptedOrdinals(p, scope, t);
    DistinctBySize(OrdinalOf, t.operations);
    var ordinals, range := (set o | o in t.operations :: o.ordinal), Range(|t.operations|);
    assert ordinals == Image(OrdinalOf, t.operations);
    if ordinals != range { ProperSubset(ordinals, range); }
  }

  /** The frozen input allows this kind of operation on this path of this entity at this version. */
  ghost predicate InFrozenInput(t: Target, o: Operation, scope: Scope) {
    exists a, p | a in scope.allowed && p in a.paths ::
      (a.entityId == t.entityId && a.kind == t.kind && a.expectedVersion == t.expectedVersion
       && p.path == o.path && o.kind in p.operations)
  }

  /** Every accepted operation is in the frozen input, cites known evidence only, and has an unambiguous effect on collections. */
  lemma AcceptedIsInScope(p: Patch, scope: Scope, t: Target, o: Operation)
    requires Accepted(p, scope) && t in p.targets && o in t.operations
    ensures InFrozenInput(t, o, scope)
    ensures !scope.forbidden(o.path) && o.evidence != [] && Elements(o.evidence) <= scope.evidence
    ensures ValueKey(t.entityId, o.path) in scope.values
    ensures o.kind != Replace ==> Unambiguous(scope.values[ValueKey(t.entityId, o.path)].original, o.kind, o.value, scope.numbers)
  {
    hide Unambiguous;
    assert t.Valid() && o.Valid() && TargetInScope(t, scope);
    var a := FindTarget(scope.allowed, t.entityId).value;
    Found(scope.allowed, t.entityId);
    assert OperationInScope(o, t.entityId, a, scope);
    var i :| 0 <= i < |a.paths| && a.paths[i].path == o.path && o.kind in a.paths[i].operations;
    assert a.paths[i] in a.paths;
  }

  lemma {:induction false} Found(allowed: seq<AllowedTarget>, id: string)
    requires FindTarget(allowed, id).Some?
    ensures FindTarget(allowed, id).value in allowed && FindTarget(allowed, id).value.entityId == id
  {
    if allowed[0].entityId != id { Found(allowed[1..], id); }
  }

  // ---------- What an accepted value is, said of its text and of the places it has ----------

  /** The elements of a collection; a missing one has none. */
  ghost predicate IsCollection(original: Json<string>, items: seq<Json<string>>) {
    original == Arr(items) || (original == Null && items == [])
  }

  ghost predicate OccursNever(items: seq<Json<string>>, v: Json<string>) {
    forall i | 0 <= i < |items| :: items[i] != v
  }

  /** Place `i` holds the value and no other place does. */
  ghost predicate OccursOnlyAt(items: seq<Json<string>>, i: int, v: Json<string>) {
    0 <= i < |items| && items[i] == v && forall j | 0 <= j < |items| && j != i :: items[j] != v
  }

  lemma {:induction false} CountByPlaces(items: seq<Json<string>>, v: Json<string>)
    ensures multiset(items)[v] == 0 <==> OccursNever(items, v)
    ensures multiset(items)[v] == 1 <==> exists i :: OccursOnlyAt(items, i, v)
  {
    if items != [] {
      var head, rest := items[0], items[1..];
      CountByPlaces(rest, v);
      assert items == [head] + rest;
      assert multiset(items) == multiset{head} + multiset(rest);
      assert forall i | 0 < i < |items| :: items[i] == rest[i - 1];
      if head == v {
        assert OccursNever(rest, v) ==> OccursOnlyAt(items, 0, v);
        forall i | OccursOnlyAt(items, i, v) ensures OccursNever(rest, v) {
          assert i == 0;
          forall j | 0 <= j < |rest| ensures rest[j] != v { assert items[j + 1] != v; }
        }
      } else {
        forall i | OccursOnlyAt(rest, i, v) ensures OccursOnlyAt(items, i + 1, v) {}
        forall i | OccursOnlyAt(items, i, v) ensures OccursOnlyAt(rest, i - 1, v) {
          forall j | 0 <= j < |rest| && j != i - 1 ensures rest[j] != v { assert items[j + 1] != v; }
        }
      }
    }
  }

  /** Nothing is added that is there already, and nothing is removed that is not there at exactly one place. */
  lemma EditsByPlaces(original: Json<string>, kind: Kind, v: Json<string>, numbers: Numbers<string>)
    ensures Unambiguous(original, kind, v, numbers) <==>
      && Encode(v, numbers).Some?
      && exists items ::
        && IsCollection(original, items)
        && ((kind == Add && OccursNever(items, v)) || (kind == Remove && exists i :: OccursOnlyAt(items, i, v)))
  {
    hide OccursNever, OccursOnlyAt, Encode;
    AcceptedExactly(v, numbers);
    if CollectionOf(original).Some? {
      var items := CollectionOf(original).value;
      assert IsCollection(original, items);
      CountByPlaces(items, v);
    }
  }

  /** The type of a value can be read off its canonical text. */
  lemma TypesByText(v: Json<string>, numbers: Numbers<string>)
    requires Faithful(numbers) && Encode(v, numbers).Some?
    ensures
      var text := Encode(v, numbers).value;
      && text != ""
      && (MatchesType(v, StringType) <==> text[0] as int == 0x22)
      && (MatchesType(v, BooleanType) <==> text == "true" || text == "false")
      && (MatchesType(v, DecimalType) <==> text[0] == '-' || '0' <= text[0] <= '9')
      && (MatchesType(v, ObjectType) <==> text[0] == '{')
      && (MatchesType(v, ArrayType) <==> text[0] == '[')
    ensures MatchesType(v, IntegerType) <==> v.Num? && forall i | 0 <= i < |v.n| :: v.n[i] != '.' && v.n[i] != 'e' && v.n[i] != 'E'
  {
    hide EscapeAll, EncodeItems, EncodeMembers, SortedKeys;
    match v
    case Null => assert Encode(v, numbers).value[0] == 'n';
    case Bool(b) => assert Encode(v, numbers).value[0] == if b then 't' else 'f';
    case _ =>
  }

  /** Every accepted edit of a collection finds the value absent or at exactly one place; every accepted replacement has the type of its path. */
  lemma AcceptedEdits(p: Patch, scope: Scope, t: Target, o: Operation)
    requires Accepted(p, scope) && t in p.targets && o in t.operations
    ensures ValueKey(t.entityId, o.path) in scope.values
    ensures
      var v := scope.values[ValueKey(t.entityId, o.path)];
      && (o.kind == Replace ==> MatchesType(o.value, v.valueType) && v.schema(o.value) == None)
      && (o.kind != Replace ==>
            v.valueType == ArrayType && v.elementType.Some? && MatchesType(o.value, v.elementType.value) && v.elementSchema(o.value) == None)
      && (o.kind == Add ==> exists items :: IsCollection(v.original, items) && OccursNever(items, o.value))
      && (o.kind == Remove ==> exists items, i :: IsCollection(v.original, items) && OccursOnlyAt(items, i, o.value))
  {
    hide OccursNever, OccursOnlyAt, Encode, Unambiguous, MatchesType;
    assert TargetInScope(t, scope) && OperationInScope(o, t.entityId, FindTarget(scope.allowed, t.entityId).value, scope);
    var original := scope.values[ValueKey(t.entityId, o.path)].original;
    EditsByPlaces(original, o.kind, o.value, scope.numbers);
  }

  // ---------- What a refusal code says of the patch ----------

  /** The schema checks answer with their own code only. */
  ghost predicate SchemasOwn(scope: Scope) {
    forall key, v | key in scope.values ::
      && (scope.values[key].schema(v) == None || scope.values[key].schema(v).value.ValueRejected?)
      && (scope.values[key].elementSchema(v) == None || scope.values[key].elementSchema(v).value.ValueRejected?)
  }

  /** No path entry of the first allowed target with this id permits the operation. */
  ghost predicate NotPermitted(t: Target, o: Operation, scope: Scope) {
    forall i, p | FirstWith(scope.allowed, i, t.entityId) && p in scope.allowed[i].paths :: p.path != o.path || o.kind !in p.operations
  }

  ghost predicate FirstWith(allowed: seq<AllowedTarget>, i: int, id: string) {
    0 <= i < |allowed| && allowed[i].entityId == id && forall j | 0 <= j < i :: allowed[j].entityId != id
  }

  /** The target is not the first allowed one with its id, at its kind and version. */
  ghost predicate Unlisted(t: Target, scope: Scope) {
    forall i | FirstWith(scope.allowed, i, t.entityId) ::
      scope.allowed[i].kind != t.kind || scope.allowed[i].expectedVersion != t.expectedVersion
  }

  /** The wanted type, and the schema that goes with it. */
  predicate HasWrongType(o: Operation, v: ValueScope) {
    if o.kind == Replace then !MatchesType(o.value, v.valueType) else v.elementType.Some? && !MatchesType(o.value, v.elementType.value)
  }

  ghost predicate ByPlaces(o: Operation, v: ValueScope, numbers: Numbers<string>) {
    && Encode(o.value, numbers).Some?
    && exists items ::
      && IsCollection(v.original, items)
      && ((o.kind == Add && OccursNever(items, o.value)) || (o.kind == Remove && exists i :: OccursOnlyAt(items, i, o.value)))
  }

  /** What the code says is true of this operation. */
  ghost predicate Faulty(c: Code, t: Target, i: nat, scope: Scope)
    requires i < |t.operations|
  {
    var o := t.operations[i];
    var key := ValueKey(t.entityId, o.path);
    match c
    case SchemaViolation => o.ordinal > |t.operations| || exists j :: 0 <= j < i && t.operations[j].ordinal == o.ordinal
    case ScopeViolation => NotPermitted(t, o, scope) || scope.forbidden(o.path) || key !in scope.values
    case CollectionViolation =>
      o.kind != Replace && key in scope.values && (scope.values[key].valueType != ArrayType || scope.values[key].elementType == None)
    case TypeViolation => key in scope.values && HasWrongType(o, scope.values[key])
    case ArrayAmbiguous =>
      || (exists j :: 0 <= j < i && t.operations[j].path == o.path)
      || (o.kind != Replace && key in scope.values && !ByPlaces(o, scope.values[key], scope.numbers))
    case EvidenceViolation => exists e :: e in o.evidence && e !in scope.evidence
    case ValueRejected(_) =>
      key in scope.values && Some(c) == (if o.kind == Replace then scope.values[key].schema(o.value) else scope.values[key].elementSchema(o.value))
    case IdentityMismatch => false
  }

  lemma {:induction false} FoundFirst(allowed: seq<AllowedTarget>, id: string)
    ensures match FindTarget(allowed, id)
      case None => forall i :: !FirstWith(allowed, i, id)
      case Some(a) => forall i | FirstWith(allowed, i, id) :: allowed[i] == a
  {
    if allowed != [] && allowed[0].entityId != id {
      FoundFirst(allowed[1..], id);
      forall i | FirstWith(allowed, i, id) ensures FirstWith(allowed[1..], i - 1, id) {
        assert forall j | 0 <= j < i - 1 :: allowed[1..][j] == allowed[j + 1];
      }
    }
  }

  lemma ValueFaulty(t: Target, i: nat, scope: Scope, c: Code)
    requires i < |t.operations| && SchemasOwn(scope) && ValueFault(t.operations[i], t.entityId, scope) == Some(c)
    ensures Faulty(c, t, i, scope)
  {
    hide Unambiguous, MatchesType, OccursNever, OccursOnlyAt, Encode;
    var o := t.operations[i];
    var key := ValueKey(t.entityId, o.path);
    if key in scope.values && o.kind != Replace { EditsByPlaces(scope.values[key].original, o.kind, o.value, scope.numbers); }
  }

  lemma OperationFaulty(t: Target, i: nat, allowed: AllowedTarget, scope: Scope, c: Code)
    requires i < |t.operations| && SchemasOwn(scope) && FindTarget(scope.allowed, t.entityId) == Some(allowed)
    requires OperationFault(t, i, allowed, scope) == Some(c)
    ensures Faulty(c, t, i, scope)
  {
    hide ByPlaces, HasWrongType, ValueFault;
    var o, before := t.operations[i], t.operations[..i];
    FoundFirst(scope.allowed, t.entityId);
    if o.ordinal > |t.operations| || o.ordinal in (set b | b in before :: b.ordinal) {
    } else if !AllowedOperation(allowed, o.path, o.kind) {
      forall k, p | FirstWith(scope.allowed, k, t.entityId) && p in scope.allowed[k].paths ensures p.path != o.path || o.kind !in p.operations {
        var m :| 0 <= m < |allowed.paths| && allowed.paths[m] == p;
      }
      assert NotPermitted(t, o, scope);
    } else if ValueFault(o, t.entityId, scope) == Some(c) {
      ValueFaulty(t, i, scope, c);
    }
  }

  /** Every refusal code tells the truth about the patch: about its form, about a target, or about one of the operations. */
  lemma RefusalsAreExplained(p: Patch, scope: Scope, c: Code)
    requires PatchBlamed(c, p, scope) && SchemasOwn(scope)
    ensures
      || (c == SchemaViolation && (!p.Valid() || |p.targets| > |scope.allowed|))
      || (c == ScopeViolation && exists t :: t in p.targets && Unlisted(t, scope))
      || (exists t, i :: t in p.targets && 0 <= i < |t.operations| && Faulty(c, t, i, scope))
  {
    hide Faulty, Patch.Valid, TargetInScope;
    if p.Valid() && |p.targets| <= |scope.allowed| {
      var k :| 0 <= k < |p.targets| && TargetBlamed(c, p.targets[k], scope);
      var t := p.targets[k];
      FoundFirst(scope.allowed, t.entityId);
      HasOperations(p, t);
      var found := FindTarget(scope.allowed, t.entityId);
      if found.None? || t.kind != found.value.kind || t.expectedVersion != found.value.expectedVersion {
        assert Unlisted(t, scope);
      } else {
        var i :| OperationBlamed(c, t, i, found.value, scope);
        OperationFaulty(t, i, found.value, scope, c);
      }
    }
  }

  lemma HasOperations(p: Patch, t: Target)
    requires p.Valid() && t in p.targets
    ensures t.operations != []
  {
  }
}
