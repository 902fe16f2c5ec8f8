/** Canonical bytes and content hash of draft patches, and the decoding of a provider answer. */
module DraftHash {
  import opened Wrappers
  import opened Ordering
  import opened CanonicalJson
  import opened CanonicalInjective
  import opened CanonicalGrammar
  import opened DraftPatch
  import opened DraftNormal
  import AuditChain

  // ---------- Patches as values ----------

  function Digit(n: nat): char
    requires n < 10
  {
    '0' + n as char
  }

  function DecimalNat(n: nat): (t: string)
    ensures t != [] && forall i | 0 <= i < |t| :: '0' <= t[i] <= '9'
  {
    if n < 10 then [Digit(n)] else DecimalNat(n / 10) + [Digit(n % 10)]
  }

  /** The text of a Go integer. */
  function Decimal(n: int): string {
    if n < 0 then ['-'] + DecimalNat(-n) else DecimalNat(n)
  }

  lemma {:induction false} DecimalNatInjective(m: nat, n: nat)
    requires DecimalNat(m) == DecimalNat(n)
    ensures m == n
  {
    var s, t := DecimalNat(m), DecimalNat(n);
    assert s[|s| - 1] == t[|t| - 1];
    assert s[|s| - 1] == Digit(m % 10) && t[|t| - 1] == Digit(n % 10);
    if m >= 10 && n >= 10 {
      assert s[..|s| - 1] == DecimalNat(m / 10) && t[..|t| - 1] == DecimalNat(n / 10);
      DecimalNatInjective(m / 10, n / 10);
    }
  }

  lemma DecimalInjective(m: int, n: int)
    requires Decimal(m) == Decimal(n)
    ensures m == n
  {
    assert m < 0 <==> Decimal(m)[0] == '-';
    assert n < 0 <==> Decimal(n)[0] == '-';
    if m < 0 && n < 0 {
      assert Decimal(m)[1..] == DecimalNat(-m) && Decimal(n)[1..] == DecimalNat(-n);
      DecimalNatInjective(-m, -n);
    } else if m >= 0 && n >= 0 {
      DecimalNatInjective(m, n);
    }
  }

  function KindName(k: Kind): string {
    match k
    case Replace => "replace"
    case Add => "add"
    case Remove => "remove"
  }

  function StrJson(s: string): Json<string> { Str(s) }

  function OperationJson(o: Operation): Json<string> {
    Obj(map["ordinal" := Num(Decimal(o.ordinal)), "kind" := Str(KindName(o.kind)), "path" := Str(o.path),
            "value" := o.value, "evidence" := Arr(Map(StrJson, o.evidence))])
  }

  function TargetJson(t: Target): Json<string> {
    Obj(map["entity_id" := Str(t.entityId), "kind" := Str(t.kind), "expected_entity_version" := Num(Decimal(t.expectedVersion)),
            "operations" := Arr(Map(OperationJson, t.operations))])
  }

  function BaseJson(b: FrozenBase): Json<string> {
    Obj(map["project_id" := Str(b.projectId), "config_revision_id" := Str(b.revisionId), "config_hash" := Str(b.configHash),
            "version_manifest_hash" := Str(b.manifestHash), "materialization_hash" := Str(b.materializationHash),
            "graph_namespace" := Str(b.graphNamespace), "graph_snapshot" := Str(b.graphSnapshot), "graph_content_hash" := Str(b.graphHash)])
  }

  function PatchJson(p: Patch): Json<string> {
    Obj(map["id" := Str(p.id), "schema" := AuditChain.VersionJson(p.schema), "base" := BaseJson(p.base),
            "evidence_manifest_identity" := AuditChain.VersionJson(p.evidenceManifest),
            "targets" := Arr(Map(TargetJson, p.targets)), "rationale" := Str(p.rationale),
            "assumptions" := Arr(Map(StrJson, p.assumptions)), "hash" := Str(p.hash)])
  }

  /** What is hashed: everything but the id and the hash itself. */
  function HashedJson(p: Patch): Json<string> {
    Obj(PatchJson(p).members - {"id", "hash"})
  }

  const DRAFT_PATCH := "eco-guardian.ai-draft-patch/v1"

  ghost function CanonicalDraftPatch(p: Patch, numbers: Numbers<string>): Option<string> {
    if p.Valid() then Encode(PatchJson(Normal(p)), numbers) else None
  }

  ghost function HashDraftPatch(p: Patch, numbers: Numbers<string>, hash: string -> string): Option<string> {
    if CanonicalDraftPatch(p, numbers).None? then None
    else
      match Encode(HashedJson(Normal(p)), numbers)
      case None => None
      case Some(text) => Some(hash(AuditChain.Preimage(DRAFT_PATCH, text)))
  }

  /** The hash is taken of the domain of draft patches, a zero byte and the text of the normal form without its identity. */
  lemma HashIsOfTheDomain(p: Patch, numbers: Numbers<string>, hash: string -> string)
    requires HashDraftPatch(p, numbers, hash).Some?
    ensures p.Valid() && Encode(HashedJson(Normal(p)), numbers).Some?
    ensures HashDraftPatch(p, numbers, hash).value == hash("eco-guardian.ai-draft-patch/v1" + "\0" + Encode(HashedJson(Normal(p)), numbers).value)
  {
    hide Encode, Normal, HashedJson, Patch.Valid;
  }

  // ---------- The texts, member by member ----------

  lemma OperationReads(o: Operation, numbers: Numbers<string>) returns (parts: seq<string>)
    requires Encode(OperationJson(o), numbers).Some?
    ensures |parts| == 5 && Encode(OperationJson(o), numbers).value == "{" + Join(parts, ",") + "}"
    ensures DenotesMember(parts[0], "evidence", Arr(Map(StrJson, o.evidence)), numbers)
    ensures DenotesMember(parts[1], "kind", Str(match o.kind case Replace => "replace" case Add => "add" case Remove => "remove"), numbers)
    ensures DenotesMember(parts[2], "ordinal", Num(Decimal(o.ordinal)), numbers)
    ensures DenotesMember(parts[3], "path", Str(o.path), numbers)
    ensures DenotesMember(parts[4], "value", o.value, numbers)
  {
    hide Encode, DenotesMember, Decimal, Ascending;
    var keys := ["evidence", "kind", "ordinal", "path", "value"];
    FirstLettersAscend(keys);
    assert Elements(keys) == OperationJson(o).members.Keys;
    parts := ObjectReads(OperationJson(o), keys, numbers);
  }

  lemma TargetReads(t: Target, numbers: Numbers<string>) returns (parts: seq<string>)
    requires Encode(TargetJson(t), numbers).Some?
    ensures |parts| == 4 && Encode(TargetJson(t), numbers).value == "{" + Join(parts, ",") + "}"
    ensures DenotesMember(parts[0], "entity_id", Str(t.entityId), numbers)
    ensures DenotesMember(parts[1], "expected_entity_version", Num(Decimal(t.expectedVersion)), numbers)
    ensures DenotesMember(parts[2], "kind", Str(t.kind), numbers)
    ensures DenotesMember(parts[3], "operations", Arr(Map(OperationJson, t.operations)), numbers)
  {
    hide Encode, DenotesMember, Decimal, Ascending, OperationJson, Less;
    var keys := ["entity_id", "expected_entity_version", "kind", "operations"];
    LessAt(keys[0], keys[1], 1);
    LessAt(keys[1], keys[2], 0);
    LessAt(keys[2], keys[3], 0);
    NeighboursAscend(keys);
    assert Elements(keys) == TargetJson(t).members.Keys;
    parts := ObjectReads(TargetJson(t), keys, numbers);
  }

  lemma BaseReads(b: FrozenBase, numbers: Numbers<string>) returns (parts: seq<string>)
    requires Encode(BaseJson(b), numbers).Some?
    ensures |parts| == 8 && Encode(BaseJson(b), numbers).value == "{" + Join(parts, ",") + "}"
    ensures DenotesMember(parts[0], "config_hash", Str(b.configHash), numbers)
    ensures DenotesMember(parts[1], "config_revision_id", Str(b.revisionId), numbers)
    ensures DenotesMember(parts[2], "graph_content_hash", Str(b.graphHash), numbers)
    ensures DenotesMember(parts[3], "graph_namespace", Str(b.graphNamespace), numbers)
    ensures DenotesMember(parts[4], "graph_snapshot", Str(b.graphSnapshot), numbers)
    ensures DenotesMember(parts[5], "materialization_hash", Str(b.materializationHash), numbers)
    ensures DenotesMember(parts[6], "project_id", Str(b.projectId), numbers)
    ensures DenotesMember(parts[7], "version_manifest_hash", Str(b.manifestHash), numbers)
  {
    hide Encode, DenotesMember, Ascending, Elements, BaseJson;
    var keys := ["config_hash", "config_revision_id", "graph_content_hash", "graph_namespace", "graph_snapshot",
                 "materialization_hash", "project_id", "version_manifest_hash"];
    BaseKeysAscend(keys);
    AscendingDistinct(keys);
    BaseMembers(b, keys);
    parts := ObjectReads(BaseJson(b), keys, numbers);
  }

  /** A value with eight different members. */
  lemma EightMembers(m: map<string, Json<string>>, keys: seq<string>, values: seq<Json<string>>)
    requires |keys| == |values| == 8 && Distinct(keys)
    requires m == map[keys[0] := values[0], keys[1] := values[1], keys[2] := values[2], keys[3] := values[3],
                      keys[4] := values[4], keys[5] := values[5], keys[6] := values[6], keys[7] := values[7]]
    ensures Elements(keys) == m.Keys && forall i | 0 <= i < 8 :: m[keys[i]] == values[i]
  {
    assert forall i, j | 0 <= i < j < 8 :: keys[i] != keys[j];
    forall k ensures k in Elements(keys) <==> k in m {
      if k in m { assert exists i :: 0 <= i < 8 && keys[i] == k; }
    }
  }

  lemma BaseMembers(b: FrozenBase, keys: seq<string>)
    requires keys == ["config_hash", "config_revision_id", "graph_content_hash", "graph_namespace", "graph_snapshot",
                      "materialization_hash", "project_id", "version_manifest_hash"] && Distinct(keys)
    ensures BaseJson(b).Obj? && Elements(keys) == BaseJson(b).members.Keys
    ensures
      var m := BaseJson(b).members;
      && m[keys[0]] == Str(b.configHash) && m[keys[1]] == Str(b.revisionId) && m[keys[2]] == Str(b.graphHash)
      && m[keys[3]] == Str(b.graphNamespace) && m[keys[4]] == Str(b.graphSnapshot) && m[keys[5]] == Str(b.materializationHash)
      && m[keys[6]] == Str(b.projectId) && m[keys[7]] == Str(b.manifestHash)
  {
    hide Distinct, Elements;
    var values := [Str(b.configHash), Str(b.revisionId), Str(b.graphHash), Str(b.graphNamespace), Str(b.graphSnapshot),
                   Str(b.materializationHash), Str(b.projectId), Str(b.manifestHash)];
    EightMembers(BaseJson(b).members, keys, values);
  }

  lemma BaseKeysAscend(keys: seq<string>)
    requires keys == ["config_hash", "config_revision_id", "graph_content_hash", "graph_namespace", "graph_snapshot",
                      "materialization_hash", "project_id", "version_manifest_hash"]
    ensures Ascending(keys)
  {
    hide Less, Ascending;
    LessAt(keys[0], keys[1], 7);
    LessAt(keys[1], keys[2], 0);
    LessAt(keys[2], keys[3], 6);
    LessAt(keys[3], keys[4], 6);
    LessAt(keys[4], keys[5], 0);
    LessAt(keys[5], keys[6], 0);
    LessAt(keys[6], keys[7], 0);
    NeighboursAscend(keys);
  }

  /** The canonical bytes of a patch list exactly these members, in this order. */
  lemma PatchReads(p: Patch, numbers: Numbers<string>) returns (parts: seq<string>)
    requires Encode(PatchJson(p), numbers).Some?
    ensures |parts| == 8 && Encode(PatchJson(p), numbers).value == "{" + Join(parts, ",") + "}"
    ensures DenotesMember(parts[0], "assumptions", Arr(Map(StrJson, p.assumptions)), numbers)
    ensures DenotesMember(parts[1], "base", BaseJson(p.base), numbers)
    ensures DenotesMember(parts[2], "evidence_manifest_identity", AuditChain.VersionJson(p.evidenceManifest), numbers)
    ensures DenotesMember(parts[3], "hash", Str(p.hash), numbers)
    ensures DenotesMember(parts[4], "id", Str(p.id), numbers)
    ensures DenotesMember(parts[5], "rationale", Str(p.rationale), numbers)
    ensures DenotesMember(parts[6], "schema", AuditChain.VersionJson(p.schema), numbers)
    ensures DenotesMember(parts[7], "targets", Arr(Map(TargetJson, p.targets)), numbers)
  {
    hide Encode, DenotesMember, Ascending, Elements, PatchJson;
    var keys := ["assumptions", "base", "evidence_manifest_identity", "hash", "id", "rationale", "schema", "targets"];
    FirstLettersAscend(keys);
    AscendingDistinct(keys);
    PatchMembers(p, keys);
    parts := ObjectReads(PatchJson(p), keys, numbers);
  }

  lemma PatchMembers(p: Patch, keys: seq<string>)
    requires keys == ["assumptions", "base", "evidence_manifest_identity", "hash", "id", "rationale", "schema", "targets"] && Distinct(keys)
    ensures PatchJson(p).Obj? && Elements(keys) == PatchJson(p).members.Keys
    ensures
      var m := PatchJson(p).members;
      && m[keys[0]] == Arr(Map(StrJson, p.assumptions)) && m[keys[1]] == BaseJson(p.base)
      && m[keys[2]] == AuditChain.VersionJson(p.evidenceManifest) && m[keys[3]] == Str(p.hash) && m[keys[4]] == Str(p.id)
      && m[keys[5]] == Str(p.rationale) && m[keys[6]] == AuditChain.VersionJson(p.schema) && m[keys[7]] == Arr(Map(TargetJson, p.targets))
  {
    hide BaseJson, TargetJson, AuditChain.VersionJson, Distinct, Elements;
    var values := [Arr(Map(StrJson, p.assumptions)), BaseJson(p.base), AuditChain.VersionJson(p.evidenceManifest), Str(p.hash), Str(p.id),
                   Str(p.rationale), AuditChain.VersionJson(p.schema), Arr(Map(TargetJson, p.targets))];
    EightMembers(PatchJson(p).members, keys, values);
  }

  function WithoutIdentity(all: seq<string>): (keys: seq<string>)
    requires |all| == 8
    ensures |keys| == 6
  {
    [all[0], all[1], all[2], all[5], all[6], all[7]]
  }

  lemma HashedKeys(p: Patch, all: seq<string>)
    requires all == ["assumptions", "base", "evidence_manifest_identity", "hash", "id", "rationale", "schema", "targets"] && Distinct(all)
    ensures HashedJson(p).Obj? && Elements(WithoutIdentity(all)) == HashedJson(p).members.Keys
    ensures
      var m, keys := HashedJson(p).members, WithoutIdentity(all);
      && m[keys[0]] == Arr(Map(StrJson, p.assumptions)) && m[keys[1]] == BaseJson(p.base)
      && m[keys[2]] == AuditChain.VersionJson(p.evidenceManifest) && m[keys[3]] == Str(p.rationale)
      && m[keys[4]] == AuditChain.VersionJson(p.schema) && m[keys[5]] == Arr(Map(TargetJson, p.targets))
  {
    hide PatchJson, BaseJson, TargetJson, AuditChain.VersionJson, Distinct, Elements;
    PatchMembers(p, all);
    SixOfEight(PatchJson(p).members, all);
    assert HashedJson(p).members == PatchJson(p).members - {all[4], all[3]};
  }

  lemma SixOfEight(m: map<string, Json<string>>, all: seq<string>)
    requires |all| == 8 && Distinct(all) && m.Keys == Elements(all)
    ensures
      var rest, keys := m - {all[4], all[3]}, WithoutIdentity(all);
      rest.Keys == Elements(keys) && forall i | 0 <= i < 6 :: keys[i] in rest && rest[keys[i]] == m[keys[i]]
  {
    var rest, keys := m - {all[4], all[3]}, WithoutIdentity(all);
    assert forall i, j | 0 <= i < j < 8 :: all[i] != all[j];
    forall k ensures k in rest <==> k in Elements(keys) {
      if k in rest {
        var i :| 0 <= i < 8 && all[i] == k;
        assert k in keys;
      }
    }
  }

  /** What is hashed lists the members of the patch but for its id and its stored hash. */
  lemma HashedReads(p: Patch, numbers: Numbers<string>) returns (parts: seq<string>)
    requires Encode(HashedJson(p), numbers).Some?
    ensures |parts| == 6 && Encode(HashedJson(p), numbers).value == "{" + Join(parts, ",") + "}"
    ensures DenotesMember(parts[0], "assumptions", Arr(Map(StrJson, p.assumptions)), numbers)
    ensures DenotesMember(parts[1], "base", BaseJson(p.base), numbers)
    ensures DenotesMember(parts[2], "evidence_manifest_identity", AuditChain.VersionJson(p.evidenceManifest), numbers)
    ensures DenotesMember(parts[3], "rationale", Str(p.rationale), numbers)
    ensures DenotesMember(parts[4], "schema", AuditChain.VersionJson(p.schema), numbers)
    ensures DenotesMember(parts[5], "targets", Arr(Map(TargetJson, p.targets)), numbers)
  {
    hide Encode, DenotesMember, Ascending, Elements, HashedJson;
    var all := ["assumptions", "base", "evidence_manifest_identity", "hash", "id", "rationale", "schema", "targets"];
    FirstLettersAscend(all);
    AscendingDistinct(all);
    var keys := WithoutIdentity(all);
    FirstLettersAscend(keys);
    HashedKeys(p, all);
    parts := ObjectReads(HashedJson(p), keys, numbers);
  }

  // ---------- Values determine patches ----------

  lemma OperationJsonInjective(o: Operation, r: Operation)
    requires OperationJson(o) == OperationJson(r)
    ensures o == r
  {
    hide Decimal;
    var m, n := OperationJson(o).members, OperationJson(r).members;
    assert m["ordinal"] == n["ordinal"] && m["kind"] == n["kind"] && m["path"] == n["path"] && m["value"] == n["value"]
           && m["evidence"] == n["evidence"];
    DecimalInjective(o.ordinal, r.ordinal);
    assert Map(StrJson, o.evidence) == Map(StrJson, r.evidence);
  }

  lemma TargetJsonInjective(t: Target, u: Target)
    requires TargetJson(t) == TargetJson(u)
    ensures t == u
  {
    hide Decimal, OperationJson;
    var m, n := TargetJson(t).members, TargetJson(u).members;
    assert m["entity_id"] == n["entity_id"] && m["kind"] == n["kind"] && m["operations"] == n["operations"]
           && m["expected_entity_version"] == n["expected_entity_version"];
    DecimalInjective(t.expectedVersion, u.expectedVersion);
    assert Map(OperationJson, t.operations) == Map(OperationJson, u.operations);
    forall o, r | o in t.operations && r in u.operations && OperationJson(o) == OperationJson(r) ensures o == r {
      OperationJsonInjective(o, r);
    }
  }

  lemma BaseJsonInjective(b: FrozenBase, c: FrozenBase)
    requires BaseJson(b) == BaseJson(c)
    ensures b == c
  {
    var m, n := BaseJson(b).members, BaseJson(c).members;
    assert m["project_id"] == n["project_id"] && m["config_revision_id"] == n["config_revision_id"] && m["config_hash"] == n["config_hash"];
    assert m["version_manifest_hash"] == n["version_manifest_hash"] && m["materialization_hash"] == n["materialization_hash"];
    assert m["graph_namespace"] == n["graph_namespace"] && m["graph_snapshot"] == n["graph_snapshot"]
           && m["graph_content_hash"] == n["graph_content_hash"];
  }

  lemma HashedMembers(p: Patch, q: Patch)
    requires HashedJson(p) == HashedJson(q)
    ensures AuditChain.VersionJson<string>(p.schema) == AuditChain.VersionJson(q.schema) && BaseJson(p.base) == BaseJson(q.base)
    ensures AuditChain.VersionJson<string>(p.evidenceManifest) == AuditChain.VersionJson(q.evidenceManifest)
    ensures Map(TargetJson, p.targets) == Map(TargetJson, q.targets) && p.rationale == q.rationale
    ensures Map(StrJson, p.assumptions) == Map(StrJson, q.assumptions)
  {
    hide TargetJson, BaseJson, AuditChain.VersionJson, StrJson, Map;
    var m, n := HashedJson(p).members, HashedJson(q).members;
    assert m["schema"] == n["schema"] && m["base"] == n["base"] && m["evidence_manifest_identity"] == n["evidence_manifest_identity"];
    assert m["targets"] == n["targets"] && m["rationale"] == n["rationale"] && m["assumptions"] == n["assumptions"];
  }

  lemma HashedJsonInjective(p: Patch, q: Patch)
    requires HashedJson(p) == HashedJson(q)
    ensures p.(id := q.id, hash := q.hash) == q
  {
    hide HashedJson, TargetJson, BaseJson, AuditChain.VersionJson;
    HashedMembers(p, q);
    AuditChain.VersionJsonInjective<string>(p.schema, q.schema);
    AuditChain.VersionJsonInjective<string>(p.evidenceManifest, q.evidenceManifest);
    BaseJsonInjective(p.base, q.base);
    forall t, u | t in p.targets && u in q.targets && TargetJson(t) == TargetJson(u) ensures t == u {
      TargetJsonInjective(t, u);
    }
  }

  lemma PatchJsonInjective(p: Patch, q: Patch)
    requires PatchJson(p) == PatchJson(q)
    ensures p == q
  {
    hide TargetJson;
    var m, n := PatchJson(p).members, PatchJson(q).members;
    assert m["id"] == n["id"] && m["hash"] == n["hash"];
    HashedJsonInjective(p, q);
  }

  // ---------- Bytes and hashes determine content ----------

  /** Equal canonical bytes mean the same patch up to rearrangement, and rearranged patches have equal bytes. */
  lemma BytesAreContent(p: Patch, q: Patch, numbers: Numbers<string>)
    requires Faithful(numbers)
    requires CanonicalDraftPatch(p, numbers).Some? && CanonicalDraftPatch(q, numbers).Some?
    ensures CanonicalDraftPatch(p, numbers) == CanonicalDraftPatch(q, numbers) <==> Rearranged(p, q)
  {
    hide Encode, Normal, PatchJson, Patch.Valid, Rearranged, Faithful;
    CanonicalIsInjective(PatchJson(Normal(p)), PatchJson(Normal(q)), numbers);
    NormalFormIsUnique(p, q);
    if PatchJson(Normal(p)) == PatchJson(Normal(q)) { PatchJsonInjective(Normal(p), Normal(q)); }
  }

  /** Whether a patch has canonical bytes does not depend on the order of its parts, its id or its hash. */
  lemma EncodableParts(p: Patch, numbers: Numbers<string>)
    ensures Encode(PatchJson(p), numbers).Some? <==> Encode(HashedJson(p), numbers).Some?
  {
    hide Encode, TargetJson;
    AcceptedExactly(PatchJson(p), numbers);
    AcceptedExactly(HashedJson(p), numbers);
    var m, n := PatchJson(p).members, HashedJson(p).members;
    assert forall k :: k in m <==> k in n || k == "id" || k == "hash";
    assert forall k | k in n :: n[k] == m[k];
    assert AllNumbers(m["id"], numbers) && AllNumbers(m["hash"], numbers);
  }

  /** Rearrangement, up to the id and the hash. */
  ghost predicate SameContent(p: Patch, q: Patch) {
    Rearranged(p.(id := q.id, hash := q.hash), q)
  }

  lemma SameContentIsSameHashed(p: Patch, q: Patch)
    requires p.Valid() && q.Valid()
    ensures SameContent(p, q) <==> HashedJson(Normal(p)) == HashedJson(Normal(q))
  {
    hide PatchJson, HashedJson, Rearranged, Target.Valid;
    var r := p.(id := q.id, hash := q.hash);
    NormalFormIsUnique(r, q);
    assert Normal(r) == Normal(p).(id := q.id, hash := q.hash);
    HashedIgnoresIdentity(Normal(p), q.id, q.hash);
    if HashedJson(Normal(p)) == HashedJson(Normal(q)) { HashedJsonInjective(Normal(p), Normal(q)); }
  }

  lemma HashedIgnoresIdentity(p: Patch, id: string, hash: string)
    ensures HashedJson(p.(id := id, hash := hash)) == HashedJson(p)
  {
    hide TargetJson;
    var m, n := HashedJson(p).members, HashedJson(p.(id := id, hash := hash)).members;
    assert m.Keys == n.Keys;
    assert m == n;
  }

  /** The hash never depends on the id, on the stored hash or on the order of the parts. */
  lemma HashIgnoresIdentity(p: Patch, q: Patch, numbers: Numbers<string>, hash: string -> string)
    requires p.Valid() && q.Valid() && SameContent(p, q)
    ensures HashDraftPatch(p, numbers, hash) == HashDraftPatch(q, numbers, hash)
  {
    hide Encode, Normal, PatchJson, HashedJson, Patch.Valid, SameContent;
    SameContentIsSameHashed(p, q);
    EncodableParts(Normal(p), numbers);
    EncodableParts(Normal(q), numbers);
  }

  /** The text whose hash names the patch. */
  ghost function HashedTexts(p: Patch, numbers: Numbers<string>): set<string> {
    match Encode(HashedJson(Normal(p)), numbers)
    case None => {}
    case Some(text) => {AuditChain.Preimage(DRAFT_PATCH, text)}
  }

  /** Unless the two texts collide, equal hashes mean equal content. */
  lemma HashIsContent(p: Patch, q: Patch, numbers: Numbers<string>, hash: string -> string)
    requires Faithful(numbers) && AuditChain.CollisionFree(hash, HashedTexts(p, numbers) + HashedTexts(q, numbers))
    requires HashDraftPatch(p, numbers, hash).Some? && HashDraftPatch(q, numbers, hash).Some?
    ensures HashDraftPatch(p, numbers, hash) == HashDraftPatch(q, numbers, hash) <==> SameContent(p, q)
  {
    hide Encode, Normal, PatchJson, HashedJson, Patch.Valid, SameContent, Faithful;
    if HashDraftPatch(p, numbers, hash) == HashDraftPatch(q, numbers, hash) {
      var x, y := Encode(HashedJson(Normal(p)), numbers).value, Encode(HashedJson(Normal(q)), numbers).value;
      AuditChain.RegisteredDomainsHaveNoZero(11);
      AuditChain.DomainsSeparate(DRAFT_PATCH, x, DRAFT_PATCH, y);
      CanonicalIsInjective(HashedJson(Normal(p)), HashedJson(Normal(q)), numbers);
      SameContentIsSameHashed(p, q);
    }
    if SameContent(p, q) { HashIgnoresIdentity(p, q, numbers, hash); }
  }

  // ---------- Decoding ----------

  method HashPatch(p: Patch, numbers: Numbers<string>, hash: string -> string) returns (h: Option<string>)
    ensures h == HashDraftPatch(p, numbers, hash)
  {
    hide Encode, Normal, PatchJson, HashedJson, Patch.Valid;
    var bytes := PatchBytes(p, numbers);
    if bytes.None? { return None; }
    var q := Normalize(p);
    var text := CanonicalText(HashedJson(q), numbers);
    if text.None? { return None; }
    h := Some(hash(AuditChain.Preimage(DRAFT_PATCH, text.value)));
  }

  method PatchBytes(p: Patch, numbers: Numbers<string>) returns (bytes: Option<string>)
    ensures bytes == CanonicalDraftPatch(p, numbers)
  {
    hide Encode, Normal, PatchJson, Patch.Valid;
    var ok := CheckPatch(p);
    if !ok { return None; }
    var q := Normalize(p);
    bytes := CanonicalText(PatchJson(q), numbers);
  }

  function Zeros(n: nat): string {
    if n == 0 then "" else "0" + Zeros(n - 1)
  }

  /** The patch as it is validated, before its hash is known. */
  function Unhashed(wire: Patch): Patch {
    wire.(hash := Zeros(64))
  }

  ghost predicate SameIdentities(wire: Patch, scope: Scope) {
    && wire.id == scope.patchId && wire.schema == scope.schema
    && wire.base == scope.base && wire.evidenceManifest == scope.evidenceManifest
  }

  /** Accepts exactly the answers that match the frozen context; the stored hash is the hash of the stored patch. */
  method DecodeV1(wire: Patch, scope: Scope, hash: string -> string) returns (r: Result<(Patch, string), Code>)
    requires Faithful(scope.numbers) && AuditChain.HexResults(hash)
    ensures r.Success? <==>
      (SameIdentities(wire, scope) && Accepted(Unhashed(wire), scope) && CanonicalDraftPatch(Unhashed(wire), scope.numbers).Some?)
    ensures !SameIdentities(wire, scope) ==> r == Failure(IdentityMismatch)
    ensures r.Failure? && SameIdentities(wire, scope) ==>
      if Accepted(Unhashed(wire), scope) then r.error == SchemaViolation else PatchBlamed(r.error, Unhashed(wire), scope)
    ensures r.Success? ==> var (p, bytes) := r.value;
      && Rearranged(wire.(hash := p.hash), p) && Accepted(p, scope)
      && Normal(p) == p
      && HashDraftPatch(p, scope.numbers, hash) == Some(p.hash)
      && CanonicalDraftPatch(p, scope.numbers) == Some(bytes)
  {
    hide Encode, Normal, PatchJson, HashedJson, Patch.Valid, Accepted, Rearranged, Faithful, CanonicalDraftPatch, HashDraftPatch, AuditChain.HexResults, PatchBlamed;
    if wire.id != scope.patchId || wire.schema != scope.schema || wire.base != scope.base
       || wire.evidenceManifest != scope.evidenceManifest {
      return Failure(IdentityMismatch);
    }
    var patch := Unhashed(wire);
    var error := ValidateScope(patch, scope);
    if error.Some? { return Failure(error.value); }
    AcceptedIsValid(patch, scope);
    ghost var before := patch;
    patch := Normalize(patch);
    var h := HashPatch(patch, scope.numbers, hash);
    HashExists(before, scope.numbers, hash);
    if h.None? { return Failure(SchemaViolation); }
    patch := patch.(hash := h.value);
    Stored(before, patch, scope.numbers, hash);
    StoredIsAccepted(before, patch, scope);
    var bytes := PatchBytes(patch, scope.numbers);
    if bytes.None? { return Failure(SchemaViolation); }
    r := Success((patch, bytes.value));
  }

  lemma StoredIsAccepted(before: Patch, stored: Patch, scope: Scope)
    requires Accepted(before, scope) && stored.Valid() && Rearranged(before.(hash := stored.hash), stored)
    ensures Accepted(stored, scope)
  {
    hide TargetInScope, Rearranged, Target.Valid, DistinctBy;
    AcceptanceIgnoresOrder(before.(hash := stored.hash), stored, scope);
  }

  lemma AcceptedIsValid(p: Patch, scope: Scope)
    requires Accepted(p, scope)
    ensures p.Valid()
  {
  }

  /** Hashing the normalized patch succeeds exactly when the patch has canonical bytes. */
  lemma HashExists(p: Patch, numbers: Numbers<string>, hash: string -> string)
    requires p.Valid()
    ensures HashDraftPatch(Normal(p), numbers, hash).Some? <==> CanonicalDraftPatch(p, numbers).Some?
  {
    hide Encode, Normal, PatchJson, HashedJson, Patch.Valid;
    NormalIsIdempotent(p);
    EncodableParts(Normal(p), numbers);
  }

  /** Storing the hash in the normalized patch leaves it valid, normal and encodable, and its hash the same. */
  lemma Stored(before: Patch, stored: Patch, numbers: Numbers<string>, hash: string -> string)
    requires before.Valid() && AuditChain.HexResults(hash)
    requires HashDraftPatch(Normal(before), numbers, hash).Some?
    requires stored == Normal(before).(hash := HashDraftPatch(Normal(before), numbers, hash).value)
    ensures Rearranged(before.(hash := stored.hash), stored)
    ensures stored.Valid() && Normal(stored) == stored && CanonicalDraftPatch(stored, numbers).Some?
    ensures HashDraftPatch(stored, numbers, hash) == Some(stored.hash)
  {
    hide Encode, PatchJson, HashedJson, Target.Valid, NormalTarget, DistinctBy;
    NormalIsIdempotent(before);
    NormalIsRearranged(before);
    assert Normal(before).Valid() && AuditChain.ValidHash(stored.hash);
    assert stored.Valid();
    assert Normal(stored) == Normal(Normal(before)).(hash := stored.hash);
    EncodableParts(stored, numbers);
    HashedIgnoresIdentity(Normal(before), stored.id, stored.hash);
    EncodableParts(Normal(before), numbers);
  }
}
