/** The audit hash chain: domain-separated hashes over canonical records. */
module AuditChain {
  import opened Wrappers
  import opened Text
  import opened Ordering
  import opened CanonicalJson
  import opened CanonicalInjective
  import opened CanonicalGrammar

  // ---------- Domain separation ----------

  const DOMAINS := [
    "eco-guardian.ai-design-input/v1",
    "eco-guardian.ai-provider-manifest/v1",
    "eco-guardian.ai-prompt-manifest/v1",
    "eco-guardian.ai-schema-manifest/v1",
    "eco-guardian.ai-tool-manifest/v1",
    "eco-guardian.ai-orchestrator-manifest/v1",
    "eco-guardian.ai-budget-policy-manifest/v1",
    "eco-guardian.ai-retrieval-evidence/v1",
    "eco-guardian.ai-tool-input/v1",
    "eco-guardian.ai-tool-result/v1",
    "eco-guardian.ai-tool-payload/v1",
    "eco-guardian.ai-draft-patch/v1",
    "eco-guardian.ai-draft-diff/v1",
    "eco-guardian.ai-preview/v1",
    "eco-guardian.ai-audit-record/v1",
    "eco-guardian.ai-audit-chain/v1"
  ]

  const AUDIT_CHAIN := "eco-guardian.ai-audit-chain/v1"

  /** What is hashed: the domain, a zero byte, the text. */
  function Preimage(domain: string, text: string): string {
    domain + "\0" + text
  }

  /** Without zero bytes in the names, the domain and the text can be read off the preimage. */
  lemma DomainsSeparate(d: string, x: string, e: string, y: string)
    requires '\0' !in d && '\0' !in e && Preimage(d, x) == Preimage(e, y)
    ensures d == e && x == y
  {
    assert Preimage(d, x) == d + ['\0'] + x && Preimage(e, y) == e + ['\0'] + y;
    CutOnce(d, x, e, y, '\0');
  }

  /** None of the registered names contains a zero byte. */
  lemma RegisteredDomainsHaveNoZero(i: nat)
    requires i < |DOMAINS|
    ensures '\0' !in DOMAINS[i]
  {
    if i < 8 {
      EarlierDomains(i);
    } else {
      LaterDomains(i);
    }
  }

  lemma EarlierDomains(i: nat)
    requires i < 8
    ensures '\0' !in DOMAINS[i]
  {
  }

  lemma LaterDomains(i: nat)
    requires 8 <= i < 16
    ensures '\0' !in DOMAINS[i]
  {
  }

  // ---------- Records ----------

  /** A lower-case hexadecimal SHA-256. */
  predicate ValidHash(h: string) {
    |h| == 64 && forall i | 0 <= i < 64 :: '0' <= h[i] <= '9' || 'a' <= h[i] <= 'f'
  }

  datatype Version = Version(id: string, version: string, hash: string)
  {
    predicate Valid() { ValidToken(id) && ValidToken(version) && ValidHash(hash) }
  }

  datatype AuditRecord = AuditRecord(ordinal: int, attemptId: string, eventType: string, payloadHash: string, versions: seq<Version>)
  {
    /** Positive ordinal, well-formed texts and versions, and at most one version per id. */
    predicate Valid() {
      && ordinal >= 1 && ValidToken(attemptId) && ValidToken(eventType) && ValidHash(payloadHash)
      && (forall i | 0 <= i < |versions| :: versions[i].Valid())
      && forall i, j | 0 <= i < j < |versions| :: versions[i].id != versions[j].id
    }
  }

  function VersionKey(v: Version): string { v.id }

  function VersionJson<N>(v: Version): Json<N> {
    Obj(map["id" := Str(v.id), "version" := Str(v.version), "hash" := Str(v.hash)])
  }

  function VersionsJson(vs: seq<Version>): (r: seq<Json<int>>)
    ensures |r| == |vs| && forall i | 0 <= i < |vs| :: r[i] == VersionJson(vs[i])
  {
    seq(|vs|, i requires 0 <= i < |vs| => VersionJson(vs[i]))
  }

  /** The record as a value, its versions sorted. */
  function RecordJson(r: AuditRecord): Json<int> {
    Obj(map["ordinal" := Num(r.ordinal), "attempt_id" := Str(r.attemptId), "event_type" := Str(r.eventType),
            "payload_hash" := Str(r.payloadHash), "versions" := Arr(VersionsJson(SortBy(VersionKey, r.versions)))])
  }

  /** Two records that differ at most in the order of their versions. */
  ghost predicate SameRecord(r: AuditRecord, q: AuditRecord) {
    && r.ordinal == q.ordinal && r.attemptId == q.attemptId && r.eventType == q.eventType && r.payloadHash == q.payloadHash
    && multiset(r.versions) == multiset(q.versions)
  }

  lemma VersionJsonInjective<N>(v: Version, w: Version)
    requires VersionJson<N>(v) == VersionJson<N>(w)
    ensures v == w
  {
    var m, n := VersionJson<N>(v).members, VersionJson<N>(w).members;
    assert m["id"] == n["id"] && m["version"] == n["version"] && m["hash"] == n["hash"];
  }

  lemma VersionsJsonInjective(vs: seq<Version>, ws: seq<Version>)
    requires VersionsJson(vs) == VersionsJson(ws)
    ensures vs == ws
  {
    hide VersionJson, VersionsJson;
    assert |vs| == |ws|;
    forall i | 0 <= i < |vs| ensures vs[i] == ws[i] {
      assert VersionsJson(vs)[i] == VersionsJson(ws)[i];
      VersionJsonInjective<int>(vs[i], ws[i]);
    }
  }

  lemma RecordFields(r: AuditRecord, q: AuditRecord)
    requires RecordJson(r) == RecordJson(q)
    ensures r.ordinal == q.ordinal && r.attemptId == q.attemptId && r.eventType == q.eventType && r.payloadHash == q.payloadHash
    ensures VersionsJson(SortBy(VersionKey, r.versions)) == VersionsJson(SortBy(VersionKey, q.versions))
  {
    hide VersionsJson, SortBy, VersionKey;
    var m, n := RecordJson(r).members, RecordJson(q).members;
    assert m["ordinal"] == n["ordinal"] && m["attempt_id"] == n["attempt_id"] && m["event_type"] == n["event_type"]
           && m["payload_hash"] == n["payload_hash"] && m["versions"] == n["versions"];
  }

  lemma SortedVersions(r: AuditRecord, q: AuditRecord)
    requires r.Valid() && multiset(r.versions) == multiset(q.versions)
    ensures SortBy(VersionKey, r.versions) == SortBy(VersionKey, q.versions)
  {
    hide SortBy, SortedBy;
    var rv, qv := SortBy(VersionKey, r.versions), SortBy(VersionKey, q.versions);
    forall v, w | v in multiset(r.versions) && w in multiset(r.versions) && VersionKey(v) == VersionKey(w) ensures v == w {
      assert v in r.versions && w in r.versions;
    }
    SortedUnique(VersionKey, rv, qv);
  }

  /** The canonical form of a record keeps everything but the order of its versions. */
  lemma RecordJsonDetermines(r: AuditRecord, q: AuditRecord)
    requires r.Valid() && q.Valid()
    ensures RecordJson(r) == RecordJson(q) <==> SameRecord(r, q)
  {
    hide VersionsJson, SortBy, VersionKey;
    var rv, qv := SortBy(VersionKey, r.versions), SortBy(VersionKey, q.versions);
    if RecordJson(r) == RecordJson(q) {
      RecordFields(r, q);
      VersionsJsonInjective(rv, qv);
      assert multiset(r.versions) == multiset(rv) && multiset(q.versions) == multiset(qv);
    } else if SameRecord(r, q) {
      SortedVersions(r, q);
    }
  }

  // ---------- The chain ----------

  ghost predicate HexResults(hash: string -> string) {
    forall x :: ValidHash(hash(x))
  }

  /** No two of these texts have the same hash. No hash is free of collisions on all texts, so the texts at stake are named. */
  ghost predicate CollisionFree(hash: string -> string, texts: set<string>) {
    forall x, y | x in texts && y in texts && hash(x) == hash(y) :: x == y
  }

  /** The first entry has no previous hash, and then the member is absent. */
  function EntryJson(previous: string, r: AuditRecord): Json<int> {
    Obj(if previous == "" then map["record" := RecordJson(r)]
        else map["previous_hash" := Str(previous), "record" := RecordJson(r)])
  }

  /** The canonical text of a record lists exactly these members, in this order. */
  lemma RecordReads(r: AuditRecord, numbers: Numbers<int>) returns (parts: seq<string>)
    requires Encode(RecordJson(r), numbers).Some?
    ensures |parts| == 5 && Encode(RecordJson(r), numbers).value == "{" + Join(parts, ",") + "}"
    ensures DenotesMember(parts[0], "attempt_id", Str(r.attemptId), numbers)
    ensures DenotesMember(parts[1], "event_type", Str(r.eventType), numbers)
    ensures DenotesMember(parts[2], "ordinal", Num(r.ordinal), numbers)
    ensures DenotesMember(parts[3], "payload_hash", Str(r.payloadHash), numbers)
    ensures DenotesMember(parts[4], "versions", Arr(VersionsJson(SortBy(VersionKey, r.versions))), numbers)
  {
    hide Encode, DenotesMember, SortBy, Ascending;
    var keys := ["attempt_id", "event_type", "ordinal", "payload_hash", "versions"];
    FirstLettersAscend(keys);
    assert Elements(keys) == RecordJson(r).members.Keys;
    parts := ObjectReads(RecordJson(r), keys, numbers);
  }

  lemma VersionReads(v: Version, numbers: Numbers<int>) returns (parts: seq<string>)
    requires Encode(VersionJson(v), numbers).Some?
    ensures |parts| == 3 && Encode(VersionJson(v), numbers).value == "{" + Join(parts, ",") + "}"
    ensures DenotesMember(parts[0], "hash", Str(v.hash), numbers)
    ensures DenotesMember(parts[1], "id", Str(v.id), numbers)
    ensures DenotesMember(parts[2], "version", Str(v.version), numbers)
  {
    hide Encode, DenotesMember, Ascending;
    var keys := ["hash", "id", "version"];
    FirstLettersAscend(keys);
    assert Elements(keys) == VersionJson<int>(v).members.Keys;
    parts := ObjectReads(VersionJson(v), keys, numbers);
  }

  /** What one link hashes: the record, after the previous hash unless it is the first. */
  lemma EntryReads(previous: string, r: AuditRecord, numbers: Numbers<int>) returns (parts: seq<string>)
    requires Encode(EntryJson(previous, r), numbers).Some?
    ensures Encode(EntryJson(previous, r), numbers).value == "{" + Join(parts, ",") + "}"
    ensures previous == "" ==> |parts| == 1 && DenotesMember(parts[0], "record", RecordJson(r), numbers)
    ensures previous != "" ==>
      && |parts| == 2 && DenotesMember(parts[0], "previous_hash", Str(previous), numbers)
      && DenotesMember(parts[1], "record", RecordJson(r), numbers)
  {
    hide Encode, DenotesMember, RecordJson, Ascending;
    var keys := if previous == "" then ["record"] else ["previous_hash", "record"];
    FirstLettersAscend(keys);
    assert Elements(keys) == EntryJson(previous, r).members.Keys;
    parts := ObjectReads(EntryJson(previous, r), keys, numbers);
  }

  datatype Entry = Entry(previousHash: string, record: AuditRecord, chainHash: string)

  ghost function AppendAuditChain(previous: string, r: AuditRecord, numbers: Numbers<int>, hash: string -> string): Option<Entry> {
    if previous != "" && !ValidHash(previous) then None
    else if !r.Valid() then None
    else
      match Encode(EntryJson(previous, r), numbers)
      case None => None
      case Some(text) => Some(Entry(previous, r, hash(Preimage(AUDIT_CHAIN, text))))
  }

  /** A link can be appended exactly to nothing or to a well-formed hash, for a valid record whose number can be written;
      its hash is taken of the chain's domain, a zero byte and the text of the entry. */
  lemma AppendExactly(previous: string, r: AuditRecord, numbers: Numbers<int>, hash: string -> string)
    ensures
      var entry := AppendAuditChain(previous, r, numbers, hash);
      && (entry.Some? <==> (previous == "" || ValidHash(previous)) && r.Valid() && numbers(r.ordinal).Some?)
      && (entry.Some? ==>
            && Encode(EntryJson(previous, r), numbers).Some? && entry.value.previousHash == previous && entry.value.record == r
            && entry.value.chainHash == hash("eco-guardian.ai-audit-chain/v1" + "\0" + Encode(EntryJson(previous, r), numbers).value))
  {
    hide Encode, SortBy, VersionJson, VersionsJson, ValidHash, AuditRecord.Valid;
    AcceptedExactly(EntryJson(previous, r), numbers);
    RecordNumbers(r, numbers);
    assert EntryJson(previous, r).members["record"] == RecordJson(r);
  }

  lemma RecordNumbers(r: AuditRecord, numbers: Numbers<int>)
    ensures AllNumbers(RecordJson(r), numbers) <==> numbers(r.ordinal).Some?
  {
    hide SortBy;
    var record := RecordJson(r);
    assert record.members["ordinal"] == Num(r.ordinal);
    assert AllNumbers(record.members["ordinal"], numbers) <==> numbers(r.ordinal).Some?;
    VersionNumbers(SortBy(VersionKey, r.versions), numbers);
    assert AllNumbers(record.members["versions"], numbers);
  }

  lemma VersionNumbers(vs: seq<Version>, numbers: Numbers<int>)
    ensures AllNumbers(Arr(VersionsJson(vs)), numbers)
  {
    forall i | 0 <= i < |vs| ensures AllNumbers(VersionsJson(vs)[i], numbers) {
      assert VersionsJson(vs)[i] == VersionJson(vs[i]);
    }
  }

  /** The chain hash after all records, starting from the empty hash; none if some record is refused. */
  ghost function ChainHash(rs: seq<AuditRecord>, numbers: Numbers<int>, hash: string -> string): Option<string> {
    if rs == [] then Some("")
    else
      match ChainHash(rs[..|rs| - 1], numbers, hash)
      case None => None
      case Some(previous) =>
        match AppendAuditChain(previous, rs[|rs| - 1], numbers, hash)
        case None => None
        case Some(entry) => Some(entry.chainHash)
  }

  /** The text behind one link, if the entry has a canonical form. */
  ghost function LinkTexts(previous: string, r: AuditRecord, numbers: Numbers<int>): set<string> {
    match Encode(EntryJson(previous, r), numbers)
    case None => {}
    case Some(text) => {Preimage(AUDIT_CHAIN, text)}
  }

  /** Every text that is hashed while the chain grows. */
  ghost function ChainTexts(rs: seq<AuditRecord>, numbers: Numbers<int>, hash: string -> string): set<string> {
    if rs == [] then {}
    else
      var before := rs[..|rs| - 1];
      ChainTexts(before, numbers, hash)
      + match ChainHash(before, numbers, hash)
        case None => {}
        case Some(previous) => LinkTexts(previous, rs[|rs| - 1], numbers)
  }

  /** One link determines the hash before it and its record. */
  lemma LinkDetermines(p: string, r: AuditRecord, q: string, s: AuditRecord, numbers: Numbers<int>, hash: string -> string)
    requires Faithful(numbers) && CollisionFree(hash, LinkTexts(p, r, numbers) + LinkTexts(q, s, numbers))
    requires AppendAuditChain(p, r, numbers, hash).Some? && AppendAuditChain(q, s, numbers, hash).Some?
    requires AppendAuditChain(p, r, numbers, hash).value.chainHash == AppendAuditChain(q, s, numbers, hash).value.chainHash
    ensures p == q && SameRecord(r, s)
  {
    hide Encode, RecordJson, SameRecord;
    var x, y := EntryJson(p, r), EntryJson(q, s);
    var tx, ty := Encode(x, numbers).value, Encode(y, numbers).value;
    assert Preimage(AUDIT_CHAIN, tx) == Preimage(AUDIT_CHAIN, ty);
    RegisteredDomainsHaveNoZero(15);
    DomainsSeparate(AUDIT_CHAIN, tx, AUDIT_CHAIN, ty);
    CanonicalIsInjective(x, y, numbers);
    assert x.members["record"] == y.members["record"];
    assert "previous_hash" in x.members <==> p != "";
    assert "previous_hash" in y.members <==> q != "";
    RecordJsonDetermines(r, s);
  }

  /** Two chains that end in the same hash have the same length and the same records throughout. */
  lemma {:induction false} SameHashSameHistory(rs: seq<AuditRecord>, qs: seq<AuditRecord>, numbers: Numbers<int>, hash: string -> string)
    requires Faithful(numbers) && HexResults(hash)
    requires CollisionFree(hash, ChainTexts(rs, numbers, hash) + ChainTexts(qs, numbers, hash))
    requires ChainHash(rs, numbers, hash).Some? && ChainHash(rs, numbers, hash) == ChainHash(qs, numbers, hash)
    ensures |rs| == |qs| && forall i | 0 <= i < |rs| :: SameRecord(rs[i], qs[i])
  {
    hide Encode, EntryJson, SameRecord, LinkTexts, AuditRecord.Valid, ValidHash;
    if rs != [] && qs != [] {
      var m, n := |rs| - 1, |qs| - 1;
      LinkDetermines(ChainHash(rs[..m], numbers, hash).value, rs[m], ChainHash(qs[..n], numbers, hash).value, qs[n], numbers, hash);
      SameHashSameHistory(rs[..m], qs[..n], numbers, hash);
      forall i | 0 <= i < |rs| ensures SameRecord(rs[i], qs[i]) {
        if i < m { assert rs[i] == rs[..m][i] && qs[i] == qs[..n][i]; }
      }
    } else {
      ChainNotEmpty(rs, numbers, hash);
      ChainNotEmpty(qs, numbers, hash);
    }
  }

  lemma ChainNotEmpty(rs: seq<AuditRecord>, numbers: Numbers<int>, hash: string -> string)
    requires HexResults(hash) && ChainHash(rs, numbers, hash).Some?
    ensures rs != [] <==> ChainHash(rs, numbers, hash).value != ""
  {
    hide Encode;
  }

  /** Every prefix of a chain has its own hash: no record can be dropped from, added to or changed in the history. */
  lemma PrefixHashesDiffer(rs: seq<AuditRecord>, i: nat, j: nat, numbers: Numbers<int>, hash: string -> string)
    requires Faithful(numbers) && HexResults(hash) && i < j <= |rs|
    requires CollisionFree(hash, ChainTexts(rs, numbers, hash))
    requires ChainHash(rs[..i], numbers, hash).Some?
    ensures ChainHash(rs[..i], numbers, hash) != ChainHash(rs[..j], numbers, hash)
  {
    hide ChainHash;
    PrefixTexts(rs, i, numbers, hash);
    PrefixTexts(rs, j, numbers, hash);
    if ChainHash(rs[..i], numbers, hash) == ChainHash(rs[..j], numbers, hash) {
      SameHashSameHistory(rs[..i], rs[..j], numbers, hash);
    }
  }

  lemma {:induction false} PrefixTexts(rs: seq<AuditRecord>, i: nat, numbers: Numbers<int>, hash: string -> string)
    requires i <= |rs|
    ensures ChainTexts(rs[..i], numbers, hash) <= ChainTexts(rs, numbers, hash)
  {
    hide ChainHash, LinkTexts;
    if i == |rs| {
      assert rs[..i] == rs;
    } else {
      var before := rs[..|rs| - 1];
      PrefixTexts(before, i, numbers, hash);
      assert before[..i] == rs[..i];
    }
  }
}
