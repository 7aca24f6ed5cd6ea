/** The intent handed from discovery to execution (runtime_contracts/models/intent.py): what its identity covers, sealing
    and the stored form. */
module Intents {
  import opened Wrappers
  import opened Text
  import opened Platform
  import opened Canonical
  import opened Json
  import opened Forms
  import opened Sorting

  const AUTHORS: set<string> := {"DEFAULT", "MODEL", "READER", "POLICY", "USER"}
  const READER_KINDS: set<string> := {"RULE", "MODEL", "POLICY", "RETRIEVAL", "PRIOR", "HUMAN"}
  const SCHEMA_ID := "runtime-contracts/verified-intent"
  const SCHEMA_VERSION := "0.1"
  const CONTRACT_VERSION := "0.1"

  const INTENT_NAMES: seq<string> := ["schema_id", "schema_version", "contract_version", "objective", "fields", "relations", "unresolved", "amendments"]
  const ARTIFACT_NAMES: seq<string> := ["intent_hash", "state", "produced_by", "utterance_ref", "unresolved", "relations", "fields"]
  const RECORD_NAMES: seq<string> := ["intent_hash", "artifact_digest", "state", "produced_by", "utterance_ref", "created_at", "capability_version", "policy_version"]
  const JSON_NAMES: seq<string> := INTENT_NAMES + RECORD_NAMES
  const EVIDENCE_NAMES: seq<string> := ["reader_id", "kind", "value", "confidence", "source_ref"]
  const FIELD_NAMES: seq<string> := ["value", "author", "produced_by", "confidence", "source_span", "contested", "evidence"]
  const OPEN_NAMES: seq<string> := ["dimension", "reason", "detail", "result_changing", "evidence"]
  const MEMBER_NAMES: seq<string> := ["role", "subject", "qualifiers", "evidence"]
  const RELATION_NAMES: seq<string> := ["kind", "members", "attributes", "author", "produced_by", "source_span"]
  const AMENDMENT_NAMES: seq<string> := ["dimension", "from_value", "to_value", "author", "at"]

  datatype Evidence = Evidence(readerId: string, kind: string, value: Value, confidence: string, sourceRef: string)

  datatype IntentField = IntentField(
    value: Value, author: string, producedBy: string, confidence: string, sourceSpan: string, contested: bool,
    evidence: seq<Evidence>)

  datatype OpenReason = NotAsked | UserDeclined | UnresolvedDisagreement

  datatype Unresolved = Unresolved(
    dimension: string, reason: OpenReason, detail: string, resultChanging: bool, evidence: seq<Evidence>)

  datatype RelationMember = RelationMember(role: string, subject: string, qualifiers: map<string, string>, evidence: seq<Evidence>)

  datatype Relation = Relation(
    kind: string, members: seq<RelationMember>, attributes: map<string, string>, author: string, producedBy: string,
    sourceSpan: string)

  datatype Amendment = Amendment(dimension: string, fromValue: Value, toValue: Value, author: string, at: Value)

  datatype IntentState = Draft | Verified | Outdated | Invalidated

  datatype Intent = Intent(
    objective: string, fields: map<string, IntentField>, relations: seq<Relation>, open: seq<Unresolved>,
    amendments: seq<Amendment>, state: IntentState, producedBy: string, utteranceRef: string, createdAt: Value,
    capabilityVersion: string, policyVersion: string)

  function ReasonName(r: OpenReason): string {
    match r
    case NotAsked => "NOT_ASKED"
    case UserDeclined => "USER_DECLINED"
    case UnresolvedDisagreement => "UNRESOLVED_DISAGREEMENT"
  }

  function StateName(s: IntentState): string {
    match s
    case Draft => "DRAFT"
    case Verified => "VERIFIED"
    case Outdated => "STALE"
    case Invalidated => "INVALIDATED"
  }

  // ---- what the constructors refuse ----

  ghost predicate FieldWhole(f: IntentField) {
    f.contested ==> f.evidence != []
  }

  ghost predicate Whole(x: Intent) {
    && (forall k :: k in x.fields ==> FieldWhole(x.fields[k]))
    && (forall r :: r in x.relations ==> r.members != [])
    && (forall u :: u in x.open ==> u.dimension !in x.fields)
  }

  // ---- identity ----

  function FieldForm(f: IntentField): Value {
    FormOf(["value", "author"], [f.value, Str(f.author)])
  }

  function FieldValues(fields: map<string, IntentField>): map<string, Value> {
    map k | k in fields :: FieldForm(fields[k])
  }

  function FieldForms(fields: map<string, IntentField>): Value {
    Map(Listing(FieldValues(fields)))
  }

  function MemberForm(m: RelationMember): Value {
    FormOf(["role", "subject", "qualifiers"], [Str(m.role), Str(m.subject), Map(TextMembers(m.qualifiers))])
  }

  function RelationForm(r: Relation): Value {
    FormOf(["kind", "members", "attributes", "author"],
           [Str(r.kind), List(Image(r.members, MemberForm)), Map(TextMembers(r.attributes)), Str(r.author)])
  }

  function OpenForm(u: Unresolved): Value {
    FormOf(["dimension", "reason"], [Str(u.dimension), Str(ReasonName(u.reason))])
  }

  function AmendmentForm(a: Amendment): Value {
    FormOf(["dimension", "from_value", "to_value", "author"], [Str(a.dimension), a.fromValue, a.toValue, Str(a.author)])
  }

  /** An open dimension that is part of the request. */
  predicate Counts(u: Unresolved) {
    u.resultChanging || !u.reason.NotAsked?
  }

  function Counting(us: seq<Unresolved>): seq<Unresolved> {
    if us == [] then []
    else Counting(us[..|us| - 1]) + if Counts(us[|us| - 1]) then [us[|us| - 1]] else []
  }

  predicate ByDimension(u: Unresolved, v: Unresolved) {
    AtMost(u.dimension, v.dimension)
  }

  function IntentItems(x: Intent): (r: seq<Value>)
    ensures |r| == 8
  {
    [Str(SCHEMA_ID), Str(SCHEMA_VERSION), Str(CONTRACT_VERSION), Str(x.objective), FieldForms(x.fields),
     List(Image(x.relations, RelationForm)), List(Image(Sort(Counting(x.open), ByDimension), OpenForm)),
     List(Image(x.amendments, AmendmentForm))]
  }

  /** `canonical_form`. */
  function IntentForm(x: Intent): Value {
    FormOf(INTENT_NAMES, IntentItems(x))
  }

  /** `intent_hash`: what the user means. */
  function IntentHash(l: Runtime, x: Intent): Result<string> {
    ContentHash(l, IntentForm(x))
  }

  // ---- what identity leaves out ----

  ghost predicate SameField(f: IntentField, g: IntentField) {
    f.value == g.value && f.author == g.author
  }

  ghost predicate SameMember(m: RelationMember, n: RelationMember) {
    m.role == n.role && m.subject == n.subject && m.qualifiers == n.qualifiers
  }

  ghost predicate SameRelation(r: Relation, s: Relation) {
    && r.kind == s.kind && r.attributes == s.attributes && r.author == s.author && |r.members| == |s.members|
    && forall i :: 0 <= i < |r.members| ==> SameMember(r.members[i], s.members[i])
  }

  ghost predicate SameOpen(u: Unresolved, v: Unresolved) {
    u.dimension == v.dimension && u.reason == v.reason
  }

  ghost predicate AllSameOpen(us: seq<Unresolved>, vs: seq<Unresolved>) {
    |us| == |vs| && forall i :: 0 <= i < |us| ==> SameOpen(us[i], vs[i])
  }

  ghost predicate SameAmendment(a: Amendment, b: Amendment) {
    a.dimension == b.dimension && a.fromValue == b.fromValue && a.toValue == b.toValue && a.author == b.author
  }

  /** The same values asserted by the same authors: how they were read, by whom, how surely and when is left aside. */
  ghost predicate SameAssertions(x: Intent, y: Intent) {
    && x.objective == y.objective
    && x.fields.Keys == y.fields.Keys && (forall k :: k in x.fields ==> SameField(x.fields[k], y.fields[k]))
    && |x.relations| == |y.relations| && (forall i :: 0 <= i < |x.relations| ==> SameRelation(x.relations[i], y.relations[i]))
    && AllSameOpen(Counting(x.open), Counting(y.open))
    && |x.amendments| == |y.amendments|
    && (forall i :: 0 <= i < |x.amendments| ==> SameAmendment(x.amendments[i], y.amendments[i]))
  }

  lemma SameRelationForm(r: Relation, s: Relation)
    requires SameRelation(r, s)
    ensures RelationForm(r) == RelationForm(s)
  {
    assert forall i :: 0 <= i < |r.members| ==> MemberForm(r.members[i]) == MemberForm(s.members[i]);
    assert Image(r.members, MemberForm) == Image(s.members, MemberForm);
  }

  lemma {:induction false} SameFieldForms(f: map<string, IntentField>, g: map<string, IntentField>)
    requires f.Keys == g.Keys && forall k :: k in f ==> SameField(f[k], g[k])
    ensures FieldForms(f) == FieldForms(g)
  {
    assert forall k :: k in f ==> FieldForm(f[k]) == FieldForm(g[k]);
    assert FieldValues(f) == FieldValues(g);
  }

  lemma {:induction false} SameOpenInsert(u: Unresolved, v: Unresolved, us: seq<Unresolved>, vs: seq<Unresolved>)
    requires SameOpen(u, v) && AllSameOpen(us, vs)
    ensures AllSameOpen(Insert(u, us, ByDimension), Insert(v, vs, ByDimension))
    decreases |us|
  {
    if us == [] || ByDimension(u, us[0]) {
      SameOpenCons(u, v, us, vs);
    } else {
      SameOpenInsert(u, v, us[1..], vs[1..]);
      SameOpenCons(us[0], vs[0], Insert(u, us[1..], ByDimension), Insert(v, vs[1..], ByDimension));
    }
  }

  lemma SameOpenCons(u: Unresolved, v: Unresolved, us: seq<Unresolved>, vs: seq<Unresolved>)
    requires SameOpen(u, v) && AllSameOpen(us, vs)
    ensures AllSameOpen([u] + us, [v] + vs)
  {}

  lemma {:induction false} SameOpenSort(us: seq<Unresolved>, vs: seq<Unresolved>)
    requires AllSameOpen(us, vs)
    ensures AllSameOpen(Sort(us, ByDimension), Sort(vs, ByDimension))
    decreases |us|
  {
    if us != [] {
      SameOpenSort(us[1..], vs[1..]);
      SameOpenInsert(us[0], vs[0], Sort(us[1..], ByDimension), Sort(vs[1..], ByDimension));
    }
  }

  lemma SameOpenForms(us: seq<Unresolved>, vs: seq<Unresolved>)
    requires AllSameOpen(us, vs)
    ensures Image(us, OpenForm) == Image(vs, OpenForm)
  {
    assert forall i :: 0 <= i < |us| ==> SameOpen(us[i], vs[i]) && OpenForm(us[i]) == OpenForm(vs[i]);
  }

  lemma SameAmendmentForms(a: seq<Amendment>, b: seq<Amendment>)
    requires |a| == |b| && forall i :: 0 <= i < |a| ==> SameAmendment(a[i], b[i])
    ensures Image(a, AmendmentForm) == Image(b, AmendmentForm)
  {
    assert forall i :: 0 <= i < |a| ==> AmendmentForm(a[i]) == AmendmentForm(b[i]);
  }

  lemma SameRelationForms(a: seq<Relation>, b: seq<Relation>)
    requires |a| == |b| && forall i :: 0 <= i < |a| ==> SameRelation(a[i], b[i])
    ensures Image(a, RelationForm) == Image(b, RelationForm)
  {
    forall i | 0 <= i < |a|
      ensures RelationForm(a[i]) == RelationForm(b[i])
    {
      SameRelationForm(a[i], b[i]);
    }
  }

  /** Two artifacts with the same assertions are the same request: confidence, evidence, spans, producers, state, times, and
      open dimensions that were not asked and change nothing, are not part of the identity. */
  lemma SameAssertionsSameHash(l: Runtime, x: Intent, y: Intent)
    requires SameAssertions(x, y)
    ensures IntentForm(x) == IntentForm(y) && IntentHash(l, x) == IntentHash(l, y)
  {
    SameFieldForms(x.fields, y.fields);
    SameRelationForms(x.relations, y.relations);
    SameOpenSort(Counting(x.open), Counting(y.open));
    SameOpenForms(Sort(Counting(x.open), ByDimension), Sort(Counting(y.open), ByDimension));
    SameAmendmentForms(x.amendments, y.amendments);
    assert IntentItems(x) == IntentItems(y);
  }

  // ---- sealing ----

  predicate Blocks(u: Unresolved) {
    u.resultChanging || u.reason.UnresolvedDisagreement?
  }

  /** No open dimension is left that would change the result. */
  ghost predicate Sealable(x: Intent) {
    forall u :: u in x.open ==> !Blocks(u)
  }

  /** `unsealable`, collected as the source does. */
  method Unsealable(x: Intent) returns (found: seq<Unresolved>)
    ensures found == [] <==> Sealable(x)
    ensures forall u :: u in found <==> u in x.open && (u.resultChanging || u.reason == UnresolvedDisagreement)
  {
    found := [];
    for i := 0 to |x.open|
      invariant forall u :: u in found <==> u in x.open[..i] && Blocks(u)
    {
      assert x.open[..i + 1] == x.open[..i] + [x.open[i]];
      if Blocks(x.open[i]) {
        found := found + [x.open[i]];
      }
    }
    assert x.open[..|x.open|] == x.open;
    assert found != [] ==> found[0] in found;
  }

  /** `seal`. */
  method Seal(x: Intent) returns (r: Result<Intent>)
    ensures r == if Sealable(x) then Ok(x.(state := Verified)) else Refused
  {
    var found := Unsealable(x);
    if found != [] {
      return Refused;
    }
    return Ok(x.(state := Verified));
  }

  // ---- which representation it is ----

  function EvidenceItems(e: Evidence): (r: seq<Value>)
    ensures |r| == |EVIDENCE_NAMES|
  {
    [Str(e.readerId), Str(e.kind), e.value, Str(e.confidence), Str(e.sourceRef)]
  }

  function EvidenceJson(e: Evidence): Value {
    Map(Fielded(EVIDENCE_NAMES, EvidenceItems(e)))
  }

  function EvidenceList(es: seq<Evidence>): Value {
    List(Image(es, EvidenceJson))
  }

  function FieldItems(f: IntentField): (r: seq<Value>)
    ensures |r| == |FIELD_NAMES|
  {
    [f.value, Str(f.author), Str(f.producedBy), Str(f.confidence), Str(f.sourceSpan), Bool(f.contested), EvidenceList(f.evidence)]
  }

  function FieldJson(f: IntentField): Value {
    Map(Fielded(FIELD_NAMES, FieldItems(f)))
  }

  function OpenItems(u: Unresolved): (r: seq<Value>)
    ensures |r| == |OPEN_NAMES|
  {
    [Str(u.dimension), Str(ReasonName(u.reason)), Str(u.detail), Bool(u.resultChanging), EvidenceList(u.evidence)]
  }

  function OpenJson(u: Unresolved): Value {
    Map(Fielded(OPEN_NAMES, OpenItems(u)))
  }

  function MemberItems(m: RelationMember): (r: seq<Value>)
    ensures |r| == |MEMBER_NAMES|
  {
    [Str(m.role), Str(m.subject), Map(TextMembers(m.qualifiers)), EvidenceList(m.evidence)]
  }

  function MemberJson(m: RelationMember): Value {
    Map(Fielded(MEMBER_NAMES, MemberItems(m)))
  }

  function RelationItems(r: Relation): (out: seq<Value>)
    ensures |out| == |RELATION_NAMES|
  {
    [Str(r.kind), List(Image(r.members, MemberJson)), Map(TextMembers(r.attributes)), Str(r.author), Str(r.producedBy),
     Str(r.sourceSpan)]
  }

  function RelationJson(r: Relation): Value {
    Map(Fielded(RELATION_NAMES, RelationItems(r)))
  }

  function AmendmentItems(a: Amendment): (r: seq<Value>)
    ensures |r| == |AMENDMENT_NAMES|
  {
    [Str(a.dimension), a.fromValue, a.toValue, Str(a.author), a.at]
  }

  function AmendmentJson(a: Amendment): Value {
    Map(Fielded(AMENDMENT_NAMES, AmendmentItems(a)))
  }

  function OpenArtifact(u: Unresolved): Value {
    FormOf(["dimension", "reason", "result_changing"], [Str(u.dimension), Str(ReasonName(u.reason)), Bool(u.resultChanging)])
  }

  function FieldArtifact(f: IntentField): Value {
    FormOf(["confidence", "source_span", "contested", "produced_by", "evidence"],
           [Str(f.confidence), Str(f.sourceSpan), Bool(f.contested), Str(f.producedBy), EvidenceList(f.evidence)])
  }

  function ArtifactItems(x: Intent, hash: string): (r: seq<Value>)
    ensures |r| == 7
  {
    [Str(hash), Str(StateName(x.state)), Str(x.producedBy), Str(x.utteranceRef),
     List(Image(Sort(x.open, ByDimension), OpenArtifact)), List(Image(x.relations, RelationJson)),
     Map(Listing(map k | k in x.fields :: FieldArtifact(x.fields[k])))]
  }

  /** `artifact_digest`. */
  function ArtifactDigest(l: Runtime, x: Intent): Result<string> {
    var hash :- IntentHash(l, x);
    ContentHash(l, FormOf(ARTIFACT_NAMES, ArtifactItems(x, hash)))
  }

  lemma IntentApart()
    ensures |INTENT_NAMES| == 8 && FieldNames(INTENT_NAMES)
  {
    var codes := [619369, 947055, 1074031, 618358, 419428, 619118, 685413, 680308];
    assert forall i :: 0 <= i < 8 ==> Ascii(INTENT_NAMES[i]) && Code(INTENT_NAMES[i]) == codes[i];
    ToldApart(INTENT_NAMES, codes);
  }

  lemma ArtifactApart()
    ensures |ARTIFACT_NAMES| == 7 && FieldNames(ARTIFACT_NAMES)
  {
    var codes := [747891, 357236, 749666, 882021, 685413, 619118, 419428];
    assert forall i :: 0 <= i < 7 ==> Ascii(ARTIFACT_NAMES[i]) && Code(ARTIFACT_NAMES[i]) == codes[i];
    ToldApart(ARTIFACT_NAMES, codes);
  }

  lemma StateNamesPlain(s: IntentState)
    ensures Ascii(StateName(s))
  {}

  lemma StateNamesApart(s: IntentState, t: IntentState)
    ensures StateName(s) == StateName(t) <==> s == t
  {
    assert |"DRAFT"| == 5 && |"VERIFIED"| == 8 && |"STALE"| == 5 && |"INVALIDATED"| == 11;
    assert "DRAFT"[0] == 'D' && "STALE"[0] == 'S';
  }

  /** The state is part of the digest, and so is the hash of the request. */
  lemma DigestShowsState(l: Runtime, x: Intent, y: Intent)
    requires ArtifactDigest(l, x).Ok? && ArtifactDigest(l, x) == ArtifactDigest(l, y)
    ensures x.state == y.state && IntentHash(l, x) == IntentHash(l, y)
  {
    var h, k := IntentHash(l, x).value, IntentHash(l, y).value;
    ArtifactStarts(x, h);
    ArtifactStarts(y, k);
    SameArtifactItems(l, ArtifactItems(x, h), ArtifactItems(y, k));
    StateNamesPlain(x.state);
    StateNamesPlain(y.state);
    HashesNormal(l, x);
    HashesNormal(l, y);
    SameNormalText(l, h, k);
    AsciiIsNormal(l, StateName(x.state));
    AsciiIsNormal(l, StateName(y.state));
    SameNormalText(l, StateName(x.state), StateName(y.state));
    StateNamesApart(x.state, y.state);
  }

  lemma ArtifactStarts(x: Intent, hash: string)
    ensures ArtifactItems(x, hash)[0] == Str(hash) && ArtifactItems(x, hash)[1] == Str(StateName(x.state))
  {}

  lemma SameArtifactItems(l: Runtime, a: seq<Value>, b: seq<Value>)
    requires |a| == |b| == 7 && ContentHash(l, FormOf(ARTIFACT_NAMES, a)).Ok?
    requires ContentHash(l, FormOf(ARTIFACT_NAMES, a)) == ContentHash(l, FormOf(ARTIFACT_NAMES, b))
    ensures Canonicalize(l, a[0]) == Canonicalize(l, b[0]) && Canonicalize(l, a[1]) == Canonicalize(l, b[1])
  {
    ArtifactApart();
    SameTextIffSameForm(l, FormOf(ARTIFACT_NAMES, a), FormOf(ARTIFACT_NAMES, b));
    SameFormIffSameItems(l, ARTIFACT_NAMES, a, b);
  }

  lemma SameNormalText(l: Runtime, s: string, t: string)
    requires l.nfc(s) == s && l.nfc(t) == t && Canonicalize(l, Str(s)) == Canonicalize(l, Str(t))
    ensures s == t
  {
    assert Canonicalize(l, Str(s)) == Ok(Str(s)) && Canonicalize(l, Str(t)) == Ok(Str(t));
  }

  lemma HashesNormal(l: Runtime, x: Intent)
    requires IntentHash(l, x).Ok?
    ensures l.nfc(IntentHash(l, x).value) == IntentHash(l, x).value
  {
    DigestIsNormal(l, CanonicalJson(l, IntentForm(x)).value);
  }

  /** Sealing, or a later transition, changes which object it is and never which request it is. */
  lemma StateChangesArtifactOnly(l: Runtime, x: Intent, s: IntentState)
    ensures IntentHash(l, x.(state := s)) == IntentHash(l, x)
    ensures s != x.state && ArtifactDigest(l, x).Ok? ==> ArtifactDigest(l, x.(state := s)) != ArtifactDigest(l, x)
  {
    SameAssertionsSameHash(l, x, x.(state := s));
    if s != x.state && ArtifactDigest(l, x).Ok? && ArtifactDigest(l, x.(state := s)) == ArtifactDigest(l, x) {
      DigestShowsState(l, x, x.(state := s));
    }
  }

  // ---- the stored form ----

  function MeaningItems(x: Intent): (r: seq<Value>)
    ensures |r| == |INTENT_NAMES|
  {
    [Str(SCHEMA_ID), Str(SCHEMA_VERSION), Str(CONTRACT_VERSION), Str(x.objective),
     Map(Listing(map k | k in x.fields :: FieldJson(x.fields[k]))), List(Image(x.relations, RelationJson)),
     List(Image(x.open, OpenJson)), List(Image(x.amendments, AmendmentJson))]
  }

  function RecordItems(x: Intent, hash: string, digest: string): (r: seq<Value>)
    ensures |r| == |RECORD_NAMES|
  {
    [Str(hash), Str(digest), Str(StateName(x.state)), Str(x.producedBy), Str(x.utteranceRef), x.createdAt,
     Str(x.capabilityVersion), Str(x.policyVersion)]
  }

  function JsonItems(x: Intent, hash: string, digest: string): (r: seq<Value>)
    ensures |r| == |JSON_NAMES|
  {
    MeaningItems(x) + RecordItems(x, hash, digest)
  }

  /** `to_json`. */
  function ToJson(l: Runtime, x: Intent): Result<Value> {
    var hash :- IntentHash(l, x);
    var digest :- ArtifactDigest(l, x);
    Ok(Map(Fielded(JSON_NAMES, JsonItems(x, hash, digest))))
  }
}
