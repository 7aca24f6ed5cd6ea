/** A stored intent restores to itself (`to_json` and `intent_from_json` in runtime_contracts/models/intent.py): exactly when,
    and up to the one confidence that is not stable. */
module IntentRoundTrip {
  import opened Wrappers
  import opened Text
  import opened Platform
  import opened Canonical
  import opened Forms
  import opened Sorting
  import Decimals
  import opened Intents
  import opened IntentRestore

  // ---- intents as the constructors leave them ----

  /** What `decimal_string` returns. */
  ghost predicate Confidence(c: string) {
    exists s :: Decimals.DecimalString(s) == Ok(c)
  }

  ghost predicate ValidEvidence(e: Evidence) {
    e.kind in READER_KINDS && Confidence(e.confidence)
  }

  ghost predicate AllEvidence(es: seq<Evidence>) {
    forall i :: 0 <= i < |es| ==> ValidEvidence(es[i])
  }

  ghost predicate ValidField(f: IntentField) {
    f.author in AUTHORS && Confidence(f.confidence) && FieldWhole(f) && AllEvidence(f.evidence)
  }

  ghost predicate ValidMember(m: RelationMember) {
    AllEvidence(m.evidence)
  }

  ghost predicate ValidRelation(r: Relation) {
    r.author in AUTHORS && r.members != [] && forall i :: 0 <= i < |r.members| ==> ValidMember(r.members[i])
  }

  ghost predicate ValidOpen(u: Unresolved) {
    AllEvidence(u.evidence)
  }

  ghost predicate Valid(x: Intent) {
    && Whole(x)
    && (forall k :: k in x.fields ==> ValidField(x.fields[k]))
    && (forall i :: 0 <= i < |x.relations| ==> ValidRelation(x.relations[i]))
    && (forall i :: 0 <= i < |x.open| ==> ValidOpen(x.open[i]))
    && (forall i :: 0 <= i < |x.amendments| ==> x.amendments[i].author in AUTHORS)
  }

  // ---- reading a confidence again ----

  function AgainText(c: string): string {
    if c == "-0" then "0" else c
  }

  function AgainEvidence(e: Evidence): Evidence {
    e.(confidence := AgainText(e.confidence))
  }

  function AgainField(f: IntentField): IntentField {
    f.(confidence := AgainText(f.confidence), evidence := Image(f.evidence, AgainEvidence))
  }

  function AgainMember(m: RelationMember): RelationMember {
    m.(evidence := Image(m.evidence, AgainEvidence))
  }

  function AgainRelation(r: Relation): Relation {
    r.(members := Image(r.members, AgainMember))
  }

  function AgainOpen(u: Unresolved): Unresolved {
    u.(evidence := Image(u.evidence, AgainEvidence))
  }

  function AgainFields(fields: map<string, IntentField>): map<string, IntentField> {
    map k | k in fields :: AgainField(fields[k])
  }

  /** The intent with each confidence "-0" as "0". */
  function Again(x: Intent): Intent {
    x.(fields := AgainFields(x.fields), relations := Image(x.relations, AgainRelation), open := Image(x.open, AgainOpen))
  }

  lemma ConfidenceBack(c: string)
    requires Confidence(c)
    ensures Decimals.DecimalString(c) == Ok(AgainText(c))
  {
    var s :| Decimals.DecimalString(s) == Ok(c);
    Decimals.TextIsFixedPoint(Decimals.Read(s).value);
  }

  // ---- the names of each part ----

  lemma EvidenceApart()
    ensures |EVIDENCE_NAMES| == 5 && FieldNames(EVIDENCE_NAMES)
  {
    var codes := [619113, 289646, 358005, 680803, 684901];
    assert forall i :: 0 <= i < 5 ==> Ascii(EVIDENCE_NAMES[i]) && Code(EVIDENCE_NAMES[i]) == codes[i];
    ToldApart(EVIDENCE_NAMES, codes);
  }

  lemma FieldApart()
    ensures |FIELD_NAMES| == 7 && FieldNames(FIELD_NAMES)
  {
    var codes := [358005, 418159, 749666, 680803, 750433, 615269, 550243];
    assert forall i :: 0 <= i < 7 ==> Ascii(FIELD_NAMES[i]) && Code(FIELD_NAMES[i]) == codes[i];
    ToldApart(FIELD_NAMES, codes);
  }

  lemma OpenApart()
    ensures |OPEN_NAMES| == 5 && FieldNames(OPEN_NAMES)
  {
    var codes := [615535, 422511, 418921, 1012334, 550243];
    assert forall i :: 0 <= i < 5 ==> Ascii(OPEN_NAMES[i]) && Code(OPEN_NAMES[i]) == codes[i];
    ToldApart(OPEN_NAMES, codes);
  }

  lemma MemberApart()
    ensures |MEMBER_NAMES| == 4 && FieldNames(MEMBER_NAMES)
  {
    var codes := [291436, 488291, 684402, 550243];
    assert forall i :: 0 <= i < 4 ==> Ascii(MEMBER_NAMES[i]) && Code(MEMBER_NAMES[i]) == codes[i];
    ToldApart(MEMBER_NAMES, codes);
  }

  lemma RelationApart()
    ensures |RELATION_NAMES| == 6 && FieldNames(RELATION_NAMES)
  {
    var codes := [289646, 486770, 680293, 418159, 749666, 750433];
    assert forall i :: 0 <= i < 6 ==> Ascii(RELATION_NAMES[i]) && Code(RELATION_NAMES[i]) == codes[i];
    ToldApart(RELATION_NAMES, codes);
  }

  lemma AmendmentApart()
    ensures |AMENDMENT_NAMES| == 5 && FieldNames(AMENDMENT_NAMES)
  {
    var codes := [615535, 681589, 554101, 418159, 156001];
    assert forall i :: 0 <= i < 5 ==> Ascii(AMENDMENT_NAMES[i]) && Code(AMENDMENT_NAMES[i]) == codes[i];
    ToldApart(AMENDMENT_NAMES, codes);
  }

  lemma RecordApart()
    ensures |RECORD_NAMES| == 8 && FieldNames(RECORD_NAMES)
  {
    var codes := [747891, 1007987, 357236, 749666, 882021, 680801, 1205103, 946287];
    assert forall i :: 0 <= i < 8 ==> Ascii(RECORD_NAMES[i]) && Code(RECORD_NAMES[i]) == codes[i];
    ToldApart(RECORD_NAMES, codes);
  }

  lemma RecordIsNew()
    ensures forall i, j :: 0 <= i < |INTENT_NAMES| && 0 <= j < |RECORD_NAMES| ==> INTENT_NAMES[i] != RECORD_NAMES[j]
  {
    var p := [619369, 947055, 1074031, 618358, 419428, 619118, 685413, 680308];
    var q := [747891, 1007987, 357236, 749666, 882021, 680801, 1205103, 946287];
    assert forall i :: 0 <= i < 8 ==> Code(INTENT_NAMES[i]) == p[i];
    assert forall i :: 0 <= i < 8 ==> Code(RECORD_NAMES[i]) == q[i];
    assert forall i, j :: 0 <= i < 8 && 0 <= j < 8 ==> p[i] != q[j];
  }

  lemma JsonApart()
    ensures FieldNames(JSON_NAMES)
  {
    IntentApart();
    RecordApart();
    RecordIsNew();
    NamesJoin(INTENT_NAMES, RECORD_NAMES);
  }

  lemma NamesJoin(a: seq<string>, b: seq<string>)
    requires FieldNames(a) && FieldNames(b) && forall i, j :: 0 <= i < |a| && 0 <= j < |b| ==> a[i] != b[j]
    ensures FieldNames(a + b)
  {}

  // ---- each part restores ----

  ghost predicate EvidenceIn(ms: seq<Member>, e: Evidence) {
    && Find(ms, "reader_id") == Some(Str(e.readerId))
    && Find(ms, "kind") == Some(Str(e.kind))
    && Find(ms, "value") == Some(e.value)
    && Find(ms, "confidence") == Some(Str(e.confidence))
    && Find(ms, "source_ref") == Some(Str(e.sourceRef))
  }

  lemma EvidenceFound(e: Evidence)
    ensures EvidenceIn(EvidenceJson(e).members, e)
  {
    EvidenceApart();
    var names, items := EVIDENCE_NAMES, EvidenceItems(e);
    FieldsFound(names, items);
    assert Find(Fielded(names, items), names[0]) == Some(items[0]) && Find(Fielded(names, items), names[1]) == Some(items[1]);
    assert Find(Fielded(names, items), names[2]) == Some(items[2]) && Find(Fielded(names, items), names[3]) == Some(items[3]);
    assert Find(Fielded(names, items), names[4]) == Some(items[4]);
  }

  lemma TextBack(ms: seq<Member>, name: string, default: string, s: string)
    requires Find(ms, name) == Some(Str(s))
    ensures TextAt(ms, name, default) == Ok(s) && TextOrEmpty(ms, name) == Ok(s)
  {}

  lemma EvidenceReads(ms: seq<Member>, e: Evidence)
    requires EvidenceIn(ms, e) && ValidEvidence(e)
    ensures EvidenceFrom(ms) == Ok(AgainEvidence(e))
  {
    TextBack(ms, "reader_id", "", e.readerId);
    TextBack(ms, "kind", "PRIOR", e.kind);
    TextBack(ms, "confidence", "1", e.confidence);
    TextBack(ms, "source_ref", "", e.sourceRef);
    ConfidenceBack(e.confidence);
  }

  lemma EvidenceBack(e: Evidence)
    requires ValidEvidence(e)
    ensures RestoreEvidence(EvidenceJson(e)) == Ok(AgainEvidence(e))
  {
    EvidenceFound(e);
    EvidenceReads(EvidenceJson(e).members, e);
  }

  lemma EvidenceListBack(ms: seq<Member>, es: seq<Evidence>)
    requires Find(ms, "evidence") == Some(EvidenceList(es)) && AllEvidence(es)
    ensures EvidenceAt(ms) == Ok(Image(es, AgainEvidence))
  {
    forall i | 0 <= i < |es|
      ensures RestoreEvidence(EvidenceJson(es[i])) == Ok(AgainEvidence(es[i]))
    {
      EvidenceBack(es[i]);
    }
    ListBack(es, EvidenceJson, RestoreEvidence, AgainEvidence);
    ItemsBack(ms, "evidence", Image(es, EvidenceJson));
  }

  lemma ItemsBack(ms: seq<Member>, name: string, items: seq<Value>)
    requires Find(ms, name) == Some(List(items))
    ensures ItemsAt(ms, name) == Ok(items)
  {}

  lemma MembersBack(ms: seq<Member>, name: string, members: seq<Member>)
    requires Find(ms, name) == Some(Map(members))
    ensures MembersAt(ms, name) == Ok(members)
  {}

  ghost predicate FieldIn(ms: seq<Member>, f: IntentField) {
    && Find(ms, "value") == Some(f.value)
    && Find(ms, "author") == Some(Str(f.author))
    && Find(ms, "produced_by") == Some(Str(f.producedBy))
    && Find(ms, "confidence") == Some(Str(f.confidence))
    && Find(ms, "source_span") == Some(Str(f.sourceSpan))
    && Find(ms, "contested") == Some(Bool(f.contested))
    && Find(ms, "evidence") == Some(EvidenceList(f.evidence))
  }

  lemma FieldFoundAt(f: IntentField)
    ensures FieldIn(FieldJson(f).members, f)
  {
    FieldApart();
    var names, items := FIELD_NAMES, FieldItems(f);
    FieldsFound(names, items);
    assert Find(Fielded(names, items), names[0]) == Some(items[0]) && Find(Fielded(names, items), names[1]) == Some(items[1]);
    assert Find(Fielded(names, items), names[2]) == Some(items[2]) && Find(Fielded(names, items), names[3]) == Some(items[3]);
    assert Find(Fielded(names, items), names[4]) == Some(items[4]) && Find(Fielded(names, items), names[5]) == Some(items[5]);
    assert Find(Fielded(names, items), names[6]) == Some(items[6]);
  }

  lemma FieldReads(ms: seq<Member>, f: IntentField)
    requires FieldIn(ms, f) && ValidField(f)
    ensures FieldFrom(ms) == Ok(AgainField(f))
  {
    TextBack(ms, "author", "DEFAULT", f.author);
    TextBack(ms, "produced_by", "", f.producedBy);
    TextBack(ms, "confidence", "1", f.confidence);
    TextBack(ms, "source_span", "", f.sourceSpan);
    FlagBack(ms, "contested", false, f.contested);
    ConfidenceBack(f.confidence);
    EvidenceListBack(ms, f.evidence);
  }

  lemma FlagBack(ms: seq<Member>, name: string, default: bool, b: bool)
    requires Find(ms, name) == Some(Bool(b))
    ensures FlagAt(ms, name, default) == b
  {}

  lemma FieldBack(f: IntentField)
    requires ValidField(f)
    ensures RestoreField(FieldJson(f)) == Ok(AgainField(f))
  {
    FieldFoundAt(f);
    FieldReads(FieldJson(f).members, f);
  }

  ghost predicate MemberIn(ms: seq<Member>, m: RelationMember) {
    && Find(ms, "role") == Some(Str(m.role))
    && Find(ms, "subject") == Some(Str(m.subject))
    && Find(ms, "qualifiers") == Some(Map(TextMembers(m.qualifiers)))
    && Find(ms, "evidence") == Some(EvidenceList(m.evidence))
  }

  lemma MemberFoundAt(m: RelationMember)
    ensures MemberIn(MemberJson(m).members, m)
  {
    MemberApart();
    var names, items := MEMBER_NAMES, MemberItems(m);
    FieldsFound(names, items);
    assert Find(Fielded(names, items), names[0]) == Some(items[0]) && Find(Fielded(names, items), names[1]) == Some(items[1]);
    assert Find(Fielded(names, items), names[2]) == Some(items[2]) && Find(Fielded(names, items), names[3]) == Some(items[3]);
  }

  lemma MemberReads(ms: seq<Member>, m: RelationMember)
    requires MemberIn(ms, m) && ValidMember(m)
    ensures MemberFrom(ms) == Ok(AgainMember(m))
  {
    TextBack(ms, "role", "", m.role);
    TextBack(ms, "subject", "", m.subject);
    MembersBack(ms, "qualifiers", TextMembers(m.qualifiers));
    TextsBack(m.qualifiers);
    EvidenceListBack(ms, m.evidence);
  }

  lemma MemberBack(m: RelationMember)
    requires ValidMember(m)
    ensures RestoreMember(MemberJson(m)) == Ok(AgainMember(m))
  {
    MemberFoundAt(m);
    MemberReads(MemberJson(m).members, m);
  }

  ghost predicate RelationIn(ms: seq<Member>, r: Relation) {
    && Find(ms, "kind") == Some(Str(r.kind))
    && Find(ms, "members") == Some(List(Image(r.members, MemberJson)))
    && Find(ms, "attributes") == Some(Map(TextMembers(r.attributes)))
    && Find(ms, "author") == Some(Str(r.author))
    && Find(ms, "produced_by") == Some(Str(r.producedBy))
    && Find(ms, "source_span") == Some(Str(r.sourceSpan))
  }

  lemma RelationFoundAt(r: Relation)
    ensures RelationIn(RelationJson(r).members, r)
  {
    RelationApart();
    var names, items := RELATION_NAMES, RelationItems(r);
    FieldsFound(names, items);
    assert Find(Fielded(names, items), names[0]) == Some(items[0]) && Find(Fielded(names, items), names[1]) == Some(items[1]);
    assert Find(Fielded(names, items), names[2]) == Some(items[2]) && Find(Fielded(names, items), names[3]) == Some(items[3]);
    assert Find(Fielded(names, items), names[4]) == Some(items[4]) && Find(Fielded(names, items), names[5]) == Some(items[5]);
  }

  lemma RelationMembersBack(r: Relation)
    requires ValidRelation(r)
    ensures ListOf(Image(r.members, MemberJson), RestoreMember) == Ok(Image(r.members, AgainMember))
  {
    forall i | 0 <= i < |r.members|
      ensures RestoreMember(MemberJson(r.members[i])) == Ok(AgainMember(r.members[i]))
    {
      MemberBack(r.members[i]);
    }
    ListBack(r.members, MemberJson, RestoreMember, AgainMember);
  }

  lemma RelationReads(ms: seq<Member>, r: Relation)
    requires RelationIn(ms, r) && ValidRelation(r)
    ensures RelationFrom(ms) == Ok(AgainRelation(r))
  {
    TextBack(ms, "kind", "", r.kind);
    RelationMembersBack(r);
    ItemsBack(ms, "members", Image(r.members, MemberJson));
    MembersBack(ms, "attributes", TextMembers(r.attributes));
    TextsBack(r.attributes);
    TextBack(ms, "author", "MODEL", r.author);
    TextBack(ms, "produced_by", "", r.producedBy);
    TextBack(ms, "source_span", "", r.sourceSpan);
  }

  lemma RelationBack(r: Relation)
    requires ValidRelation(r)
    ensures RestoreRelation(RelationJson(r)) == Ok(AgainRelation(r))
  {
    RelationFoundAt(r);
    RelationReads(RelationJson(r).members, r);
  }

  ghost predicate OpenIn(ms: seq<Member>, u: Unresolved) {
    && Find(ms, "dimension") == Some(Str(u.dimension))
    && Find(ms, "reason") == Some(Str(ReasonName(u.reason)))
    && Find(ms, "detail") == Some(Str(u.detail))
    && Find(ms, "result_changing") == Some(Bool(u.resultChanging))
    && Find(ms, "evidence") == Some(EvidenceList(u.evidence))
  }

  lemma OpenFoundAt(u: Unresolved)
    ensures OpenIn(OpenJson(u).members, u)
  {
    OpenApart();
    var names, items := OPEN_NAMES, OpenItems(u);
    FieldsFound(names, items);
    assert Find(Fielded(names, items), names[0]) == Some(items[0]) && Find(Fielded(names, items), names[1]) == Some(items[1]);
    assert Find(Fielded(names, items), names[2]) == Some(items[2]) && Find(Fielded(names, items), names[3]) == Some(items[3]);
    assert Find(Fielded(names, items), names[4]) == Some(items[4]);
  }

  lemma ReasonBack(r: OpenReason)
    ensures ReasonOf(ReasonName(r)) == Ok(r)
  {
    assert |"NOT_ASKED"| == 9 && |"USER_DECLINED"| == 13 && |"UNRESOLVED_DISAGREEMENT"| == 23;
  }

  lemma OpenReads(ms: seq<Member>, u: Unresolved)
    requires OpenIn(ms, u) && ValidOpen(u)
    ensures OpenFrom(ms) == Ok(AgainOpen(u))
  {
    TextBack(ms, "dimension", "", u.dimension);
    TextBack(ms, "reason", "NOT_ASKED", ReasonName(u.reason));
    ReasonBack(u.reason);
    TextBack(ms, "detail", "", u.detail);
    EvidenceListBack(ms, u.evidence);
  }

  lemma OpenBack(u: Unresolved)
    requires ValidOpen(u)
    ensures RestoreOpen(OpenJson(u)) == Ok(AgainOpen(u))
  {
    OpenFoundAt(u);
    OpenReads(OpenJson(u).members, u);
  }

  lemma AmendmentBack(a: Amendment)
    requires a.author in AUTHORS
    ensures RestoreAmendment(AmendmentJson(a)) == Ok(a)
  {
    AmendmentApart();
    var names, items := AMENDMENT_NAMES, AmendmentItems(a);
    FieldsFound(names, items);
    assert Find(Fielded(names, items), names[0]) == Some(items[0]) && Find(Fielded(names, items), names[1]) == Some(items[1]);
    assert Find(Fielded(names, items), names[2]) == Some(items[2]) && Find(Fielded(names, items), names[3]) == Some(items[3]);
    assert Find(Fielded(names, items), names[4]) == Some(items[4]);
  }

  // ---- the collections ----

  function FieldJsons(x: Intent): map<string, Value> {
    map k | k in x.fields :: FieldJson(x.fields[k])
  }

  lemma FieldsBack(x: Intent)
    requires Valid(x)
    ensures DictOf(Listing(FieldJsons(x)), RestoreField) == Ok(AgainFields(x.fields))
  {
    forall k | k in x.fields
      ensures RestoreField(FieldJson(x.fields[k])) == Ok(AgainField(x.fields[k]))
    {
      FieldBack(x.fields[k]);
    }
    DictBack(FieldJsons(x), RestoreField, AgainFields(x.fields));
  }

  lemma RelationsBack(x: Intent)
    requires Valid(x)
    ensures ListOf(Image(x.relations, RelationJson), RestoreRelation) == Ok(Image(x.relations, AgainRelation))
  {
    forall i | 0 <= i < |x.relations|
      ensures RestoreRelation(RelationJson(x.relations[i])) == Ok(AgainRelation(x.relations[i]))
    {
      RelationBack(x.relations[i]);
    }
    ListBack(x.relations, RelationJson, RestoreRelation, AgainRelation);
  }

  lemma OpensBack(x: Intent)
    requires Valid(x)
    ensures ListOf(Image(x.open, OpenJson), RestoreOpen) == Ok(Image(x.open, AgainOpen))
  {
    forall i | 0 <= i < |x.open|
      ensures RestoreOpen(OpenJson(x.open[i])) == Ok(AgainOpen(x.open[i]))
    {
      OpenBack(x.open[i]);
    }
    ListBack(x.open, OpenJson, RestoreOpen, AgainOpen);
  }

  lemma AmendmentsBack(x: Intent)
    requires Valid(x)
    ensures ListOf(Image(x.amendments, AmendmentJson), RestoreAmendment) == Ok(x.amendments)
  {
    forall i | 0 <= i < |x.amendments|
      ensures RestoreAmendment(AmendmentJson(x.amendments[i])) == Ok(x.amendments[i])
    {
      AmendmentBack(x.amendments[i]);
    }
    ListBack(x.amendments, AmendmentJson, RestoreAmendment, a => a);
    assert Image(x.amendments, a => a) == x.amendments;
  }

  // ---- the intent ----

  ghost predicate MeaningFound(ms: seq<Member>, x: Intent) {
    && Find(ms, "objective") == Some(Str(x.objective)) && Find(ms, "fields") == Some(Map(Listing(FieldJsons(x))))
    && Find(ms, "relations") == Some(List(Image(x.relations, RelationJson)))
    && Find(ms, "unresolved") == Some(List(Image(x.open, OpenJson)))
    && Find(ms, "amendments") == Some(List(Image(x.amendments, AmendmentJson)))
  }

  ghost predicate RecordFound(ms: seq<Member>, x: Intent, hash: string) {
    && Find(ms, "intent_hash") == Some(Str(hash)) && Find(ms, "state") == Some(Str(StateName(x.state)))
    && Find(ms, "produced_by") == Some(Str(x.producedBy)) && Find(ms, "utterance_ref") == Some(Str(x.utteranceRef))
    && Find(ms, "created_at") == Some(x.createdAt) && Find(ms, "capability_version") == Some(Str(x.capabilityVersion))
    && Find(ms, "policy_version") == Some(Str(x.policyVersion))
  }

  lemma IntentFound(x: Intent, hash: string, digest: string)
    ensures MeaningFound(Fielded(JSON_NAMES, JsonItems(x, hash, digest)), x)
    ensures RecordFound(Fielded(JSON_NAMES, JsonItems(x, hash, digest)), x, hash)
  {
    JsonApart();
    var names, items := JSON_NAMES, JsonItems(x, hash, digest);
    FieldsFound(names, items);
    assert Find(Fielded(names, items), names[3]) == Some(items[3]) && Find(Fielded(names, items), names[4]) == Some(items[4]);
    assert Find(Fielded(names, items), names[5]) == Some(items[5]) && Find(Fielded(names, items), names[6]) == Some(items[6]);
    assert Find(Fielded(names, items), names[7]) == Some(items[7]) && Find(Fielded(names, items), names[8]) == Some(items[8]);
    assert Find(Fielded(names, items), names[10]) == Some(items[10]) && Find(Fielded(names, items), names[11]) == Some(items[11]);
    assert Find(Fielded(names, items), names[12]) == Some(items[12]) && Find(Fielded(names, items), names[13]) == Some(items[13]);
    assert Find(Fielded(names, items), names[14]) == Some(items[14]) && Find(Fielded(names, items), names[15]) == Some(items[15]);
  }

  lemma AgainDimensions(x: Intent)
    requires Valid(x)
    ensures !exists u :: u in Again(x).open && u.dimension in Again(x).fields
  {
    forall u | u in Again(x).open
      ensures u.dimension !in Again(x).fields
    {
      var i :| 0 <= i < |x.open| && AgainOpen(x.open[i]) == u;
      assert x.open[i] in x.open;
    }
  }

  lemma MeaningBack(ms: seq<Member>, x: Intent)
    requires Valid(x) && MeaningFound(ms, x)
    ensures RestoreMeaning(ms)
         == Ok(Intent(x.objective, AgainFields(x.fields), Image(x.relations, AgainRelation), Image(x.open, AgainOpen), x.amendments,
                      Draft, "", "", Null, "", ""))
  {
    TextBack(ms, "objective", "", x.objective);
    MembersBack(ms, "fields", Listing(FieldJsons(x)));
    FieldsBack(x);
    ItemsBack(ms, "relations", Image(x.relations, RelationJson));
    RelationsBack(x);
    ItemsBack(ms, "unresolved", Image(x.open, OpenJson));
    OpensBack(x);
    ItemsBack(ms, "amendments", Image(x.amendments, AmendmentJson));
    AmendmentsBack(x);
    AgainDimensions(x);
  }

  lemma DraftBack(ms: seq<Member>, x: Intent, hash: string)
    requires Valid(x) && MeaningFound(ms, x) && RecordFound(ms, x, hash)
    ensures RestoreDraft(ms) == Ok(Again(x).(state := Draft))
  {
    MeaningBack(ms, x);
    TextBack(ms, "produced_by", "", x.producedBy);
    TextBack(ms, "utterance_ref", "", x.utteranceRef);
    TextBack(ms, "capability_version", "", x.capabilityVersion);
    TextBack(ms, "policy_version", "", x.policyVersion);
    WithRecord(ms, RestoreMeaning(ms).value, x);
  }

  lemma WithRecord(ms: seq<Member>, meaning: Intent, x: Intent)
    requires RestoreMeaning(ms) == Ok(meaning) && ValueAt(ms, "created_at") == x.createdAt
    requires TextOrEmpty(ms, "produced_by") == Ok(x.producedBy) && TextOrEmpty(ms, "utterance_ref") == Ok(x.utteranceRef)
    requires TextOrEmpty(ms, "capability_version") == Ok(x.capabilityVersion)
    requires TextOrEmpty(ms, "policy_version") == Ok(x.policyVersion)
    ensures RestoreDraft(ms)
         == Ok(meaning.(producedBy := x.producedBy, utteranceRef := x.utteranceRef, createdAt := x.createdAt,
                        capabilityVersion := x.capabilityVersion, policyVersion := x.policyVersion))
  {}

  lemma StateBack(s: IntentState)
    ensures StateOf(StateName(s)) == s
  {
    StateNamesApart(s, Draft);
    StateNamesApart(s, Verified);
    StateNamesApart(s, Outdated);
    StateNamesApart(s, Invalidated);
  }

  // ---- the request stays the same ----

  lemma {:induction false} CountingAgain(us: seq<Unresolved>)
    ensures AllSameOpen(Counting(us), Counting(Image(us, AgainOpen)))
  {
    if us != [] {
      var n := |us| - 1;
      CountingAgain(us[..n]);
      assert Image(us, AgainOpen)[..n] == Image(us[..n], AgainOpen);
    }
  }

  lemma AgainSameAssertions(x: Intent)
    ensures SameAssertions(x, Again(x))
  {
    CountingAgain(x.open);
    forall i | 0 <= i < |x.relations|
      ensures SameRelation(x.relations[i], Again(x).relations[i])
    {
      assert forall j :: 0 <= j < |x.relations[i].members| ==>
        SameMember(x.relations[i].members[j], AgainRelation(x.relations[i]).members[j]);
    }
  }

  lemma AgainSealable(x: Intent)
    ensures Sealable(Again(x)) <==> Sealable(x)
  {
    var us, vs := x.open, Again(x).open;
    assert forall i :: 0 <= i < |us| ==> Blocks(us[i]) == Blocks(vs[i]);
    assert (forall u :: u in us ==> !Blocks(u)) <==> forall i :: 0 <= i < |us| ==> !Blocks(us[i]);
    assert (forall v :: v in vs ==> !Blocks(v)) <==> forall i :: 0 <= i < |vs| ==> !Blocks(vs[i]);
  }

  /** A stored intent restores exactly when it is a draft or sealable: then to itself with each confidence "-0" as "0", which
      has the same hash. An intent given a sealed state without being sealable is written and never read back. */
  lemma RestoreIsBack(l: Runtime, x: Intent)
    requires Valid(x) && ToJson(l, x).Ok?
    ensures Restored(l, ToJson(l, x).value) == if x.state.Draft? || Sealable(x) then Ok(Again(x)) else Refused
    ensures IntentHash(l, Again(x)) == IntentHash(l, x)
  {
    var hash, digest := IntentHash(l, x).value, ArtifactDigest(l, x).value;
    var ms := Fielded(JSON_NAMES, JsonItems(x, hash, digest));
    IntentFound(x, hash, digest);
    DraftBack(ms, x, hash);
    StateBack(x.state);
    AgainSealable(x);
    AgainSameAssertions(x);
    SameAssertionsSameHash(l, x, Again(x));
    ConcludesBack(l, ms, x, hash);
    StateRead(ms, x, hash);
  }

  lemma StateRead(ms: seq<Member>, x: Intent, hash: string)
    requires RecordFound(ms, x, hash)
    ensures TextAt(ms, "state", "DRAFT") == Ok(StateName(x.state))
  {}

  lemma ConcludesBack(l: Runtime, ms: seq<Member>, x: Intent, hash: string)
    requires RecordFound(ms, x, hash) && IntentHash(l, Again(x)) == Ok(hash) && StateOf(StateName(x.state)) == x.state
    ensures Concluded(l, ms, Again(x).(state := Draft), StateName(x.state))
         == if x.state.Draft? || Sealable(Again(x)) then Ok(Again(x)) else Refused
  {
    SealingKeepsWhole(Again(x), Draft);
    assert Again(x).(state := Draft).(state := x.state) == Again(x);
  }

  // ---- when it restores to the very same object ----

  ghost predicate SteadyEvidence(es: seq<Evidence>) {
    forall i :: 0 <= i < |es| ==> es[i].confidence != "-0"
  }

  ghost predicate SteadyRelation(r: Relation) {
    forall i :: 0 <= i < |r.members| ==> SteadyEvidence(r.members[i].evidence)
  }

  /** No confidence is "-0". */
  ghost predicate Steady(x: Intent) {
    && (forall k :: k in x.fields ==> x.fields[k].confidence != "-0" && SteadyEvidence(x.fields[k].evidence))
    && (forall i :: 0 <= i < |x.relations| ==> SteadyRelation(x.relations[i]))
    && (forall i :: 0 <= i < |x.open| ==> SteadyEvidence(x.open[i].evidence))
  }

  lemma EvidenceSteady(es: seq<Evidence>)
    ensures Image(es, AgainEvidence) == es <==> SteadyEvidence(es)
  {
    assert forall i :: 0 <= i < |es| ==> (AgainEvidence(es[i]) == es[i] <==> es[i].confidence != "-0");
  }

  lemma RelationSteady(r: Relation)
    ensures AgainRelation(r) == r <==> SteadyRelation(r)
  {
    forall i | 0 <= i < |r.members|
      ensures AgainMember(r.members[i]) == r.members[i] <==> SteadyEvidence(r.members[i].evidence)
    {
      EvidenceSteady(r.members[i].evidence);
    }
    assert Image(r.members, AgainMember) == r.members <==> forall i :: 0 <= i < |r.members| ==> AgainMember(r.members[i]) == r.members[i];
  }

  lemma FieldsSteady(fields: map<string, IntentField>)
    ensures AgainFields(fields) == fields
       <==> forall k :: k in fields ==> fields[k].confidence != "-0" && SteadyEvidence(fields[k].evidence)
  {
    forall k | k in fields
      ensures AgainField(fields[k]) == fields[k] <==> fields[k].confidence != "-0" && SteadyEvidence(fields[k].evidence)
    {
      EvidenceSteady(fields[k].evidence);
    }
    assert AgainFields(fields) == fields <==> forall k :: k in fields ==> AgainFields(fields)[k] == fields[k];
  }

  /** Exactly when the round trip gives back the very same object. */
  lemma AgainIsSameIff(x: Intent)
    ensures Again(x) == x <==> Steady(x)
  {
    FieldsSteady(x.fields);
    forall i | 0 <= i < |x.relations|
      ensures AgainRelation(x.relations[i]) == x.relations[i] <==> SteadyRelation(x.relations[i])
    {
      RelationSteady(x.relations[i]);
    }
    forall i | 0 <= i < |x.open|
      ensures AgainOpen(x.open[i]) == x.open[i] <==> SteadyEvidence(x.open[i].evidence)
    {
      EvidenceSteady(x.open[i].evidence);
    }
    assert Image(x.relations, AgainRelation) == x.relations
      <==> forall i :: 0 <= i < |x.relations| ==> AgainRelation(x.relations[i]) == x.relations[i];
    assert Image(x.open, AgainOpen) == x.open <==> forall i :: 0 <= i < |x.open| ==> AgainOpen(x.open[i]) == x.open[i];
  }
}
