/** Restoring a stored intent (`intent_from_json` in runtime_contracts/models/intent.py): the round trip and what a restored
    intent is known to be. */
module IntentRestore {
  import opened Wrappers
  import opened Platform
  import opened Canonical
  import opened Json
  import opened Forms
  import opened Sorting
  import DecimalTable
  import Decimals
  import opened Intents

  // ---- looking things up in a payload ----

  /** What Python takes for false. */
  predicate Falsy(v: Value) {
    match v
    case Null => true
    case Bool(b) => !b
    case Int(n) => n == 0
    case Str(s) => s == ""
    case List(items) => items == []
    case Map(members) => members == []
    case _ => false
  }

  function ValueAt(ms: seq<Member>, name: string): Value {
    match Find(ms, name)
    case None => Null
    case Some(v) => v
  }

  /** `str(value)`, for values that are not lists or dicts. */
  function StrOf(v: Value): Result<string> {
    match v
    case Null => Ok("None")
    case Bool(b) => Ok(if b then "True" else "False")
    case Int(n) => Ok(IntText(n))
    case Str(s) => Ok(s)
    case _ => Refused
  }

  /** `str(payload.get(name, default))`. */
  function TextAt(ms: seq<Member>, name: string, default: string): Result<string> {
    match Find(ms, name)
    case None => Ok(default)
    case Some(v) => StrOf(v)
  }

  /** `str(payload.get(name, "") or "")`. */
  function TextOrEmpty(ms: seq<Member>, name: string): Result<string> {
    if Falsy(ValueAt(ms, name)) then Ok("") else StrOf(ValueAt(ms, name))
  }

  function FlagAt(ms: seq<Member>, name: string, default: bool): bool {
    match Find(ms, name)
    case None => default
    case Some(v) => !Falsy(v)
  }

  function ItemsAt(ms: seq<Member>, name: string): Result<seq<Value>> {
    if Falsy(ValueAt(ms, name)) then Ok([])
    else if ValueAt(ms, name).List? then Ok(ValueAt(ms, name).items)
    else Refused
  }

  function MembersAt(ms: seq<Member>, name: string): Result<seq<Member>> {
    if Falsy(ValueAt(ms, name)) then Ok([])
    else if ValueAt(ms, name).Map? then Ok(ValueAt(ms, name).members)
    else Refused
  }

  function OneOf(s: string, names: set<string>): Result<string> {
    if s in names then Ok(s) else Refused
  }

  function ListOf<T>(items: seq<Value>, decode: Value -> Result<T>): Result<seq<T>> {
    if items == [] then Ok([])
    else
      var front :- ListOf(items[..|items| - 1], decode);
      var last :- decode(items[|items| - 1]);
      Ok(front + [last])
  }

  function DictOf<T>(ms: seq<Member>, decode: Value -> Result<T>): Result<map<string, T>> {
    if ms == [] then Ok(map[])
    else
      var front :- DictOf(ms[..|ms| - 1], decode);
      var last := ms[|ms| - 1];
      if last.key.OtherKey? then Refused
      else
        var item :- decode(last.item);
        Ok(front[last.key.name := item])
  }

  // ---- the parts ----

  function EvidenceFrom(ms: seq<Member>): Result<Evidence> {
    var readerId :- TextAt(ms, "reader_id", "");
    var named :- TextAt(ms, "kind", "PRIOR");
    var kind :- OneOf(named, READER_KINDS);
    var stored :- TextAt(ms, "confidence", "1");
    var confidence :- Decimals.DecimalString(stored);
    var sourceRef :- TextOrEmpty(ms, "source_ref");
    Ok(Evidence(readerId, kind, ValueAt(ms, "value"), confidence, sourceRef))
  }

  function RestoreEvidence(v: Value): Result<Evidence> {
    if v.Map? then EvidenceFrom(v.members) else Refused
  }

  function EvidenceAt(ms: seq<Member>): Result<seq<Evidence>> {
    var items :- ItemsAt(ms, "evidence");
    ListOf(items, RestoreEvidence)
  }

  function FieldFrom(ms: seq<Member>): Result<IntentField> {
    var named :- TextAt(ms, "author", "DEFAULT");
    var author :- OneOf(named, AUTHORS);
    var producedBy :- TextOrEmpty(ms, "produced_by");
    var stored :- TextAt(ms, "confidence", "1");
    var confidence :- Decimals.DecimalString(stored);
    var sourceSpan :- TextOrEmpty(ms, "source_span");
    var evidence :- EvidenceAt(ms);
    var contested := FlagAt(ms, "contested", false);
    if contested && evidence == [] then Refused
    else Ok(IntentField(ValueAt(ms, "value"), author, producedBy, confidence, sourceSpan, contested, evidence))
  }

  function RestoreField(v: Value): Result<IntentField> {
    if v.Map? then FieldFrom(v.members) else Refused
  }

  function MemberFrom(ms: seq<Member>): Result<RelationMember> {
    var role :- TextAt(ms, "role", "");
    var subject :- TextAt(ms, "subject", "");
    var listed :- MembersAt(ms, "qualifiers");
    var qualifiers :- DictOf(listed, StrOf);
    var evidence :- EvidenceAt(ms);
    Ok(RelationMember(role, subject, qualifiers, evidence))
  }

  function RestoreMember(v: Value): Result<RelationMember> {
    if v.Map? then MemberFrom(v.members) else Refused
  }

  function RelationFrom(ms: seq<Member>): Result<Relation> {
    var kind :- TextAt(ms, "kind", "");
    var items :- ItemsAt(ms, "members");
    var members :- ListOf(items, RestoreMember);
    var listed :- MembersAt(ms, "attributes");
    var attributes :- DictOf(listed, StrOf);
    var named :- TextAt(ms, "author", "MODEL");
    var author :- OneOf(named, AUTHORS);
    var producedBy :- TextOrEmpty(ms, "produced_by");
    var sourceSpan :- TextOrEmpty(ms, "source_span");
    if members == [] then Refused else Ok(Relation(kind, members, attributes, author, producedBy, sourceSpan))
  }

  function RestoreRelation(v: Value): Result<Relation> {
    if v.Map? then RelationFrom(v.members) else Refused
  }

  function ReasonOf(s: string): Result<OpenReason> {
    if s == "NOT_ASKED" then Ok(NotAsked)
    else if s == "USER_DECLINED" then Ok(UserDeclined)
    else if s == "UNRESOLVED_DISAGREEMENT" then Ok(UnresolvedDisagreement)
    else Refused
  }

  function OpenFrom(ms: seq<Member>): Result<Unresolved> {
    var dimension :- TextAt(ms, "dimension", "");
    var named :- TextAt(ms, "reason", "NOT_ASKED");
    var reason :- ReasonOf(named);
    var detail :- TextOrEmpty(ms, "detail");
    var evidence :- EvidenceAt(ms);
    Ok(Unresolved(dimension, reason, detail, FlagAt(ms, "result_changing", true), evidence))
  }

  function RestoreOpen(v: Value): Result<Unresolved> {
    if v.Map? then OpenFrom(v.members) else Refused
  }

  function RestoreAmendment(v: Value): Result<Amendment> {
    if !v.Map? then Refused
    else
      var dimension :- TextAt(v.members, "dimension", "");
      var named :- TextAt(v.members, "author", "USER");
      var author :- OneOf(named, AUTHORS);
      Ok(Amendment(dimension, ValueAt(v.members, "from_value"), ValueAt(v.members, "to_value"), author, ValueAt(v.members, "at")))
  }

  // ---- the whole ----

  /** What the payload asserts, as a draft. */
  function RestoreMeaning(ms: seq<Member>): (r: Result<Intent>)
    ensures r.Ok? ==> r.value.state.Draft?
  {
    var objective :- TextAt(ms, "objective", "");
    var listed :- MembersAt(ms, "fields");
    var fields :- DictOf(listed, RestoreField);
    var relationItems :- ItemsAt(ms, "relations");
    var relations :- ListOf(relationItems, RestoreRelation);
    var openItems :- ItemsAt(ms, "unresolved");
    var open :- ListOf(openItems, RestoreOpen);
    var amendmentItems :- ItemsAt(ms, "amendments");
    var amendments :- ListOf(amendmentItems, RestoreAmendment);
    if exists u :: u in open && u.dimension in fields then Refused
    else Ok(Intent(objective, fields, relations, open, amendments, Draft, "", "", Null, "", ""))
  }

  /** The same with what is recorded about it. */
  function RestoreDraft(ms: seq<Member>): (r: Result<Intent>)
    ensures r.Ok? ==> r.value.state.Draft?
  {
    var meaning :- RestoreMeaning(ms);
    var producedBy :- TextOrEmpty(ms, "produced_by");
    var utteranceRef :- TextOrEmpty(ms, "utterance_ref");
    var capabilityVersion :- TextOrEmpty(ms, "capability_version");
    var policyVersion :- TextOrEmpty(ms, "policy_version");
    Ok(meaning.(producedBy := producedBy, utteranceRef := utteranceRef, createdAt := ValueAt(ms, "created_at"),
                capabilityVersion := capabilityVersion, policyVersion := policyVersion))
  }

  /** A stored state counts when it is one of those that need the seal; any other is a draft. */
  function StateOf(s: string): IntentState {
    if s == "VERIFIED" then Verified
    else if s == "STALE" then Outdated
    else if s == "INVALIDATED" then Invalidated
    else Draft
  }

  /** The recorded hash, when there is one, is that of the intent. */
  predicate Attests(l: Runtime, ms: seq<Member>, x: Intent) {
    Falsy(ValueAt(ms, "intent_hash"))
    || (ValueAt(ms, "intent_hash").Str? && IntentHash(l, x) == Ok(ValueAt(ms, "intent_hash").s))
  }

  /** A restored draft in its stored state: sealed again if it was sealed, and attested. */
  ghost function Concluded(l: Runtime, ms: seq<Member>, draft: Intent, stated: string): Result<Intent> {
    var x := draft.(state := StateOf(stated));
    if (!x.state.Draft? ==> Sealable(draft)) && Attests(l, ms, x) then Ok(x) else Refused
  }

  method Conclude(l: Runtime, ms: seq<Member>, draft: Intent, stated: string) returns (r: Result<Intent>)
    requires draft.state.Draft?
    ensures r == Concluded(l, ms, draft, stated)
  {
    var restored := draft;
    if !StateOf(stated).Draft? {
      var sealed := Seal(restored);
      if sealed.Refused? {
        return Refused;
      }
      restored := sealed.value.(state := StateOf(stated));
    }
    return if Attests(l, ms, restored) then Ok(restored) else Refused;
  }

  ghost function Restored(l: Runtime, payload: Value): Result<Intent> {
    if !payload.Map? then Refused
    else
      var draft :- RestoreDraft(payload.members);
      var stated :- TextAt(payload.members, "state", "DRAFT");
      Concluded(l, payload.members, draft, stated)
  }

  /** `intent_from_json`. */
  method Restore(l: Runtime, payload: Value) returns (r: Result<Intent>)
    ensures r == Restored(l, payload)
  {
    if !payload.Map? {
      return Refused;
    }
    var draft, stated := RestoreDraft(payload.members), TextAt(payload.members, "state", "DRAFT");
    if draft.Refused? || stated.Refused? {
      return Refused;
    }
    r := Conclude(l, payload.members, draft.value, stated.value);
  }

  // ---- what lists and dicts restore to ----

  lemma {:induction false} ListOfIs<T>(items: seq<Value>, decode: Value -> Result<T>)
    ensures ListOf(items, decode).Ok? <==> forall i :: 0 <= i < |items| ==> decode(items[i]).Ok?
    ensures ListOf(items, decode).Ok? ==>
      |ListOf(items, decode).value| == |items|
      && forall i :: 0 <= i < |items| ==> Ok(ListOf(items, decode).value[i]) == decode(items[i])
  {
    if items != [] {
      ListOfIs(items[..|items| - 1], decode);
    }
  }

  lemma {:induction false} DictOfIs<T>(ms: seq<Member>, decode: Value -> Result<T>)
    ensures DictOf(ms, decode).Ok? <==> forall i :: 0 <= i < |ms| ==> ms[i].key.Name? && decode(ms[i].item).Ok?
    ensures DictOf(ms, decode).Ok? ==>
      forall k :: if k in DictOf(ms, decode).value
                  then Find(ms, k).Some? && Ok(DictOf(ms, decode).value[k]) == decode(Find(ms, k).value)
                  else Find(ms, k).None?
  {
    if ms != [] {
      DictOfIs(ms[..|ms| - 1], decode);
    }
  }

  /** A list written item by item restores item by item. */
  lemma ListBack<S, T>(xs: seq<S>, encode: S -> Value, decode: Value -> Result<T>, again: S -> T)
    requires forall i :: 0 <= i < |xs| ==> decode(encode(xs[i])) == Ok(again(xs[i]))
    ensures ListOf(Image(xs, encode), decode) == Ok(Image(xs, again))
  {
    var items := Image(xs, encode);
    assert forall i :: 0 <= i < |items| ==> decode(items[i]) == Ok(again(xs[i]));
    ListOfIs(items, decode);
    assert ListOf(items, decode).value == Image(xs, again);
  }

  lemma DictBack<T>(values: map<string, Value>, decode: Value -> Result<T>, again: map<string, T>)
    requires values.Keys == again.Keys && forall k :: k in values ==> decode(values[k]) == Ok(again[k])
    ensures DictOf(Listing(values), decode) == Ok(again)
  {
    var members := Listing(values);
    assert forall i :: 0 <= i < |members| ==> decode(members[i].item).Ok?;
    DictOfIs(members, decode);
    forall k
      ensures Find(members, k) == if k in values then Some(values[k]) else None
    {
      FindInListing(values, k);
    }
    SameDict(members, decode, DictOf(members, decode).value, values, again);
  }

  lemma SameDict<T>(
    ms: seq<Member>, decode: Value -> Result<T>, out: map<string, T>, values: map<string, Value>, again: map<string, T>)
    requires values.Keys == again.Keys && forall k :: k in values ==> decode(values[k]) == Ok(again[k])
    requires forall k :: Find(ms, k) == if k in values then Some(values[k]) else None
    requires forall k :: if k in out then Find(ms, k).Some? && Ok(out[k]) == decode(Find(ms, k).value) else Find(ms, k).None?
    ensures out == again
  {
    forall k
      ensures k in out <==> k in again
      ensures k in out && k in again ==> out[k] == again[k]
    {
      assert Find(ms, k).Some? <==> k in out;
    }
    assert out.Keys == again.Keys;
  }

  lemma TextsBack(texts: map<string, string>)
    ensures DictOf(TextMembers(texts), StrOf) == Ok(texts)
  {
    DictBack(TextItems(texts), StrOf, texts);
  }

  lemma {:induction false} FindField(ms: seq<Member>, i: nat)
    requires i < |ms| && ms[i].key.Name?
    requires forall j, k :: 0 <= j < k < |ms| ==> ms[j].key != ms[k].key
    ensures Find(ms, ms[i].key.name) == Some(ms[i].item)
  {
    if i < |ms| - 1 {
      FindField(ms[..|ms| - 1], i);
    }
  }

  /** In a dict with these names, each item is found under its own. */
  lemma FieldsFound(names: seq<string>, items: seq<Value>)
    requires |names| == |items| && FieldNames(names)
    ensures forall i :: 0 <= i < |names| ==> Find(Fielded(names, items), names[i]) == Some(items[i])
  {
    forall i | 0 <= i < |names|
      ensures Find(Fielded(names, items), names[i]) == Some(items[i])
    {
      FindField(Fielded(names, items), i);
    }
  }

  // ---- a restored intent is whole, sealed and attested ----

  lemma FieldRestoresWhole(v: Value)
    requires RestoreField(v).Ok?
    ensures FieldWhole(RestoreField(v).value)
  {}

  lemma RelationRestoresWhole(v: Value)
    requires RestoreRelation(v).Ok?
    ensures RestoreRelation(v).value.members != []
  {}

  lemma MeaningIsWhole(ms: seq<Member>)
    requires RestoreMeaning(ms).Ok?
    ensures Whole(RestoreMeaning(ms).value)
  {
    var x := RestoreMeaning(ms).value;
    FieldsWhole(MembersAt(ms, "fields").value);
    RelationsWhole(ItemsAt(ms, "relations").value);
  }

  lemma FieldsWhole(ms: seq<Member>)
    requires DictOf(ms, RestoreField).Ok?
    ensures var fields := DictOf(ms, RestoreField).value; forall k :: k in fields ==> FieldWhole(fields[k])
  {
    DictOfIs(ms, RestoreField);
    var fields := DictOf(ms, RestoreField).value;
    forall k | k in fields
      ensures FieldWhole(fields[k])
    {
      FieldRestoresWhole(Find(ms, k).value);
    }
  }

  lemma RelationsWhole(items: seq<Value>)
    requires ListOf(items, RestoreRelation).Ok?
    ensures forall r :: r in ListOf(items, RestoreRelation).value ==> r.members != []
  {
    ListOfIs(items, RestoreRelation);
    var relations := ListOf(items, RestoreRelation).value;
    forall r | r in relations
      ensures r.members != []
    {
      var i :| 0 <= i < |relations| && relations[i] == r;
      RelationRestoresWhole(items[i]);
    }
  }

  lemma DraftIsWhole(ms: seq<Member>)
    requires RestoreDraft(ms).Ok?
    ensures Whole(RestoreDraft(ms).value)
  {
    MeaningIsWhole(ms);
    var x, y := RestoreMeaning(ms).value, RestoreDraft(ms).value;
    assert x.fields == y.fields && x.relations == y.relations && x.open == y.open;
  }

  /** Whatever the payload, an intent that is restored is whole, is sealable unless it is a draft, and has the recorded hash
      when one is recorded. */
  lemma RestoredIsSound(l: Runtime, payload: Value)
    requires Restored(l, payload).Ok?
    ensures var x := Restored(l, payload).value;
      && Whole(x) && (x.state.Draft? || Sealable(x))
      && (Falsy(ValueAt(payload.members, "intent_hash")) || IntentHash(l, x) == Ok(ValueAt(payload.members, "intent_hash").s))
  {
    DraftIsWhole(payload.members);
    SealingKeepsWhole(RestoreDraft(payload.members).value, Restored(l, payload).value.state);
  }

  lemma SealingKeepsWhole(x: Intent, s: IntentState)
    ensures Whole(x.(state := s)) == Whole(x) && Sealable(x.(state := s)) == Sealable(x)
  {}

  /** Two payloads that carry the same hash restore, if they restore at all, to the same request. */
  lemma SameRecordedHashSameRequest(l: Runtime, p: Value, q: Value)
    requires Restored(l, p).Ok? && Restored(l, q).Ok?
    requires ValueAt(p.members, "intent_hash") == ValueAt(q.members, "intent_hash")
    requires !Falsy(ValueAt(p.members, "intent_hash"))
    ensures Canonicalize(l, IntentForm(Restored(l, p).value)) == Canonicalize(l, IntentForm(Restored(l, q).value))
  {
    RestoredIsSound(l, p);
    RestoredIsSound(l, q);
    SameTextIffSameForm(l, IntentForm(Restored(l, p).value), IntentForm(Restored(l, q).value));
  }

  // ---- what is left out of a payload ----

  lemma OneIsOne()
    ensures Decimals.DecimalString("1") == Ok("1")
  {
    DecimalTable.DigitValues();
    DecimalTable.WholeString("1");
    DecimalTable.WholeText(1);
  }

  /** A part that gives nothing: an unasked dimension that would change the result, a field and a reading of full confidence, an
      amendment by the user; and a relation needs members. */
  lemma {:induction false} EmptyParts()
    ensures RestoreOpen(Map([])) == Ok(Unresolved("", NotAsked, "", true, []))
    ensures RestoreField(Map([])) == Ok(IntentField(Null, "DEFAULT", "", "1", "", false, []))
    ensures RestoreEvidence(Map([])) == Ok(Evidence("", "PRIOR", Null, "1", ""))
    ensures RestoreMember(Map([])) == Ok(RelationMember("", "", map[], []))
    ensures RestoreAmendment(Map([])) == Ok(Amendment("", Null, Null, "USER", Null))
    ensures RestoreRelation(Map([])).Refused?
  {
    OneIsOne();
    assert ListOf([], RestoreEvidence) == Ok([]) && ListOf([], RestoreMember) == Ok([]) && DictOf([], StrOf) == Ok(map[]);
  }

  /** A payload that gives nothing is an empty draft. */
  lemma {:induction false} EmptyPayload(l: Runtime)
    ensures Restored(l, Map([])) == Ok(Intent("", map[], [], [], [], Draft, "", "", Null, "", ""))
  {
    assert ListOf([], RestoreRelation) == Ok([]) && ListOf([], RestoreOpen) == Ok([]) && ListOf([], RestoreAmendment) == Ok([]);
    assert DictOf([], RestoreField) == Ok(map[]);
    assert StateOf("DRAFT") == Draft by {
      assert |"DRAFT"| == 5 && |"VERIFIED"| == 8 && |"INVALIDATED"| == 11 && "STALE"[0] != "DRAFT"[0];
    }
  }
}
