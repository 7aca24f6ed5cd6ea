/** When two intents are the same request (`intent_hash` in runtime_contracts/models/intent.py). */
module IntentIdentity {
  import opened Wrappers
  import opened Text
  import opened Platform
  import opened Canonical
  import opened Json
  import opened Forms
  import opened Sorting
  import opened Intents

  // ---- the parts, compared by what they are hashed as ----

  ghost predicate FieldsAgree(l: Runtime, f: IntentField, g: IntentField) {
    Canonicalize(l, f.value) == Canonicalize(l, g.value) && l.nfc(f.author) == l.nfc(g.author)
  }

  ghost predicate MembersAgree(l: Runtime, m: RelationMember, n: RelationMember) {
    && l.nfc(m.role) == l.nfc(n.role) && l.nfc(m.subject) == l.nfc(n.subject)
    && Canonicalize(l, Map(TextMembers(m.qualifiers))) == Canonicalize(l, Map(TextMembers(n.qualifiers)))
  }

  ghost predicate RelationsAgree(l: Runtime, r: Relation, s: Relation) {
    && l.nfc(r.kind) == l.nfc(s.kind) && l.nfc(r.author) == l.nfc(s.author)
    && Canonicalize(l, Map(TextMembers(r.attributes))) == Canonicalize(l, Map(TextMembers(s.attributes)))
    && |r.members| == |s.members| && forall i :: 0 <= i < |r.members| ==> MembersAgree(l, r.members[i], s.members[i])
  }

  ghost predicate OpensAgree(l: Runtime, u: Unresolved, v: Unresolved) {
    l.nfc(u.dimension) == l.nfc(v.dimension) && u.reason == v.reason
  }

  ghost predicate AmendmentsAgree(l: Runtime, a: Amendment, b: Amendment) {
    && l.nfc(a.dimension) == l.nfc(b.dimension) && l.nfc(a.author) == l.nfc(b.author)
    && Canonicalize(l, a.fromValue) == Canonicalize(l, b.fromValue) && Canonicalize(l, a.toValue) == Canonicalize(l, b.toValue)
  }

  /** The dimensions left open that are part of the request, as they are listed. */
  function Listed(us: seq<Unresolved>): seq<Unresolved> {
    Sort(Counting(us), ByDimension)
  }

  /** The same assertions, up to Unicode normal form and the canonical form of values; `SameFieldsIff` says when fields are. */
  ghost predicate SameRequest(l: Runtime, x: Intent, y: Intent) {
    && l.nfc(x.objective) == l.nfc(y.objective)
    && Canonicalize(l, FieldForms(x.fields)) == Canonicalize(l, FieldForms(y.fields))
    && |x.relations| == |y.relations| && (forall i :: 0 <= i < |x.relations| ==> RelationsAgree(l, x.relations[i], y.relations[i]))
    && |Listed(x.open)| == |Listed(y.open)|
    && (forall i :: 0 <= i < |Listed(x.open)| ==> OpensAgree(l, Listed(x.open)[i], Listed(y.open)[i]))
    && |x.amendments| == |y.amendments|
    && (forall i :: 0 <= i < |x.amendments| ==> AmendmentsAgree(l, x.amendments[i], y.amendments[i]))
  }

  /** No two names become one by normalising. */
  ghost predicate NamesApart(l: Runtime, names: set<string>) {
    forall j, k :: j in names && k in names && l.nfc(j) == l.nfc(k) ==> j == k
  }

  /** What is asserted in each dimension: its name, its value as it is hashed, and by whom. */
  ghost function Assertions(l: Runtime, fields: map<string, IntentField>): set<(string, Result<Value>, string)> {
    set k | k in fields :: (l.nfc(k), Canonicalize(l, fields[k].value), l.nfc(fields[k].author))
  }

  // ---- one form at a time ----

  lemma FieldFormNames()
    ensures FieldNames(["value", "author"])
  {
    var names, codes := ["value", "author"], [358005, 418159];
    assert forall i :: 0 <= i < 2 ==> Ascii(names[i]) && Code(names[i]) == codes[i];
    ToldApart(names, codes);
  }

  lemma MemberFormNames()
    ensures FieldNames(["role", "subject", "qualifiers"])
  {
    var names, codes := ["role", "subject", "qualifiers"], [291436, 488291, 684402];
    assert forall i :: 0 <= i < 3 ==> Ascii(names[i]) && Code(names[i]) == codes[i];
    ToldApart(names, codes);
  }

  lemma RelationFormNames()
    ensures FieldNames(["kind", "members", "attributes", "author"])
  {
    var names, codes := ["kind", "members", "attributes", "author"], [289646, 486770, 680293, 418159];
    assert forall i :: 0 <= i < 4 ==> Ascii(names[i]) && Code(names[i]) == codes[i];
    ToldApart(names, codes);
  }

  lemma OpenFormNames()
    ensures FieldNames(["dimension", "reason"])
  {
    var names, codes := ["dimension", "reason"], [615535, 422511];
    assert forall i :: 0 <= i < 2 ==> Ascii(names[i]) && Code(names[i]) == codes[i];
    ToldApart(names, codes);
  }

  lemma AmendmentFormNames()
    ensures FieldNames(["dimension", "from_value", "to_value", "author"])
  {
    var names, codes := ["dimension", "from_value", "to_value", "author"], [615535, 681589, 554101, 418159];
    assert forall i :: 0 <= i < 4 ==> Ascii(names[i]) && Code(names[i]) == codes[i];
    ToldApart(names, codes);
  }

  lemma SameTextIff(l: Runtime, s: string, t: string)
    ensures Canonicalize(l, Str(s)) == Canonicalize(l, Str(t)) <==> l.nfc(s) == l.nfc(t)
  {
    assert Canonicalize(l, Str(s)) == Ok(Str(l.nfc(s))) && Canonicalize(l, Str(t)) == Ok(Str(l.nfc(t)));
  }

  lemma {:induction false} SameTwo(l: Runtime, a: seq<Value>, b: seq<Value>)
    requires |a| == |b| == 2
    ensures SameItems(l, a, b) <==> Canonicalize(l, a[0]) == Canonicalize(l, b[0]) && Canonicalize(l, a[1]) == Canonicalize(l, b[1])
  {
    assert SameItems(l, a, b) <==> forall i :: 0 <= i < 2 ==> Canonicalize(l, a[i]) == Canonicalize(l, b[i]);
  }

  lemma {:induction false} SameThree(l: Runtime, a: seq<Value>, b: seq<Value>)
    requires |a| == |b| == 3
    ensures SameItems(l, a, b)
       <==> && Canonicalize(l, a[0]) == Canonicalize(l, b[0]) && Canonicalize(l, a[1]) == Canonicalize(l, b[1])
            && Canonicalize(l, a[2]) == Canonicalize(l, b[2])
  {
    assert SameItems(l, a, b) <==> forall i :: 0 <= i < 3 ==> Canonicalize(l, a[i]) == Canonicalize(l, b[i]);
  }

  lemma {:induction false} SameFour(l: Runtime, a: seq<Value>, b: seq<Value>)
    requires |a| == |b| == 4
    ensures SameItems(l, a, b)
       <==> && Canonicalize(l, a[0]) == Canonicalize(l, b[0]) && Canonicalize(l, a[1]) == Canonicalize(l, b[1])
            && Canonicalize(l, a[2]) == Canonicalize(l, b[2]) && Canonicalize(l, a[3]) == Canonicalize(l, b[3])
  {
    assert SameItems(l, a, b) <==> forall i :: 0 <= i < 4 ==> Canonicalize(l, a[i]) == Canonicalize(l, b[i]);
  }

  lemma {:induction false} FieldFormIff(l: Runtime, f: IntentField, g: IntentField)
    requires Canonicalize(l, FieldForm(f)).Ok? && Canonicalize(l, FieldForm(g)).Ok?
    ensures Canonicalize(l, FieldForm(f)) == Canonicalize(l, FieldForm(g)) <==> FieldsAgree(l, f, g)
  {
    FieldFormNames();
    SameFormIffSameItems(l, ["value", "author"], [f.value, Str(f.author)], [g.value, Str(g.author)]);
    SameTwo(l, [f.value, Str(f.author)], [g.value, Str(g.author)]);
    SameTextIff(l, f.author, g.author);
  }

  lemma {:induction false} MemberFormIff(l: Runtime, m: RelationMember, n: RelationMember)
    requires Canonicalize(l, MemberForm(m)).Ok? && Canonicalize(l, MemberForm(n)).Ok?
    ensures Canonicalize(l, MemberForm(m)) == Canonicalize(l, MemberForm(n)) <==> MembersAgree(l, m, n)
  {
    var a, b := [Str(m.role), Str(m.subject), Map(TextMembers(m.qualifiers))], [Str(n.role), Str(n.subject), Map(TextMembers(n.qualifiers))];
    MemberFormNames();
    SameFormIffSameItems(l, ["role", "subject", "qualifiers"], a, b);
    SameThree(l, a, b);
    SameTextIff(l, m.role, n.role);
    SameTextIff(l, m.subject, n.subject);
  }

  lemma {:induction false} OpenFormIff(l: Runtime, u: Unresolved, v: Unresolved)
    ensures Canonicalize(l, OpenForm(u)).Ok?
    ensures Canonicalize(l, OpenForm(u)) == Canonicalize(l, OpenForm(v)) <==> OpensAgree(l, u, v)
  {
    OpenAccepted(l, u);
    OpenAccepted(l, v);
    var a, b := [Str(u.dimension), Str(ReasonName(u.reason))], [Str(v.dimension), Str(ReasonName(v.reason))];
    OpenFormNames();
    SameFormIffSameItems(l, ["dimension", "reason"], a, b);
    SameTwo(l, a, b);
    SameTextIff(l, u.dimension, v.dimension);
    SameReasonIff(l, u.reason, v.reason);
  }

  lemma {:induction false} OpenAccepted(l: Runtime, u: Unresolved)
    ensures Canonicalize(l, OpenForm(u)).Ok?
  {
    OpenFormNames();
    var a := [Str(u.dimension), Str(ReasonName(u.reason))];
    assert forall i :: 0 <= i < 2 ==> Canonicalize(l, a[i]).Ok?;
    FormAccepted(l, ["dimension", "reason"], a);
  }

  lemma SameReasonIff(l: Runtime, r: OpenReason, s: OpenReason)
    ensures Canonicalize(l, Str(ReasonName(r))) == Canonicalize(l, Str(ReasonName(s))) <==> r == s
  {
    ReasonNamesPlain(r);
    ReasonNamesPlain(s);
    AsciiIsNormal(l, ReasonName(r));
    AsciiIsNormal(l, ReasonName(s));
    SameTextIff(l, ReasonName(r), ReasonName(s));
    ReasonNamesApart(r, s);
  }

  lemma ReasonNamesPlain(r: OpenReason)
    ensures Ascii(ReasonName(r))
  {}

  lemma ReasonNamesApart(r: OpenReason, s: OpenReason)
    ensures ReasonName(r) == ReasonName(s) <==> r == s
  {
    assert |"NOT_ASKED"| == 9 && |"USER_DECLINED"| == 13 && |"UNRESOLVED_DISAGREEMENT"| == 23;
  }

  lemma {:induction false} AmendmentFormIff(l: Runtime, a: Amendment, b: Amendment)
    requires Canonicalize(l, AmendmentForm(a)).Ok? && Canonicalize(l, AmendmentForm(b)).Ok?
    ensures Canonicalize(l, AmendmentForm(a)) == Canonicalize(l, AmendmentForm(b)) <==> AmendmentsAgree(l, a, b)
  {
    var p, q := [Str(a.dimension), a.fromValue, a.toValue, Str(a.author)], [Str(b.dimension), b.fromValue, b.toValue, Str(b.author)];
    AmendmentFormNames();
    SameFormIffSameItems(l, ["dimension", "from_value", "to_value", "author"], p, q);
    SameFour(l, p, q);
    SameTextIff(l, a.dimension, b.dimension);
    SameTextIff(l, a.author, b.author);
  }

  // ---- lists of forms ----

  /** Accepted lists of forms are the same when their elements agree one by one. */
  lemma ListedIff<T(!new)>(l: Runtime, xs: seq<T>, ys: seq<T>, form: T -> Value, agree: (T, T) -> bool)
    requires forall x :: x in xs + ys ==> Canonicalize(l, form(x)).Ok?
    requires forall x, y :: x in xs && y in ys ==> (Canonicalize(l, form(x)) == Canonicalize(l, form(y)) <==> agree(x, y))
    ensures Canonicalize(l, List(Image(xs, form))) == Canonicalize(l, List(Image(ys, form)))
       <==> |xs| == |ys| && forall i :: 0 <= i < |xs| ==> agree(xs[i], ys[i])
  {
    var p, q := Image(xs, form), Image(ys, form);
    FormsAccepted(l, xs, xs + ys, form);
    FormsAccepted(l, ys, xs + ys, form);
    SameListIff(l, p, q);
    assert |xs| == |ys| ==> forall i :: 0 <= i < |xs| ==> xs[i] in xs && ys[i] in ys;
  }

  lemma FormsAccepted<T(!new)>(l: Runtime, xs: seq<T>, all: seq<T>, form: T -> Value)
    requires (forall x :: x in all ==> Canonicalize(l, form(x)).Ok?) && forall x :: x in xs ==> x in all
    ensures forall i :: 0 <= i < |xs| ==> Canonicalize(l, Image(xs, form)[i]).Ok?
  {
    forall i | 0 <= i < |xs|
      ensures Canonicalize(l, Image(xs, form)[i]).Ok?
    {
      assert xs[i] in xs;
    }
  }

  lemma ListAccepted(l: Runtime, items: seq<Value>)
    requires Canonicalize(l, List(items)).Ok?
    ensures forall i :: 0 <= i < |items| ==> Canonicalize(l, items[i]).Ok?
  {
    AllAcceptedIff(l, items);
    forall i | 0 <= i < |items|
      ensures Canonicalize(l, items[i]).Ok?
    {
      AcceptedIff(l, items[i]);
    }
  }

  lemma ImageAccepted<T(!new)>(l: Runtime, xs: seq<T>, form: T -> Value)
    requires Canonicalize(l, List(Image(xs, form))).Ok?
    ensures forall x :: x in xs ==> Canonicalize(l, form(x)).Ok?
  {
    ListAccepted(l, Image(xs, form));
    forall x | x in xs
      ensures Canonicalize(l, form(x)).Ok?
    {
      var i :| 0 <= i < |xs| && xs[i] == x;
      assert Image(xs, form)[i] == form(x);
    }
  }

  // ---- relations ----

  function RelationParts(r: Relation): (out: seq<Value>)
    ensures |out| == 4
  {
    [Str(r.kind), List(Image(r.members, MemberForm)), Map(TextMembers(r.attributes)), Str(r.author)]
  }

  lemma {:induction false} RelationMembersAccepted(l: Runtime, r: Relation)
    requires Canonicalize(l, RelationForm(r)).Ok?
    ensures forall m :: m in r.members ==> Canonicalize(l, MemberForm(m)).Ok?
  {
    RelationFormNames();
    FormAccepted(l, ["kind", "members", "attributes", "author"], RelationParts(r));
    assert Canonicalize(l, RelationParts(r)[1]).Ok?;
    ImageAccepted(l, r.members, MemberForm);
  }

  lemma {:induction false} MemberListIff(l: Runtime, a: seq<RelationMember>, b: seq<RelationMember>)
    requires forall m :: m in a + b ==> Canonicalize(l, MemberForm(m)).Ok?
    ensures Canonicalize(l, List(Image(a, MemberForm))) == Canonicalize(l, List(Image(b, MemberForm)))
       <==> |a| == |b| && forall i :: 0 <= i < |a| ==> MembersAgree(l, a[i], b[i])
  {
    forall m, n | m in a && n in b
      ensures Canonicalize(l, MemberForm(m)) == Canonicalize(l, MemberForm(n)) <==> MembersAgree(l, m, n)
    {
      MemberFormIff(l, m, n);
    }
    ListedIff(l, a, b, MemberForm, (m, n) => MembersAgree(l, m, n));
  }

  lemma {:induction false} RelationFormIff(l: Runtime, r: Relation, s: Relation)
    requires Canonicalize(l, RelationForm(r)).Ok? && Canonicalize(l, RelationForm(s)).Ok?
    ensures Canonicalize(l, RelationForm(r)) == Canonicalize(l, RelationForm(s)) <==> RelationsAgree(l, r, s)
  {
    RelationFormNames();
    SameFormIffSameItems(l, ["kind", "members", "attributes", "author"], RelationParts(r), RelationParts(s));
    SameFour(l, RelationParts(r), RelationParts(s));
    SameTextIff(l, r.kind, s.kind);
    SameTextIff(l, r.author, s.author);
    RelationMembersAccepted(l, r);
    RelationMembersAccepted(l, s);
    MemberListIff(l, r.members, s.members);
  }

  // ---- the dict of fields ----

  /** A dict of forms, whose names stay apart, collects each under its normalised name and nothing else. */
  lemma {:induction false} DictCollects(l: Runtime, values: map<string, Value>)
    requires Collect(l, Listing(values)).Ok? && NamesApart(l, values.Keys)
    requires forall k :: k in values ==> Canonicalize(l, values[k]).Ok? && !Canonicalize(l, values[k]).value.Null?
    ensures forall n :: n in Collect(l, Listing(values)).value ==> exists k :: k in values && l.nfc(k) == n
    ensures forall k :: k in values ==> l.nfc(k) in Collect(l, Listing(values)).value
    ensures forall k :: k in values ==> Ok(Collect(l, Listing(values)).value[l.nfc(k)]) == Canonicalize(l, values[k])
  {
    var row, out := Listing(values), Collect(l, Listing(values)).value;
    forall n | n in out
      ensures exists k :: k in values && l.nfc(k) == n
    {
      LastItemWins(l, row, n);
      var i :| Kept(l, row, n, i);
      assert row[i].key.name in values;
    }
    forall k | k in values
      ensures l.nfc(k) in out && Ok(out[l.nfc(k)]) == Canonicalize(l, values[k])
    {
      KeyCollects(l, values, k);
    }
  }

  lemma {:induction false} KeyCollects(l: Runtime, values: map<string, Value>, k: string)
    requires Collect(l, Listing(values)).Ok? && NamesApart(l, values.Keys) && k in values
    requires Canonicalize(l, values[k]).Ok? && !Canonicalize(l, values[k]).value.Null?
    ensures l.nfc(k) in Collect(l, Listing(values)).value
    ensures Ok(Collect(l, Listing(values)).value[l.nfc(k)]) == Canonicalize(l, values[k])
  {
    var row, n := Listing(values), l.nfc(k);
    LastItemWins(l, row, n);
    var i := Contributor(l, values, k);
    SomeItemKept(l, row, n, i);
    var j :| Kept(l, row, n, j);
    assert row[j].key.name in values && row[j].key.name == k;
  }

  lemma {:induction false} Contributor(l: Runtime, values: map<string, Value>, k: string) returns (i: nat)
    requires k in values && Canonicalize(l, values[k]).Ok? && !Canonicalize(l, values[k]).value.Null?
    ensures i < |Listing(values)| && Listing(values)[i].key == Name(k) && Contributes(l, Listing(values)[i], l.nfc(k))
  {
    ListingKeys(values);
    i :| 0 <= i < |Listing(values)| && Listing(values)[i].key == Name(k);
  }

  lemma {:induction false} ListedAt(values: map<string, Value>, k: string)
    requires k in values
    ensures exists i :: 0 <= i < |Listing(values)| && Listing(values)[i].key == Name(k) && Listing(values)[i].item == values[k]
  {
    ListingKeys(values);
    var i :| 0 <= i < |Listing(values)| && Listing(values)[i].key == Name(k);
  }

  lemma {:induction false} ValuesAccepted(l: Runtime, values: map<string, Value>)
    requires Canonicalize(l, Map(Listing(values))).Ok?
    ensures forall k :: k in values ==> Canonicalize(l, values[k]).Ok?
  {
    var row := Listing(values);
    CollectAcceptedIff(l, row);
    forall k | k in values
      ensures Canonicalize(l, values[k]).Ok?
    {
      ListedAt(values, k);
      AcceptedIff(l, values[k]);
    }
  }

  /** The canonical form of the fields, as a dict. */
  ghost function FieldDict(l: Runtime, fields: map<string, IntentField>): map<string, Value> {
    match Collect(l, Listing(FieldValues(fields)))
    case Ok(out) => out
    case Refused => map[]
  }

  lemma {:induction false} FieldDictIs(l: Runtime, fields: map<string, IntentField>)
    requires Canonicalize(l, FieldForms(fields)).Ok? && NamesApart(l, fields.Keys)
    ensures forall n :: n in FieldDict(l, fields) ==> exists k :: k in fields && l.nfc(k) == n
    ensures forall k :: k in fields ==> l.nfc(k) in FieldDict(l, fields)
    ensures forall k :: k in fields ==> Ok(FieldDict(l, fields)[l.nfc(k)]) == Canonicalize(l, FieldForm(fields[k]))
  {
    FieldKeys(fields);
    ValuesAccepted(l, FieldValues(fields));
    FieldsShown(l, fields);
    DictCollects(l, FieldValues(fields));
  }

  lemma {:induction false} FieldsShown(l: Runtime, fields: map<string, IntentField>)
    ensures forall k :: k in FieldValues(fields) ==> Canonicalize(l, FieldValues(fields)[k]) != Ok(Null)
  {
    forall k | k in FieldValues(fields)
      ensures Canonicalize(l, FieldValues(fields)[k]) != Ok(Null)
    {
      assert FieldValues(fields)[k] == FieldForm(fields[k]) && FieldForm(fields[k]).Map?;
    }
  }

  lemma FieldKeys(fields: map<string, IntentField>)
    ensures FieldValues(fields).Keys == fields.Keys && forall k :: k in fields ==> FieldValues(fields)[k] == FieldForm(fields[k])
  {}

  lemma {:induction false} FieldDictListed(l: Runtime, fields: map<string, IntentField>)
    requires Canonicalize(l, FieldForms(fields)).Ok?
    ensures Canonicalize(l, FieldForms(fields)) == Ok(Map(Listing(FieldDict(l, fields))))
  {}

  lemma {:induction false} SameListingIff(x: map<string, Value>, y: map<string, Value>)
    ensures Listing(x) == Listing(y) <==> x == y
  {
    if Listing(x) == Listing(y) {
      forall k
        ensures k in x <==> k in y
        ensures k in x && k in y ==> x[k] == y[k]
      {
        if k in x {
          ListingTells(x, y, k);
        }
        if k in y {
          ListingTells(y, x, k);
        }
      }
      assert x.Keys == y.Keys;
    }
  }

  /** Fields whose names stay apart are the same when they assert the same. */
  lemma {:induction false} SameFieldsIff(l: Runtime, f: map<string, IntentField>, g: map<string, IntentField>)
    requires Canonicalize(l, FieldForms(f)).Ok? && Canonicalize(l, FieldForms(g)).Ok?
    requires NamesApart(l, f.Keys) && NamesApart(l, g.Keys)
    ensures Canonicalize(l, FieldForms(f)) == Canonicalize(l, FieldForms(g)) <==> Assertions(l, f) == Assertions(l, g)
  {
    FieldDictListed(l, f);
    FieldDictListed(l, g);
    SameListingIff(FieldDict(l, f), FieldDict(l, g));
    DictsAlike(l, f, g);
    DictsAlike(l, g, f);
    SameAssertionsIff(l, f, g, FieldDict(l, f), FieldDict(l, g));
  }

  lemma {:induction false} SameAssertionsIff(
    l: Runtime, f: map<string, IntentField>, g: map<string, IntentField>, x: map<string, Value>, y: map<string, Value>)
    requires HeldAlike(l, f, g, x, y) && HeldAlike(l, g, f, y, x)
    ensures x == y <==> Assertions(l, f) == Assertions(l, g)
  {
    WithinIff(l, f, g, x, y);
    WithinIff(l, g, f, y, x);
    SameDictIff(x, y);
    SameSetIff(Assertions(l, f), Assertions(l, g));
  }

  lemma SameSetIff<T>(a: set<T>, b: set<T>)
    ensures a == b <==> a <= b && b <= a
  {}

  lemma {:induction false} DictsAlike(l: Runtime, f: map<string, IntentField>, g: map<string, IntentField>)
    requires Canonicalize(l, FieldForms(f)).Ok? && Canonicalize(l, FieldForms(g)).Ok?
    requires NamesApart(l, f.Keys) && NamesApart(l, g.Keys)
    ensures HeldAlike(l, f, g, FieldDict(l, f), FieldDict(l, g))
  {
    FieldDictIs(l, f);
    FieldDictIs(l, g);
    forall j, k | j in f && k in g && l.nfc(j) == l.nfc(k)
      ensures FieldDict(l, f)[l.nfc(j)] == FieldDict(l, g)[l.nfc(k)] <==> FieldsAgree(l, f[j], g[k])
    {
      FieldFormIff(l, f[j], g[k]);
    }
  }

  ghost predicate HeldUnder(l: Runtime, f: map<string, IntentField>, x: map<string, Value>) {
    (forall n :: n in x ==> exists k :: k in f && l.nfc(k) == n) && forall k :: k in f ==> l.nfc(k) in x
  }

  /** The dicts hold the same under a name exactly when the fields agree. */
  ghost predicate HeldAlike(
    l: Runtime, f: map<string, IntentField>, g: map<string, IntentField>, x: map<string, Value>, y: map<string, Value>)
  {
    && HeldUnder(l, f, x) && HeldUnder(l, g, y)
    && forall j, k :: j in f && k in g && l.nfc(j) == l.nfc(k) ==> (x[l.nfc(j)] == y[l.nfc(k)] <==> FieldsAgree(l, f[j], g[k]))
  }

  ghost predicate DictWithin(x: map<string, Value>, y: map<string, Value>) {
    forall n :: n in x ==> n in y && x[n] == y[n]
  }

  lemma SameDictIff(x: map<string, Value>, y: map<string, Value>)
    ensures x == y <==> DictWithin(x, y) && DictWithin(y, x)
  {
    if DictWithin(x, y) && DictWithin(y, x) {
      assert x.Keys == y.Keys;
    }
  }

  lemma {:induction false} WithinIff(
    l: Runtime, f: map<string, IntentField>, g: map<string, IntentField>, x: map<string, Value>, y: map<string, Value>)
    requires HeldAlike(l, f, g, x, y)
    ensures Assertions(l, f) <= Assertions(l, g) <==> DictWithin(x, y)
  {
    if Assertions(l, f) <= Assertions(l, g) {
      forall n | n in x
        ensures n in y && x[n] == y[n]
      {
        var j :| j in f && l.nfc(j) == n;
        assert (l.nfc(j), Canonicalize(l, f[j].value), l.nfc(f[j].author)) in Assertions(l, g);
        var k :| k in g && l.nfc(k) == l.nfc(j) && FieldsAgree(l, f[j], g[k]);
      }
    }
    if DictWithin(x, y) {
      forall j | j in f
        ensures (l.nfc(j), Canonicalize(l, f[j].value), l.nfc(f[j].author)) in Assertions(l, g)
      {
        var k :| k in g && l.nfc(k) == l.nfc(j);
        assert FieldsAgree(l, f[j], g[k]);
      }
    }
  }

  // ---- the whole ----

  lemma {:induction false} RelationListIff(l: Runtime, a: seq<Relation>, b: seq<Relation>)
    requires forall r :: r in a + b ==> Canonicalize(l, RelationForm(r)).Ok?
    ensures Canonicalize(l, List(Image(a, RelationForm))) == Canonicalize(l, List(Image(b, RelationForm)))
       <==> |a| == |b| && forall i :: 0 <= i < |a| ==> RelationsAgree(l, a[i], b[i])
  {
    forall r, s | r in a && s in b
      ensures Canonicalize(l, RelationForm(r)) == Canonicalize(l, RelationForm(s)) <==> RelationsAgree(l, r, s)
    {
      RelationFormIff(l, r, s);
    }
    ListedIff(l, a, b, RelationForm, (r, s) => RelationsAgree(l, r, s));
  }

  lemma {:induction false} OpenListIff(l: Runtime, a: seq<Unresolved>, b: seq<Unresolved>)
    ensures Canonicalize(l, List(Image(a, OpenForm))) == Canonicalize(l, List(Image(b, OpenForm)))
       <==> |a| == |b| && forall i :: 0 <= i < |a| ==> OpensAgree(l, a[i], b[i])
  {
    forall u, v
      ensures Canonicalize(l, OpenForm(u)).Ok?
      ensures Canonicalize(l, OpenForm(u)) == Canonicalize(l, OpenForm(v)) <==> OpensAgree(l, u, v)
    {
      OpenFormIff(l, u, v);
    }
    ListedIff(l, a, b, OpenForm, (u, v) => OpensAgree(l, u, v));
  }

  lemma {:induction false} AmendmentListIff(l: Runtime, a: seq<Amendment>, b: seq<Amendment>)
    requires forall m :: m in a + b ==> Canonicalize(l, AmendmentForm(m)).Ok?
    ensures Canonicalize(l, List(Image(a, AmendmentForm))) == Canonicalize(l, List(Image(b, AmendmentForm)))
       <==> |a| == |b| && forall i :: 0 <= i < |a| ==> AmendmentsAgree(l, a[i], b[i])
  {
    forall m, n | m in a && n in b
      ensures Canonicalize(l, AmendmentForm(m)) == Canonicalize(l, AmendmentForm(n)) <==> AmendmentsAgree(l, m, n)
    {
      AmendmentFormIff(l, m, n);
    }
    ListedIff(l, a, b, AmendmentForm, (m, n) => AmendmentsAgree(l, m, n));
  }

  lemma {:induction false} SameEight(l: Runtime, a: seq<Value>, b: seq<Value>)
    requires |a| == |b| == 8 && a[..3] == b[..3]
    ensures SameItems(l, a, b)
       <==> && Canonicalize(l, a[3]) == Canonicalize(l, b[3]) && Canonicalize(l, a[4]) == Canonicalize(l, b[4])
            && Canonicalize(l, a[5]) == Canonicalize(l, b[5]) && Canonicalize(l, a[6]) == Canonicalize(l, b[6])
            && Canonicalize(l, a[7]) == Canonicalize(l, b[7])
  {
    assert forall i :: 0 <= i < 3 ==> a[i] == a[..3][i] && b[i] == b[..3][i];
  }

  lemma {:induction false} IntentPlaces(x: Intent)
    ensures var a := IntentItems(x);
      && a[..3] == [Str(SCHEMA_ID), Str(SCHEMA_VERSION), Str(CONTRACT_VERSION)] && a[3] == Str(x.objective)
      && a[4] == FieldForms(x.fields) && a[5] == List(Image(x.relations, RelationForm))
      && a[6] == List(Image(Listed(x.open), OpenForm)) && a[7] == List(Image(x.amendments, AmendmentForm))
  {}

  lemma {:induction false} PartsAccepted(l: Runtime, x: Intent)
    requires IntentHash(l, x).Ok?
    ensures Canonicalize(l, FieldForms(x.fields)).Ok? && (forall r :: r in x.relations ==> Canonicalize(l, RelationForm(r)).Ok?)
    ensures forall m :: m in x.amendments ==> Canonicalize(l, AmendmentForm(m)).Ok?
  {
    IntentApart();
    FormAccepted(l, INTENT_NAMES, IntentItems(x));
    IntentPlaces(x);
    ImageAccepted(l, x.relations, RelationForm);
    ImageAccepted(l, x.amendments, AmendmentForm);
  }

  lemma {:induction false} ItemsIff(l: Runtime, x: Intent, y: Intent)
    requires IntentHash(l, x).Ok? && IntentHash(l, y).Ok?
    ensures SameItems(l, IntentItems(x), IntentItems(y)) <==> SameRequest(l, x, y)
  {
    PartsAccepted(l, x);
    PartsAccepted(l, y);
    IntentPlaces(x);
    IntentPlaces(y);
    SameEight(l, IntentItems(x), IntentItems(y));
    SameTextIff(l, x.objective, y.objective);
    RelationListIff(l, x.relations, y.relations);
    OpenListIff(l, Listed(x.open), Listed(y.open));
    AmendmentListIff(l, x.amendments, y.amendments);
  }

  /** Two intents have the same hash exactly when they are the same request: the same objective, the same fields, the same
      relations and amendments in order, and the same dimensions left open, listed by name. */
  lemma SameHashIff(l: Runtime, x: Intent, y: Intent)
    requires IntentHash(l, x).Ok? && IntentHash(l, y).Ok?
    ensures IntentHash(l, x) == IntentHash(l, y) <==> SameRequest(l, x, y)
  {
    IntentApart();
    SameTextIffSameForm(l, IntentForm(x), IntentForm(y));
    SameFormIffSameItems(l, INTENT_NAMES, IntentItems(x), IntentItems(y));
    ItemsIff(l, x, y);
  }

  // ---- the order of what is left open ----

  /** Dimensions that count and are listed under one name are open for one reason. */
  ghost predicate ReasonsSettled(us: seq<Unresolved>) {
    forall u, v :: u in us && v in us && Counts(u) && Counts(v) && u.dimension == v.dimension ==> u.reason == v.reason
  }

  lemma {:induction false} CountingIs(us: seq<Unresolved>)
    ensures forall u :: u in Counting(us) <==> u in us && Counts(u)
  {
    if us != [] {
      var front, last := us[..|us| - 1], us[|us| - 1];
      CountingIs(front);
      assert us == front + [last];
    }
  }

  lemma {:induction false} CountingSplits(a: seq<Unresolved>, b: seq<Unresolved>)
    ensures Counting(a + b) == Counting(a) + Counting(b)
  {
    if b == [] {
      assert a + b == a;
    } else {
      var front, last := b[..|b| - 1], b[|b| - 1];
      assert (a + b)[..|a + b| - 1] == a + front;
      CountingSplits(a, front);
    }
  }

  lemma {:induction false} CountingPermutes(a: seq<Unresolved>, b: seq<Unresolved>)
    requires multiset(a) == multiset(b)
    ensures multiset(Counting(a)) == multiset(Counting(b))
    decreases |a|
  {
    if a == [] {
      assert |multiset(b)| == 0;
    } else {
      SameElements(a, b);
      assert a[0] in a;
      var j :| 0 <= j < |b| && b[j] == a[0];
      DroppedOnce(a, 0);
      DroppedOnce(b, j);
      CountingPermutes(Dropped(a, 0), Dropped(b, j));
      CountingDrops(a, 0);
      CountingDrops(b, j);
    }
  }

  lemma {:induction false} CountingDrops(a: seq<Unresolved>, j: nat)
    requires j < |a|
    ensures multiset(Counting(a)) == multiset(Counting(Dropped(a, j))) + multiset(Counting([a[j]]))
  {
    var p, q := a[..j], a[j + 1..];
    assert a == (p + [a[j]]) + q;
    CountingSplits(p + [a[j]], q);
    CountingSplits(p, [a[j]]);
    CountingSplits(p, q);
  }

  function DimensionOf(u: Unresolved): string {
    u.dimension
  }

  /** However the open dimensions were listed, their names come out in the same order. */
  lemma {:induction false} SameDimensions(a: seq<Unresolved>, b: seq<Unresolved>)
    requires multiset(a) == multiset(b)
    ensures Image(Sort(a, ByDimension), DimensionOf) == Image(Sort(b, ByDimension), DimensionOf)
  {
    SortImage(a, DimensionOf, ByDimension, AtMost);
    SortImage(b, DimensionOf, ByDimension, AtMost);
    ImagePermutes(a, b, DimensionOf);
    TextOrders();
    SortSorted(Image(a, DimensionOf), AtMost);
    SortSorted(Image(b, DimensionOf), AtMost);
    forall x, y | AtMost(x, y) && AtMost(y, x)
      ensures x == y
    {
      if x != y {
        BeforeAsymmetric(x, y);
      }
    }
    SortedUnique(Sort(Image(a, DimensionOf), AtMost), Sort(Image(b, DimensionOf), AtMost), AtMost);
  }

  lemma {:induction false} SettledOrder(a: seq<Unresolved>, b: seq<Unresolved>)
    requires multiset(a) == multiset(b) && ReasonsSettled(a)
    ensures AllSameOpen(Listed(a), Listed(b))
  {
    CountingPermutes(a, b);
    SameDimensions(Counting(a), Counting(b));
    var x, y := Listed(a), Listed(b);
    SameElements(x, Counting(a));
    SameElements(y, Counting(b));
    SameElements(Counting(a), Counting(b));
    CountingIs(a);
    forall i | 0 <= i < |x|
      ensures SameOpen(x[i], y[i])
    {
      assert Image(x, DimensionOf)[i] == Image(y, DimensionOf)[i];
      assert x[i] in x && y[i] in y;
    }
  }

  /** The request does not depend on the order its open dimensions are given in. */
  ghost predicate OrderIrrelevant(l: Runtime, x: Intent) {
    forall open :: multiset(open) == multiset(x.open) ==> IntentHash(l, x.(open := open)) == IntentHash(l, x)
  }

  function FirstNotBefore(us: seq<Unresolved>, dimension: string): Option<Unresolved> {
    if us == [] then None else if AtMost(dimension, us[0].dimension) then Some(us[0]) else FirstNotBefore(us[1..], dimension)
  }

  lemma {:induction false} InsertedIsFirst(u: Unresolved, us: seq<Unresolved>)
    ensures FirstNotBefore(Insert(u, us, ByDimension), u.dimension) == Some(u)
  {
    if us != [] && !ByDimension(u, us[0]) {
      InsertedIsFirst(u, us[1..]);
    }
  }

  /** Of those under one name, the one given first is listed first. */
  lemma {:induction false} FirstGivenFirst(us: seq<Unresolved>, k: nat)
    requires k < |us| && Counts(us[k])
    ensures FirstNotBefore(Listed([us[k]] + Dropped(us, k)), us[k].dimension) == Some(us[k])
  {
    var u, rest := us[k], Dropped(us, k);
    CountingSplits([u], rest);
    assert Counting([u]) == [u] by {
      assert [u][..0] == [];
    }
    assert ([u] + Counting(rest))[1..] == Counting(rest);
    InsertedIsFirst(u, Sort(Counting(rest), ByDimension));
  }

  lemma {:induction false} AgreeingFirst(l: Runtime, a: seq<Unresolved>, b: seq<Unresolved>, dimension: string)
    requires |a| == |b| && (forall i :: 0 <= i < |a| ==> a[i].dimension == b[i].dimension && OpensAgree(l, a[i], b[i]))
    ensures FirstNotBefore(a, dimension).Some? <==> FirstNotBefore(b, dimension).Some?
    ensures FirstNotBefore(a, dimension).Some? ==> FirstNotBefore(a, dimension).value.reason == FirstNotBefore(b, dimension).value.reason
  {
    if a != [] && !AtMost(dimension, a[0].dimension) {
      AgreeingFirst(l, a[1..], b[1..], dimension);
    }
  }

  /** If the order does not show, what is moved to the front says what was first. */
  lemma {:induction false} MovedFirst(l: Runtime, x: Intent, i: nat, j: nat)
    requires IntentHash(l, x).Ok? && OrderIrrelevant(l, x) && i < |x.open| && j < |x.open|
    requires Counts(x.open[i]) && Counts(x.open[j]) && x.open[i].dimension == x.open[j].dimension
    ensures x.open[i].reason == x.open[j].reason
  {
    var p, q := Moved(x.open, i), Moved(x.open, j);
    SameHashIff(l, x.(open := p), x.(open := q));
    SameListedDimensions(p, q);
    FirstGivenFirst(x.open, i);
    FirstGivenFirst(x.open, j);
    AgreeingFirst(l, Listed(p), Listed(q), x.open[i].dimension);
  }

  function Moved(us: seq<Unresolved>, i: nat): (r: seq<Unresolved>)
    requires i < |us|
    ensures multiset(r) == multiset(us)
  {
    DroppedOnce(us, i);
    [us[i]] + Dropped(us, i)
  }

  lemma {:induction false} SameListedDimensions(p: seq<Unresolved>, q: seq<Unresolved>)
    requires multiset(p) == multiset(q)
    ensures |Listed(p)| == |Listed(q)| && forall n :: 0 <= n < |Listed(p)| ==> Listed(p)[n].dimension == Listed(q)[n].dimension
  {
    CountingPermutes(p, q);
    SameDimensions(Counting(p), Counting(q));
    forall n | 0 <= n < |Listed(p)|
      ensures Listed(p)[n].dimension == Listed(q)[n].dimension
    {
      assert Image(Listed(p), DimensionOf)[n] == Image(Listed(q), DimensionOf)[n];
    }
  }

  lemma {:induction false} OneMoreCounts(us: seq<Unresolved>, u: Unresolved)
    ensures Counting(us + [u]) == Counting(us) + if u.resultChanging || u.reason != NotAsked then [u] else []
  {
    assert (us + [u])[..|us|] == us;
  }

  /** One more open dimension shows in the hash unless nobody asked for it and it would change nothing. */
  lemma {:induction false} OpenShowsIff(l: Runtime, x: Intent, u: Unresolved)
    requires IntentHash(l, x).Ok? && IntentHash(l, x.(open := x.open + [u])).Ok?
    ensures IntentHash(l, x.(open := x.open + [u])) == IntentHash(l, x) <==> u.reason == NotAsked && !u.resultChanging
  {
    var y := x.(open := x.open + [u]);
    OneMoreCounts(x.open, u);
    if u.reason == NotAsked && !u.resultChanging {
      SameOpenSameHash(l, x, y.open);
    } else {
      OtherOpenOtherHash(l, x, y.open);
    }
  }

  lemma {:induction false} SameOpenSameHash(l: Runtime, x: Intent, open: seq<Unresolved>)
    requires Counting(open) == Counting(x.open)
    ensures IntentHash(l, x.(open := open)) == IntentHash(l, x)
  {
    assert IntentItems(x.(open := open)) == IntentItems(x);
  }

  lemma {:induction false} OtherOpenOtherHash(l: Runtime, x: Intent, open: seq<Unresolved>)
    requires |Counting(open)| != |Counting(x.open)| && IntentHash(l, x).Ok? && IntentHash(l, x.(open := open)).Ok?
    ensures IntentHash(l, x.(open := open)) != IntentHash(l, x)
  {
    SameHashIff(l, x.(open := open), x);
    assert |Listed(open)| == |Counting(open)|;
  }

  /** Exactly when the order in which open dimensions are given does not matter. */
  lemma {:induction false} OpenOrderIrrelevantIff(l: Runtime, x: Intent)
    requires IntentHash(l, x).Ok?
    ensures OrderIrrelevant(l, x) <==> ReasonsSettled(x.open)
  {
    if ReasonsSettled(x.open) {
      forall open | multiset(open) == multiset(x.open)
        ensures IntentHash(l, x.(open := open)) == IntentHash(l, x)
      {
        SettledOrder(x.open, open);
        SameOpenForms(Listed(x.open), Listed(open));
        assert IntentItems(x.(open := open)) == IntentItems(x);
      }
    }
    if OrderIrrelevant(l, x) {
      forall u, v | u in x.open && v in x.open && Counts(u) && Counts(v) && u.dimension == v.dimension
        ensures u.reason == v.reason
      {
        var i :| 0 <= i < |x.open| && x.open[i] == u;
        var j :| 0 <= j < |x.open| && x.open[j] == v;
        MovedFirst(l, x, i, j);
      }
    }
  }
}
