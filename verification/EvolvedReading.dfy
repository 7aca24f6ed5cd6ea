/** Reading an old document under extended schemas (`_coerce` and `from_json` in runtime_contracts/qa/base.py, under the
    changes `breaking_changes` in runtime_contracts/qa/inventory.py lets through): exactly which documents are still
    accepted, and as what. */
module EvolvedReading {
  import opened Wrappers
  import opened Canonical
  import Json
  import opened Forms
  import opened Sorting
  import opened Codec
  import opened CodecForms
  import opened Documents
  import opened Construction
  import opened Evolution
  import opened EvolvedSets

  // ---- where a change can show ----

  predicate Mentions(t: Type, grown: set<string>) {
    match t
    case RefType(n) => n in grown
    case OptionalType(inner) => Mentions(inner, grown)
    case SequenceType(elem) => Mentions(elem, grown)
    case RuledType(base, _) => Mentions(base, grown)
    case _ => false
  }

  predicate SchemaShows(x: Schema, y: Schema) {
    exists j :: 0 <= j < |y.fields| && AddedShows(x, y.fields[j])
  }

  /** Every schema in which a change shows, and every one that embeds such a schema. */
  ghost predicate Covers(a: Env, b: Env, grown: set<string>) {
    && (forall n :: n in a.schemas && n in b.schemas && SchemaShows(a.schemas[n], b.schemas[n]) ==> n in grown)
    && forall n, i :: n in a.schemas && 0 <= i < |a.schemas[n].fields| && Mentions(a.schemas[n].fields[i].typ, grown) ==> n in grown
  }

  /** No limit on the canonical size of what may show a change. */
  predicate Unlimited(t: Type, grown: set<string>) {
    match t
    case RuledType(base, rule) => (rule.maxJsonBytes.Some? ==> !Mentions(base, grown)) && Unlimited(base, grown)
    case OptionalType(inner) => Unlimited(inner, grown)
    case SequenceType(elem) => Unlimited(elem, grown)
    case _ => true
  }

  /** No size limit depends on the canonical text of what may show a change. */
  ghost predicate Sparing(a: Env, grown: set<string>) {
    forall n, i :: n in a.schemas && 0 <= i < |a.schemas[n].fields| ==> Unlimited(a.schemas[n].fields[i].typ, grown)
  }

  /** What is needed of the two schemas for the rest. */
  ghost predicate Ready(a: Env, b: Env) {
    WellFormed(a) && WellFormed(b) && DefaultsFormed(a) && DefaultsFormed(b) && Extends(a, b)
  }

  /** In a value of a type that mentions none of these schemas nothing shows. */
  lemma {:induction false} FormedQuiet(a: Env, b: Env, grown: set<string>, t: Type, d: Datum)
    requires Covers(a, b, grown) && !Mentions(t, grown) && Formed(a, t, d)
    ensures !Shows(a, b, d)
    decreases d, t
  {
    match t
    case RuledType(base, _) => FormedQuiet(a, b, grown, base, d);
    case OptionalType(inner) =>
      if !d.Nil? {
        FormedQuiet(a, b, grown, inner, d);
      }
    case SequenceType(elem) =>
      forall i | 0 <= i < |d.items|
        ensures !Shows(a, b, d.items[i])
      {
        FormedQuiet(a, b, grown, elem, d.items[i]);
      }
    case RefType(n) =>
      forall i | 0 <= i < |d.values|
        ensures !Shows(a, b, d.values[i])
      {
        FormedQuiet(a, b, grown, a.schemas[n].fields[i].typ, d.values[i]);
      }
      if n in b.schemas {
        assert !SchemaShows(a.schemas[n], b.schemas[n]);
      }
    case _ =>
  }

  // ---- what rules and set keys notice of the change ----

  ghost predicate SameIdentity(a: Env, b: Env, d: Datum) {
    && Canonicalize(a.l, Ident(a, d)).Ok?
    && Canonicalize(b.l, Ident(b, Lift(a, b, d))) == Canonicalize(a.l, Ident(a, d))
  }

  /** The value, with what was added, is still within the limit on its canonical bytes, if there is one. */
  ghost predicate WithinLimit(a: Env, b: Env, rule: Rule, d: Datum) {
    rule.maxJsonBytes.Some? && !d.Nil? ==> BytesWithin(b.l, Ident(b, Lift(a, b, d)), rule.maxJsonBytes.value)
  }

  /** The limit is the only part of a rule that can notice the change. */
  lemma ObeysLift(a: Env, b: Env, rule: Rule, d: Datum)
    requires a.matches == b.matches && Obeys(a, rule, d)
    ensures Obeys(b, rule, Lift(a, b, d)) <==> WithinLimit(a, b, rule, d)
  {}

  lemma SameWithin(a: Env, b: Env, rule: Rule, d: Datum)
    requires a.l == b.l && Obeys(a, rule, d) && (rule.maxJsonBytes.Some? ==> SameIdentity(a, b, d))
    ensures WithinLimit(a, b, rule, d)
  {}

  lemma QuietSame(a: Env, b: Env, grown: set<string>, t: Type, d: Datum)
    requires Ready(a, b) && Covers(a, b, grown) && !Mentions(t, grown) && Formed(a, t, d)
    ensures SameIdentity(a, b, d)
  {
    FormedQuiet(a, b, grown, t, d);
    LiftIdentityIff(a, b, t, d);
  }

  /** An instance has a value for every field of its schema. */
  ghost predicate Sized(a: Env, d: Datum) {
    d.Instance? ==> d.schema in a.schemas && |d.values| == |a.schemas[d.schema].fields|
  }

  lemma {:induction false} FormedSized(a: Env, t: Type, d: Datum)
    requires Formed(a, t, d)
    ensures Sized(a, d)
    decreases t
  {
    match t
    case RuledType(base, _) => FormedSized(a, base, d);
    case OptionalType(inner) =>
      if !d.Nil? {
        FormedSized(a, inner, d);
      }
    case _ =>
  }

  lemma TextKeyLift(a: Env, b: Env, d: Datum)
    ensures TextKey(d).Some? ==> TextKey(Lift(a, b, d)) == TextKey(d)
  {}

  /** An old name is a name of the new schema, for the same field. */
  lemma NameKept(a: Env, b: Env, x: Schema, y: Schema, name: string)
    requires SchemaExtends(a, b, x, y) && IndexOf(x.fields, name).Some?
    ensures IndexOf(y.fields, name).Some? && IndexOf(y.fields, name).value < |y.fields|
    ensures y.fields[IndexOf(y.fields, name).value].name == name
  {
    IndexOfIs(x.fields, name);
    IndexOfIs(y.fields, name);
    var i := IndexOf(x.fields, name).value;
    var k :| 0 <= k < |y.fields| && FieldExtends(a, b, x.fields[i], y.fields[k]);
    assert Names(y.fields)[k] == name;
  }

  lemma {:induction false} AttributeLift(a: Env, b: Env, name: string, d: Datum)
    requires WellFormed(b) && Extends(a, b) && Sized(a, d) && KeyOf(a, Attribute(name), d).Some?
    ensures KeyOf(b, Attribute(name), Lift(a, b, d)) == KeyOf(a, Attribute(name), d)
  {
    var x, y := a.schemas[d.schema], b.schemas[d.schema];
    NameKept(a, b, x, y, name);
    var i, j := IndexOf(x.fields, name).value, IndexOf(y.fields, name).value;
    LiftedPart(a, b, d, j);
    AttributeIs(a, name, d, i);
    AttributeIs(b, name, Lift(a, b, d), j);
    TextKeyLift(a, b, d.values[i]);
  }

  lemma AttributeIs(env: Env, name: string, d: Datum, i: nat)
    requires d.Instance? && d.schema in env.schemas && IndexOf(env.schemas[d.schema].fields, name) == Some(i) && i < |d.values|
    ensures KeyOf(env, Attribute(name), d) == TextKey(d.values[i])
  {}

  /** A key that is the item or an attribute of it stays the same. */
  lemma {:induction false} KeyLift(a: Env, b: Env, key: SetKey, d: Datum)
    requires WellFormed(b) && Extends(a, b) && Sized(a, d) && !key.AsJson? && KeyOf(a, key, d).Some?
    ensures KeyOf(b, key, Lift(a, b, d)) == KeyOf(a, key, d)
  {
    match key
    case NoSet =>
    case Itself => TextKeyLift(a, b, d);
    case Attribute(name) => AttributeLift(a, b, name, d);
  }

  function Lifter(a: Env, b: Env): Datum -> Datum {
    d => Lift(a, b, d)
  }

  /** The items of a set field not ordered by canonical text: whole, and with keys apart. */
  ghost predicate GoodSet(a: Env, key: SetKey, items: seq<Datum>) {
    !key.AsJson? && (forall i :: 0 <= i < |items| ==> Sized(a, items[i])) && KeysApart(a, key, items)
  }

  lemma KeysLift(a: Env, b: Env, key: SetKey, items: seq<Datum>)
    requires WellFormed(b) && Extends(a, b) && GoodSet(a, key, items)
    ensures forall i :: 0 <= i < |items| ==> KeyOf(b, key, Lift(a, b, items[i])) == KeyOf(a, key, items[i])
  {
    forall i | 0 <= i < |items|
      ensures KeyOf(b, key, Lift(a, b, items[i])) == KeyOf(a, key, items[i])
    {
      KeyLift(a, b, key, items[i]);
    }
  }

  lemma {:induction false} OrderLift(a: Env, b: Env, key: SetKey, items: seq<Datum>)
    requires WellFormed(b) && Extends(a, b) && GoodSet(a, key, items)
    ensures Mirrors(items, Lifter(a, b), ByKey(a, key), ByKey(b, key))
  {
    KeysLift(a, b, key, items);
    forall x, y | x in items && y in items
      ensures ByKey(a, key)(x, y) == ByKey(b, key)(Lifter(a, b)(x), Lifter(a, b)(y))
    {
      var i :| 0 <= i < |items| && items[i] == x;
      var j :| 0 <= j < |items| && items[j] == y;
    }
  }

  lemma ArrangeLift(a: Env, b: Env, key: SetKey, items: seq<Datum>)
    requires WellFormed(b) && Extends(a, b) && GoodSet(a, key, items) && !key.NoSet?
    ensures Arrange(b, key, Items(LiftAll(a, b, items))) == Ok(Items(LiftAll(a, b, Sort(items, ByKey(a, key)))))
  {
    KeysLift(a, b, key, items);
    OrderLift(a, b, key, items);
    SortImage(items, Lifter(a, b), ByKey(a, key), ByKey(b, key));
    LiftAllIsImage(a, b, items);
    LiftAllIsImage(a, b, Sort(items, ByKey(a, key)));
    KeysStayApart(a, b, key, items);
  }

  lemma LiftAllIsImage(a: Env, b: Env, items: seq<Datum>)
    ensures LiftAll(a, b, items) == Image(items, Lifter(a, b))
  {}

  lemma KeysStayApart(a: Env, b: Env, key: SetKey, items: seq<Datum>)
    requires KeysApart(a, key, items)
    requires forall i :: 0 <= i < |items| ==> KeyOf(b, key, Lift(a, b, items[i])) == KeyOf(a, key, items[i])
    ensures KeysApart(b, key, LiftAll(a, b, items))
  {
    var lifted := LiftAll(a, b, items);
    forall i, j | 0 <= i < j < |lifted|
      ensures KeyText(b, key, lifted[i]) != KeyText(b, key, lifted[j])
    {
      assert KeyText(a, key, items[i]) != KeyText(a, key, items[j]);
    }
  }

  // ---- which documents are spared ----

  /** No object read from this value that carries a stored hash shows the change, and nothing in it outgrows its limit. */
  ghost predicate Spared(a: Env, b: Env, t: Type, v: Value)
    decreases v, t
  {
    match t
    case RuledType(base, rule) =>
      Spared(a, b, base, v) && (Read(a, t, v).Ok? ==> WithinLimit(a, b, rule, Read(a, t, v).value))
    case OptionalType(inner) => v.Null? || Spared(a, b, inner, v)
    case SequenceType(elem) => v.List? ==> forall i :: 0 <= i < |v.items| ==> Spared(a, b, elem, v.items[i])
    case RefType(name) => v.Map? ==> ObjectSpared(a, b, name, v.members)
    case _ => true
  }

  ghost predicate ObjectSpared(a: Env, b: Env, name: string, members: seq<Member>)
    decreases members, 3
  {
    name in a.schemas ==>
      && (forall i :: 0 <= i < |a.schemas[name].fields| ==> FieldSpared(a, b, a.schemas[name].fields[i], members))
      && HashSpared(a, b, name, members)
  }

  /** A field comes from the custody object if it is there, else from the object itself. */
  ghost predicate FieldSpared(a: Env, b: Env, f: Field, members: seq<Member>)
    decreases members, 1
  {
    match Place(members, "custody")
    case Some(j) =>
      if members[j].item.Map? && Find(members[j].item.members, f.name).Some? then InsideSpared(a, b, f, members[j])
      else GivenSpared(a, b, f, members)
    case None => GivenSpared(a, b, f, members)
  }

  ghost predicate InsideSpared(a: Env, b: Env, f: Field, m: Member)
    decreases m
  {
    m.item.Map? ==> GivenSpared(a, b, f, m.item.members)
  }

  ghost predicate GivenSpared(a: Env, b: Env, f: Field, members: seq<Member>)
    decreases members, 0
  {
    match Place(members, f.name)
    case Some(k) => MemberSpared(a, b, f.typ, members[k])
    case None => true
  }

  ghost predicate MemberSpared(a: Env, b: Env, t: Type, m: Member)
    decreases m
  {
    Spared(a, b, t, m.item)
  }

  /** The object holds a content hash to be compared. */
  predicate CarriesHash(schema: Schema, members: seq<Member>) {
    schema.id.Some? && Find(members, "content_hash").Some? && !Find(members, "content_hash").value.Null?
  }

  ghost predicate HashSpared(a: Env, b: Env, name: string, members: seq<Member>)
    requires name in a.schemas
  {
    a.checked && CarriesHash(a.schemas[name], members) && ReadObject(a, name, members).Ok? ==>
      !Shows(a, b, ReadObject(a, name, members).value)
  }

  function If(spared: bool, d: Datum): Result<Datum> {
    if spared then Ok(d) else Refused
  }

  // ---- reading ----

  /** A field of its type stays arranged, a set ordered by canonical text perhaps in another order. */
  lemma {:induction false} ArrangedLift(a: Env, b: Env, name: string, i: nat, d: Datum)
    requires Ready(a, b) && name in a.schemas && i < |a.schemas[name].fields|
    requires Formed(a, a.schemas[name].fields[i].typ, d) && Arrange(a, a.schemas[name].fields[i].order, d).Ok?
    ensures var key := a.schemas[name].fields[i].order;
      Arrange(b, key, Lift(a, b, d)) == Ok(Placed(a, b, key, Arrange(a, key, d).value))
  {
    var f := a.schemas[name].fields[i];
    assert WellFormedSchema(a.l, a.schemas[name]);
    if f.order.AsJson? {
      ArrangedAgain(a, b, f.typ.elem, d);
    } else if !f.order.NoSet? {
      ItemsGood(a, f.typ.elem, f.order, d.items);
      ArrangeLift(a, b, f.order, d.items);
      LiftedItems(a, b, d.items);
      LiftedItems(a, b, Sort(d.items, ByKey(a, f.order)));
    }
  }

  lemma {:induction false} ItemsGood(a: Env, elem: Type, key: SetKey, items: seq<Datum>)
    requires Formed(a, SequenceType(elem), Items(items)) && !key.AsJson? && KeysApart(a, key, items)
    ensures GoodSet(a, key, items)
  {
    forall i | 0 <= i < |items|
      ensures Sized(a, items[i])
    {
      assert Formed(a, elem, Items(items).items[i]);
      FormedSized(a, elem, items[i]);
    }
  }

  lemma {:induction false} RuledEvolves(a: Env, b: Env, base: Type, rule: Rule, v: Value)
    requires Ready(a, b) && Read(a, RuledType(base, rule), v).Ok?
    requires Read(b, base, v) == If(Spared(a, b, base, v), Lift(a, b, Read(a, base, v).value))
    ensures Read(b, RuledType(base, rule), v)
         == If(Spared(a, b, RuledType(base, rule), v), Lift(a, b, Read(a, RuledType(base, rule), v).value))
  {
    var d := Read(a, base, v).value;
    RuledReads(a, base, rule, v);
    RuledReads(b, base, rule, v);
    RuledSpared(a, b, base, rule, v, d);
    ObeysLift(a, b, rule, d);
  }

  lemma {:induction false} RuledReads(env: Env, base: Type, rule: Rule, v: Value)
    ensures Read(env, RuledType(base, rule), v)
         == match Read(env, base, v) case Refused => Refused case Ok(d) => (if Obeys(env, rule, d) then Ok(d) else Refused)
  {}

  lemma {:induction false} RuledSpared(a: Env, b: Env, base: Type, rule: Rule, v: Value, d: Datum)
    requires Read(a, RuledType(base, rule), v) == Ok(d)
    ensures Spared(a, b, RuledType(base, rule), v) <==> Spared(a, b, base, v) && WithinLimit(a, b, rule, d)
  {}

  /** What the old schemas read of a value, the new ones read as the same with the added fields at their defaults, or refuse:
      exactly when somewhere in it an object that carries its hash shows the change, or a value has outgrown a limit. */
  lemma {:induction false} ReadEvolves(a: Env, b: Env, t: Type, v: Value)
    requires Ready(a, b) && Read(a, t, v).Ok?
    ensures Read(b, t, v) == If(Spared(a, b, t, v), Lift(a, b, Read(a, t, v).value))
    decreases v, t
  {
    match t
    case RuledType(base, rule) =>
      ReadEvolves(a, b, base, v);
      RuledEvolves(a, b, base, rule, v);
    case OptionalType(inner) =>
      if !v.Null? {
        ReadEvolves(a, b, inner, v);
      }
    case SequenceType(elem) =>
      ReadAllEvolves(a, b, elem, v.items);
      SequenceSettled(a, b, elem, v.items);
    case RefType(name) => ObjectEvolves(a, b, name, v.members);
    case _ =>
  }

  lemma {:induction false} SequenceSettled(a: Env, b: Env, elem: Type, items: seq<Value>)
    requires ReadAll(a, elem, items).Ok?
    requires ReadAll(b, elem, items)
          == if AllSpared(a, b, elem, items) then Ok(LiftAll(a, b, ReadAll(a, elem, items).value)) else Refused
    ensures Read(b, SequenceType(elem), List(items))
         == If(Spared(a, b, SequenceType(elem), List(items)), Lift(a, b, Read(a, SequenceType(elem), List(items)).value))
  {
    LiftedItems(a, b, ReadAll(a, elem, items).value);
  }

  lemma {:induction false} ReadAllEvolves(a: Env, b: Env, elem: Type, items: seq<Value>)
    requires Ready(a, b) && ReadAll(a, elem, items).Ok?
    ensures ReadAll(b, elem, items)
         == if AllSpared(a, b, elem, items) then Ok(LiftAll(a, b, ReadAll(a, elem, items).value)) else Refused
    decreases items
  {
    if items != [] {
      var front, last := items[..|items| - 1], items[|items| - 1];
      assert items == front + [last];
      ReadAllLast(a, elem, front, last);
      ReadAllEvolves(a, b, elem, front);
      ReadEvolves(a, b, elem, last);
      LastEvolves(a, b, elem, front, last);
    }
  }

  ghost predicate AllSpared(a: Env, b: Env, elem: Type, items: seq<Value>) {
    forall i :: 0 <= i < |items| ==> Spared(a, b, elem, items[i])
  }

  lemma {:induction false} ReadAllLast(env: Env, elem: Type, front: seq<Value>, last: Value)
    ensures ReadAll(env, elem, front + [last])
         == if ReadAll(env, elem, front).Ok? && Read(env, elem, last).Ok?
            then Ok(ReadAll(env, elem, front).value + [Read(env, elem, last).value]) else Refused
  {
    assert (front + [last])[..|front|] == front;
  }

  lemma {:induction false} LastEvolves(a: Env, b: Env, elem: Type, front: seq<Value>, last: Value)
    requires ReadAll(a, elem, front).Ok? && Read(a, elem, last).Ok?
    requires ReadAll(b, elem, front)
          == if AllSpared(a, b, elem, front) then Ok(LiftAll(a, b, ReadAll(a, elem, front).value)) else Refused
    requires Read(b, elem, last) == If(Spared(a, b, elem, last), Lift(a, b, Read(a, elem, last).value))
    ensures ReadAll(b, elem, front + [last])
         == if AllSpared(a, b, elem, front + [last]) then Ok(LiftAll(a, b, ReadAll(a, elem, front + [last]).value)) else Refused
  {
    ReadAllLast(a, elem, front, last);
    ReadAllLast(b, elem, front, last);
    LiftedLast(a, b, ReadAll(a, elem, front).value, Read(a, elem, last).value);
    AllSparedLast(a, b, elem, front, last);
  }

  lemma {:induction false} AllSparedLast(a: Env, b: Env, elem: Type, front: seq<Value>, last: Value)
    ensures AllSpared(a, b, elem, front + [last]) <==> AllSpared(a, b, elem, front) && Spared(a, b, elem, last)
  {
    var items := front + [last];
    assert forall i :: 0 <= i < |front| ==> items[i] == front[i];
    assert items[|front|] == last;
  }

  lemma LiftedLast(a: Env, b: Env, front: seq<Datum>, last: Datum)
    ensures LiftAll(a, b, front + [last]) == LiftAll(a, b, front) + [Lift(a, b, last)]
  {}

  lemma {:induction false} MemberEvolves(a: Env, b: Env, t: Type, m: Member)
    requires Ready(a, b) && ReadMember(a, t, m).Ok?
    ensures ReadMember(b, t, m) == If(MemberSpared(a, b, t, m), Lift(a, b, ReadMember(a, t, m).value))
    decreases m
  {
    ReadEvolves(a, b, t, m.item);
  }

  lemma {:induction false} GivenEvolves(a: Env, b: Env, f: Field, g: Field, members: seq<Member>)
    requires Ready(a, b) && FieldExtends(a, b, f, g) && ReadGiven(a, f, members).Ok?
    ensures ReadGiven(b, g, members) == If(GivenSpared(a, b, f, members), Lift(a, b, ReadGiven(a, f, members).value))
    decreases members, 0
  {
    match Place(members, f.name)
    case Some(k) => MemberEvolves(a, b, f.typ, members[k]);
    case None =>
  }

  lemma {:induction false} InsideEvolves(a: Env, b: Env, f: Field, g: Field, m: Member)
    requires Ready(a, b) && FieldExtends(a, b, f, g) && m.item.Map? && ReadInside(a, f, m).Ok?
    ensures ReadInside(b, g, m) == If(InsideSpared(a, b, f, m), Lift(a, b, ReadInside(a, f, m).value))
    decreases m
  {
    GivenEvolves(a, b, f, g, m.item.members);
  }

  /** The value of a field before it is arranged. */
  function Taken(env: Env, f: Field, members: seq<Member>): Result<Datum> {
    match Place(members, "custody")
    case Some(j) =>
      if members[j].item.Map? && Find(members[j].item.members, f.name).Some? then ReadInside(env, f, members[j])
      else ReadGiven(env, f, members)
    case None => ReadGiven(env, f, members)
  }

  lemma {:induction false} TakenEvolves(a: Env, b: Env, f: Field, g: Field, members: seq<Member>)
    requires Ready(a, b) && FieldExtends(a, b, f, g) && Taken(a, f, members).Ok?
    ensures Taken(b, g, members) == If(FieldSpared(a, b, f, members), Lift(a, b, Taken(a, f, members).value))
    decreases members, 1
  {
    match Place(members, "custody")
    case Some(j) =>
      if members[j].item.Map? && Find(members[j].item.members, f.name).Some? {
        InsideEvolves(a, b, f, g, members[j]);
      } else {
        GivenEvolves(a, b, f, g, members);
      }
    case None => GivenEvolves(a, b, f, g, members);
  }

  lemma {:induction false} TakenIsFormed(a: Env, name: string, i: nat, members: seq<Member>)
    requires WellFormed(a) && DefaultsFormed(a) && name in a.schemas && i < |a.schemas[name].fields|
    requires Taken(a, a.schemas[name].fields[i], members).Ok?
    ensures Formed(a, a.schemas[name].fields[i].typ, Taken(a, a.schemas[name].fields[i], members).value)
  {
    var f := a.schemas[name].fields[i];
    match Place(members, "custody")
    case Some(j) =>
      if members[j].item.Map? && Find(members[j].item.members, f.name).Some? {
        InsideIsFormed(a, name, i, members[j]);
      } else {
        GivenIsFormed(a, name, i, members);
      }
    case None => GivenIsFormed(a, name, i, members);
  }

  lemma ReadFieldTakes(env: Env, f: Field, members: seq<Member>)
    ensures ReadField(env, f, members)
         == match Taken(env, f, members) case Refused => Refused case Ok(d) => Arrange(env, f.order, d)
  {}

  /** A field that was there. */
  lemma {:induction false} FieldEvolves(a: Env, b: Env, name: string, i: nat, g: Field, members: seq<Member>)
    requires Ready(a, b) && name in a.schemas && i < |a.schemas[name].fields|
    requires FieldExtends(a, b, a.schemas[name].fields[i], g) && ReadField(a, a.schemas[name].fields[i], members).Ok?
    ensures ReadField(b, g, members)
         == If(FieldSpared(a, b, a.schemas[name].fields[i], members),
               Placed(a, b, g.order, ReadField(a, a.schemas[name].fields[i], members).value))
    decreases members, 2
  {
    var f := a.schemas[name].fields[i];
    ReadFieldTakes(a, f, members);
    ReadFieldTakes(b, g, members);
    TakenEvolves(a, b, f, g, members);
    TakenIsFormed(a, name, i, members);
    ArrangedLift(a, b, name, i, Taken(a, f, members).value);
  }

  lemma {:induction false} UnknownAbsent(members: seq<Member>, known: set<string>, name: string)
    requires KnownKeys(members, known) && name !in known
    ensures Find(members, name).None?
  {
    if members != [] {
      UnknownAbsent(members[..|members| - 1], known, name);
    }
  }

  /** A field the document cannot hold comes out as its default. */
  lemma AbsentIsDefault(b: Env, x: Schema, g: Field, members: seq<Member>)
    requires FieldAdded(b, g) && g.name !in Names(x.fields)
    requires KnownKeys(members, FieldSet(x.fields) + RESERVED) && CustodyKnown(x, members)
    ensures ReadField(b, g, members) == Ok(g.default.value)
  {
    NotAField(x, g.name);
    UnknownAbsent(members, FieldSet(x.fields) + RESERVED, g.name);
    ReadFieldIs(b, g, members);
    ReadGivenIs(b, g, members);
    if Find(members, "custody").Some? && Find(members, "custody").value.Map? {
      UnknownAbsent(Find(members, "custody").value.members, CustodySet(x.fields), g.name);
    }
  }

  lemma NotAField(x: Schema, name: string)
    requires name !in Names(x.fields)
    ensures name !in FieldSet(x.fields) && name !in CustodySet(x.fields)
  {
    forall f | f in x.fields
      ensures f.name != name
    {
      var i :| 0 <= i < |x.fields| && x.fields[i] == f;
      assert Names(x.fields)[i] == f.name;
    }
  }

  lemma {:induction false} ReadFieldsAt(env: Env, fields: seq<Field>, members: seq<Member>, i: nat)
    requires ReadFields(env, fields, members).Ok? && i < |fields|
    ensures ReadField(env, fields[i], members) == Ok(ReadFields(env, fields, members).value[i])
    decreases |fields|
  {
    var n := |fields| - 1;
    if i < n {
      ReadFieldsAt(env, fields[..n], members, i);
    }
  }

  lemma {:induction false} ReadFieldsOkIff(env: Env, fields: seq<Field>, members: seq<Member>)
    ensures ReadFields(env, fields, members).Ok? <==> forall i :: 0 <= i < |fields| ==> ReadField(env, fields[i], members).Ok?
    decreases |fields|
  {
    if fields != [] {
      var n := |fields| - 1;
      ReadFieldsOkIff(env, fields[..n], members);
      assert forall i :: 0 <= i < n ==> fields[..n][i] == fields[i];
    }
  }

  lemma {:induction false} ReadFieldsAre(env: Env, fields: seq<Field>, members: seq<Member>, values: seq<Datum>)
    requires |values| == |fields| && forall j :: 0 <= j < |fields| ==> ReadField(env, fields[j], members) == Ok(values[j])
    ensures ReadFields(env, fields, members) == Ok(values)
    decreases |fields|
  {
    if fields != [] {
      var n := |fields| - 1;
      ReadFieldsAre(env, fields[..n], members, values[..n]);
      assert values == values[..n] + [values[n]];
    }
  }

  /** What can be read of an object of the old schema before its hash is looked at. */
  ghost predicate Legible(a: Env, name: string, members: seq<Member>) {
    && name in a.schemas && ReadFields(a, a.schemas[name].fields, members).Ok?
    && KnownKeys(members, FieldSet(a.schemas[name].fields) + RESERVED) && CustodyKnown(a.schemas[name], members)
  }

  ghost function AsRead(a: Env, name: string, members: seq<Member>): Datum
    requires Legible(a, name, members)
  {
    Instance(name, ReadFields(a, a.schemas[name].fields, members).value)
  }

  /** The document spares a field of the new schema: an added one, or one whose old self it spares. */
  ghost predicate NewFieldSpared(a: Env, b: Env, name: string, g: Field, members: seq<Member>)
    requires name in a.schemas
  {
    var at := IndexOf(a.schemas[name].fields, g.name);
    at.Some? && at.value < |a.schemas[name].fields| ==> FieldSpared(a, b, a.schemas[name].fields[at.value], members)
  }

  /** One field of the new schema, read from an old document. */
  lemma {:induction false} NewFieldRead(a: Env, b: Env, name: string, members: seq<Member>, j: nat)
    requires Ready(a, b) && Legible(a, name, members) && j < |b.schemas[name].fields|
    ensures var e := Lift(a, b, AsRead(a, name, members));
      && e.Instance? && |e.values| == |b.schemas[name].fields|
      && ReadField(b, b.schemas[name].fields[j], members)
         == If(NewFieldSpared(a, b, name, b.schemas[name].fields[j], members), e.values[j])
    decreases members, 3
  {
    var x, y, d := a.schemas[name], b.schemas[name], AsRead(a, name, members);
    LiftedPart(a, b, d, j);
    var at := IndexOf(x.fields, y.fields[j].name);
    if at.Some? {
      ReadFieldsAt(a, x.fields, members, at.value);
      FieldEvolves(a, b, name, at.value, y.fields[j], members);
    } else {
      IndexOfIs(x.fields, y.fields[j].name);
      AbsentIsDefault(b, x, y.fields[j], members);
    }
  }

  ghost predicate AllFieldsSpared(a: Env, b: Env, name: string, members: seq<Member>)
    requires name in a.schemas
  {
    forall i :: 0 <= i < |a.schemas[name].fields| ==> FieldSpared(a, b, a.schemas[name].fields[i], members)
  }

  lemma {:induction false} NewFieldsSparedIff(a: Env, b: Env, name: string, members: seq<Member>)
    requires WellFormed(a) && Extends(a, b) && name in a.schemas
    ensures (forall j :: 0 <= j < |b.schemas[name].fields| ==> NewFieldSpared(a, b, name, b.schemas[name].fields[j], members))
       <==> AllFieldsSpared(a, b, name, members)
  {
    var x, y := a.schemas[name], b.schemas[name];
    assert WellFormedSchema(a.l, x) && SchemaExtends(a, b, x, y);
    if forall j :: 0 <= j < |y.fields| ==> NewFieldSpared(a, b, name, y.fields[j], members) {
      forall i | 0 <= i < |x.fields|
        ensures FieldSpared(a, b, x.fields[i], members)
      {
        var j :| 0 <= j < |y.fields| && FieldExtends(a, b, x.fields[i], y.fields[j]);
        PlaceIs(x, i);
        assert NewFieldSpared(a, b, name, y.fields[j], members);
      }
    }
  }

  lemma {:induction false} NewFieldsRead(a: Env, b: Env, name: string, members: seq<Member>)
    requires Ready(a, b) && Legible(a, name, members)
    ensures var e := Lift(a, b, AsRead(a, name, members));
      && e.Instance? && e.schema == name
      && ReadFields(b, b.schemas[name].fields, members)
         == if AllFieldsSpared(a, b, name, members) then Ok(e.values) else Refused
    decreases members, 4
  {
    var y, e := b.schemas[name], Lift(a, b, AsRead(a, name, members));
    LiftedSized(a, b, AsRead(a, name, members));
    forall j | 0 <= j < |y.fields|
      ensures ReadField(b, y.fields[j], members) == If(NewFieldSpared(a, b, name, y.fields[j], members), e.values[j])
    {
      NewFieldRead(a, b, name, members, j);
    }
    NewFieldsSparedIff(a, b, name, members);
    NewFieldsSettled(a, b, name, members, e.values);
  }

  lemma NewFieldsSettled(a: Env, b: Env, name: string, members: seq<Member>, values: seq<Datum>)
    requires name in a.schemas && name in b.schemas && |values| == |b.schemas[name].fields|
    requires forall j :: 0 <= j < |values| ==>
      ReadField(b, b.schemas[name].fields[j], members) == If(NewFieldSpared(a, b, name, b.schemas[name].fields[j], members), values[j])
    requires (forall j :: 0 <= j < |values| ==> NewFieldSpared(a, b, name, b.schemas[name].fields[j], members))
        <==> AllFieldsSpared(a, b, name, members)
    ensures ReadFields(b, b.schemas[name].fields, members)
         == if AllFieldsSpared(a, b, name, members) then Ok(values) else Refused
  {
    FieldsSettled(b, b.schemas[name].fields, members, values, AllFieldsSpared(a, b, name, members));
  }

  lemma FieldsSettled(env: Env, fields: seq<Field>, members: seq<Member>, values: seq<Datum>, spared: bool)
    requires |values| == |fields|
    requires forall j :: 0 <= j < |fields| ==> ReadField(env, fields[j], members).Refused? || ReadField(env, fields[j], members) == Ok(values[j])
    requires spared <==> forall j :: 0 <= j < |fields| ==> ReadField(env, fields[j], members).Ok?
    ensures ReadFields(env, fields, members) == if spared then Ok(values) else Refused
  {
    ReadFieldsOkIff(env, fields, members);
    if spared {
      ReadFieldsAre(env, fields, members, values);
    }
  }

  lemma KnownWidens(a: Env, b: Env, x: Schema, y: Schema, members: seq<Member>)
    requires SchemaExtends(a, b, x, y)
    requires KnownKeys(members, FieldSet(x.fields) + RESERVED) && CustodyKnown(x, members)
    ensures KnownKeys(members, FieldSet(y.fields) + RESERVED) && CustodyKnown(y, members)
  {
    forall f | f in x.fields
      ensures f.name in FieldSet(y.fields) && (f.custody ==> f.name in CustodySet(y.fields))
    {
      var i :| 0 <= i < |x.fields| && x.fields[i] == f;
      var j :| 0 <= j < |y.fields| && FieldExtends(a, b, x.fields[i], y.fields[j]);
      assert y.fields[j] in y.fields;
    }
    assert FieldSet(x.fields) <= FieldSet(y.fields) && CustodySet(x.fields) <= CustodySet(y.fields);
  }

  /** The stored hash, right before, is right after exactly when the change does not show. */
  lemma {:induction false} StoredHashIff(a: Env, b: Env, x: Schema, y: Schema, members: seq<Member>, d: Datum)
    requires a.l == b.l && a.checked == b.checked && x.id == y.id && HashKnown(a, x, members, d) && Judged(a, b, d)
    ensures HashKnown(b, y, members, Lift(a, b, d)) <==> !(a.checked && CarriesHash(x, members) && Shows(a, b, d))
  {
    Json.SameTextIffSameForm(a.l, Ident(b, Lift(a, b, d)), Ident(a, d));
  }

  lemma ReadObjectIs(env: Env, name: string, members: seq<Member>, values: seq<Datum>)
    requires name in env.schemas && ReadFields(env, env.schemas[name].fields, members) == Ok(values)
    requires IdentityKnown(env.schemas[name], members)
    requires KnownKeys(members, FieldSet(env.schemas[name].fields) + RESERVED) && CustodyKnown(env.schemas[name], members)
    ensures ReadObject(env, name, members)
         == If(HashKnown(env, env.schemas[name], members, Instance(name, values)), Instance(name, values))
  {}

  lemma ReadMeans(env: Env, name: string, members: seq<Member>)
    requires ReadObject(env, name, members).Ok?
    ensures Legible(env, name, members) && IdentityKnown(env.schemas[name], members)
    ensures ReadObject(env, name, members).value == AsRead(env, name, members)
    ensures HashKnown(env, env.schemas[name], members, AsRead(env, name, members))
  {}

  /** An object of an old record. */
  lemma {:induction false} ObjectEvolves(a: Env, b: Env, name: string, members: seq<Member>)
    requires Ready(a, b) && ReadObject(a, name, members).Ok?
    ensures ReadObject(b, name, members) == If(ObjectSpared(a, b, name, members), Lift(a, b, ReadObject(a, name, members).value))
    decreases members, 5
  {
    ReadMeans(a, name, members);
    var d := AsRead(a, name, members);
    NewFieldsRead(a, b, name, members);
    ObjectIsFormed(a, name, members);
    LiftIdentityIff(a, b, RefType(name), d);
    assert SchemaExtends(a, b, a.schemas[name], b.schemas[name]);
    KnownWidens(a, b, a.schemas[name], b.schemas[name], members);
    ObjectSettled(a, b, name, members, d, Lift(a, b, d));
  }

  lemma {:induction false} ObjectSettled(a: Env, b: Env, name: string, members: seq<Member>, d: Datum, e: Datum)
    requires ReadObject(a, name, members) == Ok(d) && Legible(a, name, members) && d == AsRead(a, name, members)
    requires HashKnown(a, a.schemas[name], members, d) && IdentityKnown(a.schemas[name], members)
    requires a.l == b.l && a.checked == b.checked && name in b.schemas && a.schemas[name].id == b.schemas[name].id
    requires KnownKeys(members, FieldSet(b.schemas[name].fields) + RESERVED) && CustodyKnown(b.schemas[name], members)
    requires Judged(a, b, d) && e == Lift(a, b, d) && e.Instance? && e.schema == name
    requires ReadFields(b, b.schemas[name].fields, members) == if AllFieldsSpared(a, b, name, members) then Ok(e.values) else Refused
    ensures ReadObject(b, name, members) == If(ObjectSpared(a, b, name, members), e)
  {
    if AllFieldsSpared(a, b, name, members) {
      StoredHashIff(a, b, a.schemas[name], b.schemas[name], members, d);
      ReadObjectIs(b, name, members, e.values);
    }
  }

  // ---- when every document is spared ----

  /** No limit depends on what shows, and hashes are not compared, or nothing shows. */
  ghost predicate Harmless(a: Env, b: Env, grown: set<string>) {
    Ready(a, b) && Covers(a, b, grown) && Sparing(a, grown) && (!a.checked || grown == {})
  }

  lemma {:induction false} HarmlessSpares(a: Env, b: Env, grown: set<string>, t: Type, v: Value)
    requires Harmless(a, b, grown) && Unlimited(t, grown)
    ensures Spared(a, b, t, v)
    decreases v, t
  {
    match t
    case RuledType(base, rule) =>
      HarmlessSpares(a, b, grown, base, v);
      if Read(a, t, v).Ok? {
        LimitKept(a, b, grown, base, rule, v);
      }
    case OptionalType(inner) =>
      if !v.Null? {
        HarmlessSpares(a, b, grown, inner, v);
      }
    case SequenceType(elem) =>
      if v.List? {
        forall i | 0 <= i < |v.items|
          ensures Spared(a, b, elem, v.items[i])
        {
          HarmlessSpares(a, b, grown, elem, v.items[i]);
        }
      }
    case RefType(name) =>
      if v.Map? {
        HarmlessSparesObject(a, b, grown, name, v.members);
      }
    case _ =>
  }

  lemma {:induction false} LimitKept(a: Env, b: Env, grown: set<string>, base: Type, rule: Rule, v: Value)
    requires Harmless(a, b, grown) && Unlimited(RuledType(base, rule), grown) && Read(a, RuledType(base, rule), v).Ok?
    ensures WithinLimit(a, b, rule, Read(a, RuledType(base, rule), v).value)
  {
    var d := Read(a, base, v).value;
    ReadIsFormed(a, base, v);
    if rule.maxJsonBytes.Some? {
      QuietSame(a, b, grown, base, d);
    }
    SameWithin(a, b, rule, d);
  }

  lemma {:induction false} HarmlessSparesMember(a: Env, b: Env, grown: set<string>, t: Type, m: Member)
    requires Harmless(a, b, grown) && Unlimited(t, grown)
    ensures MemberSpared(a, b, t, m)
    decreases m
  {
    HarmlessSpares(a, b, grown, t, m.item);
  }

  lemma {:induction false} HarmlessSparesGiven(a: Env, b: Env, grown: set<string>, f: Field, members: seq<Member>)
    requires Harmless(a, b, grown) && Unlimited(f.typ, grown)
    ensures GivenSpared(a, b, f, members)
    decreases members, 0
  {
    match Place(members, f.name)
    case Some(k) => HarmlessSparesMember(a, b, grown, f.typ, members[k]);
    case None =>
  }

  lemma {:induction false} HarmlessSparesInside(a: Env, b: Env, grown: set<string>, f: Field, m: Member)
    requires Harmless(a, b, grown) && Unlimited(f.typ, grown) && m.item.Map?
    ensures InsideSpared(a, b, f, m)
    decreases m
  {
    HarmlessSparesGiven(a, b, grown, f, m.item.members);
  }

  lemma {:induction false} HarmlessSparesField(a: Env, b: Env, grown: set<string>, f: Field, members: seq<Member>)
    requires Harmless(a, b, grown) && Unlimited(f.typ, grown)
    ensures FieldSpared(a, b, f, members)
    decreases members, 1
  {
    match Place(members, "custody")
    case Some(j) =>
      if members[j].item.Map? && Find(members[j].item.members, f.name).Some? {
        HarmlessSparesInside(a, b, grown, f, members[j]);
      } else {
        HarmlessSparesGiven(a, b, grown, f, members);
      }
    case None => HarmlessSparesGiven(a, b, grown, f, members);
  }

  lemma {:induction false} HarmlessSparesObject(a: Env, b: Env, grown: set<string>, name: string, members: seq<Member>)
    requires Harmless(a, b, grown)
    ensures ObjectSpared(a, b, name, members)
    decreases members, 3
  {
    if name in a.schemas {
      forall i | 0 <= i < |a.schemas[name].fields|
        ensures FieldSpared(a, b, a.schemas[name].fields[i], members)
      {
        HarmlessSparesField(a, b, grown, a.schemas[name].fields[i], members);
      }
      if a.checked && ReadObject(a, name, members).Ok? {
        ObjectIsFormed(a, name, members);
        FormedQuiet(a, b, grown, RefType(name), ReadObject(a, name, members).value);
      }
    }
  }

  lemma {:induction false} NothingMentioned(t: Type)
    ensures !Mentions(t, {}) && Unlimited(t, {})
  {
    match t
    case RuledType(base, _) => NothingMentioned(base);
    case OptionalType(inner) => NothingMentioned(inner);
    case SequenceType(elem) => NothingMentioned(elem);
    case _ =>
  }

  /** When no added field shows, no schema is covered and no limit depends on one. */
  lemma NothingGrown(a: Env, b: Env)
    requires forall n :: n in a.schemas && n in b.schemas ==> !SchemaShows(a.schemas[n], b.schemas[n])
    ensures Covers(a, b, {}) && Sparing(a, {})
  {
    forall t: Type
      ensures !Mentions(t, {}) && Unlimited(t, {})
    {
      NothingMentioned(t);
    }
  }
}
