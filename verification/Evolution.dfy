/** What an additive change does to a value: the same object with the added fields at their defaults, and when that shows in
    its identity (runtime_contracts/qa/inventory.py with runtime_contracts/qa/base.py). */
module Evolution {
  import opened Wrappers
  import opened Platform
  import opened Canonical
  import opened Forms
  import opened Codec
  import opened CodecForms
  import opened Construction
  import opened Inventory
  import opened Sorting
  import opened Weights
  import RoundTrip

  // ---- extended schemas ----

  /** A set ordered by canonical text, put in the order of these schemas. */
  function Settled(env: Env, key: SetKey, d: Datum): Datum {
    if key.AsJson? && d.Items? then Items(Sort(d.items, ByKey(env, key))) else d
  }

  /** The value as the new schemas hold it: the fields it had under their names, and those added with their defaults. */
  function Lift(a: Env, b: Env, d: Datum): (r: Datum)
    decreases d
  {
    match d
    case Items(items) => Items(seq(|items|, i requires 0 <= i < |items| => Lift(a, b, items[i])))
    case Instance(name, values) =>
      if name !in a.schemas || name !in b.schemas || |values| != |a.schemas[name].fields| then d
      else
        var x, y := a.schemas[name], b.schemas[name];
        Instance(name, seq(|y.fields|, j requires 0 <= j < |y.fields| =>
          match IndexOf(x.fields, y.fields[j].name)
          case Some(i) => if i < |values| then Settled(b, y.fields[j].order, Lift(a, b, values[i])) else Nil
          case None => if y.fields[j].default.Some? then y.fields[j].default.value else Nil))
    case _ => d
  }

  function Placed(a: Env, b: Env, key: SetKey, d: Datum): Datum {
    Settled(b, key, Lift(a, b, d))
  }

  /** The same field: only one that was required may have been given a default. */
  predicate FieldExtends(a: Env, b: Env, f: Field, g: Field) {
    && f.name == g.name && f.typ == g.typ && f.custody == g.custody && f.order == g.order
    && (f.default.Some? ==> g.default == Some(Lift(a, b, f.default.value)))
  }

  /** A field that was added: with a default, in order if it is a set, and under no reserved name. */
  predicate FieldAdded(b: Env, g: Field) {
    g.default.Some? && Arrange(b, g.order, g.default.value) == Ok(g.default.value) && g.name !in RESERVED
  }

  ghost predicate SchemaExtends(a: Env, b: Env, x: Schema, y: Schema) {
    && x.id == y.id
    && (forall i :: 0 <= i < |x.fields| ==> exists j :: 0 <= j < |y.fields| && FieldExtends(a, b, x.fields[i], y.fields[j]))
    && (forall j :: 0 <= j < |y.fields| ==> y.fields[j].name in Names(x.fields) || FieldAdded(b, y.fields[j]))
  }

  ghost predicate Extends(a: Env, b: Env) {
    && a.l == b.l && a.matches == b.matches && a.checked == b.checked
    && EnumsKept(a.enums, b.enums)
    && forall n :: n in a.schemas ==> n in b.schemas && SchemaExtends(a, b, a.schemas[n], b.schemas[n])
  }

  lemma {:induction false} IndexOfIs(fields: seq<Field>, name: string)
    ensures IndexOf(fields, name).Some? ==>
      IndexOf(fields, name).value < |fields| && fields[IndexOf(fields, name).value].name == name
    ensures IndexOf(fields, name).Some? <==> name in Names(fields)
  {
    if fields != [] {
      var n := |fields| - 1;
      IndexOfIs(fields[..n], name);
      assert Names(fields) == Names(fields[..n]) + [fields[n].name];
    }
  }

  /** Where a field of the new schema was in the old one. */
  lemma FieldMatch(a: Env, b: Env, x: Schema, y: Schema, j: nat)
    requires SchemaExtends(a, b, x, y) && FieldNames(FullNames(y)) && j < |y.fields|
    ensures var i := IndexOf(x.fields, y.fields[j].name);
      if i.Some? then i.value < |x.fields| && FieldExtends(a, b, x.fields[i.value], y.fields[j]) else FieldAdded(b, y.fields[j])
  {
    IndexOfIs(x.fields, y.fields[j].name);
    var at := IndexOf(x.fields, y.fields[j].name);
    if at.Some? {
      var k :| 0 <= k < |y.fields| && FieldExtends(a, b, x.fields[at.value], y.fields[k]);
      IdentNamesApart(y);
      assert Names(y.fields)[k] == Names(y.fields)[j];
      assert k == j;
    }
  }

  // ---- what shows of a change ----

  /** A field that was added, is part of identity, and is not null by default. */
  predicate AddedShows(x: Schema, g: Field) {
    g.name !in Names(x.fields) && !g.custody && g.default != Some(Nil)
  }

  /** Somewhere in the identity of the value a field was added that is not null. */
  ghost predicate Shows(a: Env, b: Env, d: Datum)
    decreases d
  {
    match d
    case Items(items) => exists i :: 0 <= i < |items| && Shows(a, b, items[i])
    case Instance(name, values) =>
      && name in a.schemas && name in b.schemas && |values| == |a.schemas[name].fields|
      && ((exists j :: 0 <= j < |b.schemas[name].fields| && AddedShows(a.schemas[name], b.schemas[name].fields[j]))
          || exists i :: 0 <= i < |values| && !a.schemas[name].fields[i].custody && Shows(a, b, values[i]))
    case _ => false
  }

  /** Held by the new schemas as `e`, the value can be hashed as before, and is hashed as the same when nothing shows, as more
      when something does. */
  ghost predicate JudgedAs(a: Env, b: Env, d: Datum, e: Datum) {
    && Canonicalize(a.l, Ident(a, d)).Ok? && Canonicalize(b.l, Ident(b, e)).Ok?
    && (!Shows(a, b, d) ==> Canonicalize(b.l, Ident(b, e)) == Canonicalize(a.l, Ident(a, d)))
    && (Shows(a, b, d) ==> FormWeight(a.l, Ident(a, d)) < FormWeight(b.l, Ident(b, e)))
  }

  ghost predicate Judged(a: Env, b: Env, d: Datum) {
    JudgedAs(a, b, d, Lift(a, b, d))
  }

  ghost predicate AllJudged(a: Env, b: Env, ds: seq<Datum>) {
    forall i :: 0 <= i < |ds| ==> Judged(a, b, ds[i])
  }

  function LiftAll(a: Env, b: Env, ds: seq<Datum>): (r: seq<Datum>)
    ensures |r| == |ds| && forall i :: 0 <= i < |r| ==> r[i] == Lift(a, b, ds[i])
  {
    seq(|ds|, i requires 0 <= i < |ds| => Lift(a, b, ds[i]))
  }

  /** A value is hashed as the same exactly when nowhere in its identity a field was added that is not null; otherwise as more
      than before. */
  lemma {:induction false} LiftIdentityIff(a: Env, b: Env, t: Type, d: Datum)
    requires WellFormed(a) && WellFormed(b) && DefaultsFormed(b) && Extends(a, b) && Formed(a, t, d)
    ensures Canonicalize(b.l, Ident(b, Lift(a, b, d))) == Canonicalize(a.l, Ident(a, d)) <==> !Shows(a, b, d)
    ensures Judged(a, b, d)
    decreases d, t, 0
  {
    match t
    case RuledType(base, _) => LiftIdentityIff(a, b, base, d);
    case OptionalType(inner) =>
      if !d.Nil? {
        LiftIdentityIff(a, b, inner, d);
      }
    case SequenceType(elem) =>
      LiftItemsIdentity(a, b, elem, d);
      ItemsJudged(a, b, d.items);
    case RefType(name) =>
      forall i | 0 <= i < |d.values|
        ensures FieldJudged(a, b, d, i)
      {
        LiftFieldIdentity(a, b, a.schemas[name].fields[i], d.values[i]);
      }
      InstanceJudged(a, b, d);
    case _ => FormedIsWritable(a, t, d);
    JudgedIff(a, b, d);
  }

  lemma JudgedIff(a: Env, b: Env, d: Datum)
    requires a.l == b.l && Judged(a, b, d)
    ensures Canonicalize(b.l, Ident(b, Lift(a, b, d))) == Canonicalize(a.l, Ident(a, d)) <==> !Shows(a, b, d)
  {}

  lemma {:induction false} LiftItemsIdentity(a: Env, b: Env, elem: Type, d: Datum)
    requires WellFormed(a) && WellFormed(b) && DefaultsFormed(b) && Extends(a, b) && Formed(a, SequenceType(elem), d)
    ensures AllJudged(a, b, d.items)
    decreases d, elem, 0
  {
    forall i | 0 <= i < |d.items|
      ensures Judged(a, b, d.items[i])
    {
      LiftIdentityIff(a, b, elem, d.items[i]);
    }
  }

  lemma {:induction false} LiftFieldIdentity(a: Env, b: Env, f: Field, d: Datum)
    requires WellFormed(a) && WellFormed(b) && DefaultsFormed(b) && Extends(a, b) && Formed(a, f.typ, d) && InOrder(a, f, d)
    requires !f.order.NoSet? ==> f.typ.SequenceType?
    ensures JudgedAs(a, b, d, Placed(a, b, f.order, d))
    decreases d, f.typ, 1
  {
    LiftIdentityIff(a, b, f.typ, d);
    if f.order.AsJson? {
      LiftItemsIdentity(a, b, f.typ.elem, d);
      SetJudged(a, b, d.items);
    }
  }

  // ---- sequences ----

  lemma {:induction false} ItemsJudged(a: Env, b: Env, items: seq<Datum>)
    requires a.l == b.l && AllJudged(a, b, items)
    ensures Judged(a, b, Items(items))
  {
    LiftedItems(a, b, items);
    if Shows(a, b, Items(items)) {
      HeavierItems(a, b, items);
    } else {
      QuietItems(a, b, items);
    }
  }

  lemma LiftedItems(a: Env, b: Env, items: seq<Datum>)
    ensures Lift(a, b, Items(items)) == Items(LiftAll(a, b, items))
  {}

  lemma {:induction false} QuietItems(a: Env, b: Env, items: seq<Datum>)
    requires a.l == b.l && AllJudged(a, b, items) && !Shows(a, b, Items(items))
    ensures Canonicalize(a.l, Ident(a, Items(items))).Ok?
    ensures Canonicalize(b.l, Ident(b, Items(LiftAll(a, b, items)))) == Canonicalize(a.l, Ident(a, Items(items)))
  {
    var lifted := LiftAll(a, b, items);
    forall i | 0 <= i < |items|
      ensures Canonicalize(a.l, Ident(a, items[i])).Ok?
      ensures Canonicalize(a.l, Ident(b, lifted[i])) == Canonicalize(a.l, Ident(a, items[i]))
    {
      assert Judged(a, b, items[i]) && !Shows(a, b, items[i]);
    }
    ItemsAsLists(a, items);
    ItemsAsLists(b, lifted);
    SameListIff(a.l, IdentAll(b, lifted), IdentAll(a, items));
  }

  /** A list of values that can be hashed, by what they are hashed as. */
  function FormIn(env: Env): Datum -> Value {
    d => if Canonicalize(env.l, Ident(env, d)).Ok? then Canonicalize(env.l, Ident(env, d)).value else Null
  }

  lemma {:induction false} ListWeight(env: Env, items: seq<Datum>)
    requires forall i :: 0 <= i < |items| ==> Canonicalize(env.l, Ident(env, items[i])).Ok?
    ensures Canonicalize(env.l, Ident(env, Items(items))) == Ok(List(Image(items, FormIn(env))))
    ensures FormWeight(env.l, Ident(env, Items(items))) == 1 + ItemsWeight(Image(items, FormIn(env)))
  {
    ItemsAsLists(env, items);
    ListForms(env.l, IdentAll(env, items));
    assert CanonicalizeAll(env.l, IdentAll(env, items)).value == Image(items, FormIn(env));
  }

  lemma {:induction false} HeavierItems(a: Env, b: Env, items: seq<Datum>)
    requires a.l == b.l && AllJudged(a, b, items)
    requires Shows(a, b, Items(items))
    ensures Canonicalize(a.l, Ident(a, Items(items))).Ok? && Canonicalize(b.l, Ident(b, Items(LiftAll(a, b, items)))).Ok?
    ensures FormWeight(a.l, Ident(a, Items(items))) < FormWeight(b.l, Ident(b, Items(LiftAll(a, b, items))))
  {
    var lifted := LiftAll(a, b, items);
    ListWeight(a, items);
    ListWeight(b, lifted);
    var p, q := Image(items, FormIn(a)), Image(lifted, FormIn(b));
    forall i | 0 <= i < |items|
      ensures Weight(p[i]) <= Weight(q[i]) && (Shows(a, b, items[i]) ==> Weight(p[i]) < Weight(q[i]))
    {
      assert Judged(a, b, items[i]);
    }
    ItemsWeigh(p, q);
  }

  // ---- sets ordered by canonical text ----

  /** Where nothing shows, such a set stays as it is; where something does, it still weighs more, in whatever order. */
  lemma {:induction false} SetJudged(a: Env, b: Env, items: seq<Datum>)
    requires a.l == b.l && AllJudged(a, b, items) && Judged(a, b, Items(items)) && Arrange(a, AsJson, Items(items)) == Ok(Items(items))
    ensures JudgedAs(a, b, Items(items), Placed(a, b, AsJson, Items(items)))
  {
    LiftedItems(a, b, items);
    if Shows(a, b, Items(items)) {
      SortedWeighsTheSame(b, LiftAll(a, b, items));
    } else {
      QuietStaysSorted(a, b, items);
    }
  }

  lemma {:induction false} SortedWeighsTheSame(env: Env, items: seq<Datum>)
    requires forall i :: 0 <= i < |items| ==> Canonicalize(env.l, Ident(env, items[i])).Ok?
    ensures var sorted := Items(Sort(items, ByKey(env, AsJson)));
      && Canonicalize(env.l, Ident(env, sorted)).Ok?
      && FormWeight(env.l, Ident(env, sorted)) == FormWeight(env.l, Ident(env, Items(items)))
  {
    var sorted := Sort(items, ByKey(env, AsJson));
    SameElements(items, sorted);
    forall i | 0 <= i < |sorted|
      ensures Canonicalize(env.l, Ident(env, sorted[i])).Ok?
    {
      assert sorted[i] in items;
    }
    ListWeight(env, items);
    ListWeight(env, sorted);
    ImagePermutes(items, sorted, FormIn(env));
    ItemsWeightPermutes(Image(items, FormIn(env)), Image(sorted, FormIn(env)));
  }

  lemma {:induction false} QuietStaysSorted(a: Env, b: Env, items: seq<Datum>)
    requires a.l == b.l && AllJudged(a, b, items) && !Shows(a, b, Items(items))
    requires Arrange(a, AsJson, Items(items)) == Ok(Items(items))
    ensures Sort(LiftAll(a, b, items), ByKey(b, AsJson)) == LiftAll(a, b, items)
  {
    var lifted := LiftAll(a, b, items);
    forall i | 0 <= i < |items|
      ensures KeyText(b, AsJson, lifted[i]) == KeyText(a, AsJson, items[i])
    {
      assert Judged(a, b, items[i]) && !Shows(a, b, items[i]);
    }
    RoundTrip.ByKeyOrders(a, AsJson);
    SortSorted(items, ByKey(a, AsJson));
    assert Sorted(items, ByKey(a, AsJson));
    SortFixed(lifted, ByKey(b, AsJson));
  }

  // ---- instances ----

  /** What the new schema writes for each of its fields. */
  lemma {:induction false} LiftedPart(a: Env, b: Env, d: Datum, j: nat)
    requires WellFormed(b) && Extends(a, b) && d.Instance? && d.schema in a.schemas
    requires |d.values| == |a.schemas[d.schema].fields| && j < |b.schemas[d.schema].fields|
    ensures var x, y, e := a.schemas[d.schema], b.schemas[d.schema], Lift(a, b, d);
      && e.Instance? && e.schema == d.schema && |e.values| == |y.fields|
      && match IndexOf(x.fields, y.fields[j].name)
         case Some(i) =>
           i < |x.fields| && FieldExtends(a, b, x.fields[i], y.fields[j]) && e.values[j] == Placed(a, b, x.fields[i].order, d.values[i])
         case None => FieldAdded(b, y.fields[j]) && e.values[j] == y.fields[j].default.value
  {
    var x, y := a.schemas[d.schema], b.schemas[d.schema];
    assert WellFormedSchema(b.l, y);
    FieldMatch(a, b, x, y, j);
  }

  // The names and items of an identity form, by place.

  lemma IdentHead(schema: Schema, parts: seq<Value>, p: nat)
    requires |parts| == |schema.fields| && p < |Head(schema)|
    ensures p < |IdentNames(schema)| && IdentNames(schema)[p] == Head(schema)[p]
    ensures IdentItems(schema, parts)[p] == HeadItems(schema)[p]
  {}

  lemma IdentField(schema: Schema, parts: seq<Value>, i: nat)
    requires |parts| == |schema.fields| && i < |schema.fields|
    ensures |Head(schema)| + i < |IdentNames(schema)| && IdentNames(schema)[|Head(schema)| + i] == schema.fields[i].name
    ensures IdentItems(schema, parts)[|Head(schema)| + i] == if schema.fields[i].custody then Null else parts[i]
  {
    assert IdentItems(schema, parts)[|Head(schema)| + i] == Public(schema, parts)[i];
  }

  /** A field is found under its own name. */
  lemma PlaceIs(x: Schema, i: nat)
    requires FieldNames(FullNames(x)) && i < |x.fields|
    ensures IndexOf(x.fields, x.fields[i].name) == Some(i)
  {
    IdentNamesApart(x);
    IndexOfIs(x.fields, x.fields[i].name);
    var names := Names(x.fields);
    assert names[i] in names;
    var k := IndexOf(x.fields, x.fields[i].name).value;
    assert names[k] == names[i];
  }

  // ---- the names of the old schema in the new one ----

  /** Each field that was there is written as something like before, unless it is not part of identity. */
  ghost predicate PartsCorrespond(x: Schema, y: Schema, p: seq<Value>, q: seq<Value>, alike: (Value, Value) -> bool) {
    && |p| == |x.fields| && |q| == |y.fields| && (forall v :: alike(v, v))
    && forall j :: 0 <= j < |q| && IndexOf(x.fields, y.fields[j].name).Some? ==>
         PartCorresponds(x, p, y.fields[j], q[j], IndexOf(x.fields, y.fields[j].name).value, alike)
  }

  ghost predicate PartCorresponds(x: Schema, p: seq<Value>, g: Field, v: Value, i: nat, alike: (Value, Value) -> bool) {
    i < |p| && (g.custody || alike(p[i], v))
  }

  lemma OldHeadFound(x: Schema, y: Schema, p: seq<Value>, q: seq<Value>, k: nat, alike: (Value, Value) -> bool)
    requires x.id == y.id && PartsCorrespond(x, y, p, q, alike) && k < |Head(x)|
    ensures Holds(IdentNames(y), IdentItems(y, q), IdentNames(x)[k], IdentItems(x, p)[k], alike)
  {
    IdentHead(x, p, k);
    IdentHead(y, q, k);
  }

  lemma OldFieldFound(a: Env, b: Env, x: Schema, y: Schema, p: seq<Value>, q: seq<Value>, i: nat, alike: (Value, Value) -> bool)
    requires SchemaExtends(a, b, x, y) && WellFormedSchema(a.l, x)
    requires PartsCorrespond(x, y, p, q, alike) && i < |x.fields|
    ensures |Head(x)| + i < |IdentNames(x)|
    ensures Holds(IdentNames(y), IdentItems(y, q), IdentNames(x)[|Head(x)| + i], IdentItems(x, p)[|Head(x)| + i], alike)
  {
    var j :| 0 <= j < |y.fields| && FieldExtends(a, b, x.fields[i], y.fields[j]);
    IdentField(x, p, i);
    IdentField(y, q, j);
    PlaceIs(x, i);
    assert PartCorresponds(x, p, y.fields[j], q[j], i, alike);
  }

  lemma OldNamesFound(a: Env, b: Env, x: Schema, y: Schema, p: seq<Value>, q: seq<Value>, alike: (Value, Value) -> bool)
    requires SchemaExtends(a, b, x, y) && WellFormedSchema(a.l, x) && PartsCorrespond(x, y, p, q, alike)
    ensures forall k :: 0 <= k < |IdentNames(x)| ==>
      Holds(IdentNames(y), IdentItems(y, q), IdentNames(x)[k], IdentItems(x, p)[k], alike)
  {
    forall k | 0 <= k < |IdentNames(x)|
      ensures Holds(IdentNames(y), IdentItems(y, q), IdentNames(x)[k], IdentItems(x, p)[k], alike)
    {
      if k < |Head(x)| {
        OldHeadFound(x, y, p, q, k, alike);
      } else {
        OldFieldFound(a, b, x, y, p, q, k - |Head(x)|, alike);
      }
    }
  }

  // ---- nothing shows ----

  /** Fields that were added are written as nothing. */
  ghost predicate AddedSilent(x: Schema, y: Schema, q: seq<Value>) {
    |q| == |y.fields| && forall j :: 0 <= j < |q| && y.fields[j].name !in Names(x.fields) ==> y.fields[j].custody || q[j].Null?
  }

  lemma NewNameKnown(x: Schema, y: Schema, q: seq<Value>, k: nat)
    requires x.id == y.id && AddedSilent(x, y, q) && k < |IdentNames(y)|
    ensures IdentNames(y)[k] in IdentNames(x) || IdentItems(y, q)[k].Null?
  {
    var names := IdentNames(x);
    if k < |Head(y)| {
      assert IdentNames(y)[k] == names[k];
    } else {
      var j := k - |Head(y)|;
      IdentField(y, q, j);
      if y.fields[j].name in Names(x.fields) {
        var i :| 0 <= i < |x.fields| && Names(x.fields)[i] == y.fields[j].name;
        assert names[|Head(x)| + i] == y.fields[j].name;
      }
    }
  }

  lemma FormsCorrespond(a: Env, b: Env, x: Schema, y: Schema, p: seq<Value>, q: seq<Value>)
    requires SchemaExtends(a, b, x, y) && WellFormedSchema(a.l, x) && WellFormedSchema(a.l, y)
    requires PartsCorrespond(x, y, p, q, SameForm(a.l)) && AddedSilent(x, y, q) && AllAccepted(a.l, p) && AllAccepted(a.l, q)
    ensures Canonicalize(a.l, FormOf(IdentNames(y), IdentItems(y, q))) == Canonicalize(a.l, FormOf(IdentNames(x), IdentItems(x, p)))
  {
    IdentAccepted(a.l, x, p);
    IdentAccepted(a.l, y, q);
    IdentNamesApart(x);
    IdentNamesApart(y);
    OldNamesFound(a, b, x, y, p, q, SameForm(a.l));
    forall k | 0 <= k < |IdentNames(y)|
      ensures IdentNames(y)[k] in IdentNames(x) || IdentItems(y, q)[k].Null?
    {
      NewNameKnown(x, y, q, k);
    }
    SameFormAcross(a.l, IdentNames(x), IdentItems(x, p), IdentNames(y), IdentItems(y, q));
  }

  // ---- something shows ----

  /** A field of the new schema that holds more than the old one did under its name, if it did. */
  ghost predicate ExtraPart(l: Runtime, x: Schema, y: Schema, p: seq<Value>, q: seq<Value>, j: nat) {
    && |p| == |x.fields| && |q| == |y.fields| && j < |q| && !y.fields[j].custody && FormWeight(l, q[j]) > 0
    && forall i :: 0 <= i < |p| && x.fields[i].name == y.fields[j].name ==> FormWeight(l, p[i]) < FormWeight(l, q[j])
  }

  lemma {:induction false} ExtraField(l: Runtime, x: Schema, y: Schema, p: seq<Value>, q: seq<Value>, j: nat)
    requires x.id == y.id && FieldNames(FullNames(y)) && ExtraPart(l, x, y, p, q, j)
    ensures Extra(l, IdentNames(x), IdentItems(x, p), IdentNames(y), IdentItems(y, q), |Head(y)| + j)
  {
    var name, names := y.fields[j].name, IdentNames(x);
    IdentField(y, q, j);
    IdentNamesApart(y);
    assert forall k :: 0 <= k < |Head(x)| ==> names[k] == IdentNames(y)[k] && IdentNames(y)[k] != name;
    forall k | 0 <= k < |names| && names[k] == name
      ensures FormWeight(l, IdentItems(x, p)[k]) < FormWeight(l, q[j])
    {
      IdentField(x, p, k - |Head(x)|);
    }
  }

  lemma {:induction false} FormsGrow(a: Env, b: Env, x: Schema, y: Schema, p: seq<Value>, q: seq<Value>, j: nat)
    requires SchemaExtends(a, b, x, y) && WellFormedSchema(a.l, x) && WellFormedSchema(a.l, y)
    requires PartsCorrespond(x, y, p, q, NoLess(a.l)) && AllAccepted(a.l, p) && AllAccepted(a.l, q) && ExtraPart(a.l, x, y, p, q, j)
    ensures FormWeight(a.l, FormOf(IdentNames(x), IdentItems(x, p))) < FormWeight(a.l, FormOf(IdentNames(y), IdentItems(y, q)))
  {
    IdentAccepted(a.l, x, p);
    IdentAccepted(a.l, y, q);
    IdentNamesApart(x);
    IdentNamesApart(y);
    OldNamesFound(a, b, x, y, p, q, NoLess(a.l));
    ExtraField(a.l, x, y, p, q, j);
    RecordWeighs(a.l, IdentNames(x), IdentItems(x, p), IdentNames(y), IdentItems(y, q), |Head(y)| + j);
  }

  // ---- an instance ----

  lemma {:induction false} LiftedSized(a: Env, b: Env, d: Datum)
    requires WellFormed(b) && Extends(a, b) && d.Instance? && d.schema in a.schemas
    requires |d.values| == |a.schemas[d.schema].fields|
    ensures Lift(a, b, d).Instance? && Lift(a, b, d).schema == d.schema
    ensures |Lift(a, b, d).values| == |b.schemas[d.schema].fields|
  {}

  /** The default of an added field can be written, and is written as nothing exactly when it is null. */
  lemma DefaultWritten(b: Env, name: string, j: nat)
    requires WellFormed(b) && DefaultsFormed(b) && name in b.schemas && j < |b.schemas[name].fields|
    requires b.schemas[name].fields[j].default.Some?
    ensures var v := Ident(b, b.schemas[name].fields[j].default.value);
      Canonicalize(b.l, v).Ok? && (Canonicalize(b.l, v) == Ok(Null) <==> b.schemas[name].fields[j].default == Some(Nil))
  {
    FormedIsWritable(b, b.schemas[name].fields[j].typ, b.schemas[name].fields[j].default.value);
  }

  /** A field of the old object, as the new schemas place it. */
  ghost predicate FieldJudged(a: Env, b: Env, d: Datum, i: nat) {
    && d.Instance? && d.schema in a.schemas && |d.values| == |a.schemas[d.schema].fields| && i < |d.values|
    && JudgedAs(a, b, d.values[i], Placed(a, b, a.schemas[d.schema].fields[i].order, d.values[i]))
  }

  /** What is needed of an object to judge it. */
  ghost predicate Ripe(a: Env, b: Env, d: Datum) {
    && WellFormed(a) && WellFormed(b) && DefaultsFormed(b) && Extends(a, b) && d.Instance? && d.schema in a.schemas
    && |d.values| == |a.schemas[d.schema].fields| && forall i :: 0 <= i < |d.values| ==> FieldJudged(a, b, d, i)
  }

  lemma {:induction false} PartsAccepted(a: Env, b: Env, d: Datum)
    requires Ripe(a, b, d)
    ensures Lift(a, b, d).Instance?
    ensures AllAccepted(a.l, IdentAll(a, d.values)) && AllAccepted(a.l, IdentAll(b, Lift(a, b, d).values))
  {
    LiftedSized(a, b, d);
    forall j | 0 <= j < |b.schemas[d.schema].fields|
      ensures Canonicalize(a.l, Ident(b, Lift(a, b, d).values[j])).Ok?
    {
      LiftedPart(a, b, d, j);
      var at := IndexOf(a.schemas[d.schema].fields, b.schemas[d.schema].fields[j].name);
      if at.Some? {
        assert FieldJudged(a, b, d, at.value);
      } else {
        DefaultWritten(b, d.schema, j);
      }
    }
    forall i | 0 <= i < |d.values|
      ensures Canonicalize(a.l, Ident(a, d.values[i])).Ok?
    {
      assert FieldJudged(a, b, d, i);
    }
  }

  /** How a field that was there is written. */
  lemma {:induction false} OldPart(a: Env, b: Env, d: Datum, j: nat)
    requires Ripe(a, b, d) && j < |b.schemas[d.schema].fields|
    requires IndexOf(a.schemas[d.schema].fields, b.schemas[d.schema].fields[j].name).Some?
    ensures Lift(a, b, d).Instance? && j < |Lift(a, b, d).values|
    ensures var i, v := IndexOf(a.schemas[d.schema].fields, b.schemas[d.schema].fields[j].name).value, Ident(b, Lift(a, b, d).values[j]);
      && i < |d.values| && (b.schemas[d.schema].fields[j].custody <==> a.schemas[d.schema].fields[i].custody)
      && NoLess(a.l)(Ident(a, d.values[i]), v)
      && (!Shows(a, b, d.values[i]) ==> SameForm(a.l)(Ident(a, d.values[i]), v))
      && (Shows(a, b, d.values[i]) ==> FormWeight(a.l, Ident(a, d.values[i])) < FormWeight(a.l, v))
  {
    LiftedPart(a, b, d, j);
    assert FieldJudged(a, b, d, IndexOf(a.schemas[d.schema].fields, b.schemas[d.schema].fields[j].name).value);
  }

  lemma {:induction false} FieldsGrow(a: Env, b: Env, d: Datum)
    requires Ripe(a, b, d)
    ensures Lift(a, b, d).Instance?
    ensures PartsCorrespond(a.schemas[d.schema], b.schemas[d.schema], IdentAll(a, d.values), IdentAll(b, Lift(a, b, d).values), NoLess(a.l))
  {
    var x, y := a.schemas[d.schema], b.schemas[d.schema];
    LiftedSized(a, b, d);
    var p, q := IdentAll(a, d.values), IdentAll(b, Lift(a, b, d).values);
    forall j | 0 <= j < |q| && IndexOf(x.fields, y.fields[j].name).Some?
      ensures PartCorresponds(x, p, y.fields[j], q[j], IndexOf(x.fields, y.fields[j].name).value, NoLess(a.l))
    {
      OldPart(a, b, d, j);
    }
  }

  lemma {:induction false} QuietFieldsCorrespond(a: Env, b: Env, d: Datum)
    requires Ripe(a, b, d) && !Shows(a, b, d)
    ensures Lift(a, b, d).Instance?
    ensures PartsCorrespond(a.schemas[d.schema], b.schemas[d.schema], IdentAll(a, d.values), IdentAll(b, Lift(a, b, d).values), SameForm(a.l))
  {
    var x, y := a.schemas[d.schema], b.schemas[d.schema];
    LiftedSized(a, b, d);
    var p, q := IdentAll(a, d.values), IdentAll(b, Lift(a, b, d).values);
    forall j | 0 <= j < |q| && IndexOf(x.fields, y.fields[j].name).Some?
      ensures PartCorresponds(x, p, y.fields[j], q[j], IndexOf(x.fields, y.fields[j].name).value, SameForm(a.l))
    {
      OldPart(a, b, d, j);
    }
  }

  lemma {:induction false} AddedAreSilent(a: Env, b: Env, d: Datum)
    requires Ripe(a, b, d) && !Shows(a, b, d)
    ensures Lift(a, b, d).Instance?
    ensures AddedSilent(a.schemas[d.schema], b.schemas[d.schema], IdentAll(b, Lift(a, b, d).values))
  {
    var x, y := a.schemas[d.schema], b.schemas[d.schema];
    LiftedSized(a, b, d);
    forall j | 0 <= j < |y.fields| && y.fields[j].name !in Names(x.fields)
      ensures y.fields[j].custody || Ident(b, Lift(a, b, d).values[j]).Null?
    {
      AddedPart(a, b, d, j);
      assert !AddedShows(x, y.fields[j]);
    }
  }

  lemma {:induction false} QuietInstance(a: Env, b: Env, d: Datum)
    requires Ripe(a, b, d) && !Shows(a, b, d)
    ensures Canonicalize(b.l, Ident(b, Lift(a, b, d))) == Canonicalize(a.l, Ident(a, d))
  {
    var x, y, e := a.schemas[d.schema], b.schemas[d.schema], Lift(a, b, d);
    assert WellFormedSchema(a.l, x) && WellFormedSchema(a.l, y);
    LiftedSized(a, b, d);
    PartsAccepted(a, b, d);
    QuietFieldsCorrespond(a, b, d);
    AddedAreSilent(a, b, d);
    FormsCorrespond(a, b, x, y, IdentAll(a, d.values), IdentAll(b, e.values));
    InstanceIdent(a, d);
    InstanceIdent(b, e);
  }

  lemma {:induction false} AddedPartShows(a: Env, b: Env, d: Datum, j: nat)
    requires Ripe(a, b, d) && j < |b.schemas[d.schema].fields| && AddedShows(a.schemas[d.schema], b.schemas[d.schema].fields[j])
    ensures Lift(a, b, d).Instance?
    ensures ExtraPart(a.l, a.schemas[d.schema], b.schemas[d.schema], IdentAll(a, d.values), IdentAll(b, Lift(a, b, d).values), j)
  {
    var x, y := a.schemas[d.schema], b.schemas[d.schema];
    AddedPart(a, b, d, j);
    DefaultWritten(b, d.schema, j);
    NewExtra(a.l, x, y, IdentAll(a, d.values), IdentAll(b, Lift(a, b, d).values), j);
  }

  /** How a field that was added is written. */
  lemma {:induction false} AddedPart(a: Env, b: Env, d: Datum, j: nat)
    requires Ripe(a, b, d) && j < |b.schemas[d.schema].fields|
    requires b.schemas[d.schema].fields[j].name !in Names(a.schemas[d.schema].fields)
    ensures Lift(a, b, d).Instance? && |Lift(a, b, d).values| == |b.schemas[d.schema].fields|
    ensures b.schemas[d.schema].fields[j].default == Some(Lift(a, b, d).values[j])
  {
    LiftedPart(a, b, d, j);
    IndexOfIs(a.schemas[d.schema].fields, b.schemas[d.schema].fields[j].name);
  }

  lemma {:induction false} OldPartShows(a: Env, b: Env, d: Datum, k: nat) returns (j: nat)
    requires Ripe(a, b, d) && k < |d.values| && !a.schemas[d.schema].fields[k].custody && Shows(a, b, d.values[k])
    ensures Lift(a, b, d).Instance?
    ensures ExtraPart(a.l, a.schemas[d.schema], b.schemas[d.schema], IdentAll(a, d.values), IdentAll(b, Lift(a, b, d).values), j)
  {
    var x, y := a.schemas[d.schema], b.schemas[d.schema];
    assert SchemaExtends(a, b, x, y) && WellFormedSchema(a.l, x);
    j :| 0 <= j < |y.fields| && FieldExtends(a, b, x.fields[k], y.fields[j]);
    OnlyPlace(x, k);
    OldPart(a, b, d, j);
    LiftedSized(a, b, d);
    SoleExtra(a.l, x, y, IdentAll(a, d.values), IdentAll(b, Lift(a, b, d).values), k, j);
  }

  lemma OnlyPlace(x: Schema, k: nat)
    requires FieldNames(FullNames(x)) && k < |x.fields|
    ensures forall i :: 0 <= i < |x.fields| ==> (IndexOf(x.fields, x.fields[i].name) == Some(i))
    ensures forall i :: 0 <= i < |x.fields| && x.fields[i].name == x.fields[k].name ==> i == k
  {
    forall i | 0 <= i < |x.fields|
      ensures IndexOf(x.fields, x.fields[i].name) == Some(i)
    {
      PlaceIs(x, i);
    }
  }

  lemma SoleExtra(l: Runtime, x: Schema, y: Schema, p: seq<Value>, q: seq<Value>, k: nat, j: nat)
    requires |p| == |x.fields| && |q| == |y.fields| && k < |p| && j < |q| && !y.fields[j].custody
    requires x.fields[k].name == y.fields[j].name && FormWeight(l, p[k]) < FormWeight(l, q[j])
    requires forall i :: 0 <= i < |x.fields| && x.fields[i].name == x.fields[k].name ==> i == k
    ensures ExtraPart(l, x, y, p, q, j)
  {}

  lemma NewExtra(l: Runtime, x: Schema, y: Schema, p: seq<Value>, q: seq<Value>, j: nat)
    requires |p| == |x.fields| && |q| == |y.fields| && j < |q| && !y.fields[j].custody
    requires y.fields[j].name !in Names(x.fields) && FormWeight(l, q[j]) > 0
    ensures ExtraPart(l, x, y, p, q, j)
  {
    assert forall i :: 0 <= i < |x.fields| ==> x.fields[i].name == Names(x.fields)[i];
  }

  /** The field of the new schema in which the change shows. */
  lemma {:induction false} ShowingPart(a: Env, b: Env, d: Datum) returns (j: nat)
    requires Ripe(a, b, d) && Shows(a, b, d)
    ensures Lift(a, b, d).Instance?
    ensures ExtraPart(a.l, a.schemas[d.schema], b.schemas[d.schema], IdentAll(a, d.values), IdentAll(b, Lift(a, b, d).values), j)
  {
    var added, k := WhatShows(a, b, d);
    if added {
      AddedPartShows(a, b, d, k);
      j := k;
    } else {
      j := OldPartShows(a, b, d, k);
    }
  }

  lemma {:induction false} GrownInstance(a: Env, b: Env, d: Datum)
    requires Ripe(a, b, d) && Shows(a, b, d)
    ensures FormWeight(a.l, Ident(a, d)) < FormWeight(b.l, Ident(b, Lift(a, b, d)))
  {
    var x, y, e := a.schemas[d.schema], b.schemas[d.schema], Lift(a, b, d);
    assert WellFormedSchema(a.l, x) && WellFormedSchema(a.l, y);
    LiftedSized(a, b, d);
    PartsAccepted(a, b, d);
    FieldsGrow(a, b, d);
    var j := ShowingPart(a, b, d);
    FormsGrow(a, b, x, y, IdentAll(a, d.values), IdentAll(b, e.values), j);
    InstanceIdent(a, d);
    InstanceIdent(b, e);
  }

  lemma {:induction false} InstanceWrites(a: Env, b: Env, d: Datum)
    requires Ripe(a, b, d)
    ensures Canonicalize(a.l, Ident(a, d)).Ok? && Canonicalize(b.l, Ident(b, Lift(a, b, d))).Ok?
  {
    var x, y, e := a.schemas[d.schema], b.schemas[d.schema], Lift(a, b, d);
    assert WellFormedSchema(a.l, x) && WellFormedSchema(a.l, y);
    LiftedSized(a, b, d);
    PartsAccepted(a, b, d);
    IdentAccepted(a.l, x, IdentAll(a, d.values));
    IdentAccepted(a.l, y, IdentAll(b, e.values));
    InstanceIdent(a, d);
    InstanceIdent(b, e);
  }

  lemma {:induction false} InstanceJudged(a: Env, b: Env, d: Datum)
    requires Ripe(a, b, d)
    ensures Judged(a, b, d)
  {
    InstanceWrites(a, b, d);
    if Shows(a, b, d) {
      GrownInstance(a, b, d);
    } else {
      QuietInstance(a, b, d);
    }
  }

  lemma WhatShows(a: Env, b: Env, d: Datum) returns (added: bool, k: nat)
    requires d.Instance? && Shows(a, b, d)
    ensures d.schema in a.schemas && d.schema in b.schemas && |d.values| == |a.schemas[d.schema].fields|
    ensures added ==> k < |b.schemas[d.schema].fields| && AddedShows(a.schemas[d.schema], b.schemas[d.schema].fields[k])
    ensures !added ==> k < |d.values| && !a.schemas[d.schema].fields[k].custody && Shows(a, b, d.values[k])
  {
    var x, y := a.schemas[d.schema], b.schemas[d.schema];
    if j :| 0 <= j < |y.fields| && AddedShows(x, y.fields[j]) {
      added, k := true, j;
    } else {
      var i :| 0 <= i < |d.values| && !x.fields[i].custody && Shows(a, b, d.values[i]);
      added, k := false, i;
    }
  }
}
