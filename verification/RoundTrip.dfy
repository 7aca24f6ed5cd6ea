/** Writing a qa object in full and reading it back (`to_json` and `from_json` in runtime_contracts/qa/base.py). */
module RoundTrip {
  import opened Wrappers
  import opened Text
  import opened Platform
  import opened Canonical
  import opened Json
  import opened Forms
  import opened FrozenJson
  import opened Sorting
  import opened Codec
  import opened CodecForms
  import opened Documents

  /** What reading a written value comes to: the value without the null members of its JSON objects, or a refusal when some
      string is too long to be read again. */
  ghost function Outcome(env: Env, t: Type, d: Datum): Result<Datum> {
    if Fits(env, t, d) then Ok(Pruned(env.l, d)) else Refused
  }

  ghost predicate ReadsBack(env: Env, t: Type, d: Datum) {
    Canonicalize(env.l, Full(env, d)).Ok? && Read(env, t, Canonicalize(env.l, Full(env, d)).value) == Outcome(env, t, d)
  }

  // ---- rules and set keys do not notice the pruning ----

  lemma {:induction false} TreeIsFrozen(env: Env, t: Type, d: Datum)
    requires Formed(env, t, d) && d.Tree?
    ensures Frozen(env.l, d.v, 0)
    decreases t
  {
    match t
    case RuledType(base, _) => TreeIsFrozen(env, base, d);
    case OptionalType(inner) => TreeIsFrozen(env, inner, d);
    case _ =>
  }

  lemma ObeysPruned(env: Env, rule: Rule, d: Datum)
    requires Writable(env, d) && (d.Tree? ==> Frozen(env.l, d.v, 0))
    ensures Obeys(env, rule, Pruned(env.l, d)) <==> Obeys(env, rule, d)
  {}

  lemma {:induction false} ItemsOfFormed(env: Env, t: Type, d: Datum)
    requires WellFormed(env) && Formed(env, t, d) && d.Items?
    ensures AllWritable(env, d.items)
    decreases t
  {
    match t
    case RuledType(base, _) => ItemsOfFormed(env, base, d);
    case OptionalType(inner) => ItemsOfFormed(env, inner, d);
    case SequenceType(elem) =>
      forall i | 0 <= i < |d.items|
        ensures Writable(env, d.items[i])
      {
        FormedIsWritable(env, elem, d.items[i]);
      }
    case _ =>
  }

  lemma TextKeyPruned(l: Runtime, d: Datum)
    ensures TextKey(Pruned(l, d)) == TextKey(d)
  {}

  lemma JsonKeyPruned(env: Env, d: Datum)
    requires Writable(env, d)
    ensures CanonicalJson(env.l, Ident(env, Pruned(env.l, d))) == CanonicalJson(env.l, Ident(env, d))
  {}

  lemma KeyPruned(env: Env, key: SetKey, d: Datum)
    requires Writable(env, d)
    ensures KeyOf(env, key, Pruned(env.l, d)) == KeyOf(env, key, d)
  {
    match key
    case NoSet =>
    case Itself => TextKeyPruned(env.l, d);
    case AsJson => JsonKeyPruned(env, d);
    case Attribute(name) => AttributePruned(env, name, d);
  }

  lemma AttributePruned(env: Env, name: string, d: Datum)
    ensures KeyOf(env, Attribute(name), Pruned(env.l, d)) == KeyOf(env, Attribute(name), d)
  {
    if d.Instance? {
      forall i | 0 <= i < |d.values|
        ensures TextKey(Pruned(env.l, d.values[i])) == TextKey(d.values[i])
      {
        TextKeyPruned(env.l, d.values[i]);
      }
    }
  }

  lemma ByKeyOrders(env: Env, key: SetKey)
    ensures TotalPreorder(ByKey(env, key))
  {
    forall a, b
      ensures ByKey(env, key)(a, b) || ByKey(env, key)(b, a)
    {
      BeforeTotal(KeyText(env, key, a), KeyText(env, key, b));
    }
    forall a, b, c | ByKey(env, key)(a, b) && ByKey(env, key)(b, c)
      ensures ByKey(env, key)(a, c)
    {
      var x, y, z := KeyText(env, key, a), KeyText(env, key, b), KeyText(env, key, c);
      if x != y && y != z {
        BeforeTransitive(x, y, z);
      }
    }
  }

  lemma {:induction false} SortedPruned(env: Env, key: SetKey, items: seq<Datum>)
    requires AllWritable(env, items) && KeysApart(env, key, items) && Sort(items, ByKey(env, key)) == items
    ensures KeysApart(env, key, PrunedAll(env.l, items))
    ensures Sort(PrunedAll(env.l, items), ByKey(env, key)) == PrunedAll(env.l, items)
  {
    var pruned := PrunedAll(env.l, items);
    ByKeyOrders(env, key);
    SortSorted(items, ByKey(env, key));
    forall i | 0 <= i < |items|
      ensures KeyOf(env, key, pruned[i]) == KeyOf(env, key, items[i])
    {
      KeyPruned(env, key, items[i]);
    }
    forall i, j | 0 <= i < j < |pruned|
      ensures ByKey(env, key)(pruned[i], pruned[j])
    {
      assert ByKey(env, key)(items[i], items[j]);
    }
    SortFixed(pruned, ByKey(env, key));
  }

  lemma {:induction false} PrunedInOrder(env: Env, f: Field, d: Datum)
    requires WellFormed(env) && Formed(env, f.typ, d) && InOrder(env, f, d)
    ensures InOrder(env, f, Pruned(env.l, d))
  {
    if !f.order.NoSet? {
      ItemsOfFormed(env, f.typ, d);
      SortedPruned(env, f.order, d.items);
      assert Pruned(env.l, d) == Items(PrunedAll(env.l, d.items));
    }
  }

  // ---- lists ----

  /** The values of results that are all accepted. */
  function Gather(outs: seq<Result<Datum>>): (r: Result<seq<Datum>>)
    ensures r.Ok? ==> |r.value| == |outs|
  {
    if outs == [] then Ok([])
    else
      var front :- Gather(outs[..|outs| - 1]);
      var last :- outs[|outs| - 1];
      Ok(front + [last])
  }

  lemma {:induction false} GatherAll(outs: seq<Result<Datum>>, values: seq<Datum>)
    requires |outs| == |values| && forall i :: 0 <= i < |outs| ==> outs[i] == Ok(values[i])
    ensures Gather(outs) == Ok(values)
  {
    if outs != [] {
      var n := |outs| - 1;
      GatherAll(outs[..n], values[..n]);
      assert values == values[..n] + [values[n]];
    }
  }

  lemma {:induction false} GatherNone(outs: seq<Result<Datum>>, i: nat)
    requires i < |outs| && outs[i].Refused?
    ensures Gather(outs).Refused?
  {
    var n := |outs| - 1;
    if i < n {
      GatherNone(outs[..n], i);
    }
  }

  lemma {:induction false} ReadAllGathers(env: Env, elem: Type, vs: seq<Value>, outs: seq<Result<Datum>>)
    requires |vs| == |outs| && forall i :: 0 <= i < |vs| ==> Read(env, elem, vs[i]) == outs[i]
    ensures ReadAll(env, elem, vs) == Gather(outs)
  {
    if vs != [] {
      var n := |vs| - 1;
      ReadAllGathers(env, elem, vs[..n], outs[..n]);
    }
  }

  /** What reading the values of some types comes to. */
  ghost function Outcomes(env: Env, ts: seq<Type>, ds: seq<Datum>): (r: seq<Result<Datum>>)
    requires |ts| == |ds|
    ensures |r| == |ds| && forall i :: 0 <= i < |r| ==> r[i] == Outcome(env, ts[i], ds[i])
  {
    seq(|ds|, i requires 0 <= i < |ds| => Outcome(env, ts[i], ds[i]))
  }

  ghost predicate AllFit(env: Env, ts: seq<Type>, ds: seq<Datum>)
    requires |ts| == |ds|
  {
    forall i :: 0 <= i < |ds| ==> Fits(env, ts[i], ds[i])
  }

  lemma OutcomesGather(env: Env, ts: seq<Type>, ds: seq<Datum>)
    requires |ts| == |ds|
    ensures Gather(Outcomes(env, ts, ds)) == if AllFit(env, ts, ds) then Ok(PrunedAll(env.l, ds)) else Refused
  {
    var outs := Outcomes(env, ts, ds);
    if AllFit(env, ts, ds) {
      GatherAll(outs, PrunedAll(env.l, ds));
    } else {
      var i :| 0 <= i < |ds| && !Fits(env, ts[i], ds[i]);
      GatherNone(outs, i);
    }
  }

  lemma {:induction false} ItemsRead(env: Env, elem: Type, items: seq<Datum>)
    requires AllWritable(env, items) && forall i :: 0 <= i < |items| ==> ReadsBack(env, elem, items[i])
    ensures CanonicalizeAll(env.l, FullAll(env, items)).Ok?
    ensures ReadAll(env, elem, CanonicalizeAll(env.l, FullAll(env, items)).value)
         == Gather(Outcomes(env, seq(|items|, i => elem), items))
  {
    ListForms(env.l, FullAll(env, items));
    ReadAllGathers(env, elem, CanonicalizeAll(env.l, FullAll(env, items)).value,
                   Outcomes(env, seq(|items|, i => elem), items));
  }

  lemma {:induction false} ItemsReadBack(env: Env, elem: Type, items: seq<Datum>)
    requires AllWritable(env, items) && forall i :: 0 <= i < |items| ==> ReadsBack(env, elem, items[i])
    ensures ReadsBack(env, SequenceType(elem), Items(items))
  {
    ItemsRead(env, elem, items);
    OutcomesGather(env, seq(|items|, i => elem), items);
    ItemsOutcome(env, elem, items);
    ItemsWritten(env, items);
    SequenceRead(env, elem, CanonicalizeAll(env.l, FullAll(env, items)).value);
  }

  lemma SequenceRead(env: Env, elem: Type, vs: seq<Value>)
    ensures Read(env, SequenceType(elem), List(vs))
         == match ReadAll(env, elem, vs) case Refused => Refused case Ok(ds) => Ok(Items(ds))
  {}

  lemma ItemsWritten(env: Env, items: seq<Datum>)
    requires CanonicalizeAll(env.l, FullAll(env, items)).Ok?
    ensures Canonicalize(env.l, Full(env, Items(items))) == Ok(List(CanonicalizeAll(env.l, FullAll(env, items)).value))
  {
    assert Full(env, Items(items)) == List(FullAll(env, items));
  }

  lemma ItemsOutcome(env: Env, elem: Type, items: seq<Datum>)
    ensures Outcome(env, SequenceType(elem), Items(items))
         == if AllFit(env, seq(|items|, i => elem), items) then Ok(Items(PrunedAll(env.l, items))) else Refused
  {
    var ts := seq(|items|, i => elem);
    assert Pruned(env.l, Items(items)) == Items(PrunedAll(env.l, items));
    assert AllFit(env, ts, items) <==> forall i :: 0 <= i < |items| ==> Fits(env, elem, items[i]);
  }

  // ---- objects ----

  function Types(schema: Schema): (r: seq<Type>)
    ensures |r| == |schema.fields| && forall i :: 0 <= i < |r| ==> r[i] == schema.fields[i].typ
  {
    seq(|schema.fields|, i requires 0 <= i < |schema.fields| => schema.fields[i].typ)
  }

  /** A field value that is formed, in order and reads back is what its part of the document gives. */
  lemma {:induction false} GivenIs(env: Env, schema: Schema, i: nat, d: Datum)
    requires WellFormed(env) && WellFormedSchema(env.l, schema) && i < |schema.fields|
    requires Formed(env, schema.fields[i].typ, d) && InOrder(env, schema.fields[i], d)
    requires Writable(env, d) && ReadsBack(env, schema.fields[i].typ, d)
    ensures Given(env, schema.fields[i], Canonicalize(env.l, Full(env, d)).value) == Outcome(env, schema.fields[i].typ, d)
  {
    var f := schema.fields[i];
    FormedIsWritable(env, f.typ, d);
    PrunedInOrder(env, f, d);
    if d.Nil? {
      NilFits(env, f.typ);
    }
  }

  lemma {:induction false} NilFits(env: Env, t: Type)
    requires Formed(env, t, Nil)
    ensures Fits(env, t, Nil)
    decreases t
  {
    match t
    case RuledType(base, _) => NilFits(env, base);
    case _ =>
  }

  lemma {:induction false} ReadFieldsGathers(env: Env, fields: seq<Field>, members: seq<Member>, outs: seq<Result<Datum>>)
    requires |fields| == |outs| && forall i :: 0 <= i < |fields| ==> ReadField(env, fields[i], members) == outs[i]
    ensures ReadFields(env, fields, members) == Gather(outs)
    decreases |fields|
  {
    if fields != [] {
      var n := |fields| - 1;
      ReadFieldsGathers(env, fields[..n], members, outs[..n]);
    }
  }

  /** The document of an object: its parts, its hash, and its members. */
  lemma {:induction false} DocumentOf(env: Env, d: Datum)
    requires WellFormed(env) && d.Instance? && d.schema in env.schemas && |d.values| == |env.schemas[d.schema].fields|
    requires AllWritable(env, d.values) && Writable(env, d)
    ensures Canonicalize(env.l, Full(env, d)).value.Map?
    ensures Document(env.l, env.schemas[d.schema], FullAll(env, d.values), HashItem(env, d),
                     Canonicalize(env.l, Full(env, d)).value.members)
  {
    assert WellFormedSchema(env.l, env.schemas[d.schema]);
    InstanceFull(env, d);
    HashAccepted(env, d);
    FullsAccepted(env, d.values);
    FormIsMap(env.l, FullNames(env.schemas[d.schema]),
              FullItems(env.schemas[d.schema], FullAll(env, d.values), HashItem(env, d)));
  }

  lemma FullsAccepted(env: Env, ds: seq<Datum>)
    requires AllWritable(env, ds)
    ensures AllAccepted(env.l, FullAll(env, ds))
  {}

  lemma FormIsMap(l: Runtime, names: seq<string>, items: seq<Value>)
    requires |names| == |items| && Canonicalize(l, FormOf(names, items)).Ok?
    ensures Canonicalize(l, FormOf(names, items)).value.Map?
  {}

  ghost predicate FieldsReadBack(env: Env, schema: Schema, values: seq<Datum>) {
    && |values| == |schema.fields|
    && forall i :: 0 <= i < |values| ==>
         && Formed(env, schema.fields[i].typ, values[i]) && InOrder(env, schema.fields[i], values[i])
         && Writable(env, values[i]) && ReadsBack(env, schema.fields[i].typ, values[i])
  }

  /** Reading the fields of a document. */
  lemma {:induction false} FieldsRead(env: Env, schema: Schema, values: seq<Datum>, hash: Value, members: seq<Member>)
    requires WellFormed(env) && FieldsReadBack(env, schema, values)
    requires Document(env.l, schema, FullAll(env, values), hash, members)
    ensures ReadFields(env, schema.fields, members)
         == if AllFit(env, Types(schema), values) then Ok(PrunedAll(env.l, values)) else Refused
  {
    var outs := Outcomes(env, Types(schema), values);
    forall i | 0 <= i < |values|
      ensures ReadField(env, schema.fields[i], members) == outs[i]
    {
      FieldRead(env, schema, FullAll(env, values), hash, members, i);
      GivenIs(env, schema, i, values[i]);
    }
    ReadFieldsGathers(env, schema.fields, members, outs);
    OutcomesGather(env, Types(schema), values);
  }

  lemma {:induction false} StoredHashKnown(env: Env, d: Datum, members: seq<Member>)
    requires Writable(env, d) && d.Instance? && d.schema in env.schemas
    requires Document(env.l, env.schemas[d.schema], FullAll(env, d.values), HashItem(env, d), members)
    ensures HashKnown(env, env.schemas[d.schema], members, Pruned(env.l, d))
  {
    HashAccepted(env, d);
    if env.schemas[d.schema].id.Some? {
      HashFound(env.l, env.schemas[d.schema], FullAll(env, d.values), HashItem(env, d), members);
    }
  }

  lemma {:induction false} ObjectReadsBack(env: Env, d: Datum)
    requires WellFormed(env) && d.Instance? && d.schema in env.schemas && Writable(env, d)
    requires FieldsReadBack(env, env.schemas[d.schema], d.values)
    ensures ReadsBack(env, RefType(d.schema), d)
  {
    var schema := env.schemas[d.schema];
    DocumentOf(env, d);
    var members, parts, hash := Canonicalize(env.l, Full(env, d)).value.members, FullAll(env, d.values), HashItem(env, d);
    HeadFound(env.l, schema, parts, hash, members);
    KeysFound(env.l, schema, parts, hash, members);
    CustodyIsKnown(env.l, schema, parts, hash, members);
    FieldsRead(env, schema, d.values, hash, members);
    StoredHashKnown(env, d, members);
    ObjectOutcome(env, d);
  }

  lemma ObjectOutcome(env: Env, d: Datum)
    requires d.Instance? && d.schema in env.schemas && |d.values| == |env.schemas[d.schema].fields|
    ensures Pruned(env.l, d) == Instance(d.schema, PrunedAll(env.l, d.values))
    ensures Fits(env, RefType(d.schema), d) <==> AllFit(env, Types(env.schemas[d.schema]), d.values)
  {}

  // ---- the round trip ----

  /** Any value of any type, written in full and read back, is the value without the null members of its JSON objects, or is
      refused exactly when one of its strings, normalised, is longer than a string that may be read. */
  lemma {:induction false} WrittenReadsBack(env: Env, t: Type, d: Datum)
    requires WellFormed(env) && Formed(env, t, d)
    ensures Writable(env, d) && ReadsBack(env, t, d)
    decreases d, t
  {
    FormedIsWritable(env, t, d);
    match t
    case RuledType(base, rule) =>
      WrittenReadsBack(env, base, d);
      RuledReadsBack(env, base, rule, d);
    case OptionalType(inner) =>
      if !d.Nil? {
        WrittenReadsBack(env, inner, d);
      }
    case JsonType =>
      FrozenCanonical(env.l, d.v, 0);
      FrozenFixed(env.l, Canonicalize(env.l, d.v).value, 0);
    case SequenceType(elem) =>
      forall i | 0 <= i < |d.items|
        ensures Writable(env, d.items[i]) && ReadsBack(env, elem, d.items[i])
      {
        WrittenReadsBack(env, elem, d.items[i]);
      }
      ItemsReadBack(env, elem, d.items);
    case RefType(name) =>
      var schema := env.schemas[name];
      forall i | 0 <= i < |d.values|
        ensures Writable(env, d.values[i]) && ReadsBack(env, schema.fields[i].typ, d.values[i])
      {
        WrittenReadsBack(env, schema.fields[i].typ, d.values[i]);
      }
      ObjectReadsBack(env, d);
    case _ => ScalarReadsBack(env, t, d);
  }

  lemma {:induction false} RuledReadsBack(env: Env, base: Type, rule: Rule, d: Datum)
    requires Formed(env, base, d) && Obeys(env, rule, d) && Writable(env, d) && ReadsBack(env, base, d)
    ensures ReadsBack(env, RuledType(base, rule), d)
  {
    if d.Tree? {
      TreeIsFrozen(env, base, d);
    }
    ObeysPruned(env, rule, d);
  }

  lemma {:induction false} ScalarReadsBack(env: Env, t: Type, d: Datum)
    requires WellFormed(env) && Formed(env, t, d) && (t.BoolType? || t.IntType? || t.TextType? || t.EnumType?)
    ensures ReadsBack(env, t, d)
  {}

  /** `from_json(to_json(x))`: the same hash, and the same object exactly when no JSON object in it has a null member; refused
      exactly when a string no longer fits. */
  lemma {:induction false} JsonRoundTrip(env: Env, d: Datum)
    requires WellFormed(env) && d.Instance? && Formed(env, RefType(d.schema), d)
    ensures ToJson(env, d).Ok? && ToJson(env, d).value.Map?
    ensures ReadObject(env, d.schema, ToJson(env, d).value.members)
         == if Fits(env, RefType(d.schema), d) then Ok(Pruned(env.l, d)) else Refused
    ensures ContentHash(env.l, Ident(env, Pruned(env.l, d))) == ContentHash(env.l, Ident(env, d))
  {
    WrittenReadsBack(env, RefType(d.schema), d);
    var schema := env.schemas[d.schema];
    forall i | 0 <= i < |d.values|
      ensures Writable(env, d.values[i])
    {
      FormedIsWritable(env, schema.fields[i].typ, d.values[i]);
    }
    DocumentOf(env, d);
  }

  /** No JSON object anywhere in the value has a null member. */
  ghost predicate SolidThroughout(d: Datum)
    decreases d
  {
    match d
    case Tree(v) => Solid(v)
    case Items(items) => forall i :: 0 <= i < |items| ==> SolidThroughout(items[i])
    case Instance(_, values) => forall i :: 0 <= i < |values| ==> SolidThroughout(values[i])
    case _ => true
  }

  /** Nothing is lost exactly when no JSON object has a null member. */
  lemma {:induction false} LosslessIff(env: Env, t: Type, d: Datum)
    requires Formed(env, t, d)
    ensures Pruned(env.l, d) == d <==> SolidThroughout(d)
    decreases d, t
  {
    match t
    case RuledType(base, _) => LosslessIff(env, base, d);
    case OptionalType(inner) =>
      if !d.Nil? {
        LosslessIff(env, inner, d);
      }
    case JsonType =>
      FrozenCanonical(env.l, d.v, 0);
      SurvivesIff(env.l, d.v, 0);
    case SequenceType(elem) =>
      forall i | 0 <= i < |d.items|
        ensures Pruned(env.l, d.items[i]) == d.items[i] <==> SolidThroughout(d.items[i])
      {
        LosslessIff(env, elem, d.items[i]);
      }
      SameAll(env.l, d.items);
    case RefType(name) =>
      forall i | 0 <= i < |d.values|
        ensures Pruned(env.l, d.values[i]) == d.values[i] <==> SolidThroughout(d.values[i])
      {
        LosslessIff(env, env.schemas[name].fields[i].typ, d.values[i]);
      }
      SameAll(env.l, d.values);
    case _ =>
  }

  lemma SameAll(l: Runtime, ds: seq<Datum>)
    ensures PrunedAll(l, ds) == ds <==> forall i :: 0 <= i < |ds| ==> Pruned(l, ds[i]) == ds[i]
    ensures Pruned(l, Items(ds)) == Items(PrunedAll(l, ds))
    ensures forall name :: Pruned(l, Instance(name, ds)) == Instance(name, PrunedAll(l, ds))
  {
    if PrunedAll(l, ds) == ds {
      assert forall i :: 0 <= i < |ds| ==> PrunedAll(l, ds)[i] == ds[i];
    }
  }
}
