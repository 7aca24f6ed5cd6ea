/** What a constructed qa object is, and that it can always be written: the first half of the round trip. */
module CodecForms {
  import opened Wrappers
  import opened Platform
  import opened Canonical
  import opened Json
  import opened Forms
  import opened FrozenJson
  import opened Codec

  // ---- well-formed schemas ----

  predicate AcceptsNil(t: Type) {
    match t
    case OptionalType(_) => true
    case RuledType(base, _) => AcceptsNil(base)
    case _ => false
  }

  /** Names are plain and distinct, the reserved ones included; ids are plain; a field that may be null is null by default;
      a set field is a plain sequence. */
  ghost predicate WellFormedSchema(l: Runtime, schema: Schema) {
    && FieldNames(FullNames(schema))
    && (schema.id.Some? ==>
          l.nfc(schema.id.value.schemaId) == schema.id.value.schemaId
          && l.nfc(schema.id.value.schemaVersion) == schema.id.value.schemaVersion)
    && (forall i :: 0 <= i < |schema.fields| && AcceptsNil(schema.fields[i].typ) ==> schema.fields[i].default == Some(Nil))
    && (forall i :: 0 <= i < |schema.fields| && !schema.fields[i].order.NoSet? ==> schema.fields[i].typ.SequenceType?)
  }

  ghost predicate WellFormed(env: Env) {
    && (forall n :: n in env.schemas ==> WellFormedSchema(env.l, env.schemas[n]))
    && (forall n, v :: n in env.enums && v in env.enums[n] ==> env.l.nfc(v) == v)
  }

  // ---- constructed values ----

  /** A value of a type, as construction leaves it. */
  ghost predicate Formed(env: Env, t: Type, d: Datum)
    decreases d, t
  {
    match t
    case RuledType(base, rule) => Formed(env, base, d) && Obeys(env, rule, d)
    case OptionalType(inner) => d.Nil? || Formed(env, inner, d)
    case JsonType => d.Tree? && !d.v.Null? && Frozen(env.l, d.v, 0)
    case BoolType => d.Boolean?
    case IntType => d.Integer?
    case TextType => d.Words? && NormalText(env.l, d.s)
    case EnumType(name) => d.Choice? && d.enum == name && name in env.enums && d.value in env.enums[name]
    case SequenceType(elem) => d.Items? && forall i :: 0 <= i < |d.items| ==> Formed(env, elem, d.items[i])
    case RefType(name) =>
      && d.Instance? && d.schema == name && name in env.schemas
      && |d.values| == |env.schemas[name].fields|
      && (forall i :: 0 <= i < |d.values| ==> Formed(env, env.schemas[name].fields[i].typ, d.values[i]))
      && (forall i :: 0 <= i < |d.values| ==> InOrder(env, env.schemas[name].fields[i], d.values[i]))
  }

  ghost predicate InOrder(env: Env, f: Field, d: Datum) {
    Arrange(env, f.order, d) == Ok(d)
  }

  /** Every string field, at any depth, is within the length that is checked before normalising. */
  ghost predicate Fits(env: Env, t: Type, d: Datum)
    decreases d, t
  {
    match t
    case RuledType(base, _) => Fits(env, base, d)
    case OptionalType(inner) => d.Nil? || Fits(env, inner, d)
    case TextType => d.Words? ==> |d.s| <= DEFAULT_MAX_TEXT
    case SequenceType(elem) => d.Items? ==> forall i :: 0 <= i < |d.items| ==> Fits(env, elem, d.items[i])
    case RefType(name) =>
      d.Instance? && name in env.schemas && |d.values| == |env.schemas[name].fields| ==>
        forall i :: 0 <= i < |d.values| ==> Fits(env, env.schemas[name].fields[i].typ, d.values[i])
    case _ => true
  }

  /** The value with the null members of its JSON objects gone. */
  function Pruned(l: Runtime, d: Datum): (r: Datum)
    ensures d.Nil? <==> r.Nil?
    decreases d
  {
    match d
    case Tree(v) => Tree(match Canonicalize(l, v) case Ok(c) => c case Refused => v)
    case Items(items) => Items(seq(|items|, i requires 0 <= i < |items| => Pruned(l, items[i])))
    case Instance(name, values) => Instance(name, seq(|values|, i requires 0 <= i < |values| => Pruned(l, values[i])))
    case _ => d
  }

  // ---- it can be written ----

  /** A value written for identity and in full, before and after pruning. */
  ghost predicate Writable(env: Env, d: Datum) {
    && Canonicalize(env.l, Ident(env, d)).Ok? && Canonicalize(env.l, Full(env, d)).Ok?
    && (Canonicalize(env.l, Ident(env, d)).value.Null? <==> d.Nil?)
    && (Canonicalize(env.l, Full(env, d)).value.Null? <==> d.Nil?)
    && Canonicalize(env.l, Ident(env, Pruned(env.l, d))) == Canonicalize(env.l, Ident(env, d))
  }

  function IdentAll(env: Env, ds: seq<Datum>): (r: seq<Value>)
    ensures |r| == |ds| && forall i :: 0 <= i < |ds| ==> r[i] == Ident(env, ds[i])
  {
    seq(|ds|, i requires 0 <= i < |ds| => Ident(env, ds[i]))
  }

  function FullAll(env: Env, ds: seq<Datum>): (r: seq<Value>)
    ensures |r| == |ds| && forall i :: 0 <= i < |ds| ==> r[i] == Full(env, ds[i])
  {
    seq(|ds|, i requires 0 <= i < |ds| => Full(env, ds[i]))
  }

  function PrunedAll(l: Runtime, ds: seq<Datum>): (r: seq<Datum>)
    ensures |r| == |ds| && forall i :: 0 <= i < |ds| ==> r[i] == Pruned(l, ds[i])
  {
    seq(|ds|, i requires 0 <= i < |ds| => Pruned(l, ds[i]))
  }

  ghost predicate AllWritable(env: Env, ds: seq<Datum>) {
    forall i :: 0 <= i < |ds| ==> Writable(env, ds[i])
  }

  lemma {:induction false} FormedIsWritable(env: Env, t: Type, d: Datum)
    requires WellFormed(env) && Formed(env, t, d)
    ensures Writable(env, d)
    ensures d.Nil? ==> AcceptsNil(t)
    decreases d, t
  {
    match t
    case RuledType(base, _) => FormedIsWritable(env, base, d);
    case OptionalType(inner) =>
      if !d.Nil? {
        FormedIsWritable(env, inner, d);
      }
    case JsonType =>
      FrozenCanonical(env.l, d.v, 0);
      CanonicalizeIdempotent(env.l, d.v);
    case SequenceType(elem) =>
      forall i | 0 <= i < |d.items|
        ensures Writable(env, d.items[i])
      {
        FormedIsWritable(env, elem, d.items[i]);
      }
      ItemsWritable(env, d.items);
    case RefType(name) =>
      forall i | 0 <= i < |d.values|
        ensures Writable(env, d.values[i])
      {
        FormedIsWritable(env, env.schemas[name].fields[i].typ, d.values[i]);
      }
      InstanceWritable(env, d);
    case _ =>
  }

  lemma {:induction false} ItemsWritable(env: Env, items: seq<Datum>)
    requires AllWritable(env, items)
    ensures Writable(env, Items(items))
  {
    ListForms(env.l, IdentAll(env, items));
    ListForms(env.l, FullAll(env, items));
    PrunedItemsSame(env, items);
    assert Pruned(env.l, Items(items)) == Items(PrunedAll(env.l, items));
    ItemsAsLists(env, items);
    ItemsAsLists(env, PrunedAll(env.l, items));
  }

  lemma ItemsAsLists(env: Env, items: seq<Datum>)
    ensures Ident(env, Items(items)) == List(IdentAll(env, items)) && Full(env, Items(items)) == List(FullAll(env, items))
  {}

  lemma PrunedItemsSame(env: Env, items: seq<Datum>)
    requires AllWritable(env, items)
    ensures Canonicalize(env.l, List(IdentAll(env, PrunedAll(env.l, items)))) == Canonicalize(env.l, List(IdentAll(env, items)))
  {
    var pruned := PrunedAll(env.l, items);
    assert forall i :: 0 <= i < |items| ==> Canonicalize(env.l, Ident(env, pruned[i])) == Canonicalize(env.l, Ident(env, items[i]));
    SameListIff(env.l, IdentAll(env, pruned), IdentAll(env, items));
  }

  // ---- instances ----

  function IdentNames(schema: Schema): seq<string> {
    Head(schema) + Names(schema.fields)
  }

  function IdentItems(schema: Schema, parts: seq<Value>): (r: seq<Value>)
    requires |parts| == |schema.fields|
    ensures |r| == |IdentNames(schema)|
  {
    HeadItems(schema) + Public(schema, parts)
  }

  lemma InstanceIdent(env: Env, d: Datum)
    requires d.Instance? && d.schema in env.schemas && |d.values| == |env.schemas[d.schema].fields|
    ensures Ident(env, d)
         == FormOf(IdentNames(env.schemas[d.schema]), IdentItems(env.schemas[d.schema], IdentAll(env, d.values)))
  {
    var schema := env.schemas[d.schema];
    assert Public(schema, IdentAll(env, d.values)) == seq(|d.values|, i requires 0 <= i < |d.values| =>
      if schema.fields[i].custody then Null else Ident(env, d.values[i]));
  }

  lemma InstanceFull(env: Env, d: Datum)
    requires d.Instance? && d.schema in env.schemas && |d.values| == |env.schemas[d.schema].fields|
    ensures Full(env, d) == FormOf(FullNames(env.schemas[d.schema]),
                                   FullItems(env.schemas[d.schema], FullAll(env, d.values), HashItem(env, d)))
  {
    assert seq(|d.values|, i requires 0 <= i < |d.values| => Full(env, d.values[i])) == FullAll(env, d.values);
  }

  lemma IdentNamesApart(schema: Schema)
    requires FieldNames(FullNames(schema))
    ensures FieldNames(IdentNames(schema)) && FieldNames(Names(schema.fields))
  {
    var all, ident, head := FullNames(schema), IdentNames(schema), Head(schema);
    assert forall i :: 0 <= i < |ident| ==> ident[i] == all[i];
    assert forall i :: 0 <= i < |schema.fields| ==> Names(schema.fields)[i] == all[|head| + i];
  }

  ghost predicate AllAccepted(l: Runtime, vs: seq<Value>) {
    forall i :: 0 <= i < |vs| ==> Canonicalize(l, vs[i]).Ok?
  }

  lemma IdentAccepted(l: Runtime, schema: Schema, parts: seq<Value>)
    requires FieldNames(FullNames(schema)) && |parts| == |schema.fields| && AllAccepted(l, parts)
    ensures Canonicalize(l, FormOf(IdentNames(schema), IdentItems(schema, parts))).Ok?
  {
    IdentNamesApart(schema);
    FormAccepted(l, IdentNames(schema), IdentItems(schema, parts));
  }

  lemma CustodyAccepted(l: Runtime, schema: Schema, parts: seq<Value>)
    requires FieldNames(FullNames(schema)) && |parts| == |schema.fields| && AllAccepted(l, parts)
    ensures Canonicalize(l, CustodyItem(schema, parts)).Ok?
  {
    IdentNamesApart(schema);
    FormAccepted(l, Names(schema.fields), Held(schema, parts));
  }

  lemma {:induction false} FullAccepted(l: Runtime, schema: Schema, parts: seq<Value>, hash: Value)
    requires FieldNames(FullNames(schema)) && |parts| == |schema.fields| && AllAccepted(l, parts)
    requires Canonicalize(l, hash).Ok?
    ensures Canonicalize(l, FormOf(FullNames(schema), FullItems(schema, parts, hash))).Ok?
  {
    CustodyAccepted(l, schema, parts);
    FormAccepted(l, FullNames(schema), FullItems(schema, parts, hash));
  }

  lemma SameIdent(l: Runtime, schema: Schema, a: seq<Value>, b: seq<Value>)
    requires FieldNames(FullNames(schema)) && |a| == |b| == |schema.fields| && SameItems(l, a, b) && AllAccepted(l, b)
    ensures Canonicalize(l, FormOf(IdentNames(schema), IdentItems(schema, a)))
         == Canonicalize(l, FormOf(IdentNames(schema), IdentItems(schema, b)))
  {
    IdentNamesApart(schema);
    IdentAccepted(l, schema, a);
    IdentAccepted(l, schema, b);
    SameFormIffSameItems(l, IdentNames(schema), IdentItems(schema, a), IdentItems(schema, b));
  }

  lemma HashAccepted(env: Env, d: Datum)
    requires Canonicalize(env.l, Ident(env, d)).Ok?
    ensures HashItem(env, d).Str? && ContentHash(env.l, Ident(env, d)) == Ok(HashItem(env, d).s)
    ensures env.l.nfc(HashItem(env, d).s) == HashItem(env, d).s
  {
    DigestIsNormal(env.l, CanonicalJson(env.l, Ident(env, d)).value);
  }

  lemma {:induction false} InstanceIdentStable(env: Env, d: Datum)
    requires WellFormed(env) && d.Instance? && d.schema in env.schemas && |d.values| == |env.schemas[d.schema].fields|
    requires AllWritable(env, d.values)
    ensures Canonicalize(env.l, Ident(env, d)).Ok? && Canonicalize(env.l, Ident(env, d)).value.Map?
    ensures Canonicalize(env.l, Ident(env, Pruned(env.l, d))) == Canonicalize(env.l, Ident(env, d))
  {
    var schema, pruned := env.schemas[d.schema], PrunedAll(env.l, d.values);
    assert WellFormedSchema(env.l, schema);
    var p := Instance(d.schema, pruned);
    assert Pruned(env.l, d) == p;
    InstanceIdent(env, d);
    InstanceIdent(env, p);
    IdentAccepted(env.l, schema, IdentAll(env, d.values));
    SameIdent(env.l, schema, IdentAll(env, pruned), IdentAll(env, d.values));
  }

  lemma {:induction false} InstanceWritable(env: Env, d: Datum)
    requires WellFormed(env) && d.Instance? && d.schema in env.schemas && |d.values| == |env.schemas[d.schema].fields|
    requires AllWritable(env, d.values)
    ensures Writable(env, d)
  {
    var schema := env.schemas[d.schema];
    assert WellFormedSchema(env.l, schema);
    InstanceIdentStable(env, d);
    InstanceFull(env, d);
    HashAccepted(env, d);
    FullAccepted(env.l, schema, FullAll(env, d.values), HashItem(env, d));
  }
}
