/** The order in which the items of a set field are given, to the class or in a document (runtime_contracts/qa/base.py). */
module SetOrder {
  import opened Wrappers
  import opened Canonical
  import opened Forms
  import opened Sorting
  import opened Codec
  import opened CodecForms
  import opened Documents
  import opened RoundTrip
  import opened Construction

  predicate IsSet(f: Field) {
    f.typ.SequenceType? && !f.order.NoSet?
  }

  // ---- given to the class ----

  lemma {:induction false} SameFieldsKept(env: Env, fields: seq<Field>, p: seq<Datum>, q: seq<Datum>)
    requires |fields| == |p| == |q| && forall i :: 0 <= i < |fields| ==> KeepField(env, fields[i], p[i]) == KeepField(env, fields[i], q[i])
    ensures KeepFields(env, fields, p) == KeepFields(env, fields, q)
    decreases |fields|
  {
    if fields != [] {
      var n := |fields| - 1;
      SameFieldsKept(env, fields[..n], p[..n], q[..n]);
    }
  }

  /** The same object is constructed, or the same refused, whatever the order of a set field's items. */
  lemma ConstructPermuted(env: Env, name: string, given: seq<Datum>, i: nat, a: seq<Datum>, b: seq<Datum>)
    requires name in env.schemas && |given| == |env.schemas[name].fields| && i < |given| && IsSet(env.schemas[name].fields[i])
    requires multiset(a) == multiset(b)
    ensures Construct(env, name, given[i := Items(a)]) == Construct(env, name, given[i := Items(b)])
  {
    SetFieldPermutes(env, env.schemas[name].fields[i], a, b);
    SameFieldsKept(env, env.schemas[name].fields, given[i := Items(a)], given[i := Items(b)]);
  }

  // ---- given in a document ----

  function ReadOr(env: Env, elem: Type): Value -> Result<Datum> {
    v => Read(env, elem, v)
  }

  lemma {:induction false} ReadAllPermutes(env: Env, elem: Type, a: seq<Value>, b: seq<Value>)
    requires multiset(a) == multiset(b)
    ensures ReadAll(env, elem, a).Ok? <==> ReadAll(env, elem, b).Ok?
    ensures ReadAll(env, elem, a).Ok? ==> multiset(ReadAll(env, elem, a).value) == multiset(ReadAll(env, elem, b).value)
  {
    var x, y := Image(a, ReadOr(env, elem)), Image(b, ReadOr(env, elem));
    ImagePermutes(a, b, ReadOr(env, elem));
    ReadAllGathers(env, elem, a, x);
    ReadAllGathers(env, elem, b, y);
    GatherPermutes(x, y);
  }

  /** Reading and arranging a set field. */
  function Arranged(env: Env, f: Field, v: Value): Result<Datum> {
    var d :- Read(env, f.typ, v);
    Arrange(env, f.order, d)
  }

  lemma {:induction false} SetRead(env: Env, f: Field, items: seq<Value>)
    requires IsSet(f)
    ensures Arranged(env, f, List(items))
         == match ReadAll(env, f.typ.elem, items) case Refused => Refused case Ok(ds) => Arrange(env, f.order, Items(ds))
  {}

  lemma {:induction false} SetReadPermutes(env: Env, f: Field, a: seq<Value>, b: seq<Value>)
    requires IsSet(f) && multiset(a) == multiset(b)
    ensures Arranged(env, f, List(a)) == Arranged(env, f, List(b))
  {
    SetRead(env, f, a);
    SetRead(env, f, b);
    ReadAllPermutes(env, f.typ.elem, a, b);
    if ReadAll(env, f.typ.elem, a).Ok? {
      ArrangePermuted(env, f.order, ReadAll(env, f.typ.elem, a).value, ReadAll(env, f.typ.elem, b).value);
    }
  }

  /** Two objects with the same keys that differ at most in the item at k. */
  ghost predicate DifferAt(a: seq<Member>, b: seq<Member>, k: nat) {
    |a| == |b| && k < |a| && a[k].key == b[k].key && forall i :: 0 <= i < |a| && i != k ==> a[i] == b[i]
  }

  lemma {:induction false} FindElsewhere(a: seq<Member>, b: seq<Member>, k: nat, name: string)
    requires DifferAt(a, b, k) && a[k].key != Name(name)
    ensures Find(a, name) == Find(b, name)
    decreases |a|
  {
    var n := |a| - 1;
    if k < n {
      FindElsewhere(a[..n], b[..n], k, name);
    } else {
      assert a[..n] == b[..n];
    }
  }

  lemma {:induction false} FindThere(a: seq<Member>, b: seq<Member>, k: nat, name: string)
    requires DifferAt(a, b, k) && a[k].key == Name(name)
    ensures Find(a, name) == Find(b, name) || (Find(a, name) == Some(a[k].item) && Find(b, name) == Some(b[k].item))
    decreases |a|
  {
    var n := |a| - 1;
    if k < n {
      FindThere(a[..n], b[..n], k, name);
    }
  }

  /** The document with the items of the member at k in another order. */
  ghost predicate Reordered(a: seq<Member>, b: seq<Member>, k: nat) {
    DifferAt(a, b, k) && a[k].item.List? && b[k].item.List? && multiset(a[k].item.items) == multiset(b[k].item.items)
  }

  lemma ReadFieldArranges(env: Env, f: Field, members: seq<Member>)
    ensures ReadField(env, f, members)
         == var inside := Find(members, "custody").Some? && Find(members, "custody").value.Map?
                          && Find(Find(members, "custody").value.members, f.name).Some?;
            match Find(if inside then Find(members, "custody").value.members else members, f.name)
            case Some(v) => Arranged(env, f, v)
            case None => if f.default.Some? then Arrange(env, f.order, f.default.value) else Refused
  {
    ReadFieldIs(env, f, members);
    var inside := Find(members, "custody").Some? && Find(members, "custody").value.Map?
                  && Find(Find(members, "custody").value.members, f.name).Some?;
    ReadGivenIs(env, f, if inside then Find(members, "custody").value.members else members);
  }

  lemma {:induction false} FieldReordered(env: Env, f: Field, chosen: Field, a: seq<Member>, b: seq<Member>, k: nat)
    requires Reordered(a, b, k) && a[k].key == Name(chosen.name) && chosen.name != "custody" && IsSet(chosen)
    requires f == chosen || f.name != chosen.name
    ensures ReadField(env, f, a) == ReadField(env, f, b)
  {
    ReadFieldArranges(env, f, a);
    ReadFieldArranges(env, f, b);
    FindElsewhere(a, b, k, "custody");
    if f == chosen {
      FindThere(a, b, k, f.name);
      SetReadPermutes(env, f, a[k].item.items, b[k].item.items);
    } else {
      FindElsewhere(a, b, k, f.name);
    }
  }

  lemma {:induction false} SameFieldsRead(env: Env, fields: seq<Field>, a: seq<Member>, b: seq<Member>)
    requires forall i :: 0 <= i < |fields| ==> ReadField(env, fields[i], a) == ReadField(env, fields[i], b)
    ensures ReadFields(env, fields, a) == ReadFields(env, fields, b)
    decreases |fields|
  {
    if fields != [] {
      SameFieldsRead(env, fields[..|fields| - 1], a, b);
    }
  }

  lemma {:induction false} FieldsReordered(env: Env, name: string, i: nat, a: seq<Member>, b: seq<Member>, k: nat)
    requires name in env.schemas && FieldNames(FullNames(env.schemas[name])) && i < |env.schemas[name].fields|
    requires IsSet(env.schemas[name].fields[i]) && Reordered(a, b, k) && a[k].key == Name(env.schemas[name].fields[i].name)
    ensures ReadFields(env, env.schemas[name].fields, a) == ReadFields(env, env.schemas[name].fields, b)
  {
    var fields := env.schemas[name].fields;
    SetNameApart(env.schemas[name], i);
    IdentNamesApart(env.schemas[name]);
    forall j | 0 <= j < |fields|
      ensures ReadField(env, fields[j], a) == ReadField(env, fields[j], b)
    {
      assert Names(fields)[j] == fields[j].name && Names(fields)[i] == fields[i].name;
      FieldReordered(env, fields[j], fields[i], a, b, k);
    }
    SameFieldsRead(env, fields, a, b);
  }

  /** A field's name is none of the names around it. */
  lemma SetNameApart(schema: Schema, i: nat)
    requires FieldNames(FullNames(schema)) && i < |schema.fields|
    ensures schema.fields[i].name != "custody"
    ensures schema.id.Some? ==> schema.fields[i].name !in {"schema_id", "schema_version", "content_hash"}
  {
    var all, h := FullNames(schema), |Head(schema)|;
    assert all[h + i] == schema.fields[i].name && all[|all| - 1] == "custody";
    if schema.id.Some? {
      assert all[0] == "schema_id" && all[1] == "schema_version" && all[|all| - 2] == "content_hash";
    }
  }

  lemma {:induction false} FrameReordered(env: Env, name: string, i: nat, a: seq<Member>, b: seq<Member>, k: nat, d: Datum)
    requires name in env.schemas && FieldNames(FullNames(env.schemas[name])) && i < |env.schemas[name].fields|
    requires Reordered(a, b, k) && a[k].key == Name(env.schemas[name].fields[i].name)
    ensures var schema := env.schemas[name];
      && (IdentityKnown(schema, a) <==> IdentityKnown(schema, b)) && (CustodyKnown(schema, a) <==> CustodyKnown(schema, b))
      && (HashKnown(env, schema, a, d) <==> HashKnown(env, schema, b, d))
  {
    SetNameApart(env.schemas[name], i);
    FindElsewhere(a, b, k, "custody");
    if env.schemas[name].id.Some? {
      FindElsewhere(a, b, k, "schema_id");
      FindElsewhere(a, b, k, "schema_version");
      FindElsewhere(a, b, k, "content_hash");
    }
  }

  lemma KeysReordered(a: seq<Member>, b: seq<Member>, k: nat, known: set<string>)
    requires DifferAt(a, b, k)
    ensures KnownKeys(a, known) <==> KnownKeys(b, known)
  {
    assert forall i :: 0 <= i < |a| ==> a[i].key == b[i].key;
  }

  /** A document whose set field lists its items in another order reads as the same object, or is refused alike. */
  lemma {:induction false} DocumentReordered(env: Env, name: string, i: nat, a: seq<Member>, b: seq<Member>, k: nat)
    requires WellFormed(env) && name in env.schemas && i < |env.schemas[name].fields| && IsSet(env.schemas[name].fields[i])
    requires Reordered(a, b, k) && a[k].key == Name(env.schemas[name].fields[i].name)
    ensures ReadObject(env, name, a) == ReadObject(env, name, b)
  {
    var schema := env.schemas[name];
    assert WellFormedSchema(env.l, schema);
    FieldsReordered(env, name, i, a, b, k);
    KeysReordered(a, b, k, FieldSet(schema.fields) + RESERVED);
    var out := ReadFields(env, schema.fields, a);
    FrameReordered(env, name, i, a, b, k, Instance(name, if out.Ok? then out.value else []));
  }
}
