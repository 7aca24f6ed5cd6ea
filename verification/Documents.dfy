/** The JSON document of a qa object: what is found in it under each name, and how the fields are read from it. */
module Documents {
  import opened Wrappers
  import opened Platform
  import opened Canonical
  import opened Forms
  import opened Codec
  import opened CodecForms

  /** These are the members of the document of an object with these parts. */
  ghost predicate Document(l: Runtime, schema: Schema, parts: seq<Value>, hash: Value, members: seq<Member>) {
    && WellFormedSchema(l, schema) && |parts| == |schema.fields|
    && AllAccepted(l, parts) && Canonicalize(l, hash).Ok?
    && Canonicalize(l, FormOf(FullNames(schema), FullItems(schema, parts, hash))) == Ok(Map(members))
  }

  function FieldPlace(schema: Schema, i: nat): nat {
    |Head(schema)| + i
  }

  lemma FieldAt(schema: Schema, parts: seq<Value>, hash: Value, i: nat)
    requires |parts| == |schema.fields| && i < |parts|
    ensures FieldPlace(schema, i) < |FullNames(schema)|
    ensures FullNames(schema)[FieldPlace(schema, i)] == schema.fields[i].name
    ensures FullItems(schema, parts, hash)[FieldPlace(schema, i)] == if schema.fields[i].custody then Null else parts[i]
  {
    assert FullItems(schema, parts, hash)[FieldPlace(schema, i)] == Public(schema, parts)[i];
  }

  lemma PublicFound(l: Runtime, schema: Schema, parts: seq<Value>, hash: Value, members: seq<Member>, i: nat)
    requires Document(l, schema, parts, hash, members) && i < |parts|
    ensures Find(members, schema.fields[i].name)
         == if schema.fields[i].custody then None else Presence(Canonicalize(l, parts[i]).value)
  {
    FieldAt(schema, parts, hash, i);
    FormFind(l, FullNames(schema), FullItems(schema, parts, hash), FieldPlace(schema, i));
  }

  lemma {:induction false} HeadFound(l: Runtime, schema: Schema, parts: seq<Value>, hash: Value, members: seq<Member>)
    requires Document(l, schema, parts, hash, members)
    ensures IdentityKnown(schema, members)
  {
    if schema.id.Some? {
      var names, items := FullNames(schema), FullItems(schema, parts, hash);
      assert names[0] == "schema_id" && items[0] == Str(schema.id.value.schemaId);
      assert names[1] == "schema_version" && items[1] == Str(schema.id.value.schemaVersion);
      FormFind(l, names, items, 0);
      FormFind(l, names, items, 1);
    }
  }

  lemma HashFound(l: Runtime, schema: Schema, parts: seq<Value>, hash: Value, members: seq<Member>)
    requires Document(l, schema, parts, hash, members) && schema.id.Some?
    ensures Find(members, "content_hash") == Presence(Canonicalize(l, hash).value)
  {
    var names, items := FullNames(schema), FullItems(schema, parts, hash);
    var k := FieldPlace(schema, |parts|);
    assert names[k] == "content_hash" && items[k] == hash;
    FormFind(l, names, items, k);
  }

  lemma CustodyFound(l: Runtime, schema: Schema, parts: seq<Value>, hash: Value, members: seq<Member>)
    requires Document(l, schema, parts, hash, members)
    ensures Canonicalize(l, CustodyItem(schema, parts)).Ok?
    ensures Find(members, "custody") == Presence(Canonicalize(l, CustodyItem(schema, parts)).value)
  {
    var names, items := FullNames(schema), FullItems(schema, parts, hash);
    var k := |names| - 1;
    assert names[k] == "custody" && items[k] == CustodyItem(schema, parts);
    FormFind(l, names, items, k);
  }

  lemma NamesKnown(schema: Schema, name: string)
    requires name in FullNames(schema)
    ensures name in FieldSet(schema.fields) + RESERVED
  {
    if name in Names(schema.fields) {
      var i :| 0 <= i < |schema.fields| && Names(schema.fields)[i] == name;
      assert schema.fields[i] in schema.fields;
    }
  }

  lemma KeysFound(l: Runtime, schema: Schema, parts: seq<Value>, hash: Value, members: seq<Member>)
    requires Document(l, schema, parts, hash, members)
    ensures KnownKeys(members, FieldSet(schema.fields) + RESERVED)
  {
    FormKeys(l, FullNames(schema), FullItems(schema, parts, hash));
    forall i | 0 <= i < |members|
      ensures members[i].key.Name? && members[i].key.name in FieldSet(schema.fields) + RESERVED
    {
      assert members[i] in members;
      NamesKnown(schema, members[i].key.name);
    }
  }

  // ---- custody ----

  /** These are the members of the custody object. */
  ghost predicate CustodyObject(l: Runtime, schema: Schema, parts: seq<Value>, held: seq<Member>) {
    && WellFormedSchema(l, schema) && |parts| == |schema.fields| && AllAccepted(l, parts)
    && Canonicalize(l, FormOf(Names(schema.fields), Held(schema, parts))) == Ok(Map(held))
  }

  lemma HeldFound(l: Runtime, schema: Schema, parts: seq<Value>, held: seq<Member>, i: nat)
    requires CustodyObject(l, schema, parts, held) && i < |parts|
    ensures Find(held, schema.fields[i].name)
         == if schema.fields[i].custody then Presence(Canonicalize(l, parts[i]).value) else None
  {
    IdentNamesApart(schema);
    FormFind(l, Names(schema.fields), Held(schema, parts), i);
  }

  lemma HeldKnown(l: Runtime, schema: Schema, parts: seq<Value>, held: seq<Member>)
    requires CustodyObject(l, schema, parts, held)
    ensures KnownKeys(held, CustodySet(schema.fields))
  {
    IdentNamesApart(schema);
    FormKeys(l, Names(schema.fields), Held(schema, parts));
    forall j | 0 <= j < |held|
      ensures held[j].key.Name? && held[j].key.name in CustodySet(schema.fields)
    {
      assert held[j] in held;
      var i :| 0 <= i < |schema.fields| && Names(schema.fields)[i] == held[j].key.name;
      HeldFound(l, schema, parts, held, i);
      FindSome(held, j);
      assert schema.fields[i] in schema.fields;
    }
  }

  lemma {:induction false} FindSome(members: seq<Member>, j: nat)
    requires j < |members| && members[j].key.Name?
    ensures Find(members, members[j].key.name).Some?
  {
    var n := |members| - 1;
    if j < n {
      FindSome(members[..n], j);
    }
  }

  /** The custody object of a document: none, and then nothing is held, or an object of what is held. */
  lemma CustodyIs(l: Runtime, schema: Schema, parts: seq<Value>, hash: Value, members: seq<Member>)
    requires Document(l, schema, parts, hash, members)
    ensures Find(members, "custody").None? ==>
      forall i :: 0 <= i < |parts| && schema.fields[i].custody ==> parts[i].Null?
    ensures Find(members, "custody").Some? ==>
      Find(members, "custody").value.Map? && CustodyObject(l, schema, parts, Find(members, "custody").value.members)
  {
    CustodyFound(l, schema, parts, hash, members);
    var custody := CustodyItem(schema, parts);
    if custody.Null? {
      forall i | 0 <= i < |parts| && schema.fields[i].custody
        ensures parts[i].Null?
      {
        assert Held(schema, parts)[i] == parts[i];
      }
    }
  }

  lemma CustodyIsKnown(l: Runtime, schema: Schema, parts: seq<Value>, hash: Value, members: seq<Member>)
    requires Document(l, schema, parts, hash, members)
    ensures CustodyKnown(schema, members)
  {
    CustodyIs(l, schema, parts, hash, members);
    if Find(members, "custody").Some? {
      HeldKnown(l, schema, parts, Find(members, "custody").value.members);
    }
  }

  // ---- fields ----

  /** Reading one field whose canonical value is this; null stands for not being there. */
  function Given(env: Env, f: Field, v: Value): Result<Datum> {
    var d :- if !v.Null? then Read(env, f.typ, v) else if f.default.Some? then Ok(f.default.value) else Refused;
    Arrange(env, f.order, d)
  }

  lemma ReadGivenIs(env: Env, f: Field, members: seq<Member>)
    ensures ReadGiven(env, f, members)
         == match Find(members, f.name)
            case Some(v) => Read(env, f.typ, v)
            case None => if f.default.Some? then Ok(f.default.value) else Refused
  {}

  lemma ReadFieldIs(env: Env, f: Field, members: seq<Member>)
    ensures ReadField(env, f, members)
         == var inside := Find(members, "custody").Some? && Find(members, "custody").value.Map?
                          && Find(Find(members, "custody").value.members, f.name).Some?;
            var d :- ReadGiven(env, f, if inside then Find(members, "custody").value.members else members);
            Arrange(env, f.order, d)
  {}

  /** Each field of a document is read as its own part, wherever it is kept. */
  lemma {:induction false} FieldRead(env: Env, schema: Schema, parts: seq<Value>, hash: Value, members: seq<Member>, i: nat)
    requires Document(env.l, schema, parts, hash, members) && i < |parts|
    ensures ReadField(env, schema.fields[i], members) == Given(env, schema.fields[i], Canonicalize(env.l, parts[i]).value)
  {
    var f := schema.fields[i];
    ReadFieldIs(env, f, members);
    PublicFound(env.l, schema, parts, hash, members, i);
    CustodyIs(env.l, schema, parts, hash, members);
    ReadGivenIs(env, f, members);
    if Find(members, "custody").Some? {
      var held := Find(members, "custody").value.members;
      HeldFound(env.l, schema, parts, held, i);
      ReadGivenIs(env, f, held);
    }
  }
}
