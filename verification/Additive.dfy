/** The inventory's "only adds" and what documents need of a change: how far `breaking_changes`
    (runtime_contracts/qa/inventory.py) sees, and what it does not. */
module Additive {
  import opened Wrappers
  import opened Canonical
  import opened Json
  import opened Forms
  import opened Codec
  import opened CodecForms
  import opened Construction
  import opened Inventory
  import opened Evolution
  import opened EvolvedReading

  // ---- the inventory of an environment ----

  function EntryFor(f: Field): FieldEntry {
    FieldEntry(f.typ, f.default.None?, f.custody)
  }

  /** The fields of a schema by name, as the inventory lists them. */
  function FieldsOf(fields: seq<Field>): map<string, FieldEntry> {
    if fields == [] then map[]
    else FieldsOf(fields[..|fields| - 1])[fields[|fields| - 1].name := EntryFor(fields[|fields| - 1])]
  }

  function EntryOf(schema: Schema): SchemaEntry {
    SchemaEntry(if schema.id.Some? then Some(schema.id.value.schemaId) else None,
                if schema.id.Some? then Some(schema.id.value.schemaVersion) else None, FieldsOf(schema.fields))
  }

  function SectionOf(env: Env): map<string, SchemaEntry> {
    map n | n in env.schemas :: EntryOf(env.schemas[n])
  }

  /** `inventory`: the schemas with an id are its records, the others its values; `rest` gives what does not describe schemas. */
  function InventoryOf(env: Env, rest: Snapshot): Snapshot {
    rest.(records := Recorded(env, true), values := Recorded(env, false), reused := map[], enums := env.enums)
  }

  function Recorded(env: Env, ids: bool): map<string, SchemaEntry> {
    map n | n in env.schemas && env.schemas[n].id.Some? == ids :: EntryOf(env.schemas[n])
  }

  /** Between the two sections no schema is lost: none becomes a value that was a record, or a record that was a value. */
  lemma {:induction false} SectionsTogether(a: Env, b: Env)
    ensures SectionKept(Recorded(a, true), Recorded(b, true)) && SectionKept(Recorded(a, false), Recorded(b, false))
       <==> SectionKept(SectionOf(a), SectionOf(b))
  {
    if SectionKept(SectionOf(a), SectionOf(b)) {
      forall n, ids | n in Recorded(a, ids)
        ensures EntryKept(n, Recorded(a, ids)[n], Recorded(b, ids))
      {
        assert EntryKept(n, SectionOf(a)[n], SectionOf(b));
      }
    }
    if SectionKept(Recorded(a, true), Recorded(b, true)) && SectionKept(Recorded(a, false), Recorded(b, false)) {
      forall n | n in SectionOf(a)
        ensures EntryKept(n, SectionOf(a)[n], SectionOf(b))
      {
        var ids := a.schemas[n].id.Some?;
        assert n in Recorded(a, ids) && EntryKept(n, Recorded(a, ids)[n], Recorded(b, ids));
      }
    }
  }

  /** What the inventory check says of the schemas and enums. */
  lemma InventorySees(a: Env, b: Env, before: Snapshot, after: Snapshot)
    ensures OnlyAdds(InventoryOf(a, before), InventoryOf(b, after)) ==> SectionKept(SectionOf(a), SectionOf(b)) && EnumsKept(a.enums, b.enums)
    ensures OnlyAdds(before, after) && SectionKept(SectionOf(a), SectionOf(b)) && EnumsKept(a.enums, b.enums)
        ==> OnlyAdds(InventoryOf(a, before), InventoryOf(b, after))
  {
    SectionsTogether(a, b);
  }

  lemma {:induction false} FieldsListed(fields: seq<Field>)
    requires forall i, j :: 0 <= i < j < |fields| ==> fields[i].name != fields[j].name
    ensures forall i :: 0 <= i < |fields| ==> fields[i].name in FieldsOf(fields) && FieldsOf(fields)[fields[i].name] == EntryFor(fields[i])
    ensures forall n :: n in FieldsOf(fields) ==> exists i :: 0 <= i < |fields| && fields[i].name == n
  {
    if fields != [] {
      var k := |fields| - 1;
      FieldsListed(fields[..k]);
      forall n | n in FieldsOf(fields)
        ensures exists i :: 0 <= i < |fields| && fields[i].name == n
      {
        if n == fields[k].name {
          assert fields[k].name == n;
        } else {
          var i :| 0 <= i < k && fields[..k][i].name == n;
          assert fields[i].name == n;
        }
      }
      assert forall i :: 0 <= i < k ==> fields[..k][i] == fields[i];
    }
  }

  lemma NamesDiffer(schema: Schema)
    requires FieldNames(FullNames(schema))
    ensures forall i, j :: 0 <= i < j < |schema.fields| ==> schema.fields[i].name != schema.fields[j].name
  {
    IdentNamesApart(schema);
    var names := Names(schema.fields);
    assert forall i, j :: 0 <= i < j < |names| ==> names[i] != names[j];
  }

  // ---- what the inventory does not list ----

  /** Of the fields in both: how a set is ordered, and the default a field already had. Of the added ones: that a set is in
      order by default, and that the name is not reserved. */
  ghost predicate UnlistedKept(a: Env, b: Env, x: Schema, y: Schema) {
    && (forall i, j :: 0 <= i < |x.fields| && 0 <= j < |y.fields| && x.fields[i].name == y.fields[j].name ==>
          && x.fields[i].order == y.fields[j].order
          && (x.fields[i].default.Some? && y.fields[j].default.Some? ==>
                y.fields[j].default.value == Lift(a, b, x.fields[i].default.value)))
    && (forall j :: 0 <= j < |y.fields| ==> y.fields[j].name in Names(x.fields) || FieldAdded(b, y.fields[j]))
  }

  lemma FieldKeptIff(a: Env, b: Env, f: Field, g: Field)
    requires f.name == g.name && f.order == g.order
    requires f.default.Some? && g.default.Some? ==> g.default.value == Lift(a, b, f.default.value)
    ensures FieldExtends(a, b, f, g) <==> FieldKept(EntryFor(f), EntryFor(g))
  {}

  lemma {:induction false} KeptFieldExtends(a: Env, b: Env, x: Schema, y: Schema, i: nat)
    requires FieldNames(FullNames(x)) && FieldNames(FullNames(y)) && i < |x.fields|
    requires SchemaKept(EntryOf(x), EntryOf(y)) && UnlistedKept(a, b, x, y)
    ensures exists j :: 0 <= j < |y.fields| && FieldExtends(a, b, x.fields[i], y.fields[j])
  {
    NamesDiffer(x);
    NamesDiffer(y);
    FieldsListed(x.fields);
    FieldsListed(y.fields);
    var name := x.fields[i].name;
    assert name in FieldsOf(x.fields) && name in FieldsOf(y.fields);
    var j :| 0 <= j < |y.fields| && y.fields[j].name == name;
    FieldKeptIff(a, b, x.fields[i], y.fields[j]);
  }

  lemma KeptExtends(a: Env, b: Env, x: Schema, y: Schema)
    requires FieldNames(FullNames(x)) && FieldNames(FullNames(y))
    requires SchemaKept(EntryOf(x), EntryOf(y)) && UnlistedKept(a, b, x, y)
    ensures SchemaExtends(a, b, x, y)
  {
    forall i | 0 <= i < |x.fields|
      ensures exists j :: 0 <= j < |y.fields| && FieldExtends(a, b, x.fields[i], y.fields[j])
    {
      KeptFieldExtends(a, b, x, y, i);
    }
  }

  lemma {:induction false} ExtendsKept(a: Env, b: Env, x: Schema, y: Schema)
    requires FieldNames(FullNames(x)) && FieldNames(FullNames(y)) && SchemaExtends(a, b, x, y)
    ensures SchemaKept(EntryOf(x), EntryOf(y)) && UnlistedKept(a, b, x, y)
  {
    NamesDiffer(x);
    NamesDiffer(y);
    FieldsListed(x.fields);
    FieldsListed(y.fields);
    forall i, j | 0 <= i < |x.fields| && 0 <= j < |y.fields| && x.fields[i].name == y.fields[j].name
      ensures FieldExtends(a, b, x.fields[i], y.fields[j])
    {
      var k :| 0 <= k < |y.fields| && FieldExtends(a, b, x.fields[i], y.fields[k]);
      SamePlace(y.fields, j, k);
    }
    FieldsAllKept(a, b, x, y);
    AddedAllOptional(a, b, x, y);
  }

  lemma SamePlace(fields: seq<Field>, j: nat, k: nat)
    requires forall i, j :: 0 <= i < j < |fields| ==> fields[i].name != fields[j].name
    requires j < |fields| && k < |fields| && fields[j].name == fields[k].name
    ensures j == k
  {}

  lemma ListedIff(fields: seq<Field>, name: string)
    requires forall i, j :: 0 <= i < j < |fields| ==> fields[i].name != fields[j].name
    ensures name in FieldsOf(fields) <==> name in Names(fields)
  {
    FieldsListed(fields);
    assert forall i :: 0 <= i < |fields| ==> Names(fields)[i] == fields[i].name;
  }

  lemma {:induction false} OneFieldKept(a: Env, b: Env, x: Schema, y: Schema, i: nat)
    requires FieldNames(FullNames(x)) && FieldNames(FullNames(y)) && SchemaExtends(a, b, x, y) && i < |x.fields|
    ensures x.fields[i].name in FieldsOf(y.fields)
    ensures FieldKept(EntryFor(x.fields[i]), FieldsOf(y.fields)[x.fields[i].name])
  {
    NamesDiffer(y);
    FieldsListed(y.fields);
    var j :| 0 <= j < |y.fields| && FieldExtends(a, b, x.fields[i], y.fields[j]);
    assert FieldsOf(y.fields)[y.fields[j].name] == EntryFor(y.fields[j]);
  }

  lemma FieldsAllKept(a: Env, b: Env, x: Schema, y: Schema)
    requires FieldNames(FullNames(x)) && FieldNames(FullNames(y)) && SchemaExtends(a, b, x, y)
    ensures forall f :: f in FieldsOf(x.fields) ==>
      f in FieldsOf(y.fields) && FieldKept(FieldsOf(x.fields)[f], FieldsOf(y.fields)[f])
  {
    NamesDiffer(x);
    FieldsListed(x.fields);
    forall f | f in FieldsOf(x.fields)
      ensures f in FieldsOf(y.fields) && FieldKept(FieldsOf(x.fields)[f], FieldsOf(y.fields)[f])
    {
      var i :| 0 <= i < |x.fields| && x.fields[i].name == f;
      OneFieldKept(a, b, x, y, i);
    }
  }

  lemma AddedAllOptional(a: Env, b: Env, x: Schema, y: Schema)
    requires FieldNames(FullNames(x)) && FieldNames(FullNames(y)) && SchemaExtends(a, b, x, y)
    ensures forall f :: f in FieldsOf(y.fields) && f !in FieldsOf(x.fields) ==> !FieldsOf(y.fields)[f].required
  {
    NamesDiffer(x);
    NamesDiffer(y);
    FieldsListed(y.fields);
    forall f | f in FieldsOf(y.fields) && f !in FieldsOf(x.fields)
      ensures !FieldsOf(y.fields)[f].required
    {
      ListedIff(x.fields, f);
      var j :| 0 <= j < |y.fields| && y.fields[j].name == f;
      assert FieldAdded(b, y.fields[j]) && FieldsOf(y.fields)[f] == EntryFor(y.fields[j]);
    }
  }

  /** What documents need of a change is what the inventory checks together with what it does not list. */
  lemma {:induction false} ExtendsIff(a: Env, b: Env)
    requires WellFormed(a) && WellFormed(b) && a.l == b.l && a.matches == b.matches && a.checked == b.checked
    ensures Extends(a, b)
       <==> && SectionKept(SectionOf(a), SectionOf(b)) && EnumsKept(a.enums, b.enums)
            && forall n :: n in a.schemas && n in b.schemas ==> UnlistedKept(a, b, a.schemas[n], b.schemas[n])
  {
    forall n | n in a.schemas && n in b.schemas
      ensures SchemaExtends(a, b, a.schemas[n], b.schemas[n])
         <==> SchemaKept(EntryOf(a.schemas[n]), EntryOf(b.schemas[n])) && UnlistedKept(a, b, a.schemas[n], b.schemas[n])
    {
      SchemaExtendsIff(a, b, n);
    }
    SectionIs(a, b);
  }

  lemma SectionIs(a: Env, b: Env)
    ensures SectionKept(SectionOf(a), SectionOf(b))
       <==> forall n :: n in a.schemas ==> n in b.schemas && SchemaKept(EntryOf(a.schemas[n]), EntryOf(b.schemas[n]))
  {
    if SectionKept(SectionOf(a), SectionOf(b)) {
      forall n | n in a.schemas
        ensures n in b.schemas && SchemaKept(EntryOf(a.schemas[n]), EntryOf(b.schemas[n]))
      {
        assert n in SectionOf(a);
        assert EntryKept(n, SectionOf(a)[n], SectionOf(b));
      }
    }
  }

  lemma SchemaExtendsIff(a: Env, b: Env, n: string)
    requires WellFormed(a) && WellFormed(b) && n in a.schemas && n in b.schemas
    ensures SchemaExtends(a, b, a.schemas[n], b.schemas[n])
       <==> SchemaKept(EntryOf(a.schemas[n]), EntryOf(b.schemas[n])) && UnlistedKept(a, b, a.schemas[n], b.schemas[n])
  {
    var x, y := a.schemas[n], b.schemas[n];
    assert WellFormedSchema(a.l, x) && WellFormedSchema(b.l, y);
    if SchemaExtends(a, b, x, y) {
      ExtendsKept(a, b, x, y);
    }
    if SchemaKept(EntryOf(x), EntryOf(y)) && UnlistedKept(a, b, x, y) {
      KeptExtends(a, b, x, y);
    }
  }

  // ---- what becomes of documents ----

  /** What is needed of a change besides what the inventory checks. */
  ghost predicate Unlisted(a: Env, b: Env) {
    && WellFormed(a) && WellFormed(b) && DefaultsFormed(a) && DefaultsFormed(b)
    && a.l == b.l && a.matches == b.matches && a.checked == b.checked
    && forall n :: n in a.schemas && n in b.schemas ==> UnlistedKept(a, b, a.schemas[n], b.schemas[n])
  }

  /** The inventory finds nothing breaking, and what it does not list is kept too. */
  ghost predicate AddsOnly(a: Env, b: Env) {
    Unlisted(a, b) && SectionKept(SectionOf(a), SectionOf(b)) && EnumsKept(a.enums, b.enums)
  }

  /** No added field is part of identity and has a default other than null. */
  ghost predicate NothingShows(a: Env, b: Env) {
    forall n :: n in a.schemas && n in b.schemas ==> !SchemaShows(a.schemas[n], b.schemas[n])
  }

  /** A document the old schemas accept is accepted by the new ones, as the same object with the added fields at their
      defaults, exactly when no object in it that carries its hash shows the change and no value in it outgrows its limit. */
  lemma {:induction false} DocumentAcceptedIff(a: Env, b: Env, name: string, members: seq<Member>)
    requires AddsOnly(a, b) && ReadObject(a, name, members).Ok?
    ensures ReadObject(b, name, members).Ok? <==> ObjectSpared(a, b, name, members)
    ensures ReadObject(b, name, members).Ok? ==> ReadObject(b, name, members).value == Lift(a, b, ReadObject(a, name, members).value)
  {
    ExtendsIff(a, b);
    ObjectEvolves(a, b, name, members);
  }

  /** Stored hashes aside, and with no limit on the canonical size of what shows the change, every document the old schemas
      accept is accepted by the new ones, whatever the defaults. */
  lemma {:induction false} StructureSurvives(a: Env, b: Env, grown: set<string>, name: string, members: seq<Member>)
    requires AddsOnly(a, b) && Covers(a, b, grown) && Sparing(a, grown) && !a.checked && ReadObject(a, name, members).Ok?
    ensures ReadObject(b, name, members) == Ok(Lift(a, b, ReadObject(a, name, members).value))
  {
    ExtendsIff(a, b);
    HarmlessSparesObject(a, b, grown, name, members);
    DocumentAcceptedIff(a, b, name, members);
  }

  /** When every added field is null by default or custody, every document survives, with its stored hashes, and is the same
      bytes for identity. */
  lemma {:induction false} DocumentsSurvive(a: Env, b: Env, name: string, members: seq<Member>)
    requires AddsOnly(a, b) && ReadObject(a, name, members).Ok?
    requires NothingShows(a, b)
    ensures var d := ReadObject(a, name, members).value;
      && ReadObject(b, name, members) == Ok(Lift(a, b, d))
      && CanonicalJson(b.l, Ident(b, Lift(a, b, d))) == CanonicalJson(a.l, Ident(a, d))
      && ContentHash(b.l, Ident(b, Lift(a, b, d))) == ContentHash(a.l, Ident(a, d))
  {
    NothingGrown(a, b);
    ExtendsIff(a, b);
    HarmlessSparesObject(a, b, {}, name, members);
    DocumentAcceptedIff(a, b, name, members);
    ObjectIsFormed(a, name, members);
    LiftIdentityIff(a, b, RefType(name), ReadObject(a, name, members).value);
    FormedQuiet(a, b, {}, RefType(name), ReadObject(a, name, members).value);
  }

  // ---- from one inventory to the next ----

  /** Where the inventory check finds nothing between two versions, what the new one does with a document of the old one is
      settled. */
  lemma {:induction false} CheckedChange(a: Env, b: Env, before: Snapshot, after: Snapshot, name: string, members: seq<Member>)
    requires OnlyAdds(InventoryOf(a, before), InventoryOf(b, after)) && Unlisted(a, b) && ReadObject(a, name, members).Ok?
    ensures ReadObject(b, name, members) == If(ObjectSpared(a, b, name, members), Lift(a, b, ReadObject(a, name, members).value))
    ensures NothingShows(a, b) ==> ObjectSpared(a, b, name, members)
  {
    InventorySees(a, b, before, after);
    DocumentAcceptedIff(a, b, name, members);
    if NothingShows(a, b) {
      DocumentsSurvive(a, b, name, members);
    }
  }

  /** A history of versions, each with what its inventory says besides. */
  ghost predicate Checked(envs: seq<Env>, rests: seq<Snapshot>) {
    |envs| == |rests| && forall k :: 0 < k < |envs| ==> StepChecked(envs, rests, k)
  }

  ghost predicate StepChecked(envs: seq<Env>, rests: seq<Snapshot>, k: nat)
    requires 0 < k < |envs| == |rests|
  {
    && OnlyAdds(InventoryOf(envs[k - 1], rests[k - 1]), InventoryOf(envs[k], rests[k]))
    && Unlisted(envs[k - 1], envs[k]) && NothingShows(envs[k - 1], envs[k])
  }

  /** The document is accepted by both, as objects with the same canonical bytes and the same hash. */
  ghost predicate SameFor(a: Env, b: Env, name: string, members: seq<Member>) {
    && a.l == b.l && ReadObject(a, name, members).Ok? && ReadObject(b, name, members).Ok?
    && var d, e := ReadObject(a, name, members).value, ReadObject(b, name, members).value;
       && CanonicalJson(b.l, Ident(b, e)) == CanonicalJson(a.l, Ident(a, d))
       && ContentHash(b.l, Ident(b, e)) == ContentHash(a.l, Ident(a, d))
  }

  /** Along any history that passes the check at each step and adds only fields that are null by default or custody, a document
      any version accepts is accepted by every later one, as an object with the same canonical bytes and the same hash. */
  lemma {:induction false} DocumentsSurviveHistory(envs: seq<Env>, rests: seq<Snapshot>, i: nat, j: nat, name: string, members: seq<Member>)
    requires Checked(envs, rests) && i <= j < |envs| && ReadObject(envs[i], name, members).Ok?
    ensures SameFor(envs[i], envs[j], name, members)
    decreases j
  {
    if i == j {
      SameForSelf(envs[i], name, members);
    } else {
      DocumentsSurviveHistory(envs, rests, i, j - 1, name, members);
      StepSame(envs, rests, j, name, members);
      SameForBoth(envs[i], envs[j - 1], envs[j], name, members);
    }
  }

  lemma StepSame(envs: seq<Env>, rests: seq<Snapshot>, k: nat, name: string, members: seq<Member>)
    requires 0 < k < |envs| == |rests| && StepChecked(envs, rests, k) && ReadObject(envs[k - 1], name, members).Ok?
    ensures SameFor(envs[k - 1], envs[k], name, members)
  {
    InventorySees(envs[k - 1], envs[k], rests[k - 1], rests[k]);
    NextVersionSame(envs[k - 1], envs[k], name, members);
  }

  lemma NextVersionSame(a: Env, b: Env, name: string, members: seq<Member>)
    requires AddsOnly(a, b) && NothingShows(a, b) && ReadObject(a, name, members).Ok?
    ensures SameFor(a, b, name, members)
  {
    DocumentsSurvive(a, b, name, members);
  }

  lemma SameForSelf(a: Env, name: string, members: seq<Member>)
    requires ReadObject(a, name, members).Ok?
    ensures SameFor(a, a, name, members)
  {}

  lemma SameForBoth(a: Env, b: Env, c: Env, name: string, members: seq<Member>)
    requires SameFor(a, b, name, members) && SameFor(b, c, name, members)
    ensures SameFor(a, c, name, members)
  {}
}
