/** A change that `breaking_changes` (runtime_contracts/qa/inventory.py) lets through and that makes a stored document
    unreadable: a value embedded in a record gets an optional field that is false by default. */
module EmbeddedDefault {
  import opened Wrappers
  import opened Text
  import opened Platform
  import opened Canonical
  import opened Forms
  import opened Codec
  import opened CodecForms
  import opened Documents
  import opened RoundTrip
  import opened Construction
  import opened Inventory
  import opened Evolution
  import opened EvolvedReading
  import opened Additive

  /** A record that holds one value. */
  function Outer(): Schema {
    Schema(Some(Id("o", "1")), [Field("inner", RefType("v"), None, false, NoSet)])
  }

  function Bare(): Schema {
    Schema(None, [])
  }

  function Flag(): Field {
    Field("flag", BoolType, Some(Boolean(false)), false, NoSet)
  }

  /** The same value with an optional field that is false by default. */
  function Flagged(): Schema {
    Schema(None, [Flag()])
  }

  function Before(l: Runtime): Env {
    Env(l, map["o" := Outer(), "v" := Bare()], map[], (p, s) => true, true)
  }

  function After(l: Runtime): Env {
    Env(l, map["o" := Outer(), "v" := Flagged()], map[], (p, s) => true, true)
  }

  function Object(): Datum {
    Instance("o", [Instance("v", [])])
  }

  // ---- the schemas are well formed ----

  const OUTER_NAMES: seq<string> := ["schema_id", "schema_version", "inner", "content_hash", "custody"]

  lemma OuterNames()
    ensures FullNames(Outer()) == OUTER_NAMES && FieldNames(OUTER_NAMES)
  {
    var codes := [619369, 947055, 354661, 811891, 484196];
    assert forall i :: 0 <= i < 5 ==> Ascii(OUTER_NAMES[i]) && Code(OUTER_NAMES[i]) == codes[i];
    ToldApart(OUTER_NAMES, codes);
    assert Names(Outer().fields) == ["inner"];
  }

  lemma ValueNames()
    ensures FullNames(Bare()) == ["custody"] && FieldNames(["custody"])
    ensures FullNames(Flagged()) == ["flag", "custody"] && FieldNames(["flag", "custody"])
  {
    assert Names(Bare().fields) == [] && Names(Flagged().fields) == ["flag"];
    FlagNames();
  }

  lemma FlagNames()
    ensures FieldNames(["custody"]) && FieldNames(["flag", "custody"])
  {
    assert |"flag"| == 4 && |"custody"| == 7;
  }

  lemma SchemasWellFormed(l: Runtime)
    ensures WellFormed(Before(l)) && WellFormed(After(l)) && DefaultsFormed(Before(l)) && DefaultsFormed(After(l))
  {
    OuterWellFormed(l);
    ValuesWellFormed(l);
  }

  lemma OuterWellFormed(l: Runtime)
    ensures WellFormedSchema(l, Outer())
  {
    OuterNames();
    AsciiIsNormal(l, "o");
    AsciiIsNormal(l, "1");
  }

  lemma ValuesWellFormed(l: Runtime)
    ensures WellFormedSchema(l, Bare()) && WellFormedSchema(l, Flagged())
  {
    ValueNames();
  }

  // ---- the change only adds ----

  lemma SectionsKept(l: Runtime)
    ensures SectionKept(SectionOf(Before(l)), SectionOf(After(l)))
  {
    assert Flagged().fields[..0] == [];
    assert FieldsOf(Bare().fields) == map[] && FieldsOf(Flagged().fields[..0]) == map[];
    assert SchemaKept(EntryOf(Bare()), EntryOf(Flagged()));
    assert SchemaKept(EntryOf(Outer()), EntryOf(Outer()));
  }

  lemma ChangeAddsOnly(l: Runtime)
    ensures AddsOnly(Before(l), After(l))
  {
    SchemasWellFormed(l);
    SectionsKept(l);
    OuterUnlisted(l);
    ValueUnlisted(l);
    AllUnlisted(Before(l), After(l));
  }

  lemma AllUnlisted(a: Env, b: Env)
    requires a.schemas == map["o" := Outer(), "v" := Bare()] && b.schemas == map["o" := Outer(), "v" := Flagged()]
    requires UnlistedKept(a, b, Outer(), Outer()) && UnlistedKept(a, b, Bare(), Flagged())
    ensures forall n :: n in a.schemas && n in b.schemas ==> UnlistedKept(a, b, a.schemas[n], b.schemas[n])
  {}

  lemma OuterUnlisted(l: Runtime)
    ensures UnlistedKept(Before(l), After(l), Outer(), Outer())
  {
    assert Names(Outer().fields)[0] == Outer().fields[0].name;
  }

  lemma ValueUnlisted(l: Runtime)
    ensures UnlistedKept(Before(l), After(l), Bare(), Flagged())
  {
    assert |"flag"| == 4 && |"custody"| == 7 && |"content_hash"| == 12 && |"schema_id"| == 9 && |"schema_version"| == 14;
    assert FieldAdded(After(l), Flag());
  }

  // ---- the document ----

  /** The object as it was written before. */
  ghost predicate OldDocument(l: Runtime, members: seq<Member>) {
    ToJson(Before(l), Object()) == Ok(Map(members))
  }

  lemma ObjectFormed(l: Runtime)
    ensures Formed(Before(l), RefType("o"), Object()) && Fits(Before(l), RefType("o"), Object())
  {
    assert Formed(Before(l), RefType("v"), Instance("v", []));
  }

  lemma ObjectPruned(l: Runtime)
    ensures Pruned(l, Object()) == Object()
  {
    assert Pruned(l, Instance("v", [])) == Instance("v", []);
  }

  lemma OldDocumentExists(l: Runtime)
    ensures exists members :: OldDocument(l, members)
  {
    SchemasWellFormed(l);
    ObjectFormed(l);
    JsonRoundTrip(Before(l), Object());
    assert OldDocument(l, ToJson(Before(l), Object()).value.members);
  }

  lemma OldDocumentReads(l: Runtime, members: seq<Member>)
    requires OldDocument(l, members)
    ensures ReadObject(Before(l), "o", members) == Ok(Object())
  {
    SchemasWellFormed(l);
    ObjectFormed(l);
    JsonRoundTrip(Before(l), Object());
    ObjectPruned(l);
  }

  /** It carries its hash. */
  lemma OldDocumentCarries(l: Runtime, members: seq<Member>)
    requires OldDocument(l, members)
    ensures CarriesHash(Outer(), members)
  {
    var env, d := Before(l), Object();
    SchemasWellFormed(l);
    ObjectFormed(l);
    CarriesWritten(env, d, members);
  }

  lemma ValuesWritable(env: Env, d: Datum)
    requires WellFormed(env) && d.Instance? && Formed(env, RefType(d.schema), d)
    ensures AllWritable(env, d.values)
  {
    forall i | 0 <= i < |d.values|
      ensures Writable(env, d.values[i])
    {
      FormedIsWritable(env, env.schemas[d.schema].fields[i].typ, d.values[i]);
    }
  }

  /** A record is written with its hash. */
  lemma CarriesWritten(env: Env, d: Datum, members: seq<Member>)
    requires WellFormed(env) && d.Instance? && Formed(env, RefType(d.schema), d) && ToJson(env, d) == Ok(Map(members))
    requires env.schemas[d.schema].id.Some?
    ensures CarriesHash(env.schemas[d.schema], members)
  {
    ValuesWritable(env, d);
    FormedIsWritable(env, RefType(d.schema), d);
    DocumentOf(env, d);
    HashAccepted(env, d);
    HashFound(env.l, env.schemas[d.schema], FullAll(env, d.values), HashItem(env, d), members);
    assert Canonicalize(env.l, HashItem(env, d)).value.Str?;
  }

  lemma ChangeShows(l: Runtime)
    ensures Shows(Before(l), After(l), Object())
  {
    assert Names(Bare().fields) == [] && AddedShows(Bare(), Flagged().fields[0]);
    assert Shows(Before(l), After(l), Object().values[0]);
  }

  /** The inventory finds nothing breaking in the change, there is such a document, the old schemas accept it, and the new ones
      refuse it. */
  lemma StoredHashBreaks(l: Runtime, rest: Snapshot, members: seq<Member>)
    requires OldDocument(l, members)
    ensures OnlyAdds(InventoryOf(Before(l), rest), InventoryOf(After(l), rest))
    ensures ReadObject(Before(l), "o", members) == Ok(Object()) && ReadObject(After(l), "o", members).Refused?
  {
    ChangeAddsOnly(l);
    OldDocumentReads(l, members);
    OldDocumentCarries(l, members);
    ChangeShows(l);
    OnlyAddsReflexive(rest);
    InventorySees(Before(l), After(l), rest, rest);
    DocumentAcceptedIff(Before(l), After(l), "o", members);
  }
}
