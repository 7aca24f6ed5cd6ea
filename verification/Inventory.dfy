/** The additive-only inventory of the qa contracts (`breaking_changes` in runtime_contracts/qa/inventory.py). */
module Inventory {
  import opened Wrappers
  import opened Text
  import opened Codec

  datatype FieldEntry = FieldEntry(typ: Type, required: bool, custody: bool)

  datatype SchemaEntry = SchemaEntry(schemaId: Option<string>, schemaVersion: Option<string>, fields: map<string, FieldEntry>)

  /** A protocol is given by its description. */
  datatype Snapshot = Snapshot(
    contract: string, schemaVersion: string, records: map<string, SchemaEntry>, values: map<string, SchemaEntry>,
    reused: map<string, SchemaEntry>, enums: map<string, set<string>>, protocols: map<string, string>,
    apiVersions: map<string, string>)

  // ---- what it means only to add ----

  predicate FieldKept(a: FieldEntry, b: FieldEntry) {
    a.typ == b.typ && a.custody == b.custody && (b.required ==> a.required)
  }

  predicate SchemaKept(a: SchemaEntry, b: SchemaEntry) {
    && a.schemaId == b.schemaId && a.schemaVersion == b.schemaVersion
    && (forall f :: f in a.fields ==> f in b.fields && FieldKept(a.fields[f], b.fields[f]))
    && (forall f :: f in b.fields && f !in a.fields ==> !b.fields[f].required)
  }

  predicate EntryKept(n: string, e: SchemaEntry, b: map<string, SchemaEntry>) {
    n in b && SchemaKept(e, b[n])
  }

  predicate SectionKept(a: map<string, SchemaEntry>, b: map<string, SchemaEntry>) {
    forall n :: n in a ==> EntryKept(n, a[n], b)
  }

  predicate EnumKept(n: string, members: set<string>, b: map<string, set<string>>) {
    n in b && members <= b[n]
  }

  predicate EnumsKept(a: map<string, set<string>>, b: map<string, set<string>>) {
    forall n :: n in a ==> EnumKept(n, a[n], b)
  }

  predicate ProtocolsKept(a: map<string, string>, b: map<string, string>) {
    forall n :: n in a ==> n in b && a[n] == b[n]
  }

  /** Nothing was removed, renamed, retyped, newly required or moved between identity and custody, and no protocol or
      version changed. */
  predicate OnlyAdds(before: Snapshot, after: Snapshot) {
    && before.contract == after.contract && before.schemaVersion == after.schemaVersion
    && SectionKept(before.records, after.records) && SectionKept(before.values, after.values) && SectionKept(before.reused, after.reused)
    && EnumsKept(before.enums, after.enums) && ProtocolsKept(before.protocols, after.protocols)
    && before.apiVersions == after.apiVersions
  }

  // ---- breaking_changes ----

  datatype Break =
    | ContractChanged
    | Removed(name: string)
    | IdChanged(name: string)
    | FieldRemoved(name: string, field: string)
    | Retyped(name: string, field: string)
    | Moved(name: string, field: string)
    | BecameRequired(name: string, field: string)
    | AddedRequired(name: string, field: string)
    | EnumRemoved(name: string)
    | MemberLost(name: string, member: string)
    | ProtocolChanged(name: string)
    | ApiVersionChanged

  /** Differences in one schema. */
  method SchemaBreaks(name: string, a: SchemaEntry, b: SchemaEntry) returns (found: seq<Break>)
    ensures found == [] <==> SchemaKept(a, b)
  {
    found := [];
    if a.schemaId != b.schemaId || a.schemaVersion != b.schemaVersion {
      found := found + [IdChanged(name)];
    }
    var mine := FieldBreaks(name, a.fields, b.fields);
    var added := AddedBreaks(name, a.fields, b.fields);
    found := found + mine + added;
  }

  /** The loop over the fields that were there. */
  method FieldBreaks(name: string, a: map<string, FieldEntry>, b: map<string, FieldEntry>) returns (found: seq<Break>)
    ensures found == [] <==> forall f :: f in a ==> f in b && FieldKept(a[f], b[f])
  {
    found := [];
    var names := Ascending(a.Keys);
    for i := 0 to |names|
      invariant found == [] <==> forall k :: 0 <= k < i ==> names[k] in b && FieldKept(a[names[k]], b[names[k]])
    {
      var f := names[i];
      assert f in names;
      if f !in b {
        found := found + [FieldRemoved(name, f)];
        continue;
      }
      if b[f].typ != a[f].typ {
        found := found + [Retyped(name, f)];
      }
      if b[f].custody != a[f].custody {
        found := found + [Moved(name, f)];
      }
      if b[f].required && !a[f].required {
        found := found + [BecameRequired(name, f)];
      }
    }
    assert forall f :: f in a ==> f in names;
  }

  /** The loop over the fields that are there now. */
  method AddedBreaks(name: string, a: map<string, FieldEntry>, b: map<string, FieldEntry>) returns (found: seq<Break>)
    ensures found == [] <==> forall f :: f in b && f !in a ==> !b[f].required
  {
    found := [];
    var names := Ascending(b.Keys);
    for i := 0 to |names|
      invariant found == [] <==> forall k :: 0 <= k < i && names[k] !in a ==> !b[names[k]].required
    {
      var f := names[i];
      assert f in names;
      if f !in a && b[f].required {
        found := found + [AddedRequired(name, f)];
      }
    }
    assert forall f :: f in b ==> f in names;
  }

  method EntryBreaks(n: string, e: SchemaEntry, b: map<string, SchemaEntry>) returns (found: seq<Break>)
    ensures found == [] <==> EntryKept(n, e, b)
  {
    if n !in b {
      return [Removed(n)];
    }
    found := SchemaBreaks(n, e, b[n]);
  }

  method SectionBreaks(a: map<string, SchemaEntry>, b: map<string, SchemaEntry>) returns (found: seq<Break>)
    ensures found == [] <==> SectionKept(a, b)
  {
    found := [];
    var names := Ascending(a.Keys);
    assert forall k :: 0 <= k < |names| ==> names[k] in names;
    for i := 0 to |names|
      invariant found == [] <==> forall k :: 0 <= k < i ==> EntryKept(names[k], a[names[k]], b)
    {
      var more := EntryBreaks(names[i], a[names[i]], b);
      found := found + more;
    }
    EachKey(a, names);
  }

  lemma EachKey<V>(a: map<string, V>, names: seq<string>)
    requires forall n :: n in names <==> n in a.Keys
    ensures forall n :: n in a ==> exists k :: 0 <= k < |names| && names[k] == n
  {
    forall n | n in a
      ensures exists k :: 0 <= k < |names| && names[k] == n
    {
      assert n in names;
    }
  }

  lemma NothingLeftIff(a: set<string>, b: set<string>)
    ensures a - b == {} <==> a <= b
  {
    if a - b == {} {
      assert forall x :: x in a && x !in b ==> x in a - b;
    }
  }

  /** Members an enum has lost. */
  method MemberBreaks(n: string, members: set<string>, b: map<string, set<string>>) returns (found: seq<Break>)
    ensures found == [] <==> EnumKept(n, members, b)
  {
    if n !in b {
      return [EnumRemoved(n)];
    }
    var lost := Ascending(members - b[n]);
    found := seq(|lost|, k requires 0 <= k < |lost| => MemberLost(n, lost[k]));
    NothingLeftIff(members, b[n]);
  }

  method EnumBreaks(a: map<string, set<string>>, b: map<string, set<string>>) returns (found: seq<Break>)
    ensures found == [] <==> EnumsKept(a, b)
  {
    found := [];
    var names := Ascending(a.Keys);
    assert forall k :: 0 <= k < |names| ==> names[k] in names;
    for i := 0 to |names|
      invariant found == [] <==> forall k :: 0 <= k < i ==> EnumKept(names[k], a[names[k]], b)
    {
      var more := MemberBreaks(names[i], a[names[i]], b);
      found := found + more;
    }
    EachKey(a, names);
  }

  method ProtocolBreaks(a: map<string, string>, b: map<string, string>) returns (found: seq<Break>)
    ensures found == [] <==> ProtocolsKept(a, b)
  {
    found := [];
    var names := Ascending(a.Keys);
    for i := 0 to |names|
      invariant found == [] <==> forall k :: 0 <= k < i ==> names[k] in b && a[names[k]] == b[names[k]]
    {
      var n := names[i];
      assert n in names;
      if n !in b || a[n] != b[n] {
        found := found + [ProtocolChanged(n)];
      }
    }
    assert forall n :: n in a ==> n in names;
  }

  /** `breaking_changes`: empty exactly when the new inventory only adds to the old. */
  method BreakingChanges(before: Snapshot, after: Snapshot) returns (found: seq<Break>)
    ensures found == [] <==> OnlyAdds(before, after)
  {
    found := [];
    if before.contract != after.contract || before.schemaVersion != after.schemaVersion {
      found := found + [ContractChanged];
    }
    var records := SectionBreaks(before.records, after.records);
    var values := SectionBreaks(before.values, after.values);
    var reused := SectionBreaks(before.reused, after.reused);
    var enums := EnumBreaks(before.enums, after.enums);
    var protocols := ProtocolBreaks(before.protocols, after.protocols);
    found := found + records + values + reused + enums + protocols;
    if before.apiVersions != after.apiVersions {
      found := found + [ApiVersionChanged];
    }
  }

  /** Of one schema nothing was lost or changed, and what was added is optional. */
  ghost predicate NothingLost(a: SchemaEntry, b: SchemaEntry) {
    && a.schemaId == b.schemaId && a.schemaVersion == b.schemaVersion && a.fields.Keys <= b.fields.Keys
    && forall f :: f in b.fields ==>
         if f in a.fields then a.fields[f] == b.fields[f] || a.fields[f] == b.fields[f].(required := true) else !b.fields[f].required
  }

  ghost predicate NoneLost(a: map<string, SchemaEntry>, b: map<string, SchemaEntry>) {
    a.Keys <= b.Keys && forall n :: n in a ==> NothingLost(a[n], b[n])
  }

  /** "Only adds", as a comparison of what there is: of a field only that it is required may have changed, and only to optional;
      every enum member, protocol and version stands. */
  lemma OnlyAddsIff(a: Snapshot, b: Snapshot)
    ensures OnlyAdds(a, b)
       <==> && (a.contract, a.schemaVersion, a.apiVersions) == (b.contract, b.schemaVersion, b.apiVersions)
            && NoneLost(a.records, b.records) && NoneLost(a.values, b.values) && NoneLost(a.reused, b.reused)
            && (forall n, m :: n in a.enums && m in a.enums[n] ==> n in b.enums && m in b.enums[n]) && a.enums.Keys <= b.enums.Keys
            && a.protocols.Items <= b.protocols.Items
  {
    SectionIff(a.records, b.records);
    SectionIff(a.values, b.values);
    SectionIff(a.reused, b.reused);
    EnumsIff(a.enums, b.enums);
    ProtocolsIff(a.protocols, b.protocols);
  }

  lemma SchemaIff(a: SchemaEntry, b: SchemaEntry)
    ensures SchemaKept(a, b) <==> NothingLost(a, b)
  {}

  lemma {:induction false} SectionIff(a: map<string, SchemaEntry>, b: map<string, SchemaEntry>)
    ensures SectionKept(a, b) <==> NoneLost(a, b)
  {
    forall n | n in a && n in b
      ensures SchemaKept(a[n], b[n]) <==> NothingLost(a[n], b[n])
    {
      SchemaIff(a[n], b[n]);
    }
    if SectionKept(a, b) {
      assert forall n :: n in a ==> EntryKept(n, a[n], b);
    }
  }

  lemma EnumsIff(a: map<string, set<string>>, b: map<string, set<string>>)
    ensures EnumsKept(a, b)
       <==> (forall n, m :: n in a && m in a[n] ==> n in b && m in b[n]) && a.Keys <= b.Keys
  {
    if EnumsKept(a, b) {
      assert forall n :: n in a ==> EnumKept(n, a[n], b);
    }
  }

  lemma ProtocolsIff(a: map<string, string>, b: map<string, string>)
    ensures ProtocolsKept(a, b) <==> a.Items <= b.Items
  {
    if a.Items <= b.Items {
      forall n | n in a
        ensures n in b && a[n] == b[n]
      {
        assert (n, a[n]) in a.Items;
      }
    }
  }

  // ---- chains of versions ----

  lemma OnlyAddsReflexive(a: Snapshot)
    ensures OnlyAdds(a, a)
  {}

  lemma SchemaKeptTransitive(a: SchemaEntry, b: SchemaEntry, c: SchemaEntry)
    requires SchemaKept(a, b) && SchemaKept(b, c)
    ensures SchemaKept(a, c)
  {
    forall f | f in c.fields && f !in a.fields
      ensures !c.fields[f].required
    {
      if f in b.fields {
        assert FieldKept(b.fields[f], c.fields[f]);
      }
    }
    forall f | f in a.fields
      ensures f in c.fields && FieldKept(a.fields[f], c.fields[f])
    {
      assert FieldKept(a.fields[f], b.fields[f]);
    }
  }

  lemma SectionKeptTransitive(a: map<string, SchemaEntry>, b: map<string, SchemaEntry>, c: map<string, SchemaEntry>)
    requires SectionKept(a, b) && SectionKept(b, c)
    ensures SectionKept(a, c)
  {
    forall n | n in a
      ensures EntryKept(n, a[n], c)
    {
      assert EntryKept(n, a[n], b) && EntryKept(n, b[n], c);
      SchemaKeptTransitive(a[n], b[n], c[n]);
    }
  }

  lemma OnlyAddsTransitive(a: Snapshot, b: Snapshot, c: Snapshot)
    requires OnlyAdds(a, b) && OnlyAdds(b, c)
    ensures OnlyAdds(a, c)
  {
    SectionKeptTransitive(a.records, b.records, c.records);
    SectionKeptTransitive(a.values, b.values, c.values);
    SectionKeptTransitive(a.reused, b.reused, c.reused);
  }

  /** However many versions lie between, the last only adds to the first when each only adds to the one before. */
  lemma {:induction false} ChainOnlyAdds(versions: seq<Snapshot>, i: nat, j: nat)
    requires i <= j < |versions|
    requires forall k :: 0 < k < |versions| ==> OnlyAdds(versions[k - 1], versions[k])
    ensures OnlyAdds(versions[i], versions[j])
    decreases j
  {
    if i == j {
      OnlyAddsReflexive(versions[i]);
    } else {
      ChainOnlyAdds(versions, i, j - 1);
      OnlyAddsTransitive(versions[i], versions[j - 1], versions[j]);
    }
  }
}
