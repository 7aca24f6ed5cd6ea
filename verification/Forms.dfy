/** Records as the source builds their canonical_form: a dict with a fixed set of names, where what is empty is left
    out. Two records have the same canonical form exactly when they agree field by field. */
module Forms {
  import opened Wrappers
  import opened Text
  import opened Platform
  import opened Canonical

  /** A dict lookup in a parsed object: the last member with the key. */
  function Find(members: seq<Member>, name: string): Option<Value> {
    if members == [] then None
    else
      var last := members[|members| - 1];
      if last.key == Name(name) then Some(last.item) else Find(members[..|members| - 1], name)
  }

  lemma {:induction false} FindListed(members: seq<Member>, out: map<string, Value>, name: string)
    requires Lists(members, out)
    ensures Find(members, name) == if name in out then Some(out[name]) else None
  {
    if n :| 0 <= n < |members| && members[n].key == Name(name) {
      FindAt(members, name, n);
    } else {
      FindNone(members, name);
    }
  }

  lemma {:induction false} FindAt(members: seq<Member>, name: string, n: nat)
    requires KeysAscend(members) && n < |members| && members[n].key == Name(name)
    ensures Find(members, name) == Some(members[n].item)
  {
    var last := |members| - 1;
    if n < last {
      assert Before(members[n].key.name, members[last].key.name);
      BeforeIrreflexive(name);
      FindAt(members[..last], name, n);
    }
  }

  lemma {:induction false} FindNone(members: seq<Member>, name: string)
    requires forall i :: 0 <= i < |members| ==> members[i].key != Name(name)
    ensures Find(members, name).None?
  {
    if members != [] {
      FindNone(members[..|members| - 1], name);
    }
  }

  lemma {:induction false} ListingKeys(out: map<string, Value>)
    ensures KeysAscend(Listing(out))
    ensures forall k :: k in out ==> exists i :: 0 <= i < |Listing(out)| && Listing(out)[i].key == Name(k)
  {
    var members, keys := Listing(out), Ascending(out.Keys);
    assert forall i :: 0 <= i < |members| ==> members[i].key == Name(keys[i]);
    forall k | k in out
      ensures exists i :: 0 <= i < |members| && members[i].key == Name(k)
    {
      var i :| 0 <= i < |keys| && keys[i] == k;
      assert members[i].key == Name(k);
    }
  }

  lemma ListingLists(out: map<string, Value>)
    ensures Lists(Listing(out), out)
  {
    ListingKeys(out);
  }

  /** In the canonical form of a mapping whose keys stay distinct, each item is found, reduced, under its key. */
  lemma {:induction false} FindReduced(l: Runtime, row: seq<Member>, i: nat)
    requires Collect(l, row).Ok? && KeysDistinct(l, row) && i < |row|
    requires row[i].key.Name? && Contributes(l, row[i], row[i].key.name)
    requires forall j :: 0 <= j < |row| ==> row[j].key.Name?
    ensures Find(Canonicalize(l, Map(row)).value.members, row[i].key.name) == Some(ReduceMember(l, row[i]).value)
  {
    var out, name := Collect(l, row).value, row[i].key.name;
    LastItemWins(l, row, name);
    assert Kept(l, row, name, i);
    FindInListing(out, name);
  }

  lemma FindInListing(out: map<string, Value>, name: string)
    ensures Find(Listing(out), name) == if name in out then Some(out[name]) else None
  {
    ListingLists(out);
    FindListed(Listing(out), out, name);
  }

  // ---- records ----

  /** A record's fields under their names; a field left out is null here. */
  ghost predicate Record(l: Runtime, fields: seq<Member>) {
    && (forall i :: 0 <= i < |fields| ==> fields[i].key.Name? && l.nfc(fields[i].key.name) == fields[i].key.name)
    && (forall i, j :: 0 <= i < j < |fields| ==> fields[i].key != fields[j].key)
  }

  /** The dict the source builds: the fields that are not left out. */
  function Shown(fields: seq<Member>): seq<Member> {
    if fields == [] then []
    else
      var last := fields[|fields| - 1];
      Shown(fields[..|fields| - 1]) + if last.item.Null? then [] else [last]
  }

  lemma {:induction false} ShownCollects(l: Runtime, fields: seq<Member>)
    requires Record(l, fields)
    ensures Collect(l, Shown(fields)) == Collect(l, fields)
  {
    if fields != [] {
      var front, last := fields[..|fields| - 1], fields[|fields| - 1];
      ShownCollects(l, front);
      assert front + [last] == fields;
      if last.item.Null? {
        NullCollects(l, front, last);
        assert Shown(fields) == Shown(front);
      } else {
        LastCollects(l, Shown(front), front, last);
        assert Shown(fields) == Shown(front) + [last];
      }
    }
  }

  lemma LastCollects(l: Runtime, p: seq<Member>, q: seq<Member>, last: Member)
    requires Collect(l, p) == Collect(l, q)
    ensures Collect(l, p + [last]) == Collect(l, q + [last])
  {
    assert (p + [last])[..|p|] == p && (q + [last])[..|q|] == q;
  }

  lemma NullCollects(l: Runtime, front: seq<Member>, last: Member)
    requires last.key.Name? && last.item.Null?
    ensures Collect(l, front + [last]) == Collect(l, front)
  {
    assert (front + [last])[..|front|] == front && (front + [last])[|front|] == last;
    assert Canonicalize(l, Null) == Ok(Null);
  }

  /** A record has a canonical form exactly when each of its fields has. */
  lemma RecordAccepted(l: Runtime, fields: seq<Member>)
    requires Record(l, fields)
    ensures Canonicalize(l, Map(Shown(fields))).Ok?
       <==> forall i :: 0 <= i < |fields| ==> Canonicalize(l, fields[i].item).Ok?
  {
    ShownCollects(l, fields);
    CollectAcceptedIff(l, fields);
    forall i | 0 <= i < |fields|
      ensures Canonicalize(l, fields[i].item).Ok? <==> Acceptable(fields[i].item)
    {
      AcceptedIff(l, fields[i].item);
    }
  }

  function Presence(v: Value): Option<Value> {
    if v.Null? then None else Some(v)
  }

  /** What the canonical form of a record holds under a field's name. */
  lemma FieldFound(l: Runtime, fields: seq<Member>, i: nat)
    requires Record(l, fields) && i < |fields| && Canonicalize(l, Map(Shown(fields))).Ok?
    ensures Canonicalize(l, fields[i].item).Ok?
    ensures Find(Canonicalize(l, Map(Shown(fields))).value.members, fields[i].key.name)
         == Presence(Canonicalize(l, fields[i].item).value)
  {
    ShownCollects(l, fields);
    RecordAccepted(l, fields);
    var out, name := Collect(l, fields).value, fields[i].key.name;
    LastItemWins(l, fields, name);
    assert ReduceMember(l, fields[i]) == Canonicalize(l, fields[i].item);
    assert forall j :: 0 <= j < |fields| && Contributes(l, fields[j], name) ==> fields[j].key == fields[i].key && j == i;
    if Contributes(l, fields[i], name) {
      assert Kept(l, fields, name, i);
    }
    FindInListing(out, name);
  }

  /** The same names in the same places. */
  ghost predicate SameNames(a: seq<Member>, b: seq<Member>) {
    |a| == |b| && forall i :: 0 <= i < |a| ==> a[i].key == b[i].key
  }

  ghost predicate Agree(l: Runtime, a: seq<Member>, b: seq<Member>)
    requires |a| == |b|
  {
    forall i :: 0 <= i < |a| ==> Canonicalize(l, a[i].item) == Canonicalize(l, b[i].item)
  }

  lemma {:induction false} SameFieldsCollect(l: Runtime, a: seq<Member>, b: seq<Member>)
    requires SameNames(a, b) && Agree(l, a, b)
    ensures Collect(l, a) == Collect(l, b)
  {
    if a != [] {
      var n := |a| - 1;
      SameFieldsCollect(l, a[..n], b[..n]);
      assert ReduceMember(l, a[n]) == ReduceMember(l, b[n]);
    }
  }

  /** Two records have the same canonical form exactly when they agree field by field. */
  lemma SameFormIffSameFields(l: Runtime, a: seq<Member>, b: seq<Member>)
    requires Record(l, a) && Record(l, b) && SameNames(a, b)
    requires Canonicalize(l, Map(Shown(a))).Ok? && Canonicalize(l, Map(Shown(b))).Ok?
    ensures Canonicalize(l, Map(Shown(a))) == Canonicalize(l, Map(Shown(b))) <==> Agree(l, a, b)
  {
    if Agree(l, a, b) {
      ShownCollects(l, a);
      ShownCollects(l, b);
      SameFieldsCollect(l, a, b);
    } else if Canonicalize(l, Map(Shown(a))) == Canonicalize(l, Map(Shown(b))) {
      SameFormAgrees(l, a, b);
    }
  }

  lemma SameFormAgrees(l: Runtime, a: seq<Member>, b: seq<Member>)
    requires Record(l, a) && Record(l, b) && SameNames(a, b)
    requires Canonicalize(l, Map(Shown(a))).Ok? && Canonicalize(l, Map(Shown(a))) == Canonicalize(l, Map(Shown(b)))
    ensures Agree(l, a, b)
  {
    forall i | 0 <= i < |a|
      ensures Canonicalize(l, a[i].item) == Canonicalize(l, b[i].item)
    {
      FieldFound(l, a, i);
      FieldFound(l, b, i);
    }
  }

  // ---- records given by their names and items ----

  function Fielded(names: seq<string>, items: seq<Value>): (r: seq<Member>)
    requires |names| == |items|
    ensures |r| == |names| && forall i :: 0 <= i < |r| ==> r[i] == Member(Name(names[i]), items[i])
  {
    seq(|names|, i requires 0 <= i < |names| => Member(Name(names[i]), items[i]))
  }

  /** Distinct plain names. */
  ghost predicate FieldNames(names: seq<string>) {
    (forall i :: 0 <= i < |names| ==> Ascii(names[i])) && forall i, j :: 0 <= i < j < |names| ==> names[i] != names[j]
  }

  /** Names told apart by their numbers. */
  lemma ToldApart(names: seq<string>, codes: seq<int>)
    requires |names| == |codes| && forall i :: 0 <= i < |names| ==> Ascii(names[i]) && Code(names[i]) == codes[i]
    requires forall i, j :: 0 <= i < j < |codes| ==> codes[i] != codes[j]
    ensures FieldNames(names)
  {}

  function TextValues(texts: seq<string>): (r: seq<Value>)
    ensures |r| == |texts| && forall i :: 0 <= i < |r| ==> r[i] == Str(texts[i])
  {
    seq(|texts|, i requires 0 <= i < |texts| => Str(texts[i]))
  }

  function TextItems(texts: map<string, string>): map<string, Value> {
    map k | k in texts :: Str(texts[k])
  }

  /** A dict of strings, in key order. */
  function TextMembers(texts: map<string, string>): seq<Member> {
    Listing(TextItems(texts))
  }

  /** The canonical_form of a record. */
  function FormOf(names: seq<string>, items: seq<Value>): Value
    requires |names| == |items|
  {
    Map(Shown(Fielded(names, items)))
  }

  lemma FormAccepted(l: Runtime, names: seq<string>, items: seq<Value>)
    requires |names| == |items| && FieldNames(names)
    ensures Record(l, Fielded(names, items))
    ensures Canonicalize(l, FormOf(names, items)).Ok? <==> forall i :: 0 <= i < |items| ==> Canonicalize(l, items[i]).Ok?
  {
    var fields := Fielded(names, items);
    assert forall i :: 0 <= i < |fields| ==> fields[i].item == items[i];
    forall i | 0 <= i < |names|
      ensures l.nfc(names[i]) == names[i]
    {
      AsciiIsNormal(l, names[i]);
    }
    RecordAccepted(l, fields);
  }

  ghost predicate SameItems(l: Runtime, a: seq<Value>, b: seq<Value>) {
    |a| == |b| && forall i :: 0 <= i < |a| ==> Canonicalize(l, a[i]) == Canonicalize(l, b[i])
  }

  /** Two records with the same names have the same canonical form exactly when they agree item by item. */
  lemma SameFormIffSameItems(l: Runtime, names: seq<string>, a: seq<Value>, b: seq<Value>)
    requires |names| == |a| == |b| && FieldNames(names)
    requires Canonicalize(l, FormOf(names, a)).Ok? && Canonicalize(l, FormOf(names, b)).Ok?
    ensures Canonicalize(l, FormOf(names, a)) == Canonicalize(l, FormOf(names, b)) <==> SameItems(l, a, b)
  {
    var x, y := Fielded(names, a), Fielded(names, b);
    assert forall i :: 0 <= i < |x| ==> x[i].item == a[i] && y[i].item == b[i];
    FormAccepted(l, names, a);
    FormAccepted(l, names, b);
    SameFormIffSameFields(l, x, y);
    assert SameItems(l, a, b) <==> Agree(l, x, y);
  }

  /** The canonical form of a list of accepted items is made of theirs. */
  lemma {:induction false} ListForms(l: Runtime, a: seq<Value>)
    requires forall i :: 0 <= i < |a| ==> Canonicalize(l, a[i]).Ok?
    ensures CanonicalizeAll(l, a).Ok?
    ensures forall i :: 0 <= i < |a| ==> Ok(CanonicalizeAll(l, a).value[i]) == Canonicalize(l, a[i])
  {
    if a != [] {
      var n := |a| - 1;
      ListForms(l, a[..n]);
      assert CanonicalizeAll(l, a).value[..n] == CanonicalizeAll(l, a[..n]).value;
    }
  }

  /** Two lists of accepted items have the same canonical form exactly when they agree item by item. */
  lemma SameListIff(l: Runtime, a: seq<Value>, b: seq<Value>)
    requires forall i :: 0 <= i < |a| ==> Canonicalize(l, a[i]).Ok?
    requires forall i :: 0 <= i < |b| ==> Canonicalize(l, b[i]).Ok?
    ensures CanonicalizeAll(l, a).Ok? && CanonicalizeAll(l, b).Ok?
    ensures Canonicalize(l, List(a)) == Canonicalize(l, List(b)) <==> SameItems(l, a, b)
  {
    ListForms(l, a);
    ListForms(l, b);
    var x, y := CanonicalizeAll(l, a).value, CanonicalizeAll(l, b).value;
    SameFormsSameItems(l, a, b, x, y);
  }

  lemma SameFormsSameItems(l: Runtime, a: seq<Value>, b: seq<Value>, x: seq<Value>, y: seq<Value>)
    requires |x| == |a| && forall i :: 0 <= i < |a| ==> Ok(x[i]) == Canonicalize(l, a[i])
    requires |y| == |b| && forall i :: 0 <= i < |b| ==> Ok(y[i]) == Canonicalize(l, b[i])
    ensures x == y <==> SameItems(l, a, b)
  {
    if SameItems(l, a, b) {
      assert forall i :: 0 <= i < |x| ==> Ok(x[i]) == Canonicalize(l, a[i]) == Canonicalize(l, b[i]) == Ok(y[i]);
    }
  }

  /** What the canonical form of a record holds under each name, and that it holds nothing else. */
  lemma FormFind(l: Runtime, names: seq<string>, items: seq<Value>, i: nat)
    requires |names| == |items| && FieldNames(names) && i < |names| && Canonicalize(l, FormOf(names, items)).Ok?
    ensures Canonicalize(l, items[i]).Ok?
    ensures Find(Canonicalize(l, FormOf(names, items)).value.members, names[i])
         == Presence(Canonicalize(l, items[i]).value)
  {
    FormAccepted(l, names, items);
    FieldFound(l, Fielded(names, items), i);
  }

  lemma FormKeys(l: Runtime, names: seq<string>, items: seq<Value>)
    requires |names| == |items| && FieldNames(names) && Canonicalize(l, FormOf(names, items)).Ok?
    ensures forall m :: m in Canonicalize(l, FormOf(names, items)).value.members ==> m.key.Name? && m.key.name in names
  {
    var fields := Fielded(names, items);
    FormAccepted(l, names, items);
    ShownCollects(l, fields);
    var out := Collect(l, fields).value;
    forall k | k in out
      ensures k in names
    {
      LastItemWins(l, fields, k);
      var i :| Kept(l, fields, k, i);
      assert names[i] == k;
    }
  }

  lemma {:induction false} FindAbsent(members: seq<Member>, name: string)
    requires forall m :: m in members ==> m.key != Name(name)
    ensures Find(members, name).None?
  {
    if members != [] {
      var front, last := members[..|members| - 1], members[|members| - 1];
      assert members == front + [last];
      FindAbsent(front, name);
    }
  }

  /** The record holds, under the name, an item like this one. */
  ghost predicate Holds(names: seq<string>, items: seq<Value>, name: string, v: Value, alike: (Value, Value) -> bool)
    requires |names| == |items|
  {
    exists j :: 0 <= j < |names| && names[j] == name && alike(v, items[j])
  }

  ghost function SameForm(l: Runtime): (Value, Value) -> bool {
    (v, w) => Canonicalize(l, v) == Canonicalize(l, w)
  }

  /** Two records whose names and items correspond, extra names holding null, have the same canonical form. */
  lemma SameFormAcross(l: Runtime, na: seq<string>, ia: seq<Value>, nb: seq<string>, ib: seq<Value>)
    requires |na| == |ia| && |nb| == |ib| && FieldNames(na) && FieldNames(nb)
    requires Canonicalize(l, FormOf(na, ia)).Ok? && Canonicalize(l, FormOf(nb, ib)).Ok?
    requires forall i :: 0 <= i < |na| ==> Holds(nb, ib, na[i], ia[i], SameForm(l))
    requires forall j :: 0 <= j < |nb| ==> nb[j] in na || ib[j].Null?
    ensures Canonicalize(l, FormOf(na, ia)) == Canonicalize(l, FormOf(nb, ib))
  {
    var a, b := Canonicalize(l, FormOf(na, ia)).value.members, Canonicalize(l, FormOf(nb, ib)).value.members;
    forall k
      ensures Find(a, k) == Find(b, k)
    {
      FindsAgree(l, na, ia, nb, ib, k);
    }
    var x, y := Collect(l, Shown(Fielded(na, ia))).value, Collect(l, Shown(Fielded(nb, ib))).value;
    assert a == Listing(x) && b == Listing(y);
    forall k
      ensures Find(Listing(x), k) == Find(Listing(y), k)
    {
      assert Find(a, k) == Find(b, k);
    }
    SameFindsSameDict(x, y);
  }

  lemma FindsAgree(l: Runtime, na: seq<string>, ia: seq<Value>, nb: seq<string>, ib: seq<Value>, k: string)
    requires |na| == |ia| && |nb| == |ib| && FieldNames(na) && FieldNames(nb)
    requires Canonicalize(l, FormOf(na, ia)).Ok? && Canonicalize(l, FormOf(nb, ib)).Ok?
    requires forall i :: 0 <= i < |na| ==> Holds(nb, ib, na[i], ia[i], SameForm(l))
    requires forall j :: 0 <= j < |nb| ==> nb[j] in na || ib[j].Null?
    ensures Find(Canonicalize(l, FormOf(na, ia)).value.members, k) == Find(Canonicalize(l, FormOf(nb, ib)).value.members, k)
  {
    if i :| 0 <= i < |na| && na[i] == k {
      var j :| 0 <= j < |nb| && nb[j] == na[i] && SameForm(l)(ia[i], ib[j]);
      FormFind(l, na, ia, i);
      FormFind(l, nb, ib, j);
    } else {
      FormLacks(l, na, ia, k);
      if j :| 0 <= j < |nb| && nb[j] == k {
        FormFind(l, nb, ib, j);
      } else {
        FormLacks(l, nb, ib, k);
      }
    }
  }

  lemma FormLacks(l: Runtime, names: seq<string>, items: seq<Value>, k: string)
    requires |names| == |items| && FieldNames(names) && Canonicalize(l, FormOf(names, items)).Ok? && k !in names
    ensures Find(Canonicalize(l, FormOf(names, items)).value.members, k).None?
  {
    FormKeys(l, names, items);
    FindAbsent(Canonicalize(l, FormOf(names, items)).value.members, k);
  }

  lemma SameFindsSameDict(a: map<string, Value>, b: map<string, Value>)
    requires forall k :: Find(Listing(a), k) == Find(Listing(b), k)
    ensures a == b
  {
    forall k
      ensures (k in a <==> k in b) && (k in a && k in b ==> a[k] == b[k])
    {
      FindInListing(a, k);
      FindInListing(b, k);
    }
    assert a.Keys == b.Keys;
  }
}
