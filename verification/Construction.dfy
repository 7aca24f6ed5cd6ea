/** Constructing a qa object from values already held (`QAValue.__post_init__` and `_coerce` in
    runtime_contracts/qa/base.py): what it leaves, and that doing it again changes nothing. */
module Construction {
  import opened Wrappers
  import opened Text
  import opened Platform
  import opened Canonical
  import opened Forms
  import opened FrozenJson
  import opened Sorting
  import opened Codec
  import opened CodecForms
  import opened RoundTrip

  // ---- construction ----

  /** `_coerce` on a value a caller passes: JSON is read, an object of the class is taken as it is. */
  function Keep(env: Env, t: Type, d: Datum): Result<Datum>
    decreases d, t
  {
    match t
    case RuledType(base, rule) =>
      var out :- Keep(env, base, d);
      if Obeys(env, rule, out) then Ok(out) else Refused
    case OptionalType(inner) => if d.Nil? || d == Tree(Null) then Ok(Nil) else Keep(env, inner, d)
    case SequenceType(elem) =>
      if d.Tree? then Read(env, t, d.v)
      else if d.Items? then var items :- KeepAll(env, elem, d.items); Ok(Items(items))
      else Refused
    case _ => if d.Tree? then Read(env, t, d.v) else KeepScalar(env, t, d)
  }

  function KeepScalar(env: Env, t: Type, d: Datum): Result<Datum> {
    match t
    case BoolType => if d.Boolean? then Ok(d) else Refused
    case IntType => if d.Integer? then Ok(d) else Refused
    case TextType => if d.Words? then ReadText(env.l, d.s) else if d.Choice? then ReadText(env.l, d.value) else Refused
    case EnumType(name) =>
      if d.Choice? && d.enum == name then Ok(d)
      else if TextKey(d).Some? && name in env.enums && TextKey(d).value in env.enums[name] then Ok(Choice(name, TextKey(d).value))
      else Refused
    case RefType(name) => if d.Instance? && d.schema == name then Ok(d) else Refused
    case _ => Refused
  }

  function KeepAll(env: Env, elem: Type, items: seq<Datum>): (r: Result<seq<Datum>>)
    ensures r.Ok? ==> |r.value| == |items|
    decreases items
  {
    if items == [] then Ok([])
    else
      var front :- KeepAll(env, elem, items[..|items| - 1]);
      var last :- Keep(env, elem, items[|items| - 1]);
      Ok(front + [last])
  }

  function KeepField(env: Env, f: Field, d: Datum): Result<Datum> {
    var kept :- Keep(env, f.typ, d);
    Arrange(env, f.order, kept)
  }

  function KeepFields(env: Env, fields: seq<Field>, given: seq<Datum>): (r: Result<seq<Datum>>)
    requires |fields| == |given|
    ensures r.Ok? ==> |r.value| == |fields|
  {
    if fields == [] then Ok([])
    else
      var n := |fields| - 1;
      var front :- KeepFields(env, fields[..n], given[..n]);
      var last :- KeepField(env, fields[n], given[n]);
      Ok(front + [last])
  }

  /** Calling the class with a value for every field. */
  function Construct(env: Env, name: string, given: seq<Datum>): Result<Datum> {
    if name !in env.schemas || |env.schemas[name].fields| != |given| then Refused
    else
      var values :- KeepFields(env, env.schemas[name].fields, given);
      Ok(Instance(name, values))
  }

  // ---- construction leaves formed values ----

  /** Defaults are of their field's type and in order, as construction would leave them. */
  ghost predicate DefaultsFormed(env: Env) {
    forall n, i :: n in env.schemas && 0 <= i < |env.schemas[n].fields| && env.schemas[n].fields[i].default.Some? ==>
      Formed(env, env.schemas[n].fields[i].typ, env.schemas[n].fields[i].default.value)
  }

  lemma ArrangedInOrder(env: Env, f: Field, d: Datum)
    requires Arrange(env, f.order, d).Ok?
    ensures InOrder(env, f, Arrange(env, f.order, d).value)
  {
    if !f.order.NoSet? {
      var key, order := f.order, ByKey(env, f.order);
      ByKeyOrders(env, key);
      SortSorted(d.items, order);
      SortFixed(Sort(d.items, order), order);
      KeysApartPermute(env, key, d.items, Sort(d.items, order));
    }
  }

  /** Distinct keys stay distinct in any order. */
  lemma KeysApartPermute(env: Env, key: SetKey, a: seq<Datum>, b: seq<Datum>)
    requires multiset(a) == multiset(b) && KeysApart(env, key, a)
    ensures KeysApart(env, key, b)
  {
    SameElements(a, b);
    forall i | 0 <= i < |b|
      ensures KeyOf(env, key, b[i]).Some?
    {
      assert b[i] in a;
    }
    var f := (d: Datum) => KeyText(env, key, d);
    ImagePermutes(a, b, f);
    assert forall i :: 0 <= i < |a| ==> Image(a, f)[i] == KeyText(env, key, a[i]);
    DistinctPermutes(Image(a, f), Image(b, f));
    forall i, j | 0 <= i < j < |b|
      ensures KeyText(env, key, b[i]) != KeyText(env, key, b[j])
    {
      assert Image(b, f)[i] != Image(b, f)[j];
    }
  }

  lemma SortedItemsFormed(env: Env, elem: Type, items: seq<Datum>, sorted: seq<Datum>)
    requires Formed(env, SequenceType(elem), Items(items)) && multiset(sorted) == multiset(items)
    ensures Formed(env, SequenceType(elem), Items(sorted))
  {
    SameElements(items, sorted);
    forall i | 0 <= i < |sorted|
      ensures Formed(env, elem, sorted[i])
    {
      assert sorted[i] in items;
      var j :| 0 <= j < |items| && items[j] == sorted[i];
      assert Formed(env, elem, Items(items).items[j]);
    }
  }

  /** Arranging a value of its field's type gives one in order. */
  lemma ArrangedFormed(env: Env, schema: Schema, i: nat, d: Datum)
    requires WellFormedSchema(env.l, schema) && i < |schema.fields| && Formed(env, schema.fields[i].typ, d)
    requires Arrange(env, schema.fields[i].order, d).Ok?
    ensures Formed(env, schema.fields[i].typ, Arrange(env, schema.fields[i].order, d).value)
    ensures InOrder(env, schema.fields[i], Arrange(env, schema.fields[i].order, d).value)
  {
    var f := schema.fields[i];
    ArrangedInOrder(env, f, d);
    if !f.order.NoSet? {
      SortedItemsFormed(env, f.typ.elem, d.items, Sort(d.items, ByKey(env, f.order)));
    }
  }

  // ---- what is read is formed ----

  lemma {:induction false} ReadIsFormed(env: Env, t: Type, v: Value)
    requires WellFormed(env) && DefaultsFormed(env) && Read(env, t, v).Ok?
    ensures Formed(env, t, Read(env, t, v).value)
    decreases v, t
  {
    match t
    case RuledType(base, _) => ReadIsFormed(env, base, v);
    case OptionalType(inner) =>
      if !v.Null? {
        ReadIsFormed(env, inner, v);
      }
    case JsonType => FreezeGivesFrozen(env.l, v, 0);
    case TextType => CleanTextIsNormal(env.l, v.s);
    case SequenceType(elem) => ReadAllFormed(env, elem, v.items);
    case RefType(name) => ObjectIsFormed(env, name, v.members);
    case _ =>
  }

  lemma {:induction false} ReadAllFormed(env: Env, elem: Type, items: seq<Value>)
    requires WellFormed(env) && DefaultsFormed(env) && ReadAll(env, elem, items).Ok?
    ensures Formed(env, SequenceType(elem), Items(ReadAll(env, elem, items).value))
    decreases items
  {
    if items != [] {
      var n := |items| - 1;
      ReadAllFormed(env, elem, items[..n]);
      ReadIsFormed(env, elem, items[n]);
      AppendFormed(env, elem, ReadAll(env, elem, items[..n]).value, Read(env, elem, items[n]).value);
    }
  }

  lemma AppendFormed(env: Env, elem: Type, front: seq<Datum>, last: Datum)
    requires Formed(env, SequenceType(elem), Items(front)) && Formed(env, elem, last)
    ensures Formed(env, SequenceType(elem), Items(front + [last]))
  {
    var d, e := Items(front), Items(front + [last]);
    assert forall i :: 0 <= i < |front| ==> e.items[i] == d.items[i];
  }

  lemma {:induction false} ObjectIsFormed(env: Env, name: string, members: seq<Member>)
    requires WellFormed(env) && DefaultsFormed(env) && ReadObject(env, name, members).Ok?
    ensures Formed(env, RefType(name), ReadObject(env, name, members).value)
    decreases members, 3
  {
    var schema := env.schemas[name];
    assert schema.fields[..|schema.fields|] == schema.fields;
    FieldsFormed(env, name, |schema.fields|, members);
  }

  ghost predicate FormedUpTo(env: Env, fields: seq<Field>, values: seq<Datum>) {
    && |values| <= |fields|
    && forall i :: 0 <= i < |values| ==> Formed(env, fields[i].typ, values[i]) && InOrder(env, fields[i], values[i])
  }

  lemma {:induction false} FieldsFormed(env: Env, name: string, n: nat, members: seq<Member>)
    requires WellFormed(env) && DefaultsFormed(env) && name in env.schemas && n <= |env.schemas[name].fields|
    requires ReadFields(env, env.schemas[name].fields[..n], members).Ok?
    ensures FormedUpTo(env, env.schemas[name].fields, ReadFields(env, env.schemas[name].fields[..n], members).value)
    decreases members, 2, n
  {
    var fields := env.schemas[name].fields;
    if n > 0 {
      LastFieldRead(env, fields, n, members);
      FieldsFormed(env, name, n - 1, members);
      FieldIsFormed(env, name, n - 1, members);
      OneMoreFormed(env, fields, ReadFields(env, fields[..n - 1], members).value, ReadField(env, fields[n - 1], members).value);
    }
  }

  lemma OneMoreFormed(env: Env, fields: seq<Field>, front: seq<Datum>, last: Datum)
    requires FormedUpTo(env, fields, front) && |front| < |fields|
    requires Formed(env, fields[|front|].typ, last) && InOrder(env, fields[|front|], last)
    ensures FormedUpTo(env, fields, front + [last])
  {}

  lemma LastFieldRead(env: Env, fields: seq<Field>, n: nat, members: seq<Member>)
    requires 0 < n <= |fields| && ReadFields(env, fields[..n], members).Ok?
    ensures ReadFields(env, fields[..n - 1], members).Ok? && ReadField(env, fields[n - 1], members).Ok?
    ensures ReadFields(env, fields[..n], members).value
         == ReadFields(env, fields[..n - 1], members).value + [ReadField(env, fields[n - 1], members).value]
  {
    assert fields[..n][..n - 1] == fields[..n - 1];
  }

  lemma {:induction false} FieldIsFormed(env: Env, name: string, i: nat, members: seq<Member>)
    requires WellFormed(env) && DefaultsFormed(env) && name in env.schemas && i < |env.schemas[name].fields|
    requires ReadField(env, env.schemas[name].fields[i], members).Ok?
    ensures var f, d := env.schemas[name].fields[i], ReadField(env, env.schemas[name].fields[i], members).value;
      Formed(env, f.typ, d) && InOrder(env, f, d)
    decreases members, 1
  {
    var schema := env.schemas[name];
    var f := schema.fields[i];
    match Place(members, "custody")
    case Some(j) =>
      if members[j].item.Map? && Find(members[j].item.members, f.name).Some? {
        InsideIsFormed(env, name, i, members[j]);
        ArrangedFormed(env, schema, i, ReadInside(env, f, members[j]).value);
      } else {
        GivenIsFormed(env, name, i, members);
        ArrangedFormed(env, schema, i, ReadGiven(env, f, members).value);
      }
    case None =>
      GivenIsFormed(env, name, i, members);
      ArrangedFormed(env, schema, i, ReadGiven(env, f, members).value);
  }

  lemma {:induction false} InsideIsFormed(env: Env, name: string, i: nat, m: Member)
    requires WellFormed(env) && DefaultsFormed(env) && name in env.schemas && i < |env.schemas[name].fields|
    requires m.item.Map? && ReadInside(env, env.schemas[name].fields[i], m).Ok?
    ensures Formed(env, env.schemas[name].fields[i].typ, ReadInside(env, env.schemas[name].fields[i], m).value)
    decreases m
  {
    GivenIsFormed(env, name, i, m.item.members);
  }

  lemma {:induction false} GivenIsFormed(env: Env, name: string, i: nat, members: seq<Member>)
    requires WellFormed(env) && DefaultsFormed(env) && name in env.schemas && i < |env.schemas[name].fields|
    requires ReadGiven(env, env.schemas[name].fields[i], members).Ok?
    ensures Formed(env, env.schemas[name].fields[i].typ, ReadGiven(env, env.schemas[name].fields[i], members).value)
    decreases members, 0
  {
    match Place(members, env.schemas[name].fields[i].name)
    case Some(k) => MemberIsFormed(env, env.schemas[name].fields[i].typ, members[k]);
    case None =>
  }

  lemma {:induction false} MemberIsFormed(env: Env, t: Type, m: Member)
    requires WellFormed(env) && DefaultsFormed(env) && ReadMember(env, t, m).Ok?
    ensures Formed(env, t, ReadMember(env, t, m).value)
    decreases m
  {
    ReadIsFormed(env, t, m.item);
  }

  // ---- constructing again ----

  /** Every string field is within the length, not looking inside objects already constructed. */
  ghost predicate FitsHere(env: Env, t: Type, d: Datum)
    decreases d, t
  {
    match t
    case RuledType(base, _) => FitsHere(env, base, d)
    case OptionalType(inner) => d.Nil? || FitsHere(env, inner, d)
    case TextType => d.Words? ==> |d.s| <= DEFAULT_MAX_TEXT
    case SequenceType(elem) => d.Items? ==> forall i :: 0 <= i < |d.items| ==> FitsHere(env, elem, d.items[i])
    case _ => true
  }

  ghost function Kept(env: Env, t: Type, d: Datum): Result<Datum> {
    if FitsHere(env, t, d) then Ok(d) else Refused
  }

  /** A formed value is kept as it is, or refused exactly when a string in it is longer than one that may be given. */
  lemma {:induction false} KeepFormed(env: Env, t: Type, d: Datum)
    requires Formed(env, t, d)
    ensures Keep(env, t, d) == Kept(env, t, d)
    decreases d, t
  {
    match t
    case RuledType(base, _) => KeepFormed(env, base, d);
    case OptionalType(inner) =>
      if !d.Nil? {
        TreeIsNotNull(env, inner, d);
        KeepFormed(env, inner, d);
      }
    case JsonType => FrozenFixed(env.l, d.v, 0);
    case SequenceType(elem) =>
      forall i | 0 <= i < |d.items|
        ensures Keep(env, elem, d.items[i]) == Kept(env, elem, d.items[i])
      {
        KeepFormed(env, elem, d.items[i]);
      }
      KeepItems(env, elem, d.items);
    case _ =>
  }

  lemma {:induction false} TreeIsNotNull(env: Env, t: Type, d: Datum)
    requires Formed(env, t, d)
    ensures d != Tree(Null)
    decreases t
  {
    match t
    case RuledType(base, _) => TreeIsNotNull(env, base, d);
    case OptionalType(inner) =>
      if !d.Nil? {
        TreeIsNotNull(env, inner, d);
      }
    case _ =>
  }

  lemma {:induction false} KeepAllGathers(env: Env, elem: Type, items: seq<Datum>, outs: seq<Result<Datum>>)
    requires |items| == |outs| && forall i :: 0 <= i < |items| ==> Keep(env, elem, items[i]) == outs[i]
    ensures KeepAll(env, elem, items) == Gather(outs)
  {
    if items != [] {
      var n := |items| - 1;
      KeepAllGathers(env, elem, items[..n], outs[..n]);
    }
  }

  ghost predicate AllFitHere(env: Env, elem: Type, items: seq<Datum>) {
    forall i :: 0 <= i < |items| ==> FitsHere(env, elem, items[i])
  }

  lemma KeptGather(env: Env, elem: Type, items: seq<Datum>, outs: seq<Result<Datum>>)
    requires |outs| == |items| && forall i :: 0 <= i < |items| ==> outs[i] == Kept(env, elem, items[i])
    ensures Gather(outs) == if AllFitHere(env, elem, items) then Ok(items) else Refused
  {
    if AllFitHere(env, elem, items) {
      GatherAll(outs, items);
    } else {
      var i :| 0 <= i < |items| && !FitsHere(env, elem, items[i]);
      GatherNone(outs, i);
    }
  }

  lemma {:induction false} KeepAllKept(env: Env, elem: Type, items: seq<Datum>)
    requires forall i :: 0 <= i < |items| ==> Keep(env, elem, items[i]) == Kept(env, elem, items[i])
    ensures KeepAll(env, elem, items) == if AllFitHere(env, elem, items) then Ok(items) else Refused
  {
    var outs := seq(|items|, i requires 0 <= i < |items| => Kept(env, elem, items[i]));
    KeepAllGathers(env, elem, items, outs);
    KeptGather(env, elem, items, outs);
  }

  lemma KeepItems(env: Env, elem: Type, items: seq<Datum>)
    requires forall i :: 0 <= i < |items| ==> Keep(env, elem, items[i]) == Kept(env, elem, items[i])
    ensures Keep(env, SequenceType(elem), Items(items)) == Kept(env, SequenceType(elem), Items(items))
  {
    KeepAllKept(env, elem, items);
    assert FitsHere(env, SequenceType(elem), Items(items)) <==> AllFitHere(env, elem, items);
  }

  lemma {:induction false} KeepFieldsGathers(env: Env, fields: seq<Field>, given: seq<Datum>, outs: seq<Result<Datum>>)
    requires |fields| == |given| == |outs| && forall i :: 0 <= i < |fields| ==> KeepField(env, fields[i], given[i]) == outs[i]
    ensures KeepFields(env, fields, given) == Gather(outs)
  {
    if fields != [] {
      var n := |fields| - 1;
      KeepFieldsGathers(env, fields[..n], given[..n], outs[..n]);
    }
  }

  /** Constructing an object again from its own fields gives the same object, or a refusal exactly when normalising has made
      a string longer than one that may be given. */
  lemma {:induction false} ConstructAgain(env: Env, d: Datum)
    requires d.Instance? && Formed(env, RefType(d.schema), d)
    ensures Construct(env, d.schema, d.values)
         == if forall i :: 0 <= i < |d.values| ==> FitsHere(env, env.schemas[d.schema].fields[i].typ, d.values[i])
            then Ok(d) else Refused
  {
    var fields := env.schemas[d.schema].fields;
    var outs := seq(|fields|, i requires 0 <= i < |fields| => Kept(env, fields[i].typ, d.values[i]));
    forall i | 0 <= i < |fields|
      ensures KeepField(env, fields[i], d.values[i]) == outs[i]
    {
      KeepFormed(env, fields[i].typ, d.values[i]);
      assert InOrder(env, fields[i], d.values[i]);
    }
    KeepFieldsGathers(env, fields, d.values, outs);
    if forall i :: 0 <= i < |d.values| ==> FitsHere(env, fields[i].typ, d.values[i]) {
      GatherAll(outs, d.values);
    } else {
      var i :| 0 <= i < |d.values| && !FitsHere(env, fields[i].typ, d.values[i]);
      GatherNone(outs, i);
    }
  }

  /** The length is checked before normalising, so a string may be accepted and then, longer, be refused the second time. */
  lemma NormalisingMayOutgrow(env: Env, s: string)
    requires !HasControl(s) && |s| <= DEFAULT_MAX_TEXT < |env.l.nfc(s)|
    ensures Keep(env, TextType, Words(s)).Ok?
    ensures Keep(env, TextType, Keep(env, TextType, Words(s)).value).Refused?
  {}

  // ---- sets ----

  /** The order in which a set field's items are given is not part of the object. */
  lemma ArrangePermuted(env: Env, key: SetKey, a: seq<Datum>, b: seq<Datum>)
    requires multiset(a) == multiset(b) && !key.NoSet?
    ensures Arrange(env, key, Items(a)) == Arrange(env, key, Items(b))
  {
    if KeysApart(env, key, a) {
      KeysApartPermute(env, key, a, b);
      SameSorted(env, key, a, b);
    } else if KeysApart(env, key, b) {
      KeysApartPermute(env, key, b, a);
    }
  }

  lemma {:induction false} SameSorted(env: Env, key: SetKey, a: seq<Datum>, b: seq<Datum>)
    requires multiset(a) == multiset(b) && KeysApart(env, key, a)
    ensures Sort(a, ByKey(env, key)) == Sort(b, ByKey(env, key))
  {
    var order := ByKey(env, key);
    ByKeyOrders(env, key);
    SortSorted(a, order);
    SortSorted(b, order);
    var x := Sort(a, order);
    SameElements(x, a);
    forall u, v | u in x && v in x && order(u, v) && order(v, u)
      ensures u == v
    {
      var i :| 0 <= i < |a| && a[i] == u;
      var j :| 0 <= j < |a| && a[j] == v;
      SameTextSameItem(env, key, a, i, j);
    }
    SortedUnique(x, Sort(b, order), order);
  }

  lemma SameTextSameItem(env: Env, key: SetKey, a: seq<Datum>, i: nat, j: nat)
    requires KeysApart(env, key, a) && i < |a| && j < |a|
    requires ByKey(env, key)(a[i], a[j]) && ByKey(env, key)(a[j], a[i])
    ensures i == j
  {
    var x, y := KeyText(env, key, a[i]), KeyText(env, key, a[j]);
    if x != y {
      BeforeAsymmetric(x, y);
    }
  }

  function KeepOr(env: Env, elem: Type): Datum -> Result<Datum> {
    d => Keep(env, elem, d)
  }

  lemma KeepAllPermutes(env: Env, elem: Type, a: seq<Datum>, b: seq<Datum>)
    requires multiset(a) == multiset(b)
    ensures KeepAll(env, elem, a).Ok? <==> KeepAll(env, elem, b).Ok?
    ensures KeepAll(env, elem, a).Ok? ==> multiset(KeepAll(env, elem, a).value) == multiset(KeepAll(env, elem, b).value)
  {
    var x, y := Image(a, KeepOr(env, elem)), Image(b, KeepOr(env, elem));
    ImagePermutes(a, b, KeepOr(env, elem));
    KeepAllGathers(env, elem, a, x);
    KeepAllGathers(env, elem, b, y);
    GatherPermutes(x, y);
  }

  lemma KeepSequence(env: Env, f: Field, items: seq<Datum>)
    requires f.typ.SequenceType?
    ensures KeepField(env, f, Items(items))
         == match KeepAll(env, f.typ.elem, items)
            case Refused => Refused
            case Ok(kept) => Arrange(env, f.order, Items(kept))
  {}

  /** Giving the items of a set field in another order constructs the same field, or refuses the same. */
  lemma SetFieldPermutes(env: Env, f: Field, a: seq<Datum>, b: seq<Datum>)
    requires f.typ.SequenceType? && !f.order.NoSet? && multiset(a) == multiset(b)
    ensures KeepField(env, f, Items(a)) == KeepField(env, f, Items(b))
  {
    var x, y := KeepAll(env, f.typ.elem, a), KeepAll(env, f.typ.elem, b);
    KeepAllPermutes(env, f.typ.elem, a, b);
    KeepSequence(env, f, a);
    KeepSequence(env, f, b);
    if x.Ok? {
      ArrangePermuted(env, f.order, x.value, y.value);
    }
  }

  lemma {:induction false} GatherIs(outs: seq<Result<Datum>>)
    ensures Gather(outs).Ok? <==> forall i :: 0 <= i < |outs| ==> outs[i].Ok?
    ensures Gather(outs).Ok? ==> Gather(outs).value == Image(outs, Taken)
  {
    if outs != [] {
      var n := |outs| - 1;
      GatherIs(outs[..n]);
      assert outs == outs[..n] + [outs[n]];
      assert Image(outs, Taken) == Image(outs[..n], Taken) + [Taken(outs[n])];
    }
  }

  function Taken(r: Result<Datum>): Datum {
    if r.Ok? then r.value else Nil
  }

  lemma GatherPermutes(x: seq<Result<Datum>>, y: seq<Result<Datum>>)
    requires multiset(x) == multiset(y)
    ensures Gather(x).Ok? <==> Gather(y).Ok?
    ensures Gather(x).Ok? ==> multiset(Gather(x).value) == multiset(Gather(y).value)
  {
    GatherIs(x);
    GatherIs(y);
    SameElements(x, y);
    ImagePermutes(x, y, Taken);
    assert (forall i :: 0 <= i < |x| ==> x[i].Ok?) <==> forall r :: r in x ==> r.Ok?;
    assert (forall i :: 0 <= i < |y| ==> y[i].Ok?) <==> forall r :: r in y ==> r.Ok?;
  }
}
