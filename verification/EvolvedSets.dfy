/** Sets ordered by canonical text under extended schemas (`_set_key` and `__post_init__` in runtime_contracts/qa/base.py): a
    change may put the items in another order, and never makes two of them one. */
module EvolvedSets {
  import opened Wrappers
  import opened Text
  import opened Canonical
  import opened Forms
  import opened Sorting
  import opened Codec
  import opened CodecForms
  import opened RoundTrip
  import opened Construction
  import opened Evolution
  import Json

  ghost predicate Alike(env: Env, d: Datum, e: Datum) {
    Canonicalize(env.l, Ident(env, d)) == Canonicalize(env.l, Ident(env, e))
  }

  /** What is told apart before is told apart after. */
  ghost predicate Tells(a: Env, b: Env, d: Datum, e: Datum) {
    Alike(b, Lift(a, b, d), Lift(a, b, e)) ==> Alike(a, d, e)
  }

  ghost predicate FieldTells(a: Env, b: Env, key: SetKey, d: Datum, e: Datum) {
    Alike(b, Placed(a, b, key, d), Placed(a, b, key, e)) ==> Alike(a, d, e)
  }

  ghost predicate PairsTell(a: Env, b: Env, p: seq<Datum>, q: seq<Datum>) {
    forall i, j :: 0 <= i < |p| && 0 <= j < |q| ==> Tells(a, b, p[i], q[j])
  }

  ghost predicate Grows(a: Env, b: Env) {
    WellFormed(a) && WellFormed(b) && DefaultsFormed(b) && Extends(a, b)
  }

  // ---- by type ----

  /** Two values of a type that are hashed alike under the new schemas were hashed alike under the old ones. */
  lemma {:induction false} LiftTells(a: Env, b: Env, t: Type, d: Datum, e: Datum)
    requires Grows(a, b) && Formed(a, t, d) && Formed(a, t, e)
    ensures Tells(a, b, d, e)
    decreases d, t, 0
  {
    match t
    case RuledType(base, _) => LiftTells(a, b, base, d, e);
    case OptionalType(inner) =>
      if d.Nil? || e.Nil? {
        NilTells(a, b, t, if d.Nil? then e else d);
      } else {
        LiftTells(a, b, inner, d, e);
      }
    case SequenceType(elem) =>
      ItemsTell(a, b, elem, d, e);
      SequenceTells(a, b, d.items, e.items);
    case RefType(name) =>
      forall i | 0 <= i < |d.values|
        ensures FieldTells(a, b, a.schemas[name].fields[i].order, d.values[i], e.values[i])
      {
        LiftFieldTells(a, b, a.schemas[name].fields[i], d.values[i], e.values[i]);
      }
      InstanceTells(a, b, name, d, e);
    case _ =>
  }

  lemma {:induction false} ItemsTell(a: Env, b: Env, elem: Type, d: Datum, e: Datum)
    requires Grows(a, b) && Formed(a, SequenceType(elem), d) && Formed(a, SequenceType(elem), e)
    ensures PairsTell(a, b, d.items, e.items) && AllJudged(a, b, d.items) && AllJudged(a, b, e.items)
    decreases d, elem, 0
  {
    LiftItemsIdentity(a, b, elem, d);
    LiftItemsIdentity(a, b, elem, e);
    forall i, j | 0 <= i < |d.items| && 0 <= j < |e.items|
      ensures Tells(a, b, d.items[i], e.items[j])
    {
      LiftTells(a, b, elem, d.items[i], e.items[j]);
    }
  }

  lemma {:induction false} LiftFieldTells(a: Env, b: Env, f: Field, d: Datum, e: Datum)
    requires Grows(a, b) && Formed(a, f.typ, d) && Formed(a, f.typ, e) && InOrder(a, f, d) && InOrder(a, f, e)
    requires !f.order.NoSet? ==> f.typ.SequenceType?
    ensures FieldTells(a, b, f.order, d, e)
    decreases d, f.typ, 1
  {
    LiftTells(a, b, f.typ, d, e);
    if f.order.AsJson? {
      ItemsTell(a, b, f.typ.elem, d, e);
      SetTells(a, b, d.items, e.items);
    }
  }

  /** Only null is hashed as null. */
  lemma {:induction false} LiftIsShown(a: Env, b: Env, t: Type, d: Datum)
    requires Grows(a, b) && Formed(a, t, d) && !d.Nil?
    ensures Canonicalize(b.l, Ident(b, Lift(a, b, d))) != Ok(Null)
  {
    FormedIsWritable(a, t, d);
    LiftIdentityIff(a, b, t, d);
  }

  lemma NilForm(env: Env)
    ensures Canonicalize(env.l, Ident(env, Nil)) == Ok(Null)
  {}

  lemma {:induction false} NilTells(a: Env, b: Env, t: Type, d: Datum)
    requires Grows(a, b) && Formed(a, t, d)
    ensures Tells(a, b, Nil, d) && Tells(a, b, d, Nil)
  {
    if !d.Nil? {
      LiftIsShown(a, b, t, d);
      NilForm(b);
      assert Lift(a, b, Nil) == Nil;
    }
  }

  // ---- sequences ----

  lemma {:induction false} SequenceTells(a: Env, b: Env, p: seq<Datum>, q: seq<Datum>)
    requires a.l == b.l && PairsTell(a, b, p, q) && AllJudged(a, b, p) && AllJudged(a, b, q)
    ensures Tells(a, b, Items(p), Items(q))
  {
    LiftedItems(a, b, p);
    LiftedItems(a, b, q);
    SameItemsIff(b, LiftAll(a, b, p), LiftAll(a, b, q));
    SameItemsIff(a, p, q);
    if AllAlike(b, LiftAll(a, b, p), LiftAll(a, b, q)) {
      forall i | 0 <= i < |p|
        ensures Alike(a, p[i], q[i])
      {
        assert Tells(a, b, p[i], q[i]) && Alike(b, LiftAll(a, b, p)[i], LiftAll(a, b, q)[i]);
      }
    }
  }

  ghost predicate AllAlike(env: Env, p: seq<Datum>, q: seq<Datum>) {
    |p| == |q| && forall i :: 0 <= i < |p| ==> Alike(env, p[i], q[i])
  }

  ghost predicate Hashed(env: Env, p: seq<Datum>) {
    forall i :: 0 <= i < |p| ==> Canonicalize(env.l, Ident(env, p[i])).Ok?
  }

  lemma {:induction false} SameItemsIff(env: Env, p: seq<Datum>, q: seq<Datum>)
    requires Hashed(env, p) && Hashed(env, q)
    ensures Alike(env, Items(p), Items(q)) <==> AllAlike(env, p, q)
  {
    ItemsAsLists(env, p);
    ItemsAsLists(env, q);
    SameListIff(env.l, IdentAll(env, p), IdentAll(env, q));
    assert AllAlike(env, p, q) <==> SameItems(env.l, IdentAll(env, p), IdentAll(env, q));
  }

  // ---- sets ----

  function Texts(env: Env, p: seq<Datum>): (r: seq<string>)
    ensures |r| == |p| && forall i :: 0 <= i < |r| ==> r[i] == KeyText(env, AsJson, p[i])
  {
    seq(|p|, i requires 0 <= i < |p| => KeyText(env, AsJson, p[i]))
  }

  /** An arranged set lists its items by strictly increasing text. */
  lemma {:induction false} TextsIncrease(env: Env, p: seq<Datum>)
    requires Arrange(env, AsJson, Items(p)) == Ok(Items(p))
    ensures Increasing(Texts(env, p))
  {
    ByKeyOrders(env, AsJson);
    SortSorted(p, ByKey(env, AsJson));
    forall i, j | 0 <= i < j < |p|
      ensures Before(Texts(env, p)[i], Texts(env, p)[j])
    {
      assert ByKey(env, AsJson)(p[i], p[j]);
    }
  }

  lemma SameTextIff(env: Env, d: Datum, e: Datum)
    requires Canonicalize(env.l, Ident(env, d)).Ok? && Canonicalize(env.l, Ident(env, e)).Ok?
    ensures KeyText(env, AsJson, d) == KeyText(env, AsJson, e) <==> Alike(env, d, e)
  {
    Json.SameTextIffSameForm(env.l, Ident(env, d), Ident(env, e));
  }

  function Resorted(a: Env, b: Env, p: seq<Datum>): (r: seq<Datum>)
    ensures |r| == |p|
  {
    Sort(LiftAll(a, b, p), ByKey(b, AsJson))
  }

  /** Where an item is put. */
  lemma {:induction false} PutAt(a: Env, b: Env, p: seq<Datum>, i: nat) returns (n: nat)
    requires i < |p|
    ensures n < |p| && Resorted(a, b, p)[n] == Lift(a, b, p[i])
  {
    var lifted, sorted := LiftAll(a, b, p), Resorted(a, b, p);
    SameElements(lifted, sorted);
    assert lifted[i] in lifted;
    n :| 0 <= n < |sorted| && sorted[n] == lifted[i];
  }

  /** Which item was put there. */
  lemma {:induction false} CameFrom(a: Env, b: Env, p: seq<Datum>, n: nat) returns (i: nat)
    requires n < |p|
    ensures i < |p| && Resorted(a, b, p)[n] == Lift(a, b, p[i])
  {
    var lifted, sorted := LiftAll(a, b, p), Resorted(a, b, p);
    SameElements(lifted, sorted);
    assert sorted[n] in sorted;
    i :| 0 <= i < |lifted| && lifted[i] == sorted[n];
  }

  lemma {:induction false} ResortedHashed(a: Env, b: Env, p: seq<Datum>)
    requires AllJudged(a, b, p)
    ensures Hashed(b, Resorted(a, b, p)) && Hashed(a, p)
  {
    forall n | 0 <= n < |p|
      ensures Canonicalize(b.l, Ident(b, Resorted(a, b, p)[n])).Ok? && Canonicalize(a.l, Ident(a, p[n])).Ok?
    {
      var i := CameFrom(a, b, p, n);
      assert Judged(a, b, p[i]) && Judged(a, b, p[n]);
    }
  }

  /** If the resorted sets are alike, every item of the first had its like in the second. */
  lemma {:induction false} LikeFound(a: Env, b: Env, p: seq<Datum>, q: seq<Datum>, i: nat) returns (j: nat)
    requires PairsTell(a, b, p, q) && AllAlike(b, Resorted(a, b, p), Resorted(a, b, q)) && i < |p|
    ensures j < |q| && Alike(a, p[i], q[j])
  {
    var n := PutAt(a, b, p, i);
    j := CameFrom(a, b, q, n);
    assert Tells(a, b, p[i], q[j]) && Alike(b, Resorted(a, b, p)[n], Resorted(a, b, q)[n]);
  }

  lemma {:induction false} TextsWithin(a: Env, b: Env, p: seq<Datum>, q: seq<Datum>)
    requires PairsTell(a, b, p, q) && AllAlike(b, Resorted(a, b, p), Resorted(a, b, q)) && Hashed(a, p) && Hashed(a, q)
    ensures forall x :: x in Texts(a, p) ==> x in Texts(a, q)
  {
    forall x | x in Texts(a, p)
      ensures x in Texts(a, q)
    {
      var i :| 0 <= i < |p| && Texts(a, p)[i] == x;
      var j := LikeFound(a, b, p, q, i);
      SameTextIff(a, p[i], q[j]);
      assert Texts(a, q)[j] == x;
    }
  }

  lemma PairsTellBack(a: Env, b: Env, p: seq<Datum>, q: seq<Datum>)
    requires PairsTell(a, b, p, q)
    ensures PairsTell(a, b, q, p)
  {}

  lemma {:induction false} SetTells(a: Env, b: Env, p: seq<Datum>, q: seq<Datum>)
    requires a.l == b.l && PairsTell(a, b, p, q) && AllJudged(a, b, p) && AllJudged(a, b, q)
    requires Arrange(a, AsJson, Items(p)) == Ok(Items(p)) && Arrange(a, AsJson, Items(q)) == Ok(Items(q))
    ensures FieldTells(a, b, AsJson, Items(p), Items(q))
  {
    LiftedItems(a, b, p);
    LiftedItems(a, b, q);
    ResortedHashed(a, b, p);
    ResortedHashed(a, b, q);
    SameItemsIff(b, Resorted(a, b, p), Resorted(a, b, q));
    SameItemsIff(a, p, q);
    if AllAlike(b, Resorted(a, b, p), Resorted(a, b, q)) {
      SameSets(a, b, p, q);
    }
  }

  lemma {:induction false} SameSets(a: Env, b: Env, p: seq<Datum>, q: seq<Datum>)
    requires PairsTell(a, b, p, q) && Hashed(a, p) && Hashed(a, q)
    requires Arrange(a, AsJson, Items(p)) == Ok(Items(p)) && Arrange(a, AsJson, Items(q)) == Ok(Items(q))
    requires AllAlike(b, Resorted(a, b, p), Resorted(a, b, q))
    ensures AllAlike(a, p, q)
  {
    PairsTellBack(a, b, p, q);
    TextsWithin(a, b, p, q);
    TextsWithin(a, b, q, p);
    TextsIncrease(a, p);
    TextsIncrease(a, q);
    IncreasingUnique(Texts(a, p), Texts(a, q));
    forall i | 0 <= i < |p|
      ensures Alike(a, p[i], q[i])
    {
      assert Texts(a, p)[i] == Texts(a, q)[i];
      SameTextIff(a, p[i], q[i]);
    }
  }

  // ---- instances ----

  lemma {:induction false} InstanceTells(a: Env, b: Env, name: string, d: Datum, e: Datum)
    requires Grows(a, b) && Formed(a, RefType(name), d) && Formed(a, RefType(name), e)
    requires forall i :: 0 <= i < |d.values| ==> FieldTells(a, b, a.schemas[name].fields[i].order, d.values[i], e.values[i])
    ensures Tells(a, b, d, e)
  {
    FormedRipe(a, b, name, d);
    FormedRipe(a, b, name, e);
    if Alike(b, Lift(a, b, d), Lift(a, b, e)) {
      FormsTell(a, b, name, d, e);
    }
  }

  lemma {:induction false} FormedRipe(a: Env, b: Env, name: string, d: Datum)
    requires Grows(a, b) && Formed(a, RefType(name), d)
    ensures Ripe(a, b, d)
  {
    assert WellFormedSchema(a.l, a.schemas[name]);
    forall i | 0 <= i < |d.values|
      ensures FieldJudged(a, b, d, i)
    {
      LiftFieldIdentity(a, b, a.schemas[name].fields[i], d.values[i]);
    }
  }

  /** Objects of one schema are alike exactly when the fields that are part of identity are. */
  lemma {:induction false} SameInstancesIff(env: Env, d: Datum, e: Datum)
    requires WellFormed(env) && d.Instance? && e.Instance? && d.schema == e.schema && d.schema in env.schemas
    requires |d.values| == |e.values| == |env.schemas[d.schema].fields|
    requires AllAccepted(env.l, IdentAll(env, d.values)) && AllAccepted(env.l, IdentAll(env, e.values))
    ensures Alike(env, d, e)
       <==> forall i :: 0 <= i < |d.values| && !env.schemas[d.schema].fields[i].custody ==> Alike(env, d.values[i], e.values[i])
  {
    var schema, p, q := env.schemas[d.schema], IdentAll(env, d.values), IdentAll(env, e.values);
    assert WellFormedSchema(env.l, schema);
    InstanceIdent(env, d);
    InstanceIdent(env, e);
    SameIdentIff(env, schema, p, q);
  }

  lemma {:induction false} SameIdentIff(env: Env, schema: Schema, p: seq<Value>, q: seq<Value>)
    requires WellFormedSchema(env.l, schema) && |p| == |q| == |schema.fields| && AllAccepted(env.l, p) && AllAccepted(env.l, q)
    ensures Canonicalize(env.l, FormOf(IdentNames(schema), IdentItems(schema, p)))
         == Canonicalize(env.l, FormOf(IdentNames(schema), IdentItems(schema, q)))
       <==> forall i :: 0 <= i < |p| && !schema.fields[i].custody ==> Canonicalize(env.l, p[i]) == Canonicalize(env.l, q[i])
  {
    IdentNamesApart(schema);
    IdentAccepted(env.l, schema, p);
    IdentAccepted(env.l, schema, q);
    SameFormIffSameItems(env.l, IdentNames(schema), IdentItems(schema, p), IdentItems(schema, q));
    SamePublicIff(env, schema, p, q);
  }

  lemma {:induction false} SamePublicIff(env: Env, schema: Schema, p: seq<Value>, q: seq<Value>)
    requires |p| == |q| == |schema.fields|
    ensures SameItems(env.l, IdentItems(schema, p), IdentItems(schema, q))
       <==> forall i :: 0 <= i < |p| && !schema.fields[i].custody ==> Canonicalize(env.l, p[i]) == Canonicalize(env.l, q[i])
  {
    var x, y, n := IdentItems(schema, p), IdentItems(schema, q), |Head(schema)|;
    assert forall k :: 0 <= k < n ==> x[k] == HeadItems(schema)[k] == y[k];
    forall i | 0 <= i < |p|
      ensures x[n + i] == (if schema.fields[i].custody then Null else p[i])
      ensures y[n + i] == (if schema.fields[i].custody then Null else q[i])
    {
      IdentField(schema, p, i);
      IdentField(schema, q, i);
    }
    if SameItems(env.l, x, y) {
      forall i | 0 <= i < |p| && !schema.fields[i].custody
        ensures Canonicalize(env.l, p[i]) == Canonicalize(env.l, q[i])
      {
        assert Canonicalize(env.l, x[n + i]) == Canonicalize(env.l, y[n + i]);
      }
    }
    assert forall k :: n <= k < |x| ==> x[k] == x[n + (k - n)] && y[k] == y[n + (k - n)];
  }

  lemma {:induction false} FormsTell(a: Env, b: Env, name: string, d: Datum, e: Datum)
    requires Ripe(a, b, d) && Ripe(a, b, e) && d.schema == e.schema == name
    requires Alike(b, Lift(a, b, d), Lift(a, b, e))
    requires forall i :: 0 <= i < |d.values| ==> FieldTells(a, b, a.schemas[name].fields[i].order, d.values[i], e.values[i])
    ensures Alike(a, d, e)
  {
    LiftedSized(a, b, d);
    LiftedSized(a, b, e);
    PartsAccepted(a, b, d);
    PartsAccepted(a, b, e);
    SameInstancesIff(a, d, e);
    SameInstancesIff(b, Lift(a, b, d), Lift(a, b, e));
    forall i | 0 <= i < |d.values| && !a.schemas[name].fields[i].custody
      ensures Alike(a, d.values[i], e.values[i])
    {
      OneFieldTells(a, b, d, e, i);
    }
  }

  lemma {:induction false} OneFieldTells(a: Env, b: Env, d: Datum, e: Datum, i: nat)
    requires Ripe(a, b, d) && Ripe(a, b, e) && d.schema == e.schema && i < |d.values| && !a.schemas[d.schema].fields[i].custody
    requires Lift(a, b, d).Instance? && Lift(a, b, e).Instance? && |Lift(a, b, d).values| == |Lift(a, b, e).values| == |b.schemas[d.schema].fields|
    requires forall j :: 0 <= j < |b.schemas[d.schema].fields| && !b.schemas[d.schema].fields[j].custody ==>
      Alike(b, Lift(a, b, d).values[j], Lift(a, b, e).values[j])
    requires FieldTells(a, b, a.schemas[d.schema].fields[i].order, d.values[i], e.values[i])
    ensures Alike(a, d.values[i], e.values[i])
  {
    var x, y := a.schemas[d.schema], b.schemas[d.schema];
    assert SchemaExtends(a, b, x, y) && WellFormedSchema(a.l, x);
    var j :| 0 <= j < |y.fields| && FieldExtends(a, b, x.fields[i], y.fields[j]);
    PlaceIs(x, i);
    LiftedPart(a, b, d, j);
    LiftedPart(a, b, e, j);
  }

  // ---- arranging ----

  /** An arranged set is arranged again under the new schemas, as the same set. */
  lemma {:induction false} ArrangedAgain(a: Env, b: Env, elem: Type, d: Datum)
    requires Grows(a, b) && Formed(a, SequenceType(elem), d) && KeysApart(a, AsJson, d.items)
    ensures Arrange(b, AsJson, Lift(a, b, d)) == Ok(Placed(a, b, AsJson, Arrange(a, AsJson, d).value))
  {
    var sorted := Sort(d.items, ByKey(a, AsJson));
    LiftedItems(a, b, d.items);
    LiftedItems(a, b, sorted);
    LiftedApart(a, b, elem, d);
    LiftPermutes(a, b, d.items, sorted);
    ArrangePermuted(b, AsJson, LiftAll(a, b, d.items), LiftAll(a, b, sorted));
  }

  lemma {:induction false} LiftedApart(a: Env, b: Env, elem: Type, d: Datum)
    requires Grows(a, b) && Formed(a, SequenceType(elem), d) && KeysApart(a, AsJson, d.items)
    ensures KeysApart(b, AsJson, LiftAll(a, b, d.items))
  {
    ItemsTell(a, b, elem, d, d);
    StillApart(a, b, d.items);
  }

  lemma {:induction false} LiftPermutes(a: Env, b: Env, p: seq<Datum>, q: seq<Datum>)
    requires multiset(p) == multiset(q)
    ensures multiset(LiftAll(a, b, p)) == multiset(LiftAll(a, b, q))
  {
    var lift := (x: Datum) => Lift(a, b, x);
    ImagePermutes(p, q, lift);
    assert LiftAll(a, b, p) == Image(p, lift) && LiftAll(a, b, q) == Image(q, lift);
  }

  lemma {:induction false} StillApart(a: Env, b: Env, p: seq<Datum>)
    requires a.l == b.l && PairsTell(a, b, p, p) && AllJudged(a, b, p) && KeysApart(a, AsJson, p)
    ensures KeysApart(b, AsJson, LiftAll(a, b, p))
  {
    var lifted := LiftAll(a, b, p);
    forall i | 0 <= i < |p|
      ensures KeyOf(b, AsJson, lifted[i]).Some?
    {
      assert Judged(a, b, p[i]);
    }
    forall i, j | 0 <= i < j < |p|
      ensures KeyText(b, AsJson, lifted[i]) != KeyText(b, AsJson, lifted[j])
    {
      assert Judged(a, b, p[i]) && Judged(a, b, p[j]) && Tells(a, b, p[i], p[j]);
      SameTextIff(a, p[i], p[j]);
      SameTextIff(b, lifted[i], lifted[j]);
    }
  }
}
