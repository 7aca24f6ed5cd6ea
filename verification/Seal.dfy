/** Sealing (runtime_contracts/protocol/seal.py): floats are quantised to nine decimal places, and the collections that
    count as sets are put in the order of their canonical text. A float is given by the decimal its text spells. */
module Seal {
  import opened Wrappers
  import opened Text
  import opened Platform
  import opened Digits
  import opened Decimals
  import opened Canonical
  import opened Json
  import opened Forms
  import opened Sorting

  // ---- the number policy ----

  const PLACES := 9

  /** The magnitude in units of the ninth place, rounded half-even. */
  function Units(d: Decimal): nat
    requires d.Finite?
  {
    if d.exponent >= -PLACES then d.coefficient * Pow10(d.exponent + PLACES)
    else RoundHalfEven(d.coefficient, Pow10(-PLACES - d.exponent))
  }

  function Signed(negative: bool, n: nat): int {
    if negative then 0 - n else n
  }

  /** The number in billionths. */
  function Billionths(d: Decimal): int
    requires d.Finite?
  {
    Signed(d.negative, Units(d))
  }

  /** `quantize`: refused beyond 28 digits. */
  function Quantize(d: Decimal): (r: Result<Decimal>)
    ensures r.Ok? ==> r.value.Finite?
  {
    if d.Special? || Length(Units(d)) > PRECISION then Refused
    else Ok(Finite(d.negative, Units(d), -PLACES))
  }

  // ---- what quantising does to a number ----

  function RoundSigned(n: int, m: nat): int
    requires m > 0
  {
    if n < 0 then 0 - RoundHalfEven(-n, m) else RoundHalfEven(n, m)
  }

  lemma RoundScalesBy(n: nat, m: nat, p: nat)
    requires m > 0 && p > 0
    ensures m * p > 0 && RoundHalfEven(n * p, m * p) == RoundHalfEven(n, m)
  {
    var q, r := n / m, n % m;
    assert n * p == q * (m * p) + r * p by {
      assert n == q * m + r;
      assert (q * m + r) * p == (q * m) * p + r * p;
      MulAssociates(q, m, p);
    }
    assert r * p < m * p by {
      assert (m - r) * p > 0;
    }
    DivisionUnique(n * p, m * p, q, r * p);
    ScaledHalf(r, m, p);
  }

  lemma ScaledHalf(r: nat, m: nat, p: nat)
    requires p > 0
    ensures 2 * (r * p) > m * p <==> 2 * r > m
    ensures 2 * (r * p) == m * p <==> 2 * r == m
  {
    assert 2 * (r * p) - m * p == (2 * r - m) * p;
    MulCancels(2 * r, m, p);
  }

  lemma CoarseUnits(d: Decimal, e: int)
    requires d.Finite? && e <= -PLACES <= d.exponent
    ensures RoundHalfEven(d.coefficient * Pow10(d.exponent - e), Pow10(-PLACES - e)) == Units(d)
  {
    var j := -PLACES - e;
    Pow10Add(d.exponent + PLACES, j);
    MulAssociates(d.coefficient, Pow10(d.exponent + PLACES), Pow10(j));
    RoundExact(d.coefficient * Pow10(d.exponent + PLACES), Pow10(j));
  }

  lemma FineUnits(d: Decimal, e: int)
    requires d.Finite? && e <= d.exponent < -PLACES
    ensures RoundHalfEven(d.coefficient * Pow10(d.exponent - e), Pow10(-PLACES - e)) == Units(d)
  {
    var k := d.exponent - e;
    Pow10Add(-PLACES - d.exponent, k);
    RoundScalesBy(d.coefficient, Pow10(-PLACES - d.exponent), Pow10(k));
  }

  /** Billionths can be read off the number scaled to any fine enough exponent. */
  lemma BillionthsAt(d: Decimal, e: int)
    requires d.Finite? && e <= d.exponent && e <= -PLACES
    ensures Billionths(d) == RoundSigned(Scaled(d, e), Pow10(-PLACES - e))
  {
    if d.exponent >= -PLACES {
      CoarseUnits(d, e);
    } else {
      FineUnits(d, e);
    }
    SignedUnits(d.negative, d.coefficient * Pow10(d.exponent - e), Pow10(-PLACES - e));
  }

  lemma SignedUnits(negative: bool, n: nat, m: nat)
    requires m > 0
    ensures RoundSigned(Signed(negative, n), m) == Signed(negative, RoundHalfEven(n, m))
  {
    RoundZero(m);
  }

  lemma RoundZero(m: nat)
    requires m > 0
    ensures RoundHalfEven(0, m) == 0
  {
    DivisionUnique(0, m, 0, 0);
  }

  /** a <= b as numbers. */
  predicate NoGreater(a: Decimal, b: Decimal)
    requires a.Finite? && b.Finite?
  {
    var e := Min(a.exponent, b.exponent);
    Scaled(a, e) <= Scaled(b, e)
  }

  lemma RoundSignedMonotone(a: int, b: int, m: nat)
    requires m > 0 && a <= b
    ensures RoundSigned(a, m) <= RoundSigned(b, m)
  {
    if 0 <= a {
      RoundMonotone(a, b, m);
    } else if b < 0 {
      RoundMonotone(-b, -a, m);
    }
  }

  /** Quantising is monotone. */
  lemma QuantizeMonotone(a: Decimal, b: Decimal)
    requires a.Finite? && b.Finite? && NoGreater(a, b)
    ensures Billionths(a) <= Billionths(b)
  {
    var e := Min(a.exponent, b.exponent);
    var f := Min(e, -PLACES);
    ScaledDeeper(a, e, e - f);
    ScaledDeeper(b, e, e - f);
    MulKeepsOrder(Scaled(a, e), Scaled(b, e), Pow10(e - f));
    BillionthsAt(a, f);
    BillionthsAt(b, f);
    RoundSignedMonotone(Scaled(a, f), Scaled(b, f), Pow10(-PLACES - f));
  }

  lemma RoundSignedNearest(n: int, unit: nat)
    requires unit > 0
    ensures var gap := RoundSigned(n, unit) * unit - n;
      && 0 - unit <= 2 * gap <= unit
      && (2 * gap == unit || 2 * gap == 0 - unit ==> RoundSigned(n, unit) % 2 == 0)
  {
    RoundNearest(if n < 0 then -n else n, unit);
    var q: int := RoundHalfEven(if n < 0 then -n else n, unit);
    MulAssociates(-1, q, unit);
  }

  /** Quantising moves a number by at most half a billionth, and by exactly half only onto an even billionth. */
  lemma QuantizeError(d: Decimal, e: int)
    requires d.Finite? && e <= d.exponent && e <= -PLACES
    ensures var unit := Pow10(-PLACES - e);
      var gap := Billionths(d) * unit - Scaled(d, e);
      && 0 - unit <= 2 * gap <= unit
      && (2 * gap == unit || 2 * gap == 0 - unit ==> Billionths(d) % 2 == 0)
  {
    BillionthsAt(d, e);
    RoundSignedNearest(Scaled(d, e), Pow10(-PLACES - e));
  }

  /** What is sealed is a whole number of billionths, in at most 28 digits, within half a billionth of what was given, a tie going
      to the even one. */
  lemma {:induction false} NinthPlace(d: Decimal, e: int)
    requires d.Finite? && e <= d.exponent && e <= -9
    ensures Quantize(d).Ok? ==>
      && Quantize(d).value.exponent == -9 && Length(Quantize(d).value.coefficient) <= 28
      && var unit, gap := Pow10(-9 - e), Scaled(Quantize(d).value, e) - Scaled(d, e);
         && 0 - unit <= 2 * gap <= unit
         && (2 * gap == unit || 2 * gap == 0 - unit ==> Quantize(d).value.coefficient % 2 == 0)
  {
    QuantizeError(d, e);
    if Quantize(d).Ok? {
      ScaledQuantized(d, e);
    }
  }

  lemma {:induction false} ScaledQuantized(d: Decimal, e: int)
    requires Quantize(d).Ok? && e <= -9
    ensures Scaled(Quantize(d).value, e) == Billionths(d) * Pow10(-9 - e)
    ensures Billionths(d) % 2 == 0 <==> Quantize(d).value.coefficient % 2 == 0
  {
    MulAssociates(-1, Units(d), Pow10(-9 - e));
  }

  /** A dict entry replaces one with the same key, and nothing else. */
  lemma {:induction false} PutReplaces(members: seq<Member>, m: Member)
    requires forall i, j :: 0 <= i < j < |members| ==> members[i].key != members[j].key
    ensures var out := Put(members, m);
      && (forall x :: x in out <==> x == m || (x in members && x.key != m.key))
      && forall i, j :: 0 <= i < j < |out| ==> out[i].key != out[j].key
  {
    if members != [] {
      var rest := members[1..];
      assert members == [members[0]] + rest;
      PutReplaces(rest, m);
      if members[0].key == m.key {
        assert forall x :: x in rest ==> x.key != m.key;
      } else {
        assert Put(members, m) == [members[0]] + Put(rest, m);
        assert forall x :: x in Put(rest, m) ==> x.key != members[0].key;
      }
    }
  }

  /** Quantising again changes nothing. */
  lemma QuantizeIdempotent(d: Decimal)
    requires Quantize(d).Ok?
    ensures Quantize(Quantize(d).value) == Quantize(d) && Billionths(Quantize(d).value) == Billionths(d)
  {
    assert Pow10(0) == 1;
  }

  lemma {:induction false} StripZerosShortens(d: Decimal)
    requires d.Finite? && d.coefficient > 0
    ensures Length(StripZeros(d).coefficient) <= Length(d.coefficient)
    decreases d.coefficient
  {
    if d.coefficient % 10 == 0 {
      StripZerosShortens(Finite(d.negative, d.coefficient / 10, d.exponent + 1));
    }
  }

  lemma ShortNormalizes(q: Decimal)
    requires q.Finite? && q.coefficient > 0 && Length(q.coefficient) <= PRECISION && q.exponent == -PLACES
    ensures Normalize(q) == Ok(StripZeros(q)) && StripZeros(q).exponent >= E_TINY
  {
    assert RoundingExponent(q) <= q.exponent;
  }

  /** A quantised number is printed exactly. */
  lemma QuantizedFits(d: Decimal)
    requires Quantize(d).Ok?
    ensures FitsPrecision(Quantize(d).value) && DecimalText(Quantize(d).value).Ok?
  {
    var q := Quantize(d).value;
    OutputShape(q);
    if q.coefficient > 0 {
      ShortNormalizes(q);
      StripZerosShortens(q);
    }
  }

  /** Two floats seal alike exactly when they are the same number of billionths. */
  lemma SealAlikeIff(a: Decimal, b: Decimal)
    requires Quantize(a).Ok? && Quantize(b).Ok?
    ensures DecimalText(Quantize(a).value) == DecimalText(Quantize(b).value) <==> Billionths(a) == Billionths(b)
  {
    QuantizedFits(a);
    QuantizedFits(b);
    SameTextIffSameNumber(Quantize(a).value, Quantize(b).value);
    assert Pow10(0) == 1;
  }

  // ---- payloads ----

  /** A domain value as `prepare` tells them apart. A dataclass is the dict of its fields; `Other` is what `prepare`
      passes on as it is. */
  datatype Payload =
    | Nothing
    | Flag(b: bool)
    | Number(n: int)
    | Words(s: string)
    | Exact(d: Decimal)
    | Real(d: Decimal)
    | Choice(value: Payload)
    | Dict(entries: seq<Entry>)
    | Sequence(items: seq<Payload>)
    | Other(v: Value)

  /** An item of a dict, under `str(k)`. */
  datatype Entry = Entry(key: string, value: Payload)

  /** `d[k] = v`: an existing key keeps its place. */
  function Put(members: seq<Member>, m: Member): seq<Member> {
    if members == [] then [m]
    else if members[0].key == m.key then [m] + members[1..]
    else [members[0]] + Put(members[1..], m)
  }

  function Prepare(p: Payload): Result<Value>
    decreases p
  {
    match p
    case Nothing => Ok(Null)
    case Flag(b) => Ok(Bool(b))
    case Number(n) => Ok(Int(n))
    case Words(s) => Ok(Str(s))
    case Exact(d) => Ok(Dec(d))
    case Real(d) => var q :- Quantize(d); Ok(Dec(q))
    case Choice(value) => Prepare(value)
    case Dict(entries) => var members :- PrepareEntries(entries); Ok(Map(members))
    case Sequence(items) => var out :- PrepareAll(items); Ok(List(out))
    case Other(v) => Ok(v)
  }

  function PrepareAll(items: seq<Payload>): (r: Result<seq<Value>>)
    ensures r.Ok? ==> |r.value| == |items|
    decreases items
  {
    if items == [] then Ok([])
    else
      var front :- PrepareAll(items[..|items| - 1]);
      var last :- Prepare(items[|items| - 1]);
      Ok(front + [last])
  }

  function PrepareEntries(entries: seq<Entry>): Result<seq<Member>>
    decreases entries
  {
    if entries == [] then Ok([])
    else
      var front :- PrepareEntries(entries[..|entries| - 1]);
      var last :- PrepareEntry(entries[|entries| - 1]);
      Ok(Put(front, last))
  }

  function PrepareEntry(e: Entry): Result<Member>
    decreases e
  {
    var v :- Prepare(e.value);
    Ok(Member(Name(e.key), v))
  }

  // ---- sets ----

  /** Order by canonical text. */
  function ByText(l: Runtime): (Value, Value) -> bool {
    (a, b) => AtMost(TextOrNone(l, a), TextOrNone(l, b))
  }

  function TextOrNone(l: Runtime, v: Value): string {
    match CanonicalJson(l, v)
    case Refused => ""
    case Ok(text) => text
  }

  /** `_as_set`: an item without a canonical text cannot be placed. */
  function AsSet(l: Runtime, items: seq<Payload>): Result<Value> {
    var prepared :- PrepareAll(items);
    if CanonicalizeAll(l, prepared).Refused? then Refused
    else Ok(List(Sort(prepared, ByText(l))))
  }

  /** Order of canonical forms by the text they print as. */
  function ByPrint(): (Value, Value) -> bool {
    (a, b) => AtMost(Print(a), Print(b))
  }

  lemma ByPrintOrders()
    ensures TotalPreorder(ByPrint())
  {
    forall a, b
      ensures AtMost(Print(a), Print(b)) || AtMost(Print(b), Print(a))
    {
      BeforeTotal(Print(a), Print(b));
    }
    forall a, b, c | AtMost(Print(a), Print(b)) && AtMost(Print(b), Print(c))
      ensures AtMost(Print(a), Print(c))
    {
      if Print(a) != Print(b) && Print(b) != Print(c) {
        BeforeTransitive(Print(a), Print(b), Print(c));
      }
    }
  }

  /** Each item's canonical form. */
  ghost predicate FormsOf(l: Runtime, items: seq<Value>, forms: seq<Value>) {
    |items| == |forms| && forall i :: 0 <= i < |items| ==> Canonicalize(l, items[i]) == Ok(forms[i])
  }

  lemma {:induction false} AllForms(l: Runtime, items: seq<Value>, forms: seq<Value>)
    ensures CanonicalizeAll(l, items) == Ok(forms) <==> FormsOf(l, items, forms)
  {
    if items != [] && |forms| == |items| {
      var n := |items| - 1;
      AllForms(l, items[..n], forms[..n]);
      assert forms == forms[..n] + [forms[n]];
    }
  }

  lemma ComparesAlike(l: Runtime, a: Value, b: Value, f: Value, g: Value)
    requires Canonicalize(l, a) == Ok(f) && Canonicalize(l, b) == Ok(g)
    ensures ByText(l)(a, b) == ByPrint()(f, g)
  {}

  lemma FormsCons(l: Runtime, x: Value, f: Value, items: seq<Value>, forms: seq<Value>)
    requires Canonicalize(l, x) == Ok(f) && FormsOf(l, items, forms)
    ensures FormsOf(l, [x] + items, [f] + forms)
  {}

  lemma FormsTail(l: Runtime, items: seq<Value>, forms: seq<Value>)
    requires FormsOf(l, items, forms) && items != []
    ensures Canonicalize(l, items[0]) == Ok(forms[0]) && FormsOf(l, items[1..], forms[1..])
  {}

  lemma {:induction false} InsertForms(l: Runtime, x: Value, f: Value, items: seq<Value>, forms: seq<Value>)
    requires Canonicalize(l, x) == Ok(f) && FormsOf(l, items, forms)
    ensures FormsOf(l, Insert(x, items, ByText(l)), Insert(f, forms, ByPrint()))
    decreases |items|
  {
    if items == [] {
      FormsCons(l, x, f, items, forms);
    } else {
      FormsTail(l, items, forms);
      ComparesAlike(l, x, items[0], f, forms[0]);
      FormsCons(l, x, f, items, forms);
      InsertForms(l, x, f, items[1..], forms[1..]);
      FormsCons(l, items[0], forms[0], Insert(x, items[1..], ByText(l)), Insert(f, forms[1..], ByPrint()));
    }
  }

  /** Sorting by text and taking canonical forms commute. */
  lemma {:induction false} SortForms(l: Runtime, items: seq<Value>, forms: seq<Value>)
    requires FormsOf(l, items, forms)
    ensures FormsOf(l, Sort(items, ByText(l)), Sort(forms, ByPrint()))
  {
    if items != [] {
      SortForms(l, items[1..], forms[1..]);
      InsertForms(l, items[0], forms[0], Sort(items[1..], ByText(l)), Sort(forms[1..], ByPrint()));
    }
  }

  /** Canonical forms of the same items listed in the order of their texts are the same exactly when each form occurs as
      often on both sides. */
  lemma {:induction false} SortedFormsIff(l: Runtime, a: seq<Value>, b: seq<Value>, f: seq<Value>, g: seq<Value>)
    requires FormsOf(l, a, f) && FormsOf(l, b, g)
    ensures Sort(f, ByPrint()) == Sort(g, ByPrint()) <==> multiset(f) == multiset(g)
  {
    if multiset(f) == multiset(g) {
      ByPrintOrders();
      SortSorted(f, ByPrint());
      SortSorted(g, ByPrint());
      var x, y := Sort(f, ByPrint()), Sort(g, ByPrint());
      forall u, v | u in x && v in x && ByPrint()(u, v) && ByPrint()(v, u)
        ensures u == v
      {
        SameElements(x, f);
        var i :| 0 <= i < |f| && f[i] == u;
        var j :| 0 <= j < |f| && f[j] == v;
        SamePrint(l, a[i], a[j]);
      }
      SortedUnique(x, y, ByPrint());
    }
  }

  lemma SamePrint(l: Runtime, a: Value, b: Value)
    requires Canonicalize(l, a).Ok? && Canonicalize(l, b).Ok?
    requires ByPrint()(Canonicalize(l, a).value, Canonicalize(l, b).value)
    requires ByPrint()(Canonicalize(l, b).value, Canonicalize(l, a).value)
    ensures Canonicalize(l, a) == Canonicalize(l, b)
  {
    var x, y := Print(Canonicalize(l, a).value), Print(Canonicalize(l, b).value);
    if x != y {
      BeforeAsymmetric(x, y);
    }
    SameTextIffSameForm(l, a, b);
  }

  /** The canonical forms of a collection's items, in the order given. */
  function ItemForms(l: Runtime, items: seq<Payload>): Result<seq<Value>> {
    var prepared :- PrepareAll(items);
    CanonicalizeAll(l, prepared)
  }

  /** A set is hashed as its items' canonical forms in the order of their texts. */
  lemma SetForm(l: Runtime, items: seq<Payload>)
    requires AsSet(l, items).Ok?
    ensures ItemForms(l, items).Ok?
    ensures Canonicalize(l, AsSet(l, items).value) == Ok(List(Sort(ItemForms(l, items).value, ByPrint())))
  {
    var prepared := PrepareAll(items).value;
    var forms := CanonicalizeAll(l, prepared).value;
    SortedSetForm(l, prepared, forms);
    assert AsSet(l, items).value == List(Sort(prepared, ByText(l)));
  }

  lemma SortedSetForm(l: Runtime, prepared: seq<Value>, forms: seq<Value>)
    requires CanonicalizeAll(l, prepared) == Ok(forms)
    ensures CanonicalizeAll(l, Sort(prepared, ByText(l))) == Ok(Sort(forms, ByPrint()))
  {
    AllForms(l, prepared, forms);
    SortForms(l, prepared, forms);
    AllForms(l, Sort(prepared, ByText(l)), Sort(forms, ByPrint()));
  }

  /** Two collections are hashed alike exactly when they hold the same canonical forms, each as often. */
  lemma SameSetIff(l: Runtime, a: seq<Payload>, b: seq<Payload>)
    requires AsSet(l, a).Ok? && AsSet(l, b).Ok?
    ensures Canonicalize(l, AsSet(l, a).value) == Canonicalize(l, AsSet(l, b).value)
       <==> multiset(ItemForms(l, a).value) == multiset(ItemForms(l, b).value)
  {
    SetForm(l, a);
    SetForm(l, b);
    var p, q := PrepareAll(a).value, PrepareAll(b).value;
    var f, g := ItemForms(l, a).value, ItemForms(l, b).value;
    AllForms(l, p, f);
    AllForms(l, q, g);
    SortedFormsIff(l, p, q, f, g);
  }

  // ---- the sealed intent ----

  datatype Intent = Intent(
    interpreted: Payload, evidence: seq<Payload>, unresolved: seq<Payload>, schema: string, schemaVersion: string,
    contractVersion: string)

  const NAMES: seq<string> := [
    "contract_version", "evidence", "interpreted", "payload_schema", "payload_schema_version", "unresolved"]

  function PartsWith(i: Intent, evidence: Value, interpreted: Value, unresolved: Value): (r: seq<Value>)
    ensures |r| == 6
  {
    [Str(i.contractVersion), evidence, interpreted, Str(i.schema), Str(i.schemaVersion), unresolved]
  }

  /** The six parts of the form. */
  function Parts(l: Runtime, i: Intent): (r: Result<seq<Value>>)
    ensures r.Ok? ==> |r.value| == 6
  {
    var evidence :- AsSet(l, i.evidence);
    var interpreted :- Prepare(i.interpreted);
    var unresolved :- AsSet(l, i.unresolved);
    Ok(PartsWith(i, evidence, interpreted, unresolved))
  }

  /** `canonical_form`. */
  function SealForm(l: Runtime, i: Intent): Result<Value> {
    var parts :- Parts(l, i);
    Ok(FormOf(NAMES, parts))
  }

  /** `seal_hash`. */
  function SealHash(l: Runtime, i: Intent): Result<string> {
    var form :- SealForm(l, i);
    ContentHash(l, form)
  }

  /** The canonical form of what was interpreted. */
  function Meaning(l: Runtime, p: Payload): Result<Value> {
    var v :- Prepare(p);
    Canonicalize(l, v)
  }

  lemma {:induction false} NamesTellApart()
    ensures |NAMES| == 6 && FieldNames(NAMES)
  {
    var codes := [1074031, 550243, 747877, 946285, 1470575, 685413];
    assert forall i :: 0 <= i < 6 ==> Ascii(NAMES[i]) && Code(NAMES[i]) == codes[i];
    ToldApart(NAMES, codes);
  }

  lemma AllSixAccepted(l: Runtime, x: seq<Value>)
    requires |x| == 6 && Canonicalize(l, x[0]).Ok? && Canonicalize(l, x[1]).Ok? && Canonicalize(l, x[3]).Ok?
    requires Canonicalize(l, x[4]).Ok? && Canonicalize(l, x[5]).Ok?
    ensures Canonicalize(l, FormOf(NAMES, x)).Ok? <==> Canonicalize(l, x[2]).Ok?
  {
    NamesTellApart();
    FormAccepted(l, NAMES, x);
  }

  lemma PlacedIff(l: Runtime, items: seq<Payload>)
    ensures AsSet(l, items).Ok? <==> ItemForms(l, items).Ok?
  {}

  /** Parts that can be put together are those whose sets have canonical forms and whose meaning can be prepared. */
  lemma PartsIff(l: Runtime, i: Intent)
    ensures Parts(l, i).Ok?
       <==> Prepare(i.interpreted).Ok? && ItemForms(l, i.evidence).Ok? && ItemForms(l, i.unresolved).Ok?
  {
    PlacedIff(l, i.evidence);
    PlacedIff(l, i.unresolved);
  }

  /** An intent can be sealed exactly when all its parts have a canonical form. */
  lemma SealableIff(l: Runtime, i: Intent)
    ensures SealHash(l, i).Ok?
       <==> Meaning(l, i.interpreted).Ok? && ItemForms(l, i.evidence).Ok? && ItemForms(l, i.unresolved).Ok?
  {
    PartsIff(l, i);
    if Parts(l, i).Ok? {
      PartsAccepted(l, i);
    }
  }

  lemma {:induction false} PartsAccepted(l: Runtime, i: Intent)
    requires Parts(l, i).Ok?
    ensures Canonicalize(l, FormOf(NAMES, Parts(l, i).value)).Ok? <==> Meaning(l, i.interpreted).Ok?
  {
    var x := Parts(l, i).value;
    assert x[1] == AsSet(l, i.evidence).value && x[5] == AsSet(l, i.unresolved).value;
    SetCanonicalizes(l, i.evidence);
    SetCanonicalizes(l, i.unresolved);
    AllSixAccepted(l, x);
  }

  lemma SetCanonicalizes(l: Runtime, items: seq<Payload>)
    requires AsSet(l, items).Ok?
    ensures Canonicalize(l, AsSet(l, items).value).Ok?
  {
    SetForm(l, items);
  }

  /** The same parts, the collections counted without order. */
  ghost predicate SameParts(l: Runtime, a: Intent, b: Intent) {
    && Meaning(l, a.interpreted) == Meaning(l, b.interpreted)
    && ItemForms(l, a.evidence).Ok? && ItemForms(l, b.evidence).Ok?
    && multiset(ItemForms(l, a.evidence).value) == multiset(ItemForms(l, b.evidence).value)
    && ItemForms(l, a.unresolved).Ok? && ItemForms(l, b.unresolved).Ok?
    && multiset(ItemForms(l, a.unresolved).value) == multiset(ItemForms(l, b.unresolved).value)
    && l.nfc(a.schema) == l.nfc(b.schema) && l.nfc(a.schemaVersion) == l.nfc(b.schemaVersion)
    && l.nfc(a.contractVersion) == l.nfc(b.contractVersion)
  }

  /** Two intents have the same seal exactly when they have the same schemas and versions, mean the same, and rest on the
      same evidence and the same open points, in whatever order but each as often. */
  lemma SameSealIff(l: Runtime, a: Intent, b: Intent)
    requires SealHash(l, a).Ok? && SealHash(l, b).Ok?
    ensures SealHash(l, a) == SealHash(l, b) <==> SameParts(l, a, b)
  {
    var x, y := Parts(l, a).value, Parts(l, b).value;
    SameFormsIff(l, x, y);
    SamePartsIff(l, a, b);
  }

  lemma SameFormsIff(l: Runtime, x: seq<Value>, y: seq<Value>)
    requires |x| == 6 && |y| == 6 && Canonicalize(l, FormOf(NAMES, x)).Ok? && Canonicalize(l, FormOf(NAMES, y)).Ok?
    ensures ContentHash(l, FormOf(NAMES, x)) == ContentHash(l, FormOf(NAMES, y)) <==> SameItems(l, x, y)
  {
    NamesTellApart();
    SameFormIffSameItems(l, NAMES, x, y);
    SameTextIffSameForm(l, FormOf(NAMES, x), FormOf(NAMES, y));
  }

  lemma PartsAre(l: Runtime, i: Intent)
    requires Parts(l, i).Ok?
    ensures AsSet(l, i.evidence).Ok? && Prepare(i.interpreted).Ok? && AsSet(l, i.unresolved).Ok?
    ensures Parts(l, i).value
         == PartsWith(i, AsSet(l, i.evidence).value, Prepare(i.interpreted).value, AsSet(l, i.unresolved).value)
  {}

  lemma SamePartsIff(l: Runtime, a: Intent, b: Intent)
    requires SealHash(l, a).Ok? && SealHash(l, b).Ok?
    ensures SameItems(l, Parts(l, a).value, Parts(l, b).value) <==> SameParts(l, a, b)
  {
    PartsAre(l, a);
    PartsAre(l, b);
    SameCollectionIff(l, a.evidence, b.evidence);
    SameCollectionIff(l, a.unresolved, b.unresolved);
    SamePartsWithIff(l, a, b, AsSet(l, a.evidence).value, Prepare(a.interpreted).value, AsSet(l, a.unresolved).value,
                     AsSet(l, b.evidence).value, Prepare(b.interpreted).value, AsSet(l, b.unresolved).value);
  }

  lemma {:induction false} SamePartsWithIff(l: Runtime, a: Intent, b: Intent, e: Value, m: Value, u: Value, f: Value, n: Value, v: Value)
    ensures SameItems(l, PartsWith(a, e, m, u), PartsWith(b, f, n, v))
       <==> && Canonicalize(l, e) == Canonicalize(l, f) && Canonicalize(l, m) == Canonicalize(l, n)
            && Canonicalize(l, u) == Canonicalize(l, v) && l.nfc(a.schema) == l.nfc(b.schema)
            && l.nfc(a.schemaVersion) == l.nfc(b.schemaVersion) && l.nfc(a.contractVersion) == l.nfc(b.contractVersion)
  {
    SameItemsIff(l, PartsWith(a, e, m, u), PartsWith(b, f, n, v));
    SameTextIff(l, a.schema, b.schema);
    SameTextIff(l, a.schemaVersion, b.schemaVersion);
    SameTextIff(l, a.contractVersion, b.contractVersion);
  }

  lemma SameTextIff(l: Runtime, s: string, t: string)
    ensures Canonicalize(l, Str(s)) == Canonicalize(l, Str(t)) <==> l.nfc(s) == l.nfc(t)
  {
    assert Canonicalize(l, Str(s)) == Ok(Str(l.nfc(s))) && Canonicalize(l, Str(t)) == Ok(Str(l.nfc(t)));
  }

  lemma SameCollectionIff(l: Runtime, a: seq<Payload>, b: seq<Payload>)
    requires AsSet(l, a).Ok? && AsSet(l, b).Ok?
    ensures ItemForms(l, a).Ok? && ItemForms(l, b).Ok?
    ensures Canonicalize(l, AsSet(l, a).value) == Canonicalize(l, AsSet(l, b).value)
       <==> multiset(ItemForms(l, a).value) == multiset(ItemForms(l, b).value)
  {
    SetForm(l, a);
    SetForm(l, b);
    SameSetIff(l, a, b);
  }

  lemma SameItemsIff(l: Runtime, x: seq<Value>, y: seq<Value>)
    requires |x| == |y| == 6
    ensures SameItems(l, x, y)
       <==> && Canonicalize(l, x[0]) == Canonicalize(l, y[0]) && Canonicalize(l, x[1]) == Canonicalize(l, y[1])
            && Canonicalize(l, x[2]) == Canonicalize(l, y[2]) && Canonicalize(l, x[3]) == Canonicalize(l, y[3])
            && Canonicalize(l, x[4]) == Canonicalize(l, y[4]) && Canonicalize(l, x[5]) == Canonicalize(l, y[5])
  {}

  // ---- order ----

  function MeaningOrNone(l: Runtime): Payload -> Value {
    p => if Meaning(l, p).Ok? then Meaning(l, p).value else Null
  }

  lemma {:induction false} ItemFormsAre(l: Runtime, items: seq<Payload>)
    ensures ItemForms(l, items).Ok? <==> forall i :: 0 <= i < |items| ==> Meaning(l, items[i]).Ok?
    ensures ItemForms(l, items).Ok? ==> ItemForms(l, items).value == Image(items, MeaningOrNone(l))
  {
    if items != [] {
      var n := |items| - 1;
      ItemFormsAre(l, items[..n]);
      ItemFormsExtend(l, items);
      assert Image(items, MeaningOrNone(l)) == Image(items[..n], MeaningOrNone(l)) + [MeaningOrNone(l)(items[n])];
    }
  }

  lemma ItemFormsExtend(l: Runtime, items: seq<Payload>)
    requires items != []
    ensures var front, last := ItemForms(l, items[..|items| - 1]), Meaning(l, items[|items| - 1]);
      && (ItemForms(l, items).Ok? <==> front.Ok? && last.Ok?)
      && (ItemForms(l, items).Ok? ==> ItemForms(l, items).value == front.value + [last.value])
  {
    var n := |items| - 1;
    if PrepareAll(items).Ok? {
      var prepared := PrepareAll(items).value;
      assert prepared[..n] == PrepareAll(items[..n]).value;
    }
  }

  lemma ItemFormsPermute(l: Runtime, a: seq<Payload>, b: seq<Payload>)
    requires multiset(a) == multiset(b) && ItemForms(l, a).Ok?
    ensures ItemForms(l, b).Ok? && multiset(ItemForms(l, a).value) == multiset(ItemForms(l, b).value)
  {
    ItemFormsAre(l, a);
    ItemFormsAre(l, b);
    SameElements(a, b);
    forall i | 0 <= i < |b|
      ensures Meaning(l, b[i]).Ok?
    {
      assert b[i] in a;
    }
    ImagePermutes(a, b, MeaningOrNone(l));
  }

  /** The order in which evidence and open points were discovered is not part of the seal. */
  lemma DiscoveryOrderIrrelevant(l: Runtime, a: Intent, b: Intent)
    requires SealHash(l, a).Ok? && multiset(a.evidence) == multiset(b.evidence)
    requires multiset(a.unresolved) == multiset(b.unresolved)
    requires a.(evidence := b.evidence, unresolved := b.unresolved) == b
    ensures SealHash(l, b) == SealHash(l, a)
  {
    SealableIff(l, a);
    ItemFormsPermute(l, a.evidence, b.evidence);
    ItemFormsPermute(l, a.unresolved, b.unresolved);
    SealableIff(l, b);
    SameSealIff(l, a, b);
  }

  /** Evidence is counted, not merely collected: stating a piece twice changes the seal. */
  lemma RepeatedEvidenceShows(l: Runtime, a: Intent, p: Payload)
    requires SealHash(l, a).Ok? && Meaning(l, p).Ok?
    ensures var b := a.(evidence := a.evidence + [p]); SealHash(l, b).Ok? && SealHash(l, b) != SealHash(l, a)
  {
    var b := a.(evidence := a.evidence + [p]);
    assert b.evidence[..|b.evidence| - 1] == a.evidence;
    SealableIff(l, a);
    ItemFormsExtend(l, b.evidence);
    SealableIff(l, b);
    SameSealIff(l, a, b);
    var f, g := ItemForms(l, a.evidence).value, ItemForms(l, b.evidence).value;
    assert |multiset(g)| == |g| == |f| + 1 && |multiset(f)| == |f|;
  }

  // ---- noise below the ninth place ----

  /** Equal but for floats that are the same number of billionths. */
  ghost predicate Alike(a: Payload, b: Payload)
    decreases a
  {
    match a
    case Real(d) => b.Real? && (Quantize(d).Ok? <==> Quantize(b.d).Ok?)
                    && (Quantize(d).Ok? ==> Billionths(d) == Billionths(b.d))
    case Choice(value) => b.Choice? && Alike(value, b.value)
    case Dict(entries) =>
      b.Dict? && |entries| == |b.entries| && forall i :: 0 <= i < |entries| ==> AlikeEntries(entries[i], b.entries[i])
    case Sequence(items) =>
      b.Sequence? && |items| == |b.items| && forall i :: 0 <= i < |items| ==> Alike(items[i], b.items[i])
    case _ => a == b
  }

  ghost predicate AlikeEntries(a: Entry, b: Entry)
    decreases a
  {
    a.key == b.key && Alike(a.value, b.value)
  }

  /** Two preparations that come to the same canonical form, or are both refused. */
  ghost predicate SameResult(l: Runtime, x: Result<Value>, y: Result<Value>) {
    (x.Ok? <==> y.Ok?) && (x.Ok? ==> Canonicalize(l, x.value) == Canonicalize(l, y.value))
  }

  ghost predicate SameMembers(l: Runtime, x: seq<Member>, y: seq<Member>) {
    SameNames(x, y) && Agree(l, x, y)
  }

  lemma {:induction false} PutSame(l: Runtime, x: seq<Member>, y: seq<Member>, m: Member, n: Member)
    requires SameMembers(l, x, y) && m.key == n.key && Canonicalize(l, m.item) == Canonicalize(l, n.item)
    ensures SameMembers(l, Put(x, m), Put(y, n))
  {
    if x == [] {
      assert y == [];
    } else if x[0].key == m.key {
      assert y[0].key == n.key;
      ConsSame(l, m, n, x[1..], y[1..]);
    } else {
      PutSame(l, x[1..], y[1..], m, n);
      ConsSame(l, x[0], y[0], Put(x[1..], m), Put(y[1..], n));
    }
  }

  lemma ConsSame(l: Runtime, m: Member, n: Member, x: seq<Member>, y: seq<Member>)
    requires SameMembers(l, x, y) && m.key == n.key && Canonicalize(l, m.item) == Canonicalize(l, n.item)
    ensures SameMembers(l, [m] + x, [n] + y)
  {}

  lemma RealMeansSame(l: Runtime, d: Decimal, e: Decimal)
    requires Alike(Real(d), Real(e))
    ensures SameResult(l, Prepare(Real(d)), Prepare(Real(e)))
  {
    if Quantize(d).Ok? {
      SealAlikeIff(d, e);
    }
  }

  /** Noise below the ninth place changes no meaning, wherever in the payload it is. */
  lemma {:induction false} AlikeMeansSame(l: Runtime, a: Payload, b: Payload)
    requires Alike(a, b)
    ensures SameResult(l, Prepare(a), Prepare(b))
    decreases a
  {
    match a
    case Real(d) => RealMeansSame(l, d, b.d);
    case Choice(value) => AlikeMeansSame(l, value, b.value);
    case Dict(entries) => DictMeansSame(l, entries, b.entries);
    case Sequence(items) => ItemsMeanSame(l, items, b.items);
    case _ =>
  }

  lemma {:induction false} DictMeansSame(l: Runtime, a: seq<Entry>, b: seq<Entry>)
    requires |a| == |b| && forall i :: 0 <= i < |a| ==> AlikeEntries(a[i], b[i])
    ensures SameResult(l, Prepare(Dict(a)), Prepare(Dict(b)))
    decreases a, 1
  {
    EntriesMeanSame(l, a, b);
    if PrepareEntries(a).Ok? {
      SameFieldsCollect(l, PrepareEntries(a).value, PrepareEntries(b).value);
    }
  }

  lemma {:induction false} EntryMeansSame(l: Runtime, a: Entry, b: Entry)
    requires AlikeEntries(a, b)
    ensures PrepareEntry(a).Ok? <==> PrepareEntry(b).Ok?
    ensures PrepareEntry(a).Ok? ==> PrepareEntry(a).value.key == PrepareEntry(b).value.key
    ensures PrepareEntry(a).Ok? ==> Canonicalize(l, PrepareEntry(a).value.item) == Canonicalize(l, PrepareEntry(b).value.item)
    decreases a
  {
    AlikeMeansSame(l, a.value, b.value);
  }

  lemma {:induction false} EntriesMeanSame(l: Runtime, a: seq<Entry>, b: seq<Entry>)
    requires |a| == |b| && forall i :: 0 <= i < |a| ==> AlikeEntries(a[i], b[i])
    ensures PrepareEntries(a).Ok? <==> PrepareEntries(b).Ok?
    ensures PrepareEntries(a).Ok? ==> SameMembers(l, PrepareEntries(a).value, PrepareEntries(b).value)
    decreases a, 0
  {
    if a != [] {
      var n := |a| - 1;
      EntriesMeanSame(l, a[..n], b[..n]);
      EntryMeansSame(l, a[n], b[n]);
      if PrepareEntries(a).Ok? {
        PutSame(l, PrepareEntries(a[..n]).value, PrepareEntries(b[..n]).value,
                PrepareEntry(a[n]).value, PrepareEntry(b[n]).value);
      }
    }
  }

  lemma {:induction false} ItemsMeanSame(l: Runtime, a: seq<Payload>, b: seq<Payload>)
    requires |a| == |b| && forall i :: 0 <= i < |a| ==> Alike(a[i], b[i])
    ensures PrepareAll(a).Ok? <==> PrepareAll(b).Ok?
    ensures PrepareAll(a).Ok? ==> CanonicalizeAll(l, PrepareAll(a).value) == CanonicalizeAll(l, PrepareAll(b).value)
    decreases a
  {
    if a != [] {
      var n := |a| - 1;
      ItemsMeanSame(l, a[..n], b[..n]);
      AlikeMeansSame(l, a[n], b[n]);
      if PrepareAll(a).Ok? {
        LastMeansSame(l, PrepareAll(a[..n]).value, PrepareAll(b[..n]).value, Prepare(a[n]).value, Prepare(b[n]).value);
      }
    }
  }

  lemma {:induction false} LastMeansSame(l: Runtime, p: seq<Value>, q: seq<Value>, v: Value, w: Value)
    requires CanonicalizeAll(l, p) == CanonicalizeAll(l, q) && Canonicalize(l, v) == Canonicalize(l, w)
    ensures CanonicalizeAll(l, p + [v]) == CanonicalizeAll(l, q + [w])
  {
    assert (p + [v])[..|p|] == p && (q + [w])[..|q|] == q;
  }

  ghost predicate AllAlike(a: seq<Payload>, b: seq<Payload>) {
    |a| == |b| && forall i :: 0 <= i < |a| ==> Alike(a[i], b[i])
  }

  lemma {:induction false} ItemsAlikeForms(l: Runtime, a: seq<Payload>, b: seq<Payload>)
    requires AllAlike(a, b) && ItemForms(l, a).Ok?
    ensures ItemForms(l, b) == ItemForms(l, a)
  {
    ItemsMeanSame(l, a, b);
  }

  /** Two intents that differ only in noise below the ninth place, wherever it is, have the same seal. */
  lemma NoiseIrrelevant(l: Runtime, a: Intent, b: Intent)
    requires SealHash(l, a).Ok? && Alike(a.interpreted, b.interpreted)
    requires AllAlike(a.evidence, b.evidence) && AllAlike(a.unresolved, b.unresolved)
    requires a.(interpreted := b.interpreted, evidence := b.evidence, unresolved := b.unresolved) == b
    ensures SealHash(l, b) == SealHash(l, a)
  {
    SealableIff(l, a);
    AlikeMeansSame(l, a.interpreted, b.interpreted);
    assert Meaning(l, a.interpreted) == Meaning(l, b.interpreted);
    ItemsAlikeForms(l, a.evidence, b.evidence);
    ItemsAlikeForms(l, a.unresolved, b.unresolved);
    SealableIff(l, b);
    SameSealIff(l, a, b);
  }

  /** Nor does such noise together with another order of discovery: `e` and `u` are the evidence and the open points of one
      intent in the order of the other. */
  lemma NoiseAndOrderIrrelevant(l: Runtime, a: Intent, e: seq<Payload>, u: seq<Payload>, b: Intent)
    requires SealHash(l, a).Ok? && multiset(e) == multiset(a.evidence) && multiset(u) == multiset(a.unresolved)
    requires Alike(a.interpreted, b.interpreted) && AllAlike(e, b.evidence) && AllAlike(u, b.unresolved)
    requires a.(interpreted := b.interpreted, evidence := b.evidence, unresolved := b.unresolved) == b
    ensures SealHash(l, b) == SealHash(l, a)
  {
    var reordered := a.(evidence := e, unresolved := u);
    DiscoveryOrderIrrelevant(l, a, reordered);
    NoiseIrrelevant(l, reordered, b);
  }
}
