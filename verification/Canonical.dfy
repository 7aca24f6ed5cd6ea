/** The canonical form of a value (`canonicalize` in runtime_contracts/canonical.py). */
module Canonical {
  import opened Wrappers
  import opened Text
  import opened Platform
  import opened Digits
  import opened Decimals

  /** A Python value as `canonicalize` tells them apart. A mapping lists its items in iteration order. */
  datatype Value =
    | Null
    | Bool(b: bool)
    | Int(n: int)
    | Float
    | Dec(d: Decimal)
    | Str(s: string)
    | Map(members: seq<Member>)
    | List(items: seq<Value>)
    | SetOf
    | Form(form: Value)  // an object with a canonical_form method, carrying what that returns
    | Alien

  datatype Key = Name(name: string) | OtherKey

  datatype Member = Member(key: Key, item: Value)

  // ---- the reduction ----

  function Canonicalize(l: Runtime, v: Value): Result<Value>
    decreases v
  {
    match v
    case Null => Ok(v)
    case Bool(_) => Ok(v)
    case Int(_) => Ok(v)
    case Float => Refused
    case Dec(d) => var text :- DecimalText(d); Ok(Str(text))
    case Str(s) => Ok(Str(Nfc(l, s)))
    case Map(members) => var out :- Collect(l, members); Ok(Map(Listing(out)))
    case List(items) => var out :- CanonicalizeAll(l, items); Ok(List(out))
    case SetOf => Refused
    case Form(form) => Canonicalize(l, form)
    case Alien => Refused
  }

  function CanonicalizeAll(l: Runtime, items: seq<Value>): (r: Result<seq<Value>>)
    ensures r.Ok? ==> |r.value| == |items|
    decreases items
  {
    if items == [] then Ok([])
    else
      var front :- CanonicalizeAll(l, items[..|items| - 1]);
      var last :- Canonicalize(l, items[|items| - 1]);
      Ok(front + [last])
  }

  /** The dict built from a mapping's items: keys normalised, nulls skipped, a later item overwriting. */
  function Collect(l: Runtime, members: seq<Member>): Result<map<string, Value>>
    decreases members
  {
    if members == [] then Ok(map[])
    else
      var out :- Collect(l, members[..|members| - 1]);
      var last := members[|members| - 1];
      var item :- ReduceMember(l, last);
      Ok(if item.Null? then out else out[Nfc(l, last.key.name) := item])
  }

  /** The value of one item of a mapping, whose key must be a string. */
  function ReduceMember(l: Runtime, m: Member): (r: Result<Value>)
    ensures r.Ok? ==> m.key.Name?
    decreases m
  {
    if m.key.OtherKey? then Refused else Canonicalize(l, m.item)
  }

  /** A dict listed with its keys sorted. */
  function Listing(out: map<string, Value>): (r: seq<Member>)
    ensures |r| == |out.Keys|
    ensures forall i :: 0 <= i < |r| ==> r[i].key.Name? && r[i].key.name in out && r[i].item == out[r[i].key.name]
  {
    var keys := Ascending(out.Keys);
    assert forall i :: 0 <= i < |keys| ==> keys[i] in keys;
    seq(|keys|, i requires 0 <= i < |keys| => Member(Name(keys[i]), out[keys[i]]))
  }

  /** The same reduction as the source runs it: a dict filled in a loop, then listed in key order. */
  method Reduce(l: Runtime, v: Value) returns (r: Result<Value>)
    ensures r == Canonicalize(l, v)
    decreases v
  {
    match v {
      case Null | Bool(_) | Int(_) => return Ok(v);
      case Dec(d) =>
        var text := DecimalText(d);
        return if text.Ok? then Ok(Str(text.value)) else Refused;
      case Str(s) => return Ok(Str(Nfc(l, s)));
      case Map(members) =>
        var out: map<string, Value> := map[];
        for i := 0 to |members|
          invariant Collect(l, members[..i]) == Ok(out)
        {
          assert members[..i + 1][..i] == members[..i];
          var member := members[i];
          if member.key.OtherKey? {
            CollectRefusal(l, members, i + 1);
            return Refused;
          }
          var reduced := Reduce(l, member.item);
          if reduced.Refused? {
            CollectRefusal(l, members, i + 1);
            return Refused;
          }
          if !reduced.value.Null? {
            out := out[Nfc(l, member.key.name) := reduced.value];
          }
        }
        assert members[..|members|] == members;
        return Ok(Map(Listing(out)));
      case List(items) =>
        var out: seq<Value> := [];
        for i := 0 to |items|
          invariant CanonicalizeAll(l, items[..i]) == Ok(out)
        {
          assert items[..i + 1][..i] == items[..i];
          var reduced := Reduce(l, items[i]);
          if reduced.Refused? {
            CanonicalizeAllRefusal(l, items, i + 1);
            return Refused;
          }
          out := out + [reduced.value];
        }
        assert items[..|items|] == items;
        return Ok(List(out));
      case Form(form) =>
        r := Reduce(l, form);
      case Float | SetOf | Alien => return Refused;
    }
  }

  lemma {:induction false} CollectRefusal(l: Runtime, members: seq<Member>, k: nat)
    requires k <= |members| && Collect(l, members[..k]).Refused?
    ensures Collect(l, members).Refused?
    decreases |members| - k
  {
    if k < |members| {
      assert members[..k + 1][..k] == members[..k];
      CollectRefusal(l, members, k + 1);
    } else {
      assert members[..k] == members;
    }
  }

  lemma {:induction false} CanonicalizeAllRefusal(l: Runtime, items: seq<Value>, k: nat)
    requires k <= |items| && CanonicalizeAll(l, items[..k]).Refused?
    ensures CanonicalizeAll(l, items).Refused?
    decreases |items| - k
  {
    if k < |items| {
      assert items[..k + 1][..k] == items[..k];
      CanonicalizeAllRefusal(l, items, k + 1);
    } else {
      assert items[..k] == items;
    }
  }

  // ---- the normal form, said without the reduction ----

  ghost predicate IsCanonical(l: Runtime, v: Value)
    decreases v
  {
    match v
    case Null => true
    case Bool(_) => true
    case Int(_) => true
    case Str(s) => l.nfc(s) == s
    case List(items) => forall i :: 0 <= i < |items| ==> IsCanonical(l, items[i])
    case Map(members) => KeysAscend(members) && forall i :: 0 <= i < |members| ==> CanonicalMember(l, members[i])
    case _ => false
  }

  ghost predicate CanonicalMember(l: Runtime, m: Member)
    decreases m
  {
    m.key.Name? && l.nfc(m.key.name) == m.key.name && !m.item.Null? && IsCanonical(l, m.item)
  }

  ghost predicate KeysAscend(members: seq<Member>) {
    forall i, j :: 0 <= i < j < |members| ==>
      members[i].key.Name? && members[j].key.Name? && Before(members[i].key.name, members[j].key.name)
  }

  /** Nothing inside that canonicalisation refuses. */
  ghost predicate Acceptable(v: Value)
    decreases v
  {
    match v
    case Dec(d) => DecimalText(d).Ok?
    case Map(members) => forall i :: 0 <= i < |members| ==> members[i].key.Name? && Acceptable(members[i].item)
    case List(items) => forall i :: 0 <= i < |items| ==> Acceptable(items[i])
    case Form(form) => Acceptable(form)
    case Float => false
    case SetOf => false
    case Alien => false
    case _ => true
  }

  // ---- what is refused ----

  lemma {:induction false} AcceptedIff(l: Runtime, v: Value)
    ensures Canonicalize(l, v).Ok? <==> Acceptable(v)
    decreases v
  {
    match v
    case Map(members) => CollectAcceptedIff(l, members);
    case List(items) => AllAcceptedIff(l, items);
    case Form(form) => AcceptedIff(l, form);
    case _ =>
  }

  lemma {:induction false} MemberAcceptedIff(l: Runtime, m: Member)
    ensures ReduceMember(l, m).Ok? <==> m.key.Name? && Acceptable(m.item)
    decreases m
  {
    AcceptedIff(l, m.item);
  }

  lemma {:induction false} CollectAcceptedIff(l: Runtime, members: seq<Member>)
    ensures Collect(l, members).Ok?
       <==> forall i :: 0 <= i < |members| ==> members[i].key.Name? && Acceptable(members[i].item)
    decreases members
  {
    if members != [] {
      CollectAcceptedIff(l, members[..|members| - 1]);
      MemberAcceptedIff(l, members[|members| - 1]);
    }
  }

  lemma {:induction false} AllAcceptedIff(l: Runtime, items: seq<Value>)
    ensures CanonicalizeAll(l, items).Ok? <==> forall i :: 0 <= i < |items| ==> Acceptable(items[i])
    decreases items
  {
    if items != [] {
      AllAcceptedIff(l, items[..|items| - 1]);
      AcceptedIff(l, items[|items| - 1]);
    }
  }

  // ---- the result is canonical ----

  lemma DecimalTextAscii(d: Decimal)
    requires DecimalText(d).Ok?
    ensures Ascii(DecimalText(d).value)
  {
    if d.coefficient > 0 {
      TextOf(d);
      NormalizeReduced(d);
      FixedPointClean(Normalize(d).value);
    }
  }

  lemma {:induction false} CanonicalizeIsCanonical(l: Runtime, v: Value)
    requires Canonicalize(l, v).Ok?
    ensures IsCanonical(l, Canonicalize(l, v).value)
    decreases v
  {
    match v
    case Dec(d) =>
      DecimalTextAscii(d);
      AsciiIsNormal(l, DecimalText(d).value);
    case Map(members) => CollectIsCanonical(l, members);
    case List(items) => AllIsCanonical(l, items);
    case Form(form) => CanonicalizeIsCanonical(l, form);
    case _ =>
  }

  lemma {:induction false} MemberIsCanonical(l: Runtime, m: Member)
    requires ReduceMember(l, m).Ok?
    ensures IsCanonical(l, ReduceMember(l, m).value)
    decreases m
  {
    CanonicalizeIsCanonical(l, m.item);
  }

  lemma {:induction false} CollectIsCanonical(l: Runtime, members: seq<Member>)
    requires Collect(l, members).Ok?
    ensures var out := Collect(l, members).value;
      forall k :: k in out ==> l.nfc(k) == k && !out[k].Null? && IsCanonical(l, out[k])
    decreases members
  {
    if members != [] {
      CollectIsCanonical(l, members[..|members| - 1]);
      MemberIsCanonical(l, members[|members| - 1]);
    }
  }

  lemma {:induction false} AllIsCanonical(l: Runtime, items: seq<Value>)
    requires CanonicalizeAll(l, items).Ok?
    ensures var out := CanonicalizeAll(l, items).value;
      forall i :: 0 <= i < |out| ==> IsCanonical(l, out[i])
    decreases items
  {
    if items != [] {
      AllIsCanonical(l, items[..|items| - 1]);
      CanonicalizeIsCanonical(l, items[|items| - 1]);
    }
  }

  // ---- a canonical value is left alone ----

  lemma {:induction false} CanonicalFixed(l: Runtime, v: Value)
    requires IsCanonical(l, v)
    ensures Canonicalize(l, v) == Ok(v)
    decreases v
  {
    match v
    case Map(members) =>
      CollectFixed(l, members);
      ListingUnique(members, Collect(l, members).value);
    case List(items) => AllFixed(l, items);
    case _ =>
  }

  lemma {:induction false} MemberFixed(l: Runtime, m: Member)
    requires m.key.Name? && IsCanonical(l, m.item)
    ensures ReduceMember(l, m) == Ok(m.item)
    decreases m
  {
    CanonicalFixed(l, m.item);
  }

  lemma {:induction false} AllFixed(l: Runtime, items: seq<Value>)
    requires forall i :: 0 <= i < |items| ==> IsCanonical(l, items[i])
    ensures CanonicalizeAll(l, items) == Ok(items)
    decreases items
  {
    if items != [] {
      AllFixed(l, items[..|items| - 1]);
      CanonicalFixed(l, items[|items| - 1]);
      assert items == items[..|items| - 1] + [items[|items| - 1]];
    }
  }

  /** A dict holds exactly the listed members, whose keys are in increasing order. */
  ghost predicate Lists(members: seq<Member>, out: map<string, Value>) {
    && (forall i :: 0 <= i < |members| ==>
          && members[i].key.Name? && members[i].key.name in out && out[members[i].key.name] == members[i].item)
    && (forall k :: k in out ==> exists i :: 0 <= i < |members| && members[i].key == Name(k))
    && KeysAscend(members)
  }

  lemma {:induction false} ListsExtend(front: seq<Member>, before: map<string, Value>, last: Member)
    requires Lists(front, before) && last.key.Name?
    requires forall i :: 0 <= i < |front| ==> front[i].key.Name? && Before(front[i].key.name, last.key.name)
    ensures Lists(front + [last], before[last.key.name := last.item])
  {
    var members, out := front + [last], before[last.key.name := last.item];
    BeforeIrreflexive(last.key.name);
    forall k | k in out
      ensures exists i :: 0 <= i < |members| && members[i].key == Name(k)
    {
      if k == last.key.name {
        assert members[|front|].key == Name(k);
      } else {
        var i :| 0 <= i < |front| && front[i].key == Name(k);
        assert members[i].key == Name(k);
      }
    }
  }

  lemma {:induction false} CollectFixed(l: Runtime, members: seq<Member>)
    requires KeysAscend(members) && forall i :: 0 <= i < |members| ==> CanonicalMember(l, members[i])
    ensures Collect(l, members).Ok? && Lists(members, Collect(l, members).value)
    decreases members
  {
    if members != [] {
      var front, last := members[..|members| - 1], members[|members| - 1];
      CollectFixed(l, front);
      assert CanonicalMember(l, last);
      MemberFixed(l, last);
      ListsExtend(front, Collect(l, front).value, last);
      assert members == front + [last];
    }
  }

  lemma {:induction false} KeysListed(members: seq<Member>, out: map<string, Value>, keys: seq<string>)
    requires Lists(members, out) && |keys| == |members| && forall i :: 0 <= i < |keys| ==> keys[i] == members[i].key.name
    ensures forall k :: k in keys <==> k in out.Keys
  {
    forall k
      ensures k in keys <==> k in out.Keys
    {
      if k in keys {
        var i :| 0 <= i < |keys| && keys[i] == k;
      }
      if k in out {
        var i :| 0 <= i < |members| && members[i].key == Name(k);
        assert keys[i] == k;
      }
    }
  }

  /** Listing a dict gives back the only ordered listing of it. */
  lemma {:induction false} ListingUnique(members: seq<Member>, out: map<string, Value>)
    requires Lists(members, out)
    ensures Listing(out) == members
  {
    var keys := seq(|members|, i requires 0 <= i < |members| => members[i].key.name);
    KeysListed(members, out, keys);
    AscendingUnique(keys, out.Keys);
    forall i | 0 <= i < |members|
      ensures Listing(out)[i] == members[i]
    {
      assert Listing(out)[i] == Member(Name(keys[i]), out[keys[i]]);
    }
  }

  /** Canonicalisation changes nothing exactly when the value already has the normal form. */
  lemma FixedIffCanonical(l: Runtime, v: Value)
    ensures Canonicalize(l, v) == Ok(v) <==> IsCanonical(l, v)
  {
    if Canonicalize(l, v) == Ok(v) {
      CanonicalizeIsCanonical(l, v);
    } else if IsCanonical(l, v) {
      CanonicalFixed(l, v);
    }
  }

  /** Canonicalising twice is canonicalising once. */
  lemma CanonicalizeIdempotent(l: Runtime, v: Value)
    requires Canonicalize(l, v).Ok?
    ensures Canonicalize(l, Canonicalize(l, v).value) == Canonicalize(l, v)
  {
    CanonicalizeIsCanonical(l, v);
    CanonicalFixed(l, Canonicalize(l, v).value);
  }

  // ---- what a mapping's items determine ----

  ghost predicate Contributes(l: Runtime, m: Member, k: string) {
    m.key.Name? && l.nfc(m.key.name) == k && ReduceMember(l, m).Ok? && !ReduceMember(l, m).value.Null?
  }

  /** Item i is the one kept under k: it is not null and no later item that is not null has the same key. */
  ghost predicate Kept(l: Runtime, members: seq<Member>, k: string, i: int) {
    && 0 <= i < |members| && Contributes(l, members[i], k)
    && forall j :: i < j < |members| ==> !Contributes(l, members[j], k)
  }

  lemma KeptInFront(l: Runtime, members: seq<Member>, k: string, i: int)
    requires members != [] && !Contributes(l, members[|members| - 1], k)
    ensures Kept(l, members, k, i) <==> Kept(l, members[..|members| - 1], k, i)
  {
    var front := members[..|members| - 1];
    assert forall j :: 0 <= j < |front| ==> front[j] == members[j];
  }

  /** The dict holds, under each normalised key, the last item with that key that is not null. */
  lemma {:induction false} LastItemWins(l: Runtime, members: seq<Member>, k: string)
    requires Collect(l, members).Ok?
    ensures var out := Collect(l, members).value;
      && (k in out <==> exists i :: Kept(l, members, k, i))
      && (forall i :: Kept(l, members, k, i) ==> k in out && Ok(out[k]) == ReduceMember(l, members[i]))
    decreases members
  {
    if members != [] {
      var n := |members| - 1;
      LastItemWins(l, members[..n], k);
      if Contributes(l, members[n], k) {
        assert Kept(l, members, k, n);
      } else {
        forall i
          ensures Kept(l, members, k, i) <==> Kept(l, members[..n], k, i)
        {
          KeptInFront(l, members, k, i);
        }
      }
    }
  }

  ghost predicate KeysDistinct(l: Runtime, members: seq<Member>) {
    forall i, j :: 0 <= i < j < |members| && members[i].key.Name? && members[j].key.Name? ==>
      l.nfc(members[i].key.name) != l.nfc(members[j].key.name)
  }

  /** Every item of `a` that is not null is an item of `b`. */
  ghost predicate Within(l: Runtime, a: seq<Member>, b: seq<Member>) {
    forall i :: 0 <= i < |a| && a[i].key.Name? && Contributes(l, a[i], l.nfc(a[i].key.name)) ==> a[i] in b
  }

  lemma WithinCollected(l: Runtime, a: seq<Member>, b: seq<Member>, k: string)
    requires KeysDistinct(l, b) && Within(l, a, b) && Collect(l, a).Ok? && Collect(l, b).Ok?
    requires k in Collect(l, a).value
    ensures k in Collect(l, b).value && Collect(l, b).value[k] == Collect(l, a).value[k]
  {
    LastItemWins(l, a, k);
    LastItemWins(l, b, k);
    var i :| Kept(l, a, k, i);
    var j :| 0 <= j < |b| && b[j] == a[i];
    assert Kept(l, b, k, j);
  }

  /** Map order is irrelevant when keys stay distinct after normalisation: mappings with the same items, in any
      order and with or without null items, have the same canonical form. */
  lemma ItemOrderIrrelevant(l: Runtime, a: seq<Member>, b: seq<Member>)
    requires KeysDistinct(l, a) && KeysDistinct(l, b) && Within(l, a, b) && Within(l, b, a)
    requires Collect(l, a).Ok? && Collect(l, b).Ok?
    ensures Canonicalize(l, Map(a)) == Canonicalize(l, Map(b))
  {
    var x, y := Collect(l, a).value, Collect(l, b).value;
    forall k
      ensures k in x <==> k in y
      ensures k in x && k in y ==> x[k] == y[k]
    {
      if k in x {
        WithinCollected(l, a, b, k);
      }
      if k in y {
        WithinCollected(l, b, a, k);
      }
    }
    assert x == y;
  }

  // ---- exactly when the order does not matter ----

  /** Whatever the order of its items, the mapping has the same canonical form. */
  ghost predicate OrderIrrelevant(l: Runtime, a: seq<Member>) {
    forall b :: multiset(b) == multiset(a) ==> Canonicalize(l, Map(b)) == Canonicalize(l, Map(a))
  }

  ghost predicate Collide(l: Runtime, x: Member, y: Member) {
    x.key.Name? && y.key.Name? && Contributes(l, x, l.nfc(x.key.name)) && Contributes(l, y, l.nfc(x.key.name))
  }

  /** Items that are not null and whose keys normalise alike have the same value. */
  ghost predicate CollisionsAgree(l: Runtime, a: seq<Member>) {
    forall x, y :: x in a && y in a && Collide(l, x, y) ==> ReduceMember(l, x) == ReduceMember(l, y)
  }

  lemma {:induction false} SomeItemKept(l: Runtime, members: seq<Member>, k: string, j: nat)
    requires j < |members| && Contributes(l, members[j], k)
    ensures exists i :: Kept(l, members, k, i)
    decreases |members|
  {
    var n := |members| - 1;
    if Contributes(l, members[n], k) {
      assert Kept(l, members, k, n);
    } else {
      SomeItemKept(l, members[..n], k, j);
      var i :| Kept(l, members[..n], k, i);
      KeptInFront(l, members, k, i);
    }
  }

  /** What a rearranged mapping collects under a key that some item is kept under. */
  lemma RearrangedCollects(l: Runtime, a: seq<Member>, b: seq<Member>, k: string)
    requires CollisionsAgree(l, a) && multiset(b) == multiset(a) && Collect(l, a).Ok? && Collect(l, b).Ok?
    requires k in Collect(l, a).value
    ensures k in Collect(l, b).value && Collect(l, b).value[k] == Collect(l, a).value[k]
  {
    LastItemWins(l, a, k);
    LastItemWins(l, b, k);
    var i :| Kept(l, a, k, i);
    assert a[i] in multiset(b);
    var j :| 0 <= j < |b| && b[j] == a[i];
    SomeItemKept(l, b, k, j);
    var n :| Kept(l, b, k, n);
    assert b[n] in multiset(a);
    assert Collide(l, a[i], b[n]);
  }

  lemma RearrangedAccepted(l: Runtime, a: seq<Member>, b: seq<Member>)
    requires multiset(b) == multiset(a) && Collect(l, a).Ok?
    ensures Collect(l, b).Ok?
  {
    CollectAcceptedIff(l, a);
    CollectAcceptedIff(l, b);
    forall i | 0 <= i < |b|
      ensures b[i].key.Name? && Acceptable(b[i].item)
    {
      assert b[i] in multiset(a);
      var j :| 0 <= j < |a| && a[j] == b[i];
    }
  }

  lemma AgreeingOrderIrrelevant(l: Runtime, a: seq<Member>, b: seq<Member>)
    requires CollisionsAgree(l, a) && multiset(b) == multiset(a) && Collect(l, a).Ok?
    ensures Canonicalize(l, Map(b)) == Canonicalize(l, Map(a))
  {
    RearrangedAccepted(l, a, b);
    assert CollisionsAgree(l, b) by {
      assert forall x :: x in b <==> x in multiset(b);
      assert forall x :: x in a <==> x in multiset(a);
    }
    var x, y := Collect(l, a).value, Collect(l, b).value;
    forall k
      ensures k in x <==> k in y
      ensures k in x && k in y ==> x[k] == y[k]
    {
      if k in x {
        RearrangedCollects(l, a, b, k);
      }
      if k in y {
        RearrangedCollects(l, b, a, k);
      }
    }
    assert x == y;
  }

  function MovedLast(a: seq<Member>, i: nat): (b: seq<Member>)
    requires i < |a|
    ensures multiset(b) == multiset(a) && b[|b| - 1] == a[i]
  {
    assert a == a[..i] + [a[i]] + a[i + 1..];
    a[..i] + a[i + 1..] + [a[i]]
  }

  lemma ListingTells(x: map<string, Value>, y: map<string, Value>, k: string)
    requires Listing(x) == Listing(y) && k in x
    ensures k in y && x[k] == y[k]
  {
    var keys := Ascending(x.Keys);
    assert k in keys;
    var i :| 0 <= i < |keys| && keys[i] == k;
    assert Listing(x)[i].key == Name(k);
  }

  /** An item moved to the end is the one kept under its key. */
  lemma LastIsCollected(l: Runtime, a: seq<Member>, i: nat)
    requires i < |a| && a[i].key.Name? && Contributes(l, a[i], l.nfc(a[i].key.name)) && OrderIrrelevant(l, a) && Collect(l, a).Ok?
    ensures l.nfc(a[i].key.name) in Collect(l, a).value
    ensures Ok(Collect(l, a).value[l.nfc(a[i].key.name)]) == ReduceMember(l, a[i])
  {
    var b, k := MovedLast(a, i), l.nfc(a[i].key.name);
    RearrangedAccepted(l, a, b);
    LastItemWins(l, b, k);
    assert Kept(l, b, k, |b| - 1);
    assert Canonicalize(l, Map(b)) == Canonicalize(l, Map(a));
    ListingTells(Collect(l, b).value, Collect(l, a).value, k);
  }

  /** Map order is irrelevant exactly when items that are not null and whose keys normalise alike have the same value. */
  lemma ItemOrderIrrelevantIff(l: Runtime, a: seq<Member>)
    requires Collect(l, a).Ok?
    ensures OrderIrrelevant(l, a) <==> CollisionsAgree(l, a)
  {
    if CollisionsAgree(l, a) {
      forall b | multiset(b) == multiset(a)
        ensures Canonicalize(l, Map(b)) == Canonicalize(l, Map(a))
      {
        AgreeingOrderIrrelevant(l, a, b);
      }
    }
    if OrderIrrelevant(l, a) {
      forall x, y | x in a && y in a && Collide(l, x, y)
        ensures ReduceMember(l, x) == ReduceMember(l, y)
      {
        var i :| 0 <= i < |a| && a[i] == x;
        var j :| 0 <= j < |a| && a[j] == y;
        LastIsCollected(l, a, i);
        LastIsCollected(l, a, j);
      }
    }
  }

  /** A mapping for which it shows: two different keys that normalise alike, with different values. */
  lemma {:induction false} CollidingKeysOrderShows(l: Runtime, j: string, k: string, a: int, b: int)
    requires j != k && l.nfc(j) == l.nfc(k) && a != b
    ensures !OrderIrrelevant(l, [Member(Name(j), Int(a)), Member(Name(k), Int(b))])
  {
    var x, y := Member(Name(j), Int(a)), Member(Name(k), Int(b));
    assert ReduceMember(l, x) == Ok(Int(a)) && ReduceMember(l, y) == Ok(Int(b));
    CollectAcceptedIff(l, [x, y]);
    assert Contributes(l, x, l.nfc(j)) && Contributes(l, y, l.nfc(j)) && x.key.name == j;
    assert x in [x, y] && y in [x, y] && Collide(l, x, y);
    ItemOrderIrrelevantIff(l, [x, y]);
  }
}
