/** Immutable JSON inside a record (`freeze_json` in runtime_contracts/qa/base.py): like the canonical form, but nulls stay
    in objects, control characters are refused and depth is bounded. */
module FrozenJson {
  import opened Wrappers
  import opened Text
  import opened Platform
  import opened Decimals
  import opened Canonical

  const MAX_JSON_DEPTH := 12

  /** `_text`. */
  function CleanText(l: Runtime, s: string): Result<string> {
    if HasControl(s) then Refused else Ok(Nfc(l, s))
  }

  function Freeze(l: Runtime, v: Value, depth: nat): Result<Value>
    decreases v
  {
    if depth > MAX_JSON_DEPTH then Refused
    else
      match v
      case Null => Ok(v)
      case Bool(_) => Ok(v)
      case Int(_) => Ok(v)
      case Dec(d) => var text :- DecimalText(d); Ok(Str(text))
      case Str(s) => var text :- CleanText(l, s); Ok(Str(text))
      case Map(members) => var out :- FreezeMembers(l, members, depth); Ok(Map(Listing(out)))
      case List(items) => var out :- FreezeItems(l, items, depth); Ok(List(out))
      case _ => Refused
  }

  function FreezeMembers(l: Runtime, members: seq<Member>, depth: nat): Result<map<string, Value>>
    decreases members
  {
    if members == [] then Ok(map[])
    else
      var out :- FreezeMembers(l, members[..|members| - 1], depth);
      var last := members[|members| - 1];
      var item :- FreezeMember(l, last, depth);
      Ok(out[item.0 := item.1])
  }

  function FreezeMember(l: Runtime, m: Member, depth: nat): Result<(string, Value)>
    decreases m
  {
    match m.key
    case OtherKey => Refused
    case Name(name) =>
      var key :- CleanText(l, name);
      var item :- Freeze(l, m.item, depth + 1);
      Ok((key, item))
  }

  function FreezeItems(l: Runtime, items: seq<Value>, depth: nat): (r: Result<seq<Value>>)
    ensures r.Ok? ==> |r.value| == |items|
    decreases items
  {
    if items == [] then Ok([])
    else
      var front :- FreezeItems(l, items[..|items| - 1], depth);
      var last :- Freeze(l, items[|items| - 1], depth + 1);
      Ok(front + [last])
  }

  // ---- what is frozen ----

  predicate NormalText(l: Runtime, s: string) {
    l.nfc(s) == s && !HasControl(s)
  }

  ghost predicate Frozen(l: Runtime, v: Value, depth: nat)
    decreases v
  {
    depth <= MAX_JSON_DEPTH &&
    match v
    case Null => true
    case Bool(_) => true
    case Int(_) => true
    case Str(s) => NormalText(l, s)
    case Map(members) => KeysAscend(members) && forall i :: 0 <= i < |members| ==> FrozenMember(l, members[i], depth)
    case List(items) => forall i :: 0 <= i < |items| ==> Frozen(l, items[i], depth + 1)
    case _ => false
  }

  ghost predicate FrozenMember(l: Runtime, m: Member, depth: nat)
    decreases m
  {
    m.key.Name? && NormalText(l, m.key.name) && Frozen(l, m.item, depth + 1)
  }

  lemma CleanTextIsNormal(l: Runtime, s: string)
    requires CleanText(l, s).Ok?
    ensures NormalText(l, CleanText(l, s).value)
  {
    ControlFree(l, s);
  }

  lemma AsciiDigitsNormal(l: Runtime, d: Decimal)
    requires DecimalText(d).Ok?
    ensures NormalText(l, DecimalText(d).value)
  {
    DecimalTextAscii(d);
    AsciiIsNormal(l, DecimalText(d).value);
    DecimalTextPrintable(d);
  }

  lemma DecimalTextPrintable(d: Decimal)
    requires DecimalText(d).Ok?
    ensures !HasControl(DecimalText(d).value)
  {
    if d.coefficient > 0 {
      TextOf(d);
      NormalizeReduced(d);
      FixedPointClean(Normalize(d).value);
    }
  }

  /** What freezing gives is frozen. */
  lemma {:induction false} FreezeGivesFrozen(l: Runtime, v: Value, depth: nat)
    requires Freeze(l, v, depth).Ok?
    ensures Frozen(l, Freeze(l, v, depth).value, depth)
    ensures Freeze(l, v, depth).value.Null? <==> v.Null?
    decreases v
  {
    match v
    case Dec(d) => AsciiDigitsNormal(l, d);
    case Str(s) => CleanTextIsNormal(l, s);
    case Map(members) =>
      MembersFreeze(l, members, depth);
      FrozenListing(l, FreezeMembers(l, members, depth).value, depth);
    case List(items) => ItemsFreeze(l, items, depth);
    case _ =>
  }

  lemma {:induction false} MemberFreezes(l: Runtime, m: Member, depth: nat)
    requires FreezeMember(l, m, depth).Ok?
    ensures var (key, item) := FreezeMember(l, m, depth).value; NormalText(l, key) && Frozen(l, item, depth + 1)
    decreases m
  {
    CleanTextIsNormal(l, m.key.name);
    FreezeGivesFrozen(l, m.item, depth + 1);
  }

  ghost predicate FrozenDict(l: Runtime, out: map<string, Value>, depth: nat) {
    forall k :: k in out ==> NormalText(l, k) && Frozen(l, out[k], depth + 1)
  }

  lemma {:induction false} MembersFreeze(l: Runtime, members: seq<Member>, depth: nat)
    requires FreezeMembers(l, members, depth).Ok?
    ensures FrozenDict(l, FreezeMembers(l, members, depth).value, depth)
    decreases members
  {
    if members != [] {
      MembersFreeze(l, members[..|members| - 1], depth);
      MemberFreezes(l, members[|members| - 1], depth);
    }
  }

  lemma {:induction false} ItemsFreeze(l: Runtime, items: seq<Value>, depth: nat)
    requires FreezeItems(l, items, depth).Ok?
    ensures var out := FreezeItems(l, items, depth).value; forall i :: 0 <= i < |out| ==> Frozen(l, out[i], depth + 1)
    decreases items
  {
    if items != [] {
      var n := |items| - 1;
      ItemsFreeze(l, items[..n], depth);
      FreezeGivesFrozen(l, items[n], depth + 1);
      assert FreezeItems(l, items, depth).value
          == FreezeItems(l, items[..n], depth).value + [Freeze(l, items[n], depth + 1).value];
    }
  }

  lemma FrozenListing(l: Runtime, out: map<string, Value>, depth: nat)
    requires depth <= MAX_JSON_DEPTH && FrozenDict(l, out, depth)
    ensures Frozen(l, Map(Listing(out)), depth)
  {
    var members := Listing(out);
    ListingOrdered(out);
    forall i | 0 <= i < |members|
      ensures FrozenMember(l, members[i], depth)
    {
      assert members[i].key.name in out;
    }
  }

  lemma ListingOrdered(out: map<string, Value>)
    ensures KeysAscend(Listing(out))
  {
    var members, keys := Listing(out), Ascending(out.Keys);
    assert forall i :: 0 <= i < |members| ==> members[i].key == Name(keys[i]);
  }

  /** Freezing again changes nothing. */
  lemma {:induction false} FrozenFixed(l: Runtime, v: Value, depth: nat)
    requires Frozen(l, v, depth)
    ensures Freeze(l, v, depth) == Ok(v)
    decreases v
  {
    match v
    case Map(members) =>
      MembersFixed(l, members, depth);
      ListingUnique(members, FreezeMembers(l, members, depth).value);
    case List(items) => ItemsFixed(l, items, depth);
    case _ =>
  }

  lemma {:induction false} MemberFixed(l: Runtime, m: Member, depth: nat)
    requires FrozenMember(l, m, depth)
    ensures FreezeMember(l, m, depth) == Ok((m.key.name, m.item))
    decreases m
  {
    FrozenFixed(l, m.item, depth + 1);
  }

  lemma {:induction false} MembersFixed(l: Runtime, members: seq<Member>, depth: nat)
    requires KeysAscend(members) && forall i :: 0 <= i < |members| ==> FrozenMember(l, members[i], depth)
    ensures FreezeMembers(l, members, depth).Ok? && Lists(members, FreezeMembers(l, members, depth).value)
    decreases members
  {
    if members != [] {
      var front, last := members[..|members| - 1], members[|members| - 1];
      FrozenFront(l, members, depth);
      MembersFixed(l, front, depth);
      MemberFixed(l, last, depth);
      ListsExtend(front, FreezeMembers(l, front, depth).value, last);
      FreezeLast(l, front, last, depth);
    }
  }

  lemma FrozenFront(l: Runtime, members: seq<Member>, depth: nat)
    requires members != [] && KeysAscend(members) && forall i :: 0 <= i < |members| ==> FrozenMember(l, members[i], depth)
    ensures var front := members[..|members| - 1];
      && members == front + [members[|members| - 1]] && KeysAscend(front)
      && (forall i :: 0 <= i < |front| ==> FrozenMember(l, front[i], depth))
    ensures FrozenMember(l, members[|members| - 1], depth)
  {}

  lemma FreezeLast(l: Runtime, front: seq<Member>, last: Member, depth: nat)
    requires FreezeMembers(l, front, depth).Ok? && FreezeMember(l, last, depth).Ok?
    ensures var item := FreezeMember(l, last, depth).value;
      FreezeMembers(l, front + [last], depth) == Ok(FreezeMembers(l, front, depth).value[item.0 := item.1])
  {
    assert (front + [last])[..|front|] == front;
  }

  lemma {:induction false} ItemsFixed(l: Runtime, items: seq<Value>, depth: nat)
    requires forall i :: 0 <= i < |items| ==> Frozen(l, items[i], depth + 1)
    ensures FreezeItems(l, items, depth) == Ok(items)
    decreases items
  {
    if items != [] {
      ItemsFixed(l, items[..|items| - 1], depth);
      FrozenFixed(l, items[|items| - 1], depth + 1);
      assert items == items[..|items| - 1] + [items[|items| - 1]];
    }
  }

  // ---- frozen JSON on the way out ----

  /** The canonical form of frozen JSON is frozen: it only loses the null members of objects. */
  lemma {:induction false} FrozenCanonical(l: Runtime, v: Value, depth: nat)
    requires Frozen(l, v, depth)
    ensures Canonicalize(l, v).Ok? && Frozen(l, Canonicalize(l, v).value, depth)
    ensures Canonicalize(l, v).value.Null? <==> v.Null?
    decreases v
  {
    match v
    case Map(members) =>
      MembersCanonical(l, members, depth);
      FrozenListing(l, Collect(l, members).value, depth);
    case List(items) => ItemsCanonical(l, items, depth);
    case _ =>
  }

  lemma {:induction false} MemberCanonical(l: Runtime, m: Member, depth: nat)
    requires FrozenMember(l, m, depth)
    ensures ReduceMember(l, m).Ok? && Frozen(l, ReduceMember(l, m).value, depth + 1)
    decreases m
  {
    FrozenCanonical(l, m.item, depth + 1);
  }

  lemma {:induction false} MembersCanonical(l: Runtime, members: seq<Member>, depth: nat)
    requires forall i :: 0 <= i < |members| ==> FrozenMember(l, members[i], depth)
    ensures Collect(l, members).Ok? && FrozenDict(l, Collect(l, members).value, depth)
    decreases members
  {
    if members != [] {
      var front, last := members[..|members| - 1], members[|members| - 1];
      MembersCanonical(l, front, depth);
      assert FrozenMember(l, last, depth);
      MemberCanonical(l, last, depth);
    }
  }

  lemma {:induction false} ItemsCanonical(l: Runtime, items: seq<Value>, depth: nat)
    requires forall i :: 0 <= i < |items| ==> Frozen(l, items[i], depth + 1)
    ensures CanonicalizeAll(l, items).Ok?
    ensures var out := CanonicalizeAll(l, items).value; forall i :: 0 <= i < |out| ==> Frozen(l, out[i], depth + 1)
    decreases items
  {
    if items != [] {
      ItemsCanonical(l, items[..|items| - 1], depth);
      FrozenCanonical(l, items[|items| - 1], depth + 1);
    }
  }

  /** No object in it has a null member. */
  ghost predicate Solid(v: Value)
    decreases v
  {
    match v
    case Map(members) => forall i :: 0 <= i < |members| ==> !members[i].item.Null? && Solid(members[i].item)
    case List(items) => forall i :: 0 <= i < |items| ==> Solid(items[i])
    case _ => true
  }

  /** Frozen JSON without null members is its own canonical form. */
  lemma {:induction false} SolidIsCanonical(l: Runtime, v: Value, depth: nat)
    requires Frozen(l, v, depth)
    ensures Solid(v) <==> IsCanonical(l, v)
    decreases v
  {
    match v
    case Map(members) =>
      forall i | 0 <= i < |members|
        ensures FrozenMember(l, members[i], depth)
        ensures Solid(members[i].item) <==> IsCanonical(l, members[i].item)
      {
        SolidMember(l, members[i], depth);
      }
    case List(items) =>
      forall i | 0 <= i < |items|
        ensures Solid(items[i]) <==> IsCanonical(l, items[i])
      {
        SolidIsCanonical(l, items[i], depth + 1);
      }
    case _ =>
  }

  lemma {:induction false} SolidMember(l: Runtime, m: Member, depth: nat)
    requires FrozenMember(l, m, depth)
    ensures Solid(m.item) <==> IsCanonical(l, m.item)
    decreases m
  {
    SolidIsCanonical(l, m.item, depth + 1);
  }

  /** Frozen JSON survives being written exactly when none of its objects has a null member. */
  lemma SurvivesIff(l: Runtime, v: Value, depth: nat)
    requires Frozen(l, v, depth)
    ensures Canonicalize(l, v) == Ok(v) <==> Solid(v)
  {
    SolidIsCanonical(l, v, depth);
    FixedIffCanonical(l, v);
  }

  // ---- keys that collide ----

  /** Under each key, once clean, the last member is the one frozen; null members are kept. */
  lemma {:induction false} LastMemberFrozen(l: Runtime, members: seq<Member>, i: nat, depth: nat)
    requires FreezeMembers(l, members, depth).Ok? && i < |members| && members[i].key.Name?
    requires forall j :: i < j < |members| && members[j].key.Name? ==> l.nfc(members[j].key.name) != l.nfc(members[i].key.name)
    ensures l.nfc(members[i].key.name) in FreezeMembers(l, members, depth).value
    ensures Ok(FreezeMembers(l, members, depth).value[l.nfc(members[i].key.name)]) == Freeze(l, members[i].item, depth + 1)
    decreases |members|
  {
    var n := |members| - 1;
    if i < n {
      LastMemberFrozen(l, members[..n], i, depth);
      assert members[n].key.Name?;
    }
  }

  /** ... and there is nothing else. */
  lemma {:induction false} OnlyMembersFrozen(l: Runtime, members: seq<Member>, k: string, depth: nat)
    requires FreezeMembers(l, members, depth).Ok? && k in FreezeMembers(l, members, depth).value
    ensures exists i :: 0 <= i < |members| && members[i].key.Name? && l.nfc(members[i].key.name) == k
    decreases |members|
  {
    var n := |members| - 1;
    if members[n].key.Name? && l.nfc(members[n].key.name) == k {
    } else {
      OnlyMembersFrozen(l, members[..n], k, depth);
      var i :| 0 <= i < n && members[..n][i].key.Name? && l.nfc(members[..n][i].key.name) == k;
      assert members[i] == members[..n][i];
    }
  }
}
