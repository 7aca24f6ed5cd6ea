/** How much a canonical value holds: a measure under which a value that was added to weighs more, however what it holds is
    then ordered. */
module Weights {
  import opened Wrappers
  import opened Text
  import opened Platform
  import opened Canonical
  import opened Forms
  import opened Sorting

  function Weight(v: Value): nat
    decreases v
  {
    match v
    case Null => 0
    case List(items) => 1 + ItemsWeight(items)
    case Map(members) => 1 + MembersWeight(members)
    case _ => 1
  }

  function ItemsWeight(items: seq<Value>): nat
    decreases items
  {
    if items == [] then 0 else ItemsWeight(items[..|items| - 1]) + Weight(items[|items| - 1])
  }

  function MembersWeight(members: seq<Member>): nat
    decreases members
  {
    if members == [] then 0 else MembersWeight(members[..|members| - 1]) + MemberWeight(members[|members| - 1])
  }

  function MemberWeight(m: Member): nat
    decreases m
  {
    1 + Weight(m.item)
  }

  /** The weight of what a value is hashed as. */
  function FormWeight(l: Runtime, v: Value): nat {
    match Canonicalize(l, v)
    case Ok(form) => Weight(form)
    case Refused => 0
  }

  // ---- lists ----

  lemma {:induction false} ItemsWeigh(p: seq<Value>, q: seq<Value>)
    requires |p| == |q| && forall i :: 0 <= i < |p| ==> Weight(p[i]) <= Weight(q[i])
    ensures ItemsWeight(p) <= ItemsWeight(q)
    ensures (exists i :: 0 <= i < |p| && Weight(p[i]) < Weight(q[i])) ==> ItemsWeight(p) < ItemsWeight(q)
  {
    if p != [] {
      var n := |p| - 1;
      ItemsWeigh(p[..n], q[..n]);
      if i :| 0 <= i < |p| && Weight(p[i]) < Weight(q[i]) {
        if i < n {
          assert Weight(p[..n][i]) < Weight(q[..n][i]);
        }
      }
    }
  }

  lemma {:induction false} ItemsWeightSplits(p: seq<Value>, q: seq<Value>)
    ensures ItemsWeight(p + q) == ItemsWeight(p) + ItemsWeight(q)
  {
    if q == [] {
      assert p + q == p;
    } else {
      var n := |q| - 1;
      assert (p + q)[..|p + q| - 1] == p + q[..n];
      ItemsWeightSplits(p, q[..n]);
    }
  }

  lemma {:induction false} ItemsWeightDrops(p: seq<Value>, j: nat)
    requires j < |p|
    ensures ItemsWeight(p) == ItemsWeight(Dropped(p, j)) + Weight(p[j])
  {
    var front, rest := p[..j], p[j + 1..];
    assert p == (front + [p[j]]) + rest;
    ItemsWeightSplits(front + [p[j]], rest);
    ItemsWeightSplits(front, [p[j]]);
    ItemsWeightSplits(front, rest);
    assert [p[j]][..0] == [];
  }

  lemma {:induction false} ItemsWeightPermutes(p: seq<Value>, q: seq<Value>)
    requires multiset(p) == multiset(q)
    ensures ItemsWeight(p) == ItemsWeight(q)
    decreases |p|
  {
    if p == [] {
      assert |multiset(q)| == 0;
    } else {
      SameElements(p, q);
      assert p[0] in p;
      var j :| 0 <= j < |q| && q[j] == p[0];
      DroppedOnce(p, 0);
      DroppedOnce(q, j);
      ItemsWeightPermutes(Dropped(p, 0), Dropped(q, j));
      ItemsWeightDrops(p, 0);
      ItemsWeightDrops(q, j);
    }
  }

  // ---- objects ----

  /** Whatever the first holds under a name, the second holds no less under it. */
  ghost predicate Outweighed(p: seq<Member>, q: seq<Member>) {
    forall k :: Find(p, k).Some? ==> Find(q, k).Some? && Weight(Find(p, k).value) <= Weight(Find(q, k).value)
  }

  ghost predicate MoreUnder(p: seq<Member>, q: seq<Member>, k: string) {
    Find(q, k).Some? && (Find(p, k).Some? ==> Weight(Find(p, k).value) < Weight(Find(q, k).value))
  }

  lemma FrontFinds(p: seq<Member>, k: string)
    requires KeysAscend(p) && p != [] && (|p| == 1 ==> p[0].key.Name?)
    ensures Find(p[..|p| - 1], k) == if p[|p| - 1].key == Name(k) then None else Find(p, k)
  {
    var n := |p| - 1;
    if p[n].key == Name(k) {
      forall i | 0 <= i < n
        ensures p[i].key != Name(k)
      {
        BeforeIrreflexive(k);
        assert Before(p[i].key.name, p[n].key.name);
      }
      FindNone(p[..n], k);
    }
  }

  lemma {:induction false} FoundAt(p: seq<Member>, k: string)
    requires Find(p, k).Some?
    ensures exists i :: 0 <= i < |p| && p[i].key == Name(k)
  {
    if p[|p| - 1].key != Name(k) {
      FoundAt(p[..|p| - 1], k);
      var i :| 0 <= i < |p| - 1 && p[..|p| - 1][i].key == Name(k);
      assert p[i].key == Name(k);
    }
  }

  ghost predicate Named(p: seq<Member>) {
    KeysAscend(p) && forall i :: 0 <= i < |p| ==> p[i].key.Name?
  }

  /** The last name of the second is not in the first, unless it is its last too. */
  lemma LastIsNew(p: seq<Member>, q: seq<Member>)
    requires Named(p) && Named(q) && Outweighed(p, q) && q != [] && (p == [] || p[|p| - 1].key != q[|q| - 1].key)
    ensures Find(p, q[|q| - 1].key.name).None?
  {
    var k := q[|q| - 1].key.name;
    if Find(p, k).Some? {
      FoundAt(p, k);
      var i :| 0 <= i < |p| && p[i].key == Name(k);
      var last := p[|p| - 1].key.name;
      assert Before(k, last);
      FindAt(p, last, |p| - 1);
      FoundAt(q, last);
      var j :| 0 <= j < |q| && q[j].key == Name(last);
      BeforeAsymmetric(k, last);
    }
  }

  lemma {:induction false} MembersWeigh(p: seq<Member>, q: seq<Member>)
    requires Named(p) && Named(q) && Outweighed(p, q)
    ensures MembersWeight(p) <= MembersWeight(q)
    ensures (exists k :: MoreUnder(p, q, k)) ==> MembersWeight(p) < MembersWeight(q)
    decreases |q|
  {
    assert p != [] ==> Find(p, p[|p| - 1].key.name).Some?;
    if q != [] {
      var n, m := |q| - 1, |p| - 1;
      forall k
        ensures Find(q[..n], k) == if q[n].key == Name(k) then None else Find(q, k)
        ensures p != [] ==> Find(p[..m], k) == if p[m].key == Name(k) then None else Find(p, k)
      {
        FrontFinds(q, k);
        if p != [] {
          FrontFinds(p, k);
        }
      }
      if p != [] && p[m].key == q[n].key {
        assert Find(p, p[m].key.name) == Some(p[m].item) && Find(q, q[n].key.name) == Some(q[n].item);
        assert Outweighed(p[..m], q[..n]);
        MembersWeigh(p[..m], q[..n]);
        if k :| MoreUnder(p, q, k) {
          assert k == q[n].key.name || MoreUnder(p[..m], q[..n], k);
        }
      } else {
        LastIsNew(p, q);
        assert Outweighed(p, q[..n]);
        MembersWeigh(p, q[..n]);
      }
    }
  }

  // ---- records ----

  ghost function NoLess(l: Runtime): (Value, Value) -> bool {
    (v, w) => FormWeight(l, v) <= FormWeight(l, w)
  }

  /** The second record has this item, and the first nothing as heavy under its name. */
  ghost predicate Extra(l: Runtime, na: seq<string>, ia: seq<Value>, nb: seq<string>, ib: seq<Value>, j: nat)
    requires |na| == |ia| && |nb| == |ib|
  {
    && j < |nb| && FormWeight(l, ib[j]) > 0
    && forall i :: 0 <= i < |na| && na[i] == nb[j] ==> FormWeight(l, ia[i]) < FormWeight(l, ib[j])
  }

  function Members(l: Runtime, names: seq<string>, items: seq<Value>): seq<Member>
    requires |names| == |items| && Canonicalize(l, FormOf(names, items)).Ok?
  {
    Canonicalize(l, FormOf(names, items)).value.members
  }

  lemma MembersNamed(l: Runtime, names: seq<string>, items: seq<Value>)
    requires |names| == |items| && Canonicalize(l, FormOf(names, items)).Ok?
    ensures Named(Members(l, names, items))
    ensures FormWeight(l, FormOf(names, items)) == 1 + MembersWeight(Members(l, names, items))
  {
    CanonicalizeIsCanonical(l, FormOf(names, items));
    var members := Members(l, names, items);
    assert forall i :: 0 <= i < |members| ==> CanonicalMember(l, members[i]);
  }

  /** What a record holds under a name weighs what it is given there, and is there if that weighs anything. */
  lemma HeldWeight(l: Runtime, names: seq<string>, items: seq<Value>, i: nat)
    requires |names| == |items| && FieldNames(names) && i < |names| && Canonicalize(l, FormOf(names, items)).Ok?
    ensures var held := Find(Members(l, names, items), names[i]);
      if FormWeight(l, items[i]) == 0 then held.None? else held.Some? && Weight(held.value) == FormWeight(l, items[i])
  {
    FormFind(l, names, items, i);
  }

  lemma {:induction false} RecordOutweighed(l: Runtime, na: seq<string>, ia: seq<Value>, nb: seq<string>, ib: seq<Value>)
    requires |na| == |ia| && |nb| == |ib| && FieldNames(na) && FieldNames(nb)
    requires Canonicalize(l, FormOf(na, ia)).Ok? && Canonicalize(l, FormOf(nb, ib)).Ok?
    requires forall i :: 0 <= i < |na| ==> Holds(nb, ib, na[i], ia[i], NoLess(l))
    ensures Outweighed(Members(l, na, ia), Members(l, nb, ib))
  {
    var p, q := Members(l, na, ia), Members(l, nb, ib);
    forall k | Find(p, k).Some?
      ensures Find(q, k).Some? && Weight(Find(p, k).value) <= Weight(Find(q, k).value)
    {
      if k !in na {
        FormLacks(l, na, ia, k);
      }
      var i :| 0 <= i < |na| && na[i] == k;
      var j :| 0 <= j < |nb| && nb[j] == na[i] && NoLess(l)(ia[i], ib[j]);
      HeldWeight(l, na, ia, i);
      HeldWeight(l, nb, ib, j);
    }
  }

  lemma {:induction false} ExtraIsMore(l: Runtime, na: seq<string>, ia: seq<Value>, nb: seq<string>, ib: seq<Value>, j: nat)
    requires |na| == |ia| && |nb| == |ib| && FieldNames(na) && FieldNames(nb)
    requires Canonicalize(l, FormOf(na, ia)).Ok? && Canonicalize(l, FormOf(nb, ib)).Ok?
    requires Extra(l, na, ia, nb, ib, j)
    ensures MoreUnder(Members(l, na, ia), Members(l, nb, ib), nb[j])
  {
    HeldWeight(l, nb, ib, j);
    if i :| 0 <= i < |na| && na[i] == nb[j] {
      HeldWeight(l, na, ia, i);
    } else {
      FormLacks(l, na, ia, nb[j]);
    }
  }

  /** A record that holds no less under each name, and more somewhere, weighs more. */
  lemma {:induction false} RecordWeighs(l: Runtime, na: seq<string>, ia: seq<Value>, nb: seq<string>, ib: seq<Value>, j: nat)
    requires |na| == |ia| && |nb| == |ib| && FieldNames(na) && FieldNames(nb)
    requires Canonicalize(l, FormOf(na, ia)).Ok? && Canonicalize(l, FormOf(nb, ib)).Ok?
    requires forall i :: 0 <= i < |na| ==> Holds(nb, ib, na[i], ia[i], NoLess(l))
    requires Extra(l, na, ia, nb, ib, j)
    ensures FormWeight(l, FormOf(na, ia)) < FormWeight(l, FormOf(nb, ib))
  {
    RecordOutweighed(l, na, ia, nb, ib);
    ExtraIsMore(l, na, ia, nb, ib, j);
    MembersNamed(l, na, ia);
    MembersNamed(l, nb, ib);
    MembersWeigh(Members(l, na, ia), Members(l, nb, ib));
  }
}
