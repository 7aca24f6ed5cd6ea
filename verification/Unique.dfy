/** Deduplicating and ordering by a key (`sorted_unique` in runtime_contracts/canonical.py): the first item of each key,
    in key order. */
module Unique {
  import opened Wrappers
  import opened Sorting

  ghost predicate TotalOrder<K(!new)>(le: (K, K) -> bool) {
    TotalPreorder(le) && forall a, b :: le(a, b) && le(b, a) ==> a == b
  }

  /** The keys in the order they first appear. */
  function DistinctKeys<T, K(==, !new)>(items: seq<T>, key: T -> K): (ks: seq<K>)
    ensures forall i, j :: 0 <= i < j < |ks| ==> ks[i] != ks[j]
    ensures forall i :: 0 <= i < |items| ==> key(items[i]) in ks
    ensures forall k :: k in ks ==> exists i :: 0 <= i < |items| && key(items[i]) == k
  {
    if items == [] then []
    else
      var n := |items| - 1;
      var front := DistinctKeys(items[..n], key);
      assert forall k :: k in front ==> exists i :: 0 <= i < n && key(items[i]) == k by {
        assert forall i :: 0 <= i < n ==> items[..n][i] == items[i];
      }
      if key(items[n]) in front then front else front + [key(items[n])]
  }

  /** The first item with a key. */
  function First<T, K(==, !new)>(items: seq<T>, key: T -> K, k: K): (r: Option<T>)
    ensures r.Some? <==> k in DistinctKeys(items, key)
    ensures r.Some? ==> r.value in items && key(r.value) == k
  {
    if items == [] then None
    else
      var n := |items| - 1;
      var earlier := First(items[..n], key, k);
      assert items == items[..n] + [items[n]];
      if earlier.Some? then earlier else if key(items[n]) == k then Some(items[n]) else None
  }

  /** The first item of each of these keys. */
  function Firsts<T, K(==, !new)>(items: seq<T>, key: T -> K, ks: seq<K>): (r: seq<T>)
    requires forall i :: 0 <= i < |ks| ==> ks[i] in DistinctKeys(items, key)
    ensures |r| == |ks| && forall i :: 0 <= i < |ks| ==> First(items, key, ks[i]) == Some(r[i])
  {
    seq(|ks|, i requires 0 <= i < |ks| => First(items, key, ks[i]).value)
  }

  /** The keys in order. */
  function SortedKeys<T, K(==, !new)>(items: seq<T>, key: T -> K, le: (K, K) -> bool): (ks: seq<K>)
    ensures |ks| == |DistinctKeys(items, key)|
    ensures forall i :: 0 <= i < |ks| ==> ks[i] in DistinctKeys(items, key)
  {
    var distinct := DistinctKeys(items, key);
    var ks := Sort(distinct, le);
    assert forall k :: k in ks ==> k in distinct by {
      SameElements(ks, distinct);
    }
    ks
  }

  function Deduplicated<T, K(==, !new)>(items: seq<T>, key: T -> K, le: (K, K) -> bool): (r: seq<T>)
    ensures |r| == |DistinctKeys(items, key)|
  {
    Firsts(items, key, SortedKeys(items, key, le))
  }

  /** The dict and the order its keys went in: `setdefault` keeps the first item of each key. */
  method Gather<T, K(==, !new)>(items: seq<T>, key: T -> K) returns (seen: map<K, T>, order: seq<K>)
    ensures order == DistinctKeys(items, key)
    ensures forall k :: k in seen <==> k in order
    ensures forall k :: k in seen ==> First(items, key, k) == Some(seen[k])
  {
    seen, order := map[], [];
    for i := 0 to |items|
      invariant order == DistinctKeys(items[..i], key)
      invariant forall k :: k in seen <==> k in order
      invariant forall k :: k in seen ==> First(items[..i], key, k) == Some(seen[k])
    {
      assert items[..i + 1][..i] == items[..i];
      var k := key(items[i]);
      if k !in seen {
        assert First(items[..i], key, k).None?;
        seen := seen[k := items[i]];
        order := order + [k];
      }
    }
    assert items[..|items|] == items;
  }

  /** The same as the source runs it. */
  method Deduplicate<T, K(==, !new)>(items: seq<T>, key: T -> K, le: (K, K) -> bool) returns (r: seq<T>)
    ensures r == Deduplicated(items, key, le)
  {
    var seen, order := Gather(items, key);
    var ks := Sort(order, le);
    assert ks == SortedKeys(items, key, le);
    r := seq(|ks|, i requires 0 <= i < |ks| => seen[ks[i]]);
  }

  /** The result is in strictly increasing key order, holds every key, and under each the first item that has it. */
  lemma {:induction false} UniqueSpec<T, K(!new)>(items: seq<T>, key: T -> K, le: (K, K) -> bool)
    requires TotalOrder(le)
    ensures var r := Deduplicated(items, key, le);
      && (forall i, j :: 0 <= i < j < |r| ==> le(key(r[i]), key(r[j])) && key(r[i]) != key(r[j]))
      && (forall i :: 0 <= i < |r| ==> First(items, key, key(r[i])) == Some(r[i]))
      && (forall x :: x in items ==> exists i :: 0 <= i < |r| && key(r[i]) == key(x))
  {
    var distinct := DistinctKeys(items, key);
    var ks, r := Sort(distinct, le), Deduplicated(items, key, le);
    SortSorted(distinct, le);
    DistinctPermutes(distinct, ks);
    SameElements(ks, distinct);
    assert forall i :: 0 <= i < |ks| ==> ks[i] in ks && r[i] == First(items, key, ks[i]).value && key(r[i]) == ks[i];
    forall x | x in items
      ensures exists i :: 0 <= i < |r| && key(r[i]) == key(x)
    {
      assert key(x) in ks;
      var i :| 0 <= i < |ks| && ks[i] == key(x);
      assert key(r[i]) == key(x);
    }
  }

  lemma {:induction false} FirstIsEarliest<T, K(!new)>(items: seq<T>, key: T -> K, i: nat)
    requires i < |items| && forall j :: 0 <= j < i ==> key(items[j]) != key(items[i])
    ensures First(items, key, key(items[i])) == Some(items[i])
    decreases |items|
  {
    var n := |items| - 1;
    if i < n {
      FirstIsEarliest(items[..n], key, i);
    } else {
      NoneEarlier(items[..n], key, key(items[i]));
    }
  }

  lemma {:induction false} NoneEarlier<T, K(!new)>(items: seq<T>, key: T -> K, k: K)
    requires forall j :: 0 <= j < |items| ==> key(items[j]) != k
    ensures First(items, key, k).None?
  {
    if items != [] {
      NoneEarlier(items[..|items| - 1], key, k);
    }
  }

  /** An item is kept exactly when no earlier one has its key. */
  lemma {:induction false} KeptIffEarliest<T(!new), K(!new)>(items: seq<T>, key: T -> K, le: (K, K) -> bool, i: nat)
    requires TotalOrder(le) && i < |items| && forall j :: 0 <= j < i ==> key(items[j]) != key(items[i])
    ensures items[i] in Deduplicated(items, key, le)
    ensures forall x :: x in Deduplicated(items, key, le) && key(x) == key(items[i]) ==> x == items[i]
  {
    UniqueSpec(items, key, le);
    FirstIsEarliest(items, key, i);
    var r := Deduplicated(items, key, le);
    assert items[i] in items;
    var n :| 0 <= n < |r| && key(r[n]) == key(items[i]);
    assert r[n] == items[i];
    forall x | x in r && key(x) == key(items[i])
      ensures x == items[i]
    {
      var m :| 0 <= m < |r| && r[m] == x;
    }
  }

  // ---- identity: what is hashed of the items ----

  /** The forms of the items kept, in key order. */
  function FormsOf<T, K(==, !new), F>(items: seq<T>, key: T -> K, le: (K, K) -> bool, form: T -> F): seq<F> {
    Image(Deduplicated(items, key, le), form)
  }

  /** Items with the same key have the same form. */
  ghost predicate Consistent<T(!new), K(!new), F>(items: seq<T>, key: T -> K, form: T -> F) {
    forall x, y :: x in items && y in items && key(x) == key(y) ==> form(x) == form(y)
  }

  lemma SameKeysSorted<K(!new)>(a: seq<K>, b: seq<K>, le: (K, K) -> bool)
    requires TotalOrder(le)
    requires forall i, j :: 0 <= i < j < |a| ==> a[i] != a[j]
    requires forall i, j :: 0 <= i < j < |b| ==> b[i] != b[j]
    requires forall k :: k in a <==> k in b
    ensures Sort(a, le) == Sort(b, le)
  {
    SortSorted(a, le);
    SortSorted(b, le);
    SameMultiset(a, b);
    SortedUnique(Sort(a, le), Sort(b, le), le);
  }

  lemma SameMultiset<K(!new)>(a: seq<K>, b: seq<K>)
    requires forall i, j :: 0 <= i < j < |a| ==> a[i] != a[j]
    requires forall i, j :: 0 <= i < j < |b| ==> b[i] != b[j]
    requires forall k :: k in a <==> k in b
    ensures multiset(a) == multiset(b)
  {
    forall k
      ensures multiset(a)[k] == multiset(b)[k]
    {
      CountOnce(a, k);
      CountOnce(b, k);
    }
  }

  lemma CountOnce<K>(a: seq<K>, k: K)
    requires forall i, j :: 0 <= i < j < |a| ==> a[i] != a[j]
    ensures multiset(a)[k] == if k in a then 1 else 0
  {
    if i :| 0 <= i < |a| && a[i] == k {
      OnceListed(a, i);
    }
  }

  /** Two runs of items over the same keys whose first items have the same forms are hashed alike. */
  lemma SameFirstsSameForms<T, K(!new), F>(a: seq<T>, b: seq<T>, key: T -> K, le: (K, K) -> bool, form: T -> F)
    requires TotalOrder(le)
    requires forall k :: k in DistinctKeys(a, key) <==> k in DistinctKeys(b, key)
    requires forall k :: k in DistinctKeys(a, key) ==> form(First(a, key, k).value) == form(First(b, key, k).value)
    ensures FormsOf(a, key, le, form) == FormsOf(b, key, le, form)
  {
    var p, q := DistinctKeys(a, key), DistinctKeys(b, key);
    SameKeysSorted(p, q, le);
    SameElements(Sort(p, le), p);
    forall i | 0 <= i < |p|
      ensures FormsOf(a, key, le, form)[i] == FormsOf(b, key, le, form)[i]
    {
      assert Sort(p, le)[i] in Sort(p, le);
    }
  }

  /** With consistent items neither order nor repetition shows. */
  lemma OrderAndRepetitionIrrelevant<T(!new), K(!new), F>(
      a: seq<T>, b: seq<T>, key: T -> K, le: (K, K) -> bool, form: T -> F)
    requires TotalOrder(le) && Consistent(a, key, form)
    requires forall x :: x in a <==> x in b
    ensures FormsOf(a, key, le, form) == FormsOf(b, key, le, form)
  {
    SameKeys(a, b, key);
    SameKeys(b, a, key);
    SameFirstsSameForms(a, b, key, le, form);
  }

  lemma SameKeys<T, K(!new)>(a: seq<T>, b: seq<T>, key: T -> K)
    requires forall x :: x in a ==> x in b
    ensures forall k :: k in DistinctKeys(a, key) ==> k in DistinctKeys(b, key)
  {
    forall k | k in DistinctKeys(a, key)
      ensures k in DistinctKeys(b, key)
    {
      var i :| 0 <= i < |a| && key(a[i]) == k;
      assert a[i] in b;
    }
  }

  lemma {:induction false} FirstHead<T, K(!new)>(x: T, s: seq<T>, key: T -> K)
    ensures First([x] + s, key, key(x)) == Some(x)
  {
    if s == [] {
      assert [x] + s == [x] && [x][..0] == [];
    } else {
      var n := |s| - 1;
      assert ([x] + s)[..|s|] == [x] + s[..n];
      FirstHead(x, s[..n], key);
    }
  }

  /** The same items with one of them moved to the front. */
  function Moved<T>(s: seq<T>, j: nat): seq<T>
    requires j < |s|
  {
    [s[j]] + Dropped(s, j)
  }

  lemma MovedPermutes<T(!new)>(s: seq<T>, j: nat)
    requires j < |s|
    ensures multiset(Moved(s, j)) == multiset(s)
    ensures forall x :: x in Moved(s, j) <==> x in s
  {
    DroppedOnce(s, j);
    SameElements(Moved(s, j), s);
  }

  ghost predicate OrderIrrelevant<T(!new), K(!new), F>(items: seq<T>, key: T -> K, le: (K, K) -> bool, form: T -> F) {
    forall other :: multiset(other) == multiset(items) ==> FormsOf(other, key, le, form) == FormsOf(items, key, le, form)
  }

  /** Order is not part of what is hashed exactly when items with the same key have the same form. */
  lemma OrderIrrelevantIff<T(!new), K(!new), F>(items: seq<T>, key: T -> K, le: (K, K) -> bool, form: T -> F)
    requires TotalOrder(le)
    ensures OrderIrrelevant(items, key, le, form) <==> Consistent(items, key, form)
  {
    if Consistent(items, key, form) {
      forall other | multiset(other) == multiset(items)
        ensures FormsOf(other, key, le, form) == FormsOf(items, key, le, form)
      {
        SameElements(other, items);
        OrderAndRepetitionIrrelevant(items, other, key, le, form);
      }
    } else {
      var x, y :| x in items && y in items && key(x) == key(y) && form(x) != form(y);
      var i :| 0 <= i < |items| && items[i] == x;
      var j :| 0 <= j < |items| && items[j] == y;
      MovedPermutes(items, i);
      MovedPermutes(items, j);
      HeadShows(Moved(items, i), Moved(items, j), key, le, form);
    }
  }

  lemma HeadShows<T(!new), K(!new), F>(a: seq<T>, b: seq<T>, key: T -> K, le: (K, K) -> bool, form: T -> F)
    requires TotalOrder(le) && a != [] && b != [] && key(a[0]) == key(b[0]) && form(a[0]) != form(b[0])
    requires forall x :: x in a <==> x in b
    ensures FormsOf(a, key, le, form) != FormsOf(b, key, le, form)
  {
    var k := key(a[0]);
    assert a == [a[0]] + a[1..] && b == [b[0]] + b[1..];
    FirstHead(a[0], a[1..], key);
    FirstHead(b[0], b[1..], key);
    SameKeys(a, b, key);
    SameKeys(b, a, key);
    SameKeysSorted(DistinctKeys(a, key), DistinctKeys(b, key), le);
    UniqueSpec(a, key, le);
    var r, q := Deduplicated(a, key, le), Deduplicated(b, key, le);
    var i :| 0 <= i < |r| && key(r[i]) == k;
    assert r[i] == a[0] && q[i] == b[0];
  }

  // ---- identity as a set ----

  /** Every form among the items of a is a form among those of b. */
  ghost predicate FormsWithin<T(!new), F>(a: seq<T>, b: seq<T>, form: T -> F) {
    forall x :: x in a ==> exists y :: y in b && form(x) == form(y)
  }

  /** When forms tell keys apart and keys tell forms apart, the forms kept are the same exactly when the sets of forms
      are. */
  lemma SameFormsIff<T(!new), K(!new), F>(a: seq<T>, b: seq<T>, key: T -> K, le: (K, K) -> bool, form: T -> F)
    requires TotalOrder(le) && Consistent(a, key, form) && Consistent(b, key, form)
    requires forall x, y :: x in a && y in b && form(x) == form(y) ==> key(x) == key(y)
    ensures FormsOf(a, key, le, form) == FormsOf(b, key, le, form) <==> FormsWithin(a, b, form) && FormsWithin(b, a, form)
  {
    if FormsOf(a, key, le, form) == FormsOf(b, key, le, form) {
      SameFormsWithin(a, b, key, le, form);
      SameFormsWithin(b, a, key, le, form);
    }
    if FormsWithin(a, b, form) && FormsWithin(b, a, form) {
      WithinFirsts(a, b, key, form);
      WithinFirsts(b, a, key, form);
      SameFirstsSameForms(a, b, key, le, form);
    }
  }

  lemma SameFormsWithin<T(!new), K(!new), F>(a: seq<T>, b: seq<T>, key: T -> K, le: (K, K) -> bool, form: T -> F)
    requires TotalOrder(le) && Consistent(a, key, form)
    requires FormsOf(a, key, le, form) == FormsOf(b, key, le, form)
    ensures FormsWithin(a, b, form)
  {
    UniqueSpec(a, key, le);
    UniqueSpec(b, key, le);
    var r, q := Deduplicated(a, key, le), Deduplicated(b, key, le);
    forall x | x in a
      ensures exists y :: y in b && form(x) == form(y)
    {
      var i :| 0 <= i < |r| && key(r[i]) == key(x);
      assert form(r[i]) == FormsOf(a, key, le, form)[i] == FormsOf(b, key, le, form)[i] == form(q[i]);
      assert q[i] in b;
    }
  }

  lemma WithinFirsts<T(!new), K(!new), F>(a: seq<T>, b: seq<T>, key: T -> K, form: T -> F)
    requires FormsWithin(a, b, form) && Consistent(b, key, form)
    requires forall x, y :: x in a && y in b && form(x) == form(y) ==> key(x) == key(y)
    ensures forall k :: k in DistinctKeys(a, key) ==>
      k in DistinctKeys(b, key) && form(First(a, key, k).value) == form(First(b, key, k).value)
  {
    forall k | k in DistinctKeys(a, key)
      ensures k in DistinctKeys(b, key) && form(First(a, key, k).value) == form(First(b, key, k).value)
    {
      var x := First(a, key, k).value;
      var y :| y in b && form(x) == form(y);
      assert key(y) in DistinctKeys(b, key);
    }
  }
}
