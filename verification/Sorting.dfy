/** Stable sorting by a comparison, standing for Python's `sorted` and `list.sort`. */
module Sorting {
  import opened Text

  ghost predicate TotalPreorder<T(!new)>(le: (T, T) -> bool) {
    && (forall a, b :: le(a, b) || le(b, a))
    && (forall a, b, c :: le(a, b) && le(b, c) ==> le(a, c))
  }

  ghost predicate Sorted<T>(s: seq<T>, le: (T, T) -> bool) {
    forall i, j :: 0 <= i < j < |s| ==> le(s[i], s[j])
  }

  /** Put `x` before the first element it does not exceed, so equal elements keep their order. */
  function Insert<T>(x: T, s: seq<T>, le: (T, T) -> bool): (r: seq<T>)
    ensures |r| == |s| + 1
    ensures multiset(r) == multiset(s) + multiset{x}
  {
    if s == [] then [x]
    else if le(x, s[0]) then
      assert multiset([x] + s) == multiset{x} + multiset(s);
      [x] + s
    else
      assert s == [s[0]] + s[1..];
      [s[0]] + Insert(x, s[1..], le)
  }

  /** `sorted(s)`. */
  function Sort<T>(s: seq<T>, le: (T, T) -> bool): (r: seq<T>)
    ensures |r| == |s|
    ensures multiset(r) == multiset(s)
  {
    if s == [] then []
    else
      assert s == [s[0]] + s[1..];
      Insert(s[0], Sort(s[1..], le), le)
  }

  lemma {:induction false} InsertSorted<T(!new)>(x: T, s: seq<T>, le: (T, T) -> bool)
    requires TotalPreorder(le) && Sorted(s, le)
    ensures Sorted(Insert(x, s, le), le)
  {
    if s == [] || le(x, s[0]) {
    } else {
      var tail := Insert(x, s[1..], le);
      InsertSorted(x, s[1..], le);
      forall j | 0 <= j < |tail|
        ensures le(s[0], tail[j])
      {
        assert tail[j] in multiset(tail);
        assert tail[j] == x || tail[j] in multiset(s[1..]);
      }
    }
  }

  lemma {:induction false} SortSorted<T(!new)>(s: seq<T>, le: (T, T) -> bool)
    requires TotalPreorder(le)
    ensures Sorted(Sort(s, le), le)
  {
    if s != [] {
      SortSorted(s[1..], le);
      InsertSorted(s[0], Sort(s[1..], le), le);
    }
  }

  /** Sorting changes nothing in a sequence already in order. */
  lemma {:induction false} SortFixed<T>(s: seq<T>, le: (T, T) -> bool)
    requires Sorted(s, le)
    ensures Sort(s, le) == s
  {
    if s != [] {
      SortFixed(s[1..], le);
      assert s == [s[0]] + s[1..];
      if |s| > 1 {
        assert le(s[0], s[1]);
      }
    }
  }

  /** The elements for which this holds, in order. */
  function Chosen<T>(s: seq<T>, chosen: T -> bool): seq<T> {
    if s == [] then [] else (if chosen(s[0]) then [s[0]] else []) + Chosen(s[1..], chosen)
  }

  lemma {:induction false} ChosenCons<T>(y: T, s: seq<T>, chosen: T -> bool)
    ensures Chosen([y] + s, chosen) == (if chosen(y) then [y] else []) + Chosen(s, chosen)
  {
    assert ([y] + s)[1..] == s;
  }

  lemma {:induction false} InsertStable<T(!new)>(y: T, s: seq<T>, chosen: T -> bool, le: (T, T) -> bool)
    requires forall a, b :: chosen(a) && chosen(b) ==> le(a, b)
    ensures Chosen(Insert(y, s, le), chosen) == Chosen([y] + s, chosen)
  {
    ChosenCons(y, s, chosen);
    if s != [] && !le(y, s[0]) {
      InsertStable(y, s[1..], chosen, le);
      ChosenCons(s[0], Insert(y, s[1..], le), chosen);
      ChosenCons(y, s[1..], chosen);
    }
  }

  /** Sorting is stable: elements of one rank keep their order. */
  lemma {:induction false} SortStable<T(!new)>(s: seq<T>, chosen: T -> bool, le: (T, T) -> bool)
    requires forall a, b :: chosen(a) && chosen(b) ==> le(a, b)
    ensures Chosen(Sort(s, le), chosen) == Chosen(s, chosen)
  {
    if s != [] {
      SortStable(s[1..], chosen, le);
      InsertStable(s[0], Sort(s[1..], le), chosen, le);
      ChosenCons(s[0], Sort(s[1..], le), chosen);
    }
  }

  lemma SameHead<T(!new)>(a: seq<T>, b: seq<T>, le: (T, T) -> bool)
    requires a != [] && TotalPreorder(le)
    requires Sorted(a, le) && Sorted(b, le) && multiset(a) == multiset(b)
    requires forall x, y :: x in a && y in a && le(x, y) && le(y, x) ==> x == y
    ensures b != [] && a[0] == b[0]
  {
    assert a[0] in multiset(b) && |multiset(b)| == |multiset(a)|;
    assert b[0] in multiset(a);
    assert le(a[0], b[0]) && le(b[0], a[0]);
  }

  lemma TailDrops<T>(s: seq<T>)
    requires s != []
    ensures multiset(s[1..]) == multiset(s) - multiset{s[0]}
  {
    assert s == [s[0]] + s[1..];
  }

  /** Two sorted listings of the same elements are equal when the order separates distinct elements. */
  lemma {:induction false} SortedUnique<T(!new)>(a: seq<T>, b: seq<T>, le: (T, T) -> bool)
    requires TotalPreorder(le)
    requires Sorted(a, le) && Sorted(b, le) && multiset(a) == multiset(b)
    requires forall x, y :: x in a && y in a && le(x, y) && le(y, x) ==> x == y
    ensures a == b
  {
    if a == [] {
      assert |multiset(b)| == 0;
    } else {
      SameHead(a, b, le);
      TailDrops(a);
      TailDrops(b);
      SortedUnique(a[1..], b[1..], le);
      assert a == [a[0]] + a[1..] && b == [b[0]] + b[1..];
    }
  }

  lemma SameElements<T(!new)>(a: seq<T>, b: seq<T>)
    requires multiset(a) == multiset(b)
    ensures forall x :: x in a <==> x in b
  {
    forall x
      ensures x in a <==> x in b
    {
      assert x in a <==> x in multiset(a);
      assert x in b <==> x in multiset(b);
    }
  }

  lemma TwiceListed<T>(s: seq<T>, i: nat, j: nat)
    requires i < j < |s| && s[i] == s[j]
    ensures multiset(s)[s[i]] >= 2
  {
    assert s == s[..i] + [s[i]] + s[i + 1..j] + [s[j]] + s[j + 1..];
  }

  lemma OnceListed<T>(s: seq<T>, k: nat)
    requires k < |s| && forall i :: 0 <= i < |s| && i != k ==> s[i] != s[k]
    ensures multiset(s)[s[k]] == 1
  {
    assert s == s[..k] + [s[k]] + s[k + 1..];
    assert s[k] !in s[..k] && s[k] !in s[k + 1..];
  }

  /** Sequences without repetitions that have the same elements are rearrangements of each other. */
  lemma DistinctSameElements<T(!new)>(a: seq<T>, b: seq<T>)
    requires forall i, j :: 0 <= i < j < |a| ==> a[i] != a[j]
    requires forall i, j :: 0 <= i < j < |b| ==> b[i] != b[j]
    requires forall x :: x in a <==> x in b
    ensures multiset(a) == multiset(b)
  {
    forall x
      ensures multiset(a)[x] == multiset(b)[x]
    {
      if x in a {
        var i :| 0 <= i < |a| && a[i] == x;
        OnceListed(a, i);
        var j :| 0 <= j < |b| && b[j] == x;
        OnceListed(b, j);
      }
    }
  }

  /** A rearrangement of a sequence without repetitions has none either. */
  lemma DistinctPermutes<T(!new)>(a: seq<T>, b: seq<T>)
    requires multiset(a) == multiset(b)
    requires forall i, j :: 0 <= i < j < |a| ==> a[i] != a[j]
    ensures forall i, j :: 0 <= i < j < |b| ==> b[i] != b[j]
  {
    SameElements(a, b);
    forall i, j | 0 <= i < j < |b|
      ensures b[i] != b[j]
    {
      if b[i] == b[j] {
        TwiceListed(b, i, j);
        var k :| 0 <= k < |a| && a[k] == b[i];
        OnceListed(a, k);
      }
    }
  }

  function Image<T, U>(s: seq<T>, f: T -> U): (r: seq<U>)
    ensures |r| == |s| && forall i :: 0 <= i < |s| ==> r[i] == f(s[i])
  {
    seq(|s|, i requires 0 <= i < |s| => f(s[i]))
  }

  function Dropped<T>(s: seq<T>, j: nat): seq<T>
    requires j < |s|
  {
    s[..j] + s[j + 1..]
  }

  lemma DroppedLater<T>(s: seq<T>, j: nat)
    requires 0 < j < |s|
    ensures Dropped(s, j) == [s[0]] + Dropped(s[1..], j - 1)
  {}

  lemma DroppedOnce<T>(s: seq<T>, j: nat)
    requires j < |s|
    ensures multiset(s) == multiset(Dropped(s, j)) + multiset{s[j]}
    ensures multiset(Dropped(s, j)) == multiset(s) - multiset{s[j]}
  {
    assert s == s[..j] + [s[j]] + s[j + 1..];
  }

  lemma DroppedImage<T, U>(s: seq<T>, j: nat, f: T -> U)
    requires j < |s|
    ensures multiset(Image(s, f)) == multiset(Image(Dropped(s, j), f)) + multiset{f(s[j])}
  {
    DroppedOnce(Image(s, f), j);
    assert Dropped(Image(s, f), j) == Image(Dropped(s, j), f);
  }

  /** The images of a rearrangement are a rearrangement of the images. */
  lemma {:induction false} ImagePermutes<T(!new), U>(a: seq<T>, b: seq<T>, f: T -> U)
    requires multiset(a) == multiset(b)
    ensures multiset(Image(a, f)) == multiset(Image(b, f))
    decreases |a|
  {
    if a == [] {
      assert |multiset(b)| == 0;
    } else {
      SameElements(a, b);
      assert a[0] in a && a[0] in b;
      var j :| 0 <= j < |b| && b[j] == a[0];
      DroppedOnce(a, 0);
      DroppedOnce(b, j);
      ImagePermutes(Dropped(a, 0), Dropped(b, j), f);
      DroppedImage(a, 0, f);
      DroppedImage(b, j, f);
    }
  }

  /** Two orders compare the elements of a sequence alike, one of them through a function. */
  ghost predicate Mirrors<T(!new), U(!new)>(s: seq<T>, f: T -> U, le: (T, T) -> bool, through: (U, U) -> bool) {
    forall x, y :: x in s && y in s ==> le(x, y) == through(f(x), f(y))
  }

  lemma MirrorsWithin<T(!new), U(!new)>(s: seq<T>, t: seq<T>, f: T -> U, le: (T, T) -> bool, through: (U, U) -> bool)
    requires Mirrors(s, f, le, through) && forall x :: x in t ==> x in s
    ensures Mirrors(t, f, le, through)
  {}

  lemma {:induction false} InsertImage<T(!new), U(!new)>(x: T, s: seq<T>, f: T -> U, le: (T, T) -> bool, through: (U, U) -> bool)
    requires Mirrors([x] + s, f, le, through)
    ensures Insert(f(x), Image(s, f), through) == Image(Insert(x, s, le), f)
    decreases |s|
  {
    if s != [] {
      assert x in [x] + s && s[0] in [x] + s;
      if le(x, s[0]) {
        assert [f(x)] + Image(s, f) == Image([x] + s, f);
      } else {
        MirrorsWithin([x] + s, [x] + s[1..], f, le, through);
        InsertImage(x, s[1..], f, le, through);
        ImageTail(s, f);
        ImageCons(s[0], Insert(x, s[1..], le), f);
      }
    }
  }

  lemma ImageTail<T, U>(s: seq<T>, f: T -> U)
    requires s != []
    ensures Image(s, f)[1..] == Image(s[1..], f)
  {}

  lemma ImageCons<T, U>(x: T, s: seq<T>, f: T -> U)
    ensures Image([x] + s, f) == [f(x)] + Image(s, f)
  {}

  /** Sorting and mapping commute when the order is the same before and after. */
  lemma {:induction false} SortImage<T(!new), U(!new)>(s: seq<T>, f: T -> U, le: (T, T) -> bool, through: (U, U) -> bool)
    requires Mirrors(s, f, le, through)
    ensures Sort(Image(s, f), through) == Image(Sort(s, le), f)
    decreases |s|
  {
    if s != [] {
      ImageTail(s, f);
      MirrorsWithin(s, s[1..], f, le, through);
      SortImage(s[1..], f, le, through);
      var sorted := Sort(s[1..], le);
      SameElements(sorted, s[1..]);
      MirrorsWithin(s, [s[0]] + sorted, f, le, through);
      InsertImage(s[0], sorted, f, le, through);
    }
  }

  /** Strings are ordered. */
  lemma TextOrders()
    ensures TotalPreorder(AtMost)
  {
    forall a, b
      ensures AtMost(a, b) || AtMost(b, a)
    {
      BeforeTotal(a, b);
    }
    forall a, b, c | AtMost(a, b) && AtMost(b, c)
      ensures AtMost(a, c)
    {
      if a != b && b != c {
        BeforeTransitive(a, b, c);
      }
    }
  }
}
