/** Finite directed graphs: cycles, and the two facts a topological sort rests on. */
module Graphs {

  /** Each vertex of `p` has an edge to the next. */
  ghost predicate IsPath<V>(edges: set<(V, V)>, p: seq<V>) {
    forall i :: 0 <= i < |p| - 1 ==> (p[i], p[i + 1]) in edges
  }

  /** Some path of at least one edge returns to where it started. */
  ghost predicate Cyclic<V(!new)>(edges: set<(V, V)>) {
    exists p :: IsCycle(edges, p)
  }

  ghost predicate IsCycle<V>(edges: set<(V, V)>, p: seq<V>) {
    |p| >= 2 && IsPath(edges, p) && p[0] == p[|p| - 1]
  }

  /** A listing in which every edge between listed vertices leads forward. */
  ghost predicate Topological<V(!new)>(edges: set<(V, V)>, order: seq<V>) {
    && (forall i, j :: 0 <= i < j < |order| ==> order[i] != order[j])
    && (forall e :: e in edges ==> e.0 in order && e.1 in order)
    && (forall i, j :: 0 <= i <= j < |order| ==> (order[j], order[i]) !in edges)
  }

  lemma {:induction false} PathAdvances<V(!new)>(edges: set<(V, V)>, order: seq<V>, p: seq<V>, from: nat)
    requires Topological(edges, order) && IsPath(edges, p) && |p| >= 2
    requires from < |order| && order[from] == p[0]
    ensures exists to :: from < to < |order| && order[to] == p[|p| - 1]
  {
    assert (p[0], p[1]) in edges;
    var next :| 0 <= next < |order| && order[next] == p[1];
    assert from < next;
    if |p| > 2 {
      var q := p[1..];
      forall i | 0 <= i < |q| - 1
        ensures (q[i], q[i + 1]) in edges
      {
        assert (p[i + 1], p[i + 2]) in edges;
      }
      PathAdvances(edges, order, q, next);
    }
  }

  /** A graph with a topological listing has no cycle. */
  lemma TopologicalAcyclic<V(!new)>(edges: set<(V, V)>, order: seq<V>)
    requires Topological(edges, order)
    ensures !Cyclic(edges)
  {
    if Cyclic(edges) {
      var p :| IsCycle(edges, p);
      assert (p[0], p[1]) in edges;
      var from :| 0 <= from < |order| && order[from] == p[0];
      PathAdvances(edges, order, p, from);
    }
  }

  /** More places than elements: some element is listed twice. */
  lemma {:induction false} Pigeonhole<V>(s: set<V>, p: seq<V>)
    requires (forall x :: x in p ==> x in s) && |p| > |s|
    ensures exists i, j :: 0 <= i < j < |p| && p[i] == p[j]
  {
    var last := p[|p| - 1];
    var front := p[..|p| - 1];
    if last in front {
      var i :| 0 <= i < |front| && front[i] == last;
      assert p[i] == p[|p| - 1];
    } else {
      Pigeonhole(s - {last}, front);
      var i, j :| 0 <= i < j < |front| && front[i] == front[j];
      assert p[i] == p[j];
    }
  }

  ghost predicate HasPredecessor<V>(edges: set<(V, V)>, s: set<V>, x: V) {
    exists y :: y in s && (y, x) in edges
  }

  /** Walk `n` edges backwards inside `s`. */
  lemma {:induction false} WalkBack<V(!new)>(edges: set<(V, V)>, s: set<V>, start: V, n: nat) returns (p: seq<V>)
    requires start in s
    requires forall x {:trigger HasPredecessor(edges, s, x)} :: x in s ==> HasPredecessor(edges, s, x)
    ensures |p| == n + 1 && IsPath(edges, p) && forall x :: x in p ==> x in s
  {
    if n == 0 {
      p := [start];
    } else {
      var tail := WalkBack(edges, s, start, n - 1);
      assert tail[0] in s && HasPredecessor(edges, s, tail[0]);
      var y :| y in s && (y, tail[0]) in edges;
      p := [y] + tail;
      forall i | 0 <= i < |p| - 1
        ensures (p[i], p[i + 1]) in edges
      {
        if i > 0 {
          assert (tail[i - 1], tail[i]) in edges;
        }
      }
    }
  }

  /** In a non-empty finite set where every vertex has a predecessor in the set, there is a cycle. */
  lemma NoSourceMeansCycle<V(!new)>(edges: set<(V, V)>, s: set<V>)
    requires s != {}
    requires forall x {:trigger HasPredecessor(edges, s, x)} :: x in s ==> HasPredecessor(edges, s, x)
    ensures Cyclic(edges)
  {
    var start :| start in s;
    var p := WalkBack(edges, s, start, |s|);
    Pigeonhole(s, p);
    var i, j :| 0 <= i < j < |p| && p[i] == p[j];
    var q := p[i..j + 1];
    forall k | 0 <= k < |q| - 1
      ensures (q[k], q[k + 1]) in edges
    {
      assert (p[i + k], p[i + k + 1]) in edges;
    }
    assert IsCycle(edges, q);
  }

  lemma CyclicMonotone<V(!new)>(a: set<(V, V)>, b: set<(V, V)>)
    requires a <= b && Cyclic(a)
    ensures Cyclic(b)
  {
    var p :| IsCycle(a, p);
    forall i | 0 <= i < |p| - 1
      ensures (p[i], p[i + 1]) in b
    {
      assert (p[i], p[i + 1]) in a;
    }
    assert IsCycle(b, p);
  }

  /** No edge between listed vertices leads backwards or stays. */
  ghost predicate Forward<V>(edges: set<(V, V)>, order: seq<V>) {
    forall i, j :: 0 <= i <= j < |order| ==> (order[j], order[i]) !in edges
  }

  /** A finite acyclic graph has a topological listing. */
  lemma {:induction false} AcyclicHasOrder<V(!new)>(edges: set<(V, V)>, s: set<V>) returns (order: seq<V>)
    requires !Cyclic(edges)
    ensures (forall x :: x in order <==> x in s) && |order| == |s| && Forward(edges, order)
    decreases s
  {
    if s == {} {
      order := [];
    } else {
      if forall x :: x in s ==> HasPredecessor(edges, s, x) {
        NoSourceMeansCycle(edges, s);
      }
      var first :| first in s && !HasPredecessor(edges, s, first);
      var rest := AcyclicHasOrder(edges, s - {first});
      order := [first] + rest;
      forall i, j | 0 <= i <= j < |order|
        ensures (order[j], order[i]) !in edges
      {
        assert order[j] in s;
      }
    }
  }

  /** As many places as elements: nothing is listed twice. */
  lemma DistinctListing<V(!new)>(order: seq<V>, s: set<V>)
    requires (forall x :: x in order <==> x in s) && |order| == |s|
    ensures forall i, j :: 0 <= i < j < |order| ==> order[i] != order[j]
  {
    forall i, j | 0 <= i < j < |order|
      ensures order[i] != order[j]
    {
      if order[i] == order[j] {
        var shorter := order[..j] + order[j + 1..];
        Elements(order, s);
        assert forall x :: x in order ==> x in shorter by {
          forall x | x in order
            ensures x in shorter
          {
            var k :| 0 <= k < |order| && order[k] == x;
            var m := if k == j then i else k;
            assert order[m] == x && (if m < j then shorter[m] else shorter[m - 1]) == x;
          }
        }
        CoverSize(shorter, s);
      }
    }
  }

  lemma Elements<V>(order: seq<V>, s: set<V>)
    requires forall x :: x in order <==> x in s
    ensures s == set x | x in order
  {}

  lemma {:induction false} CoverSize<V>(p: seq<V>, s: set<V>)
    requires forall x :: x in s ==> x in p
    ensures |s| <= |p|
    decreases |p|
  {
    if p == [] {
      assert s == {};
    } else {
      CoverSize(p[1..], s - {p[0]});
    }
  }
}
