/** A declarative plan: static lanes and gates (`QAPlan` in runtime_contracts/qa/plan.py), and what its validation
    guarantees the runner that follows it. */
module GatePlan {
  import opened Text
  import opened Sorting
  import opened Graphs

  datatype PlanItem = PlanItem(specRef: string, lane: string, order: nat)

  datatype PlanGate = PlanGate(item: string, after: seq<string>)

  datatype Plan = Plan(items: seq<PlanItem>, lanes: seq<string>, maxParallel: nat, fullCoverage: bool,
                       gates: seq<PlanGate>)

  /** What the field types of a plan guarantee before its own validation: items, lanes and gates are sets by spec
      reference, by name and by item, and a gate waits for something other than itself. */
  ghost predicate Typed(plan: Plan) {
    && (forall i, j :: 0 <= i < j < |plan.items| ==> plan.items[i].specRef != plan.items[j].specRef)
    && (forall i, j :: 0 <= i < j < |plan.lanes| ==> plan.lanes[i] != plan.lanes[j])
    && (forall i, j :: 0 <= i < j < |plan.gates| ==> plan.gates[i].item != plan.gates[j].item)
    && (forall g :: g in plan.gates ==> g.after != [] && g.item !in g.after)
  }

  function Refs(plan: Plan): set<string> {
    set i | i in plan.items :: i.specRef
  }

  // ---- lanes ----

  ghost predicate LanesWellFormed(plan: Plan) {
    && (forall i :: i in plan.items ==> i.lane in plan.lanes)
    && (forall i, j :: 0 <= i < j < |plan.items| ==>
          !(plan.items[i].lane == plan.items[j].lane && plan.items[i].order == plan.items[j].order))
    && 1 <= plan.maxParallel <= |plan.lanes|
  }

  /** `_guard_lanes`. */
  method GuardLanes(plan: Plan) returns (ok: bool)
    ensures ok <==> LanesWellFormed(plan)
    ensures ok
       <==> && (forall i :: 0 <= i < |plan.items| ==> plan.items[i].lane in plan.lanes)
            && (forall i, j :: 0 <= i < j < |plan.items| && plan.items[i].lane == plan.items[j].lane ==>
                  plan.items[i].order != plan.items[j].order)
            && 1 <= plan.maxParallel <= |plan.lanes|
  {
    var seen: set<(string, nat)> := {};
    for k := 0 to |plan.items|
      invariant forall i :: 0 <= i < k ==> plan.items[i].lane in plan.lanes
      invariant seen == set i | i in plan.items[..k] :: (i.lane, i.order)
      invariant forall i, j :: 0 <= i < j < k ==>
        !(plan.items[i].lane == plan.items[j].lane && plan.items[i].order == plan.items[j].order)
    {
      var item := plan.items[k];
      assert plan.items[..k + 1] == plan.items[..k] + [item];
      assert item in plan.items;
      if item.lane !in plan.lanes {
        return false;
      }
      var slot := (item.lane, item.order);
      if slot in seen {
        var other :| other in plan.items[..k] && (other.lane, other.order) == slot;
        var i :| 0 <= i < k && plan.items[i] == other;
        return false;
      }
      forall i | 0 <= i < k
        ensures !(plan.items[i].lane == item.lane && plan.items[i].order == item.order)
      {
        assert plan.items[i] in plan.items[..k];
      }
      seen := seen + {slot};
    }
    assert forall i :: 0 <= i < |plan.items| ==> plan.items[i] in plan.items;
    ok := 1 <= plan.maxParallel <= |plan.lanes|;
  }

  // ---- what must finish before what ----

  /** a is the item just before b in its lane. */
  ghost predicate JustBefore(items: seq<PlanItem>, a: PlanItem, b: PlanItem) {
    && a in items && b in items && a.lane == b.lane && a.order < b.order
    && forall c :: c in items && c.lane == a.lane ==> !(a.order < c.order < b.order)
  }

  /** The edges the validation walks: neighbours in a lane, and gates. */
  ghost function NeighbourEdges(plan: Plan): set<(string, string)> {
    (set a, b | a in plan.items && b in plan.items && JustBefore(plan.items, a, b) :: (a.specRef, b.specRef))
    + GateEdges(plan)
  }

  ghost function GateEdges(plan: Plan): set<(string, string)> {
    set g, d | g in plan.gates && d in g.after :: (d, g.item)
  }

  /** What the runner honours: an item starts after every earlier item of its lane and everything its gate names. */
  ghost function Precedence(plan: Plan): set<(string, string)> {
    (set a, b | a in plan.items && b in plan.items && a.lane == b.lane && a.order < b.order :: (a.specRef, b.specRef))
    + GateEdges(plan)
  }

  ghost predicate GatesKnown(plan: Plan) {
    forall g :: g in plan.gates ==> g.item in Refs(plan) && forall d :: d in g.after ==> d in Refs(plan)
  }

  // ---- the depth-first search ----

  /** The edges an adjacency dict stands for. */
  ghost function EdgesOf(next: map<string, seq<string>>): set<(string, string)> {
    set a, b | a in next && b in next[a] :: (a, b)
  }

  ghost predicate Closed(next: map<string, seq<string>>) {
    forall a, b :: a in next && b in next[a] ==> b in next
  }

  const GREY := 1
  const BLACK := 2

  /** What the colours mean half-way through a search: the grey nodes are a path, the black ones are those finished,
      and whatever a finished node leads to was finished before it. */
  ghost predicate Coloured(next: map<string, seq<string>>, state: map<string, int>, finished: seq<string>,
                           grey: seq<string>)
  {
    && Closed(next) && state.Keys <= next.Keys
    && (forall n :: n in state ==> state[n] == GREY || state[n] == BLACK)
    && (forall n :: n in grey <==> n in state && state[n] == GREY)
    && (forall n :: n in finished <==> n in state && state[n] == BLACK)
    && (forall i, j :: 0 <= i < j < |finished| ==> finished[i] != finished[j])
    && IsPath(EdgesOf(next), grey)
    && FinishedInOrder(next, finished)
  }

  ghost predicate FinishedInOrder(next: map<string, seq<string>>, finished: seq<string>) {
    forall i, m :: 0 <= i < |finished| && finished[i] in next && m in next[finished[i]] ==> m in finished[..i]
  }

  lemma BecomesGrey(next: map<string, seq<string>>, state: map<string, int>, finished: seq<string>,
                    grey: seq<string>, node: string)
    requires Coloured(next, state, finished, grey) && node in next && node !in state
    requires grey != [] ==> grey[|grey| - 1] in next && node in next[grey[|grey| - 1]]
    ensures Coloured(next, state[node := GREY], finished, grey + [node])
  {
    PathExtends(EdgesOf(next), grey, node);
  }

  lemma BecomesBlack(next: map<string, seq<string>>, state: map<string, int>, finished: seq<string>,
                     grey: seq<string>, node: string)
    requires Coloured(next, state, finished, grey + [node]) && node !in grey
    requires node in next && forall m :: m in next[node] ==> m in finished
    ensures Coloured(next, state[node := BLACK], finished + [node], grey)
  {
    var path, longer := grey + [node], finished + [node];
    assert node in path;
    assert IsPath(EdgesOf(next), grey) by {
      assert forall i :: 0 <= i < |grey| ==> path[i] == grey[i];
    }
    assert forall n :: n in path <==> n in grey || n == node;
    assert forall i :: 0 <= i < |finished| ==> longer[..i] == finished[..i];
    assert longer[..|finished|] == finished;
  }

  /** The colours of the search: a node is grey while it is being visited, black when it is finished. */
  class Search {
    const next: map<string, seq<string>>
    var state: map<string, int>
    ghost var finished: seq<string>

    constructor (next: map<string, seq<string>>)
      requires Closed(next)
      ensures this.next == next && state == map[] && finished == [] && Valid([])
    {
      this.next, state, finished := next, map[], [];
    }

    ghost predicate Valid(grey: seq<string>)
      reads this
    {
      Coloured(next, state, finished, grey)
    }

    /** Nodes coloured before keep their colour. */
    twostate predicate Keeps()
      reads this
    {
      forall n :: n in old(state) ==> n in state && state[n] == old(state[n])
    }

    /** Visit a node not yet coloured: finish it and everything it leads to, or report a cycle. */
    method Visit(node: string, ghost grey: seq<string>) returns (ok: bool)
      requires Valid(grey) && node in next && node !in state
      requires grey != [] ==> grey[|grey| - 1] in next && node in next[grey[|grey| - 1]]
      modifies this
      ensures !ok ==> Cyclic(EdgesOf(next))
      ensures ok ==> Valid(grey) && node in finished && Keeps()
      decreases next.Keys - state.Keys
    {
      BecomesGrey(next, state, finished, grey, node);
      state := state[node := GREY];
      ghost var path := grey + [node];
      var i := 0;
      while i < |next[node]|
        invariant 0 <= i <= |next[node]|
        invariant Valid(path) && (forall k :: 0 <= k < i ==> next[node][k] in finished)
        invariant Keeps() && node in state && state[node] == GREY
      {
        var m := next[node][i];
        if m in state && state[m] == GREY {
          BackEdgeIsCycle(EdgesOf(next), path, m);
          return false;
        }
        if m !in state {
          ok := Visit(m, path);
          if !ok {
            return;
          }
        }
        i := i + 1;
      }
      BecomesBlack(next, state, finished, grey, node);
      state, finished := state[node := BLACK], finished + [node];
      ok := true;
    }
  }

  lemma PathExtends(edges: set<(string, string)>, p: seq<string>, n: string)
    requires IsPath(edges, p) && (p != [] ==> (p[|p| - 1], n) in edges)
    ensures IsPath(edges, p + [n])
  {
    var q := p + [n];
    forall i | 0 <= i < |q| - 1
      ensures (q[i], q[i + 1]) in edges
    {
      if i < |p| - 1 {
        assert (p[i], p[i + 1]) in edges;
      }
    }
  }

  /** An edge from the end of a path back to a node on it closes a cycle. */
  lemma BackEdgeIsCycle(edges: set<(string, string)>, path: seq<string>, m: string)
    requires IsPath(edges, path) && path != [] && m in path && (path[|path| - 1], m) in edges
    ensures Cyclic(edges)
  {
    var i :| 0 <= i < |path| && path[i] == m;
    var tail := path[i..];
    forall k | 0 <= k < |tail| - 1
      ensures (tail[k], tail[k + 1]) in edges
    {
      assert (path[i + k], path[i + k + 1]) in edges;
    }
    PathExtends(edges, tail, m);
    assert IsCycle(edges, tail + [m]);
  }

  /** No node has an edge to itself or to one that finished later. */
  lemma NoBackEdge(next: map<string, seq<string>>, finished: seq<string>, a: nat, b: nat)
    requires Closed(next) && FinishedInOrder(next, finished) && a <= b < |finished|
    requires forall i, j :: 0 <= i < j < |finished| ==> finished[i] != finished[j]
    requires forall n :: n in finished ==> n in next
    ensures (finished[a], finished[b]) !in EdgesOf(next)
  {
    assert finished[a] in finished;
    assert forall m :: m in next[finished[a]] ==> m in finished[..a];
    assert forall k :: 0 <= k < a ==> finished[k] != finished[b];
  }

  /** Finishing order reversed is a topological order of the whole graph. */
  lemma AllFinishedIsAcyclic(next: map<string, seq<string>>, finished: seq<string>)
    requires Closed(next) && FinishedInOrder(next, finished)
    requires forall i, j :: 0 <= i < j < |finished| ==> finished[i] != finished[j]
    requires forall n :: n in finished <==> n in next
    ensures !Cyclic(EdgesOf(next))
  {
    var n := |finished|;
    var order := seq(n, i requires 0 <= i < n => finished[n - 1 - i]);
    forall x | x in finished
      ensures x in order
    {
      var i :| 0 <= i < n && finished[i] == x;
      assert order[n - 1 - i] == x;
    }
    forall i, j | 0 <= i <= j < n
      ensures (order[j], order[i]) !in EdgesOf(next)
    {
      NoBackEdge(next, finished, n - 1 - j, n - 1 - i);
    }
    TopologicalAcyclic(EdgesOf(next), order);
  }

  /** The search itself: every node, in order, unless already coloured. */
  method Acyclic(next: map<string, seq<string>>) returns (ok: bool)
    requires Closed(next)
    ensures ok <==> !Cyclic(EdgesOf(next))
  {
    var search := new Search(next);
    var nodes := Ascending(next.Keys);
    var k := 0;
    while k < |nodes|
      invariant 0 <= k <= |nodes| && search.next == next && search.Valid([])
      invariant forall i :: 0 <= i < k ==> nodes[i] in search.state
    {
      var node := nodes[k];
      assert node in nodes;
      if node !in search.state {
        ok := search.Visit(node, []);
        if !ok {
          return;
        }
      }
      k := k + 1;
    }
    assert forall n :: n in nodes ==> n in search.state;
    assert forall n :: n in next ==> n in nodes;
    AllFinishedIsAcyclic(next, search.finished);
    ok := true;
  }

  // ---- building the graph ----

  ghost predicate SlotsDistinct(items: seq<PlanItem>) {
    forall i, j :: 0 <= i < j < |items| ==> !(items[i].lane == items[j].lane && items[i].order == items[j].order)
  }

  predicate OrderAtMost(a: PlanItem, b: PlanItem) {
    a.order <= b.order
  }

  /** The items of one lane, in the order listed. */
  function LaneItems(items: seq<PlanItem>, lane: string): seq<PlanItem> {
    if items == [] then []
    else
      var last := items[|items| - 1];
      LaneItems(items[..|items| - 1], lane) + if last.lane == lane then [last] else []
  }

  lemma {:induction false} LaneItemsIn(items: seq<PlanItem>, lane: string)
    ensures forall x :: x in LaneItems(items, lane) <==> x in items && x.lane == lane
    ensures SlotsDistinct(items) ==> SlotsDistinct(LaneItems(items, lane))
  {
    if items != [] {
      var front, last := items[..|items| - 1], items[|items| - 1];
      LaneItemsIn(front, lane);
      assert items == front + [last];
      forall x | x in LaneItems(front, lane)
        ensures SlotsDistinct(items) ==> !(x.lane == last.lane && x.order == last.order)
      {
        var i :| 0 <= i < |front| && front[i] == x;
        assert items[i] == x;
      }
      var lf := LaneItems(front, lane);
      assert forall i :: 0 <= i < |lf| ==> lf[i] in lf;
    }
  }

  /** A list of exactly the items of a lane, in increasing order. */
  ghost predicate LaneInOrder(items: seq<PlanItem>, lane: string, sorted: seq<PlanItem>) {
    && (forall x :: x in sorted <==> x in items && x.lane == lane)
    && (forall i, j :: 0 <= i < j < |sorted| ==> sorted[i].order < sorted[j].order)
  }

  lemma NeighboursAreJustBefore(items: seq<PlanItem>, lane: string, sorted: seq<PlanItem>, i: nat)
    requires LaneInOrder(items, lane, sorted) && i + 1 < |sorted|
    ensures JustBefore(items, sorted[i], sorted[i + 1])
  {
    var a, b := sorted[i], sorted[i + 1];
    assert a in sorted && b in sorted;
    forall c | c in items && c.lane == lane
      ensures !(a.order < c.order < b.order)
    {
      assert c in sorted;
      var k :| 0 <= k < |sorted| && sorted[k] == c;
      assert k < i ==> sorted[k].order < sorted[i].order;
      assert k > i + 1 ==> sorted[i + 1].order < sorted[k].order;
    }
  }

  lemma JustBeforeAreNeighbours(items: seq<PlanItem>, lane: string, sorted: seq<PlanItem>, a: PlanItem, b: PlanItem)
    returns (i: nat)
    requires LaneInOrder(items, lane, sorted) && JustBefore(items, a, b) && a.lane == lane
    ensures i + 1 < |sorted| && sorted[i] == a && sorted[i + 1] == b
  {
    assert a in sorted && b in sorted;
    i :| 0 <= i < |sorted| && sorted[i] == a;
    var j :| 0 <= j < |sorted| && sorted[j] == b;
    assert forall k :: 0 <= k < |sorted| ==> sorted[k] in sorted;
  }

  lemma SortedLane(items: seq<PlanItem>, lane: string)
    requires SlotsDistinct(items)
    ensures LaneInOrder(items, lane, Sort(LaneItems(items, lane), OrderAtMost))
  {
    var chosen := LaneItems(items, lane);
    LaneItemsIn(items, lane);
    SortSorted(chosen, OrderAtMost);
    SameElements(chosen, Sort(chosen, OrderAtMost));
    StrictlySorted(chosen, Sort(chosen, OrderAtMost), lane);
  }

  lemma StrictlySorted(chosen: seq<PlanItem>, sorted: seq<PlanItem>, lane: string)
    requires SlotsDistinct(chosen) && multiset(sorted) == multiset(chosen) && Sorted(sorted, OrderAtMost)
    requires forall x :: x in chosen ==> x.lane == lane
    ensures forall i, j :: 0 <= i < j < |sorted| ==> sorted[i].order < sorted[j].order
  {
    DistinctPermutes(chosen, sorted);
    SameElements(chosen, sorted);
    forall i, j | 0 <= i < j < |sorted|
      ensures sorted[i].order < sorted[j].order
    {
      assert OrderAtMost(sorted[i], sorted[j]);
      assert sorted[i] in chosen && sorted[j] in chosen;
      var p :| 0 <= p < |chosen| && chosen[p] == sorted[i];
      var q :| 0 <= q < |chosen| && chosen[q] == sorted[j];
      assert p != q;
    }
  }

  ghost function LaneEdges(items: seq<PlanItem>, lanes: set<string>): set<(string, string)> {
    set a, b | a in items && b in items && JustBefore(items, a, b) && a.lane in lanes :: (a.specRef, b.specRef)
  }

  ghost function NeighboursUpTo(sorted: seq<PlanItem>, k: nat): set<(string, string)>
    requires k == 0 || k < |sorted|
  {
    if k == 0 then {} else NeighboursUpTo(sorted, k - 1) + {(sorted[k - 1].specRef, sorted[k].specRef)}
  }

  lemma {:induction false} InNeighbours(sorted: seq<PlanItem>, k: nat, e: (string, string))
    requires k == 0 || k < |sorted|
    ensures e in NeighboursUpTo(sorted, k)
       <==> exists i {:trigger sorted[i]} :: 0 <= i < k && e == (sorted[i].specRef, sorted[i + 1].specRef)
  {
    if k > 0 {
      InNeighbours(sorted, k - 1, e);
    }
  }

  lemma {:induction false} NeighboursAreLaneEdges(items: seq<PlanItem>, lane: string, sorted: seq<PlanItem>)
    requires LaneInOrder(items, lane, sorted)
    ensures NeighboursUpTo(sorted, if sorted == [] then 0 else |sorted| - 1) == LaneEdges(items, {lane})
  {
    var found := NeighboursUpTo(sorted, if sorted == [] then 0 else |sorted| - 1);
    var k := if sorted == [] then 0 else |sorted| - 1;
    forall e | e in found
      ensures e in LaneEdges(items, {lane})
    {
      InNeighbours(sorted, k, e);
      var i :| 0 <= i < |sorted| - 1 && e == (sorted[i].specRef, sorted[i + 1].specRef);
      NeighboursAreJustBefore(items, lane, sorted, i);
      assert sorted[i] in sorted && sorted[i + 1] in sorted;
    }
    forall e | e in LaneEdges(items, {lane})
      ensures e in found
    {
      var a, b :| a in items && b in items && JustBefore(items, a, b) && a.lane == lane && e == (a.specRef, b.specRef);
      var i := JustBeforeAreNeighbours(items, lane, sorted, a, b);
      InNeighbours(sorted, k, e);
      assert sorted[i] == a;
    }
  }

  lemma AddEdge(next: map<string, seq<string>>, a: string, b: string)
    requires a in next
    ensures EdgesOf(next[a := next[a] + [b]]) == EdgesOf(next) + {(a, b)}
  {}

  /** Every lane met so far with its items in the order listed. */
  ghost predicate Grouped(items: seq<PlanItem>, byLane: map<string, seq<PlanItem>>) {
    && (forall lane :: lane in byLane ==> byLane[lane] == LaneItems(items, lane))
    && (forall lane :: lane !in byLane ==> LaneItems(items, lane) == [])
    && (forall i :: i in items ==> i.lane in byLane)
  }

  /** `setdefault(lane, []).append(item)`. */
  function Filed(byLane: map<string, seq<PlanItem>>, item: PlanItem): map<string, seq<PlanItem>> {
    byLane[item.lane := (if item.lane in byLane then byLane[item.lane] else []) + [item]]
  }

  lemma GroupedNext(items: seq<PlanItem>, byLane: map<string, seq<PlanItem>>, item: PlanItem)
    requires Grouped(items, byLane)
    ensures Grouped(items + [item], Filed(byLane, item))
  {
    var more := items + [item];
    assert more[..|items|] == items;
  }

  /** The items of each lane, in the order listed. */
  method ByLane(items: seq<PlanItem>) returns (byLane: map<string, seq<PlanItem>>)
    ensures Grouped(items, byLane)
  {
    byLane := map[];
    for k := 0 to |items|
      invariant Grouped(items[..k], byLane)
    {
      var item := items[k];
      GroupedNext(items[..k], byLane, item);
      assert items[..k + 1] == items[..k] + [item];
      byLane := Filed(byLane, item);
    }
    assert items[..|items|] == items;
  }

  /** The edges between neighbours of one sorted lane. */
  method AddNeighbours(next: map<string, seq<string>>, sorted: seq<PlanItem>) returns (r: map<string, seq<string>>)
    requires forall i :: 0 <= i < |sorted| ==> sorted[i].specRef in next
    ensures r.Keys == next.Keys
    ensures EdgesOf(r) == EdgesOf(next) + NeighboursUpTo(sorted, if sorted == [] then 0 else |sorted| - 1)
  {
    r := next;
    var k := 0;
    while k + 1 < |sorted|
      invariant k == 0 || k < |sorted|
      invariant r.Keys == next.Keys && EdgesOf(r) == EdgesOf(next) + NeighboursUpTo(sorted, k)
    {
      var a, b := sorted[k].specRef, sorted[k + 1].specRef;
      AddEdge(r, a, b);
      r := r[a := r[a] + [b]];
      k := k + 1;
    }
  }

  lemma LaneEdgesSplit(items: seq<PlanItem>, lanes: set<string>, lane: string)
    ensures LaneEdges(items, lanes + {lane}) == LaneEdges(items, lanes) + LaneEdges(items, {lane})
  {}

  lemma AllLaneEdges(items: seq<PlanItem>, lanes: set<string>)
    requires forall i :: i in items ==> i.lane in lanes
    ensures LaneEdges(items, lanes)
         == set a, b | a in items && b in items && JustBefore(items, a, b) :: (a.specRef, b.specRef)
  {}

  lemma SortedLaneEdges(items: seq<PlanItem>, lane: string)
    requires SlotsDistinct(items)
    ensures var sorted := Sort(LaneItems(items, lane), OrderAtMost);
      NeighboursUpTo(sorted, if sorted == [] then 0 else |sorted| - 1) == LaneEdges(items, {lane})
  {
    SortedLane(items, lane);
    NeighboursAreLaneEdges(items, lane, Sort(LaneItems(items, lane), OrderAtMost));
  }

  lemma SortedLaneWithin(items: seq<PlanItem>, lane: string)
    ensures var sorted := Sort(LaneItems(items, lane), OrderAtMost);
      forall i :: 0 <= i < |sorted| ==> sorted[i] in items
  {
    var sorted := Sort(LaneItems(items, lane), OrderAtMost);
    LaneItemsIn(items, lane);
    SameElements(LaneItems(items, lane), sorted);
    assert forall i :: 0 <= i < |sorted| ==> sorted[i] in sorted;
  }

  /** The edges between neighbours of one lane. */
  method AddLane(next: map<string, seq<string>>, ghost items: seq<PlanItem>, ghost lane: string, mine: seq<PlanItem>)
    returns (r: map<string, seq<string>>)
    requires SlotsDistinct(items) && mine == LaneItems(items, lane) && forall i :: i in items ==> i.specRef in next
    ensures r.Keys == next.Keys && EdgesOf(r) == EdgesOf(next) + LaneEdges(items, {lane})
  {
    SortedLaneEdges(items, lane);
    SortedLaneWithin(items, lane);
    r := AddNeighbours(next, Sort(mine, OrderAtMost));
  }

  method AddLanes(next: map<string, seq<string>>, items: seq<PlanItem>, byLane: map<string, seq<PlanItem>>)
    returns (r: map<string, seq<string>>)
    requires SlotsDistinct(items) && forall i :: i in items ==> i.specRef in next
    requires forall lane :: lane in byLane ==> byLane[lane] == LaneItems(items, lane)
    ensures r.Keys == next.Keys && EdgesOf(r) == EdgesOf(next) + LaneEdges(items, byLane.Keys)
  {
    var todo := byLane.Keys;
    ghost var done: set<string> := {};
    r := next;
    assert LaneEdges(items, {}) == {};
    while todo != {}
      invariant done + todo == byLane.Keys && r.Keys == next.Keys
      invariant EdgesOf(r) == EdgesOf(next) + LaneEdges(items, done)
      decreases todo
    {
      var lane :| lane in todo;
      LaneEdgesSplit(items, done, lane);
      r := AddLane(r, items, lane, byLane[lane]);
      todo, done := todo - {lane}, done + {lane};
    }
    assert done == byLane.Keys;
  }

  ghost function GateEdgesUpTo(gates: seq<PlanGate>): set<(string, string)> {
    set g, d | g in gates && d in g.after :: (d, g.item)
  }

  method AddGates(next: map<string, seq<string>>, gates: seq<PlanGate>) returns (r: map<string, seq<string>>)
    requires forall g, d :: g in gates && d in g.after ==> d in next
    ensures r.Keys == next.Keys && EdgesOf(r) == EdgesOf(next) + GateEdgesUpTo(gates)
  {
    r := next;
    for k := 0 to |gates|
      invariant r.Keys == next.Keys && EdgesOf(r) == EdgesOf(next) + GateEdgesUpTo(gates[..k])
    {
      var g := gates[k];
      assert g in gates && gates[..k + 1] == gates[..k] + [g];
      for j := 0 to |g.after|
        invariant r.Keys == next.Keys
        invariant EdgesOf(r) == EdgesOf(next) + GateEdgesUpTo(gates[..k]) + set d | d in g.after[..j] :: (d, g.item)
      {
        var d := g.after[j];
        assert d in g.after && g.after[..j + 1] == g.after[..j] + [d];
        AddEdge(r, d, g.item);
        r := r[d := r[d] + [g.item]];
      }
      assert g.after[..|g.after|] == g.after;
    }
    assert gates[..|gates|] == gates;
  }

  lemma EdgesClosed(plan: Plan, next: map<string, seq<string>>)
    requires next.Keys == Refs(plan) && EdgesOf(next) == NeighbourEdges(plan) && GatesKnown(plan)
    ensures Closed(next)
  {
    forall a, b | a in next && b in next[a]
      ensures b in next
    {
      assert (a, b) in NeighbourEdges(plan);
    }
  }

  /** The first loop of `_guard_gates`: a gate may name only refs of the plan. */
  method GatesDeclared(plan: Plan) returns (ok: bool)
    ensures ok <==> GatesKnown(plan)
  {
    var known := Refs(plan);
    for k := 0 to |plan.gates|
      invariant forall i :: 0 <= i < k ==>
        plan.gates[i].item in known && forall d :: d in plan.gates[i].after ==> d in known
    {
      var gate := plan.gates[k];
      var refs := [gate.item] + gate.after;
      for j := 0 to |refs|
        invariant forall i :: 0 <= i < j ==> refs[i] in known
      {
        if refs[j] !in known {
          assert gate in plan.gates && (refs[j] == gate.item || refs[j] in gate.after);
          return false;
        }
      }
      assert refs[0] == gate.item && forall i :: 0 <= i < |gate.after| ==> refs[i + 1] == gate.after[i];
    }
    ok := true;
  }

  /** `_guard_gates`. */
  method GuardGates(plan: Plan) returns (ok: bool)
    requires LanesWellFormed(plan)
    ensures ok <==> GatesKnown(plan) && !Cyclic(NeighbourEdges(plan))
  {
    ok := GatesDeclared(plan);
    if !ok {
      return;
    }
    var edges: map<string, seq<string>> := map ref | ref in Refs(plan) :: [];
    assert EdgesOf(edges) == {};
    var byLane := ByLane(plan.items);
    AllLaneEdges(plan.items, byLane.Keys);
    edges := AddLanes(edges, plan.items, byLane);
    edges := AddGates(edges, plan.gates);
    assert EdgesOf(edges) == NeighbourEdges(plan);
    EdgesClosed(plan, edges);
    ok := Acyclic(edges);
  }

  /** `QAPlan.validate`. */
  method Validate(plan: Plan) returns (ok: bool)
    ensures ok <==> plan.fullCoverage && plan.items != [] && LanesWellFormed(plan) && GatesKnown(plan)
                    && !Cyclic(NeighbourEdges(plan))
  {
    if !plan.fullCoverage || plan.items == [] {
      return false;
    }
    ok := GuardLanes(plan);
    if ok {
      ok := GuardGates(plan);
    }
  }
}
