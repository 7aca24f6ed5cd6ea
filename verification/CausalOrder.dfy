/** Linearising a partially ordered history (`causal_order` in runtime_contracts/models/investigation.py). */
module CausalOrder {
  import opened Wrappers
  import opened Text
  import opened Sorting
  import opened Graphs

  /** A transition event as the ordering sees it. */
  datatype Event = Event(id: string, sequence: int, parents: seq<string>)

  /** The tie-break: by sequence, then by id. */
  predicate EventAtMost(a: Event, b: Event) {
    a.sequence < b.sequence || (a.sequence == b.sequence && AtMost(a.id, b.id))
  }

  lemma EventOrderTotal()
    ensures TotalPreorder(EventAtMost)
  {
    forall a: Event, b: Event
      ensures EventAtMost(a, b) || EventAtMost(b, a)
    {
      BeforeTotal(a.id, b.id);
    }
    forall a: Event, b: Event, c: Event | EventAtMost(a, b) && EventAtMost(b, c)
      ensures EventAtMost(a, c)
    {
      if a.sequence == b.sequence == c.sequence && a.id != b.id && b.id != c.id {
        BeforeTransitive(a.id, b.id, c.id);
      }
    }
  }

  // ---- what the order must be ----

  function Ids(events: seq<Event>): set<string> {
    set e | e in events :: e.id
  }

  predicate DistinctIds(events: seq<Event>) {
    forall i, j :: 0 <= i < j < |events| ==> events[i].id != events[j].id
  }

  /** Parent to child, for parents in the set; a parent outside it constrains nothing. */
  ghost function Edges(events: seq<Event>): set<(string, string)> {
    set e, p | e in events && p in e.parents && p in Ids(events) :: (p, e.id)
  }

  /** Not yet out, with every parent in the set already out. */
  ghost predicate Ready(events: seq<Event>, done: set<string>, e: Event) {
    e in events && e.id !in done && forall p :: p in e.parents && p in Ids(events) ==> p in done
  }

  ghost predicate LeastReady(events: seq<Event>, done: set<string>, e: Event) {
    Ready(events, done, e) && forall f :: Ready(events, done, f) ==> EventAtMost(e, f)
  }

  /** A permutation of the events that emits, at every position, the least event whose parents are all out. */
  ghost predicate Greedy(events: seq<Event>, out: seq<Event>) {
    && multiset(out) == multiset(events)
    && forall k :: 0 <= k < |out| ==> LeastReady(events, Ids(out[..k]), out[k])
  }

  /** There is at most one such order, and it does not depend on the order the events arrive in. */
  lemma GreedyUnique(a: seq<Event>, b: seq<Event>, outA: seq<Event>, outB: seq<Event>)
    requires multiset(a) == multiset(b) && DistinctIds(a)
    requires Greedy(a, outA) && Greedy(b, outB)
    ensures outA == outB
  {
    assert |outA| == |multiset(outA)| == |multiset(outB)| == |outB|;
    GreedyPrefix(a, b, outA, outB, |outA|);
    assert outA[..|outA|] == outA && outB[..|outA|] == outB;
  }

  lemma {:induction false} GreedyPrefix(a: seq<Event>, b: seq<Event>, outA: seq<Event>, outB: seq<Event>, k: nat)
    requires multiset(a) == multiset(b) && DistinctIds(a)
    requires Greedy(a, outA) && Greedy(b, outB) && k <= |outA| == |outB|
    ensures outA[..k] == outB[..k]
  {
    if k > 0 {
      GreedyPrefix(a, b, outA, outB, k - 1);
      var x, y, done := outA[k - 1], outB[k - 1], Ids(outA[..k - 1]);
      SameElements(a, b);
      assert Ids(a) == Ids(b);
      assert LeastReady(a, done, x) && LeastReady(b, done, y);
      assert Ready(b, done, x) && Ready(a, done, y);
      assert EventAtMost(x, y) && EventAtMost(y, x);
      if x.id != y.id {
        BeforeAsymmetric(x.id, y.id);
      }
      assert outA[..k] == outA[..k - 1] + [x] && outB[..k] == outB[..k - 1] + [y];
    }
  }

  /** Whether a history is accepted does not depend on the order its events arrive in either. */
  lemma ArrivalOrderIrrelevant(a: seq<Event>, b: seq<Event>)
    requires multiset(a) == multiset(b)
    ensures DistinctIds(a) <==> DistinctIds(b)
    ensures Edges(a) == Edges(b) && Ids(a) == Ids(b)
  {
    SameElements(a, b);
    if DistinctIds(a) {
      DistinctPermutation(a, b);
    } else if DistinctIds(b) {
      DistinctPermutation(b, a);
    }
    assert Ids(a) == Ids(b);
  }

  /** In the order, every event follows each of its parents that is in the set. */
  lemma ParentsFirst(events: seq<Event>, out: seq<Event>, k: nat, p: string)
    requires Greedy(events, out) && k < |out| && p in out[k].parents && p in Ids(events)
    ensures exists j :: 0 <= j < k && out[j].id == p
  {
    assert LeastReady(events, Ids(out[..k]), out[k]);
    var e :| e in out[..k] && e.id == p;
    var j :| 0 <= j < k && out[..k][j] == e;
    assert out[j].id == p;
  }

  // ---- the order in the events' own terms ----

  /** The events, each behind its parents as far as they are among the events. */
  ghost predicate Behind(events: seq<Event>, out: seq<Event>) {
    && multiset(out) == multiset(events)
    && forall j, p, e :: 0 <= j < |out| && p in out[j].parents && e in events && e.id == p ==>
         exists k :: 0 <= k < j && out[k].id == p
  }

  /** Of two events the one of lower sequence comes first, or on a tie the one whose id precedes, unless it had to wait for a
      parent that comes no sooner than the other. */
  ghost predicate TieBroken(out: seq<Event>) {
    forall i, j :: 0 <= i < j < |out| ==>
      || out[i].sequence < out[j].sequence
      || (out[i].sequence == out[j].sequence && Precedes(out[i].id, out[j].id))
      || exists k :: i <= k < j && out[k].id in out[j].parents
  }

  lemma {:induction false} InSet(events: seq<Event>, out: seq<Event>)
    requires multiset(out) == multiset(events)
    ensures (forall i :: 0 <= i < |out| ==> out[i] in events) && Ids(out) == Ids(events)
    ensures forall e :: e in events ==> e in out
  {
    SameElements(events, out);
    assert forall i :: 0 <= i < |out| ==> out[i] in out;
  }

  lemma {:induction false} GreedyBehind(events: seq<Event>, out: seq<Event>)
    requires Greedy(events, out)
    ensures Behind(events, out)
  {
    forall j, p, e | 0 <= j < |out| && p in out[j].parents && e in events && e.id == p
      ensures exists k :: 0 <= k < j && out[k].id == p
    {
      ParentsFirst(events, out, j, p);
    }
  }

  lemma {:induction false} GreedyBreaksTie(events: seq<Event>, out: seq<Event>, i: nat, j: nat)
    requires DistinctIds(events) && Greedy(events, out) && i < j < |out|
    requires forall k :: i <= k < j ==> out[k].id !in out[j].parents
    ensures out[i].sequence < out[j].sequence || (out[i].sequence == out[j].sequence && Precedes(out[i].id, out[j].id))
  {
    InSet(events, out);
    DistinctPermutation(events, out);
    assert LeastReady(events, Ids(out[..i]), out[i]);
    forall p | p in out[j].parents && p in Ids(events)
      ensures p in Ids(out[..i])
    {
      ParentsFirst(events, out, j, p);
      var k :| 0 <= k < j && out[k].id == p;
      assert out[..i][k] == out[k];
    }
    assert Ready(events, Ids(out[..i]), out[j]);
    BeforeIff(out[i].id, out[j].id);
  }

  lemma {:induction false} EarlierIds(out: seq<Event>, k: nat)
    requires DistinctIds(out) && k <= |out|
    ensures forall n :: 0 <= n < |out| ==> (out[n].id in Ids(out[..k]) <==> n < k)
  {
    assert forall n :: 0 <= n < k ==> out[..k][n] == out[n];
    forall n | k <= n < |out|
      ensures out[n].id !in Ids(out[..k])
    {
      forall e | e in out[..k]
        ensures e.id != out[n].id
      {
        var m :| 0 <= m < k && out[..k][m] == e;
      }
    }
  }

  lemma {:induction false} TieBrokenIsLeast(events: seq<Event>, out: seq<Event>, k: nat, f: Event)
    requires DistinctIds(events) && Behind(events, out) && TieBroken(out) && k < |out| && Ready(events, Ids(out[..k]), f)
    ensures EventAtMost(out[k], f)
  {
    InSet(events, out);
    DistinctPermutation(events, out);
    EarlierIds(out, k);
    var j :| 0 <= j < |out| && out[j] == f;
    if j > k {
      BeforeIff(out[k].id, f.id);
      assert forall m :: k <= m < j ==> out[m] in events && out[m].id !in f.parents;
    }
  }

  /** What the greedy order is, without the greedy choice: each event behind its parents, and ties broken. */
  lemma {:induction false} GreedyIff(events: seq<Event>, out: seq<Event>)
    requires DistinctIds(events)
    ensures Greedy(events, out) <==> Behind(events, out) && TieBroken(out)
  {
    if Greedy(events, out) {
      GreedyBehind(events, out);
      forall i, j | 0 <= i < j < |out| && forall k :: i <= k < j ==> out[k].id !in out[j].parents
        ensures out[i].sequence < out[j].sequence || (out[i].sequence == out[j].sequence && Precedes(out[i].id, out[j].id))
      {
        GreedyBreaksTie(events, out, i, j);
      }
    }
    if Behind(events, out) && TieBroken(out) {
      InSet(events, out);
      DistinctPermutation(events, out);
      forall k | 0 <= k < |out|
        ensures LeastReady(events, Ids(out[..k]), out[k])
      {
        NextIsReady(events, out, k);
        forall f | Ready(events, Ids(out[..k]), f)
          ensures EventAtMost(out[k], f)
        {
          TieBrokenIsLeast(events, out, k, f);
        }
      }
    }
  }

  lemma {:induction false} NextIsReady(events: seq<Event>, out: seq<Event>, k: nat)
    requires Behind(events, out) && DistinctIds(out) && k < |out|
    ensures Ready(events, Ids(out[..k]), out[k])
  {
    InSet(events, out);
    forall p | p in out[k].parents && p in Ids(events)
      ensures p in Ids(out[..k])
    {
      var e :| e in events && e.id == p;
      var m :| 0 <= m < k && out[m].id == p;
      assert out[..k][m] == out[m];
    }
  }

  /** A history of distinct ids is accepted, its constraints having no cycle, exactly when its events can be put each behind its
      parents. */
  lemma {:induction false} AcyclicIffOrderable(events: seq<Event>)
    requires DistinctIds(events)
    ensures !Cyclic(Edges(events)) <==> exists out :: Behind(events, out)
  {
    if !Cyclic(Edges(events)) {
      var order := AcyclicHasOrder(Edges(events), Ids(events));
      var out := Named(events, order);
      NamedBehind(events, order, out);
    }
    if out :| Behind(events, out) {
      InSet(events, out);
      DistinctPermutation(events, out);
      BehindTopological(events, out);
      TopologicalAcyclic(Edges(events), IdsInOrder(out));
    }
  }

  lemma {:induction false} BehindTopological(events: seq<Event>, out: seq<Event>)
    requires Behind(events, out) && DistinctIds(out)
    ensures Topological(Edges(events), IdsInOrder(out))
  {
    InSet(events, out);
    var order := IdsInOrder(out);
    forall x | x in Ids(events)
      ensures x in order
    {
      var e :| e in out && e.id == x;
      var i :| 0 <= i < |out| && out[i] == e;
      assert order[i] == x;
    }
    forall i, j | 0 <= i <= j < |order|
      ensures (order[j], order[i]) !in Edges(events)
    {
      if (order[j], order[i]) in Edges(events) {
        var k, n := EdgeForward(events, out, (order[j], order[i]));
      }
    }
  }

  lemma {:induction false} EdgeForward(events: seq<Event>, out: seq<Event>, edge: (string, string)) returns (k: nat, n: nat)
    requires Behind(events, out) && edge in Edges(events)
    ensures k < n < |out| && out[k].id == edge.0 && out[n].id == edge.1
  {
    InSet(events, out);
    var e :| e in events && edge.0 in e.parents && edge.0 in Ids(events) && edge.1 == e.id;
    n :| 0 <= n < |out| && out[n] == e;
    var f :| f in events && f.id == edge.0;
    k :| 0 <= k < n && out[k].id == edge.0;
  }

  /** The events under these ids. */
  lemma {:induction false} Named(events: seq<Event>, order: seq<string>) returns (out: seq<Event>)
    requires forall x :: x in order ==> x in Ids(events)
    ensures |out| == |order| && forall i :: 0 <= i < |out| ==> out[i] in events && out[i].id == order[i]
  {
    if order == [] {
      out := [];
    } else {
      var n := |order| - 1;
      out := Named(events, order[..n]);
      assert order[n] in order;
      var e :| e in events && e.id == order[n];
      out := out + [e];
    }
  }

  lemma {:induction false} NamedBehind(events: seq<Event>, order: seq<string>, out: seq<Event>)
    requires DistinctIds(events) && Forward(Edges(events), order) && |order| == |Ids(events)|
    requires forall x :: x in order <==> x in Ids(events)
    requires |out| == |order| && forall i :: 0 <= i < |out| ==> out[i] in events && out[i].id == order[i]
    ensures Behind(events, out)
  {
    DistinctListing(order, Ids(events));
    SameEvents(events, out, order);
    forall j, p, e | 0 <= j < |out| && p in out[j].parents && e in events && e.id == p
      ensures exists k :: 0 <= k < j && out[k].id == p
    {
      assert out[j] in events && p in Ids(events);
      assert (p, out[j].id) in Edges(events);
      var k :| 0 <= k < |order| && order[k] == p;
      assert (order[k], order[j]) in Edges(events);
      assert k < j && out[k].id == p;
    }
  }

  lemma {:induction false} SameEvents(events: seq<Event>, out: seq<Event>, order: seq<string>)
    requires DistinctIds(events) && (forall x :: x in order <==> x in Ids(events))
    requires forall i, j :: 0 <= i < j < |order| ==> order[i] != order[j]
    requires |out| == |order| && forall i :: 0 <= i < |out| ==> out[i] in events && out[i].id == order[i]
    ensures multiset(out) == multiset(events)
  {
    forall e | e in events
      ensures e in out
    {
      assert e.id in order;
      var i :| 0 <= i < |order| && order[i] == e.id;
      var m :| 0 <= m < |events| && events[m] == e;
      var n :| 0 <= n < |events| && events[n] == out[i];
      assert m == n;
    }
    assert forall i, j :: 0 <= i < j < |out| ==> out[i] != out[j];
    DistinctSameElements(events, out);
  }

  function Known(parents: seq<string>, ids: set<string>): (r: seq<string>)
    ensures forall p :: p in r <==> p in parents && p in ids
  {
    if parents == [] then []
    else Known(parents[..|parents| - 1], ids) + if parents[|parents| - 1] in ids then [parents[|parents| - 1]] else []
  }

  /** The event without the parents that are not among these ids. */
  function Trimmer(ids: set<string>): Event -> Event {
    (e: Event) => e.(parents := Known(e.parents, ids))
  }

  function Trim(events: seq<Event>, ids: set<string>): seq<Event> {
    Image(events, Trimmer(ids))
  }

  lemma TrimmedFrom(events: seq<Event>, ids: set<string>, f: Event)
    ensures f in Trim(events, ids) <==> exists e :: e in events && f == Trimmer(ids)(e)
  {
    if f in Trim(events, ids) {
      var i :| 0 <= i < |events| && Trim(events, ids)[i] == f;
      assert events[i] in events;
    }
    if e :| e in events && f == Trimmer(ids)(e) {
      var i :| 0 <= i < |events| && events[i] == e;
      assert Trim(events, ids)[i] == f;
    }
  }

  lemma TrimKeepsIds(events: seq<Event>, ids: set<string>)
    ensures Ids(Trim(events, ids)) == Ids(events)
  {
    forall id
      ensures id in Ids(Trim(events, ids)) <==> id in Ids(events)
    {
      if e :| e in events && e.id == id {
        TrimmedFrom(events, ids, Trimmer(ids)(e));
      }
      if f :| f in Trim(events, ids) && f.id == id {
        TrimmedFrom(events, ids, f);
      }
    }
  }

  lemma TrimKeepsEdges(events: seq<Event>)
    ensures Edges(Trim(events, Ids(events))) == Edges(events)
  {
    var ids, trimmed := Ids(events), Trim(events, Ids(events));
    TrimKeepsIds(events, ids);
    forall edge
      ensures edge in Edges(trimmed) <==> edge in Edges(events)
    {
      if edge in Edges(events) {
        var e :| e in events && edge.0 in e.parents && edge.0 in ids && edge.1 == e.id;
        TrimmedFrom(events, ids, Trimmer(ids)(e));
      }
      if edge in Edges(trimmed) {
        var f :| f in trimmed && edge.0 in f.parents && edge.0 in ids && edge.1 == f.id;
        TrimmedFrom(events, ids, f);
      }
    }
  }

  lemma TrimKeepsReady(events: seq<Event>, done: set<string>, e: Event)
    requires e in events
    ensures Ready(Trim(events, Ids(events)), done, Trimmer(Ids(events))(e)) <==> Ready(events, done, e)
  {
    TrimKeepsIds(events, Ids(events));
    TrimmedFrom(events, Ids(events), Trimmer(Ids(events))(e));
  }

  lemma TrimKeepsLeast(events: seq<Event>, done: set<string>, e: Event)
    requires LeastReady(events, done, e)
    ensures LeastReady(Trim(events, Ids(events)), done, Trimmer(Ids(events))(e))
  {
    var ids := Ids(events);
    TrimKeepsReady(events, done, e);
    forall f | Ready(Trim(events, ids), done, f)
      ensures EventAtMost(Trimmer(ids)(e), f)
    {
      TrimmedFrom(events, ids, f);
      var g :| g in events && f == Trimmer(ids)(g);
      TrimKeepsReady(events, done, g);
    }
  }

  /** A parent missing from the set is not an error, whatever the documentation of `causal_order` says: without the missing
      parents the history has the same constraints and is put in the same order. */
  lemma DanglingParentsAreIgnored(events: seq<Event>, out: seq<Event>)
    requires Greedy(events, out)
    ensures Edges(Trim(events, Ids(events))) == Edges(events)
    ensures Greedy(Trim(events, Ids(events)), Trim(out, Ids(events)))
  {
    var ids := Ids(events);
    TrimKeepsEdges(events);
    ImagePermutes(out, events, Trimmer(ids));
    var trimmed := Trim(out, ids);
    forall k | 0 <= k < |trimmed|
      ensures LeastReady(Trim(events, ids), Ids(trimmed[..k]), trimmed[k])
    {
      assert trimmed[..k] == Trim(out[..k], ids);
      TrimKeepsIds(out[..k], ids);
      TrimKeepsLeast(events, Ids(out[..k]), out[k]);
    }
  }

  /** So an event that names only missing parents is a history that is accepted. */
  lemma DanglingParentIsAccepted(e: Event)
    requires e.id !in e.parents
    ensures DistinctIds([e]) && !Cyclic(Edges([e])) && Greedy([e], [e])
  {
    assert Edges([e]) == {};
    TopologicalAcyclic<string>({}, []);
    assert LeastReady([e], Ids([e][..0]), [e][0]) by {
      BeforeTotal(e.id, e.id);
    }
  }

  /** Without parents in the set, the order is the order by sequence and id. */
  lemma NoParentsMeansSorted(events: seq<Event>, out: seq<Event>)
    requires Greedy(events, out) && DistinctIds(events)
    requires forall e, p :: e in events && p in e.parents ==> p !in Ids(events)
    ensures forall i, j :: 0 <= i < j < |out| ==>
      out[i].sequence < out[j].sequence || (out[i].sequence == out[j].sequence && Precedes(out[i].id, out[j].id))
  {
    InSet(events, out);
    GreedyIff(events, out);
    forall i, j | 0 <= i < j < |out|
      ensures out[i].sequence < out[j].sequence || (out[i].sequence == out[j].sequence && Precedes(out[i].id, out[j].id))
    {
      assert out[j] in events;
      forall k | i <= k < j
        ensures out[k].id !in out[j].parents
      {
        assert out[k] in events && out[k].id in Ids(events);
      }
    }
  }

  lemma DistinctPermutation(a: seq<Event>, b: seq<Event>)
    requires multiset(a) == multiset(b) && DistinctIds(a)
    ensures DistinctIds(b)
  {
    SameElements(a, b);
    DistinctPermutes(a, b);
    forall i, j | 0 <= i < j < |b|
      ensures b[i].id != b[j].id
    {
      assert b[i] in a && b[j] in a;
      var p :| 0 <= p < |a| && a[p] == b[i];
      var q :| 0 <= q < |a| && a[q] == b[j];
      assert p != q;
    }
  }

  // ---- the run of the algorithm ----

  /** The parent links in the order the source adds them. */
  type Links = seq<(string, string)>

  /** How many links into c still wait for a parent that is not out. */
  function Pending(links: Links, c: string, done: set<string>): nat {
    if links == [] then 0
    else
      var last := links[|links| - 1];
      Pending(links[..|links| - 1], c, done) + if last.1 == c && last.0 !in done then 1 else 0
  }

  /** The children recorded for p, one for each link. */
  function Targets(links: Links, p: string): seq<string> {
    if links == [] then []
    else
      var last := links[|links| - 1];
      Targets(links[..|links| - 1], p) + if last.0 == p then [last.1] else []
  }

  lemma {:induction false} PendingZero(links: Links, c: string, done: set<string>)
    ensures Pending(links, c, done) == 0 <==> forall p :: (p, c) in links ==> p in done
  {
    if links != [] {
      var front, last := links[..|links| - 1], links[|links| - 1];
      PendingZero(front, c, done);
      assert forall e :: e in links <==> e in front || e == last;
    }
  }

  lemma {:induction false} PendingEmit(links: Links, c: string, done: set<string>, p: string)
    requires p !in done
    ensures Pending(links, c, done) == Pending(links, c, done + {p}) + multiset(Targets(links, p))[c]
  {
    if links != [] {
      PendingEmit(links[..|links| - 1], c, done, p);
    }
  }

  lemma {:induction false} TargetsAreSpans(links: Links, p: string, c: string)
    ensures c in Targets(links, p) <==> (p, c) in links
  {
    if links != [] {
      var front, last := links[..|links| - 1], links[|links| - 1];
      TargetsAreSpans(front, p, c);
      assert forall e :: e in links <==> e in front || e == last;
    }
  }

  /** Each entry is the event recorded under its id, and each id occurs once. */
  ghost predicate Recorded(nodes: map<string, Event>, s: seq<Event>) {
    && DistinctIds(s)
    && forall i :: 0 <= i < |s| ==> s[i].id in nodes && nodes[s[i].id] == s[i]
  }

  ghost predicate LinksWithin(nodes: map<string, Event>, links: Links) {
    && (forall id :: id in nodes ==> nodes[id].id == id)
    && forall i :: 0 <= i < |links| ==> links[i].0 in nodes && links[i].1 in nodes
  }

  /** `owed[c]` is how much of c's count the decrements still to come will take. */
  ghost predicate Counts(nodes: map<string, Event>, links: Links, indeg: map<string, int>, done: set<string>,
                         owed: multiset<string>)
  {
    indeg.Keys == nodes.Keys && forall c :: c in nodes ==> indeg[c] == Pending(links, c, done) + owed[c]
  }

  /** The list holds, once each, exactly the events not out whose count is zero. */
  ghost predicate Waiting(nodes: map<string, Event>, indeg: map<string, int>, done: set<string>, ready: seq<Event>)
    requires indeg.Keys == nodes.Keys
  {
    Recorded(nodes, ready) && forall c :: c in nodes ==> ((c !in done && indeg[c] == 0) <==> nodes[c] in ready)
  }

  /** ... in the order they are to be popped. */
  ghost predicate Queue(nodes: map<string, Event>, indeg: map<string, int>, done: set<string>, ready: seq<Event>)
    requires indeg.Keys == nodes.Keys
  {
    Waiting(nodes, indeg, done, ready) && Sorted(ready, EventAtMost)
  }

  /** c waits for nothing: every parent linked to it is out. */
  ghost predicate Free(links: Links, done: set<string>, c: string) {
    forall p :: (p, c) in links ==> p in done
  }

  /** Every event put out was, at its turn, free and least among the free events not yet out. */
  ghost predicate Emitted(nodes: map<string, Event>, links: Links, out: seq<Event>) {
    && Recorded(nodes, out)
    && forall k :: 0 <= k < |out| ==> EmittedAt(nodes, links, Ids(out[..k]), out[k])
  }

  ghost predicate EmittedAt(nodes: map<string, Event>, links: Links, done: set<string>, e: Event) {
    && e.id !in done && Free(links, done, e.id)
    && forall c :: c in nodes && c !in done && Free(links, done, c) ==> EventAtMost(e, nodes[c])
  }

  /** The head of the queue is free, and least among the free events. */
  lemma HeadIsLeast(nodes: map<string, Event>, links: Links, indeg: map<string, int>, done: set<string>,
                    ready: seq<Event>)
    requires LinksWithin(nodes, links) && ready != []
    requires Counts(nodes, links, indeg, done, multiset{}) && Queue(nodes, indeg, done, ready)
    ensures EmittedAt(nodes, links, done, ready[0])
  {
    var e := ready[0];
    assert nodes[e.id] in ready;
    PendingZero(links, e.id, done);
    forall c | c in nodes && c !in done && Free(links, done, c)
      ensures EventAtMost(e, nodes[c])
    {
      PendingZero(links, c, done);
      var i :| 0 <= i < |ready| && ready[i] == nodes[c];
      if i == 0 {
        assert e == nodes[c];
      }
    }
  }

  lemma EmitExtends(nodes: map<string, Event>, links: Links, out: seq<Event>, e: Event)
    requires Emitted(nodes, links, out) && EmittedAt(nodes, links, Ids(out), e)
    requires e.id in nodes && nodes[e.id] == e
    ensures Emitted(nodes, links, out + [e])
  {
    var after := out + [e];
    assert forall i :: 0 <= i < |out| ==> out[i].id in Ids(out);
    forall k | 0 <= k < |after|
      ensures EmittedAt(nodes, links, Ids(after[..k]), after[k])
    {
      assert after[..k] == out[..k];
      if k == |out| {
        assert out[..k] == out;
      }
    }
  }

  lemma IdsAppend(out: seq<Event>, e: Event)
    ensures Ids(out + [e]) == Ids(out) + {e.id}
  {}

  lemma CountsAfterPop(nodes: map<string, Event>, links: Links, indeg: map<string, int>, done: set<string>, p: string)
    requires Counts(nodes, links, indeg, done, multiset{}) && p !in done
    ensures Counts(nodes, links, indeg, done + {p}, multiset(Targets(links, p)))
  {
    forall c | c in nodes
      ensures indeg[c] == Pending(links, c, done + {p}) + multiset(Targets(links, p))[c]
    {
      PendingEmit(links, c, done, p);
    }
  }

  lemma QueueAfterPop(nodes: map<string, Event>, indeg: map<string, int>, done: set<string>, ready: seq<Event>)
    requires ready != [] && indeg.Keys == nodes.Keys && Queue(nodes, indeg, done, ready)
    requires forall id :: id in nodes ==> nodes[id].id == id
    ensures Queue(nodes, indeg, done + {ready[0].id}, ready[1..])
  {
    var e := ready[0];
    forall c | c in nodes
      ensures (c !in done + {e.id} && indeg[c] == 0) <==> nodes[c] in ready[1..]
    {
      assert nodes[c] in ready <==> nodes[c] == e || nodes[c] in ready[1..];
      if nodes[c] in ready[1..] {
        var i :| 0 <= i < |ready[1..]| && ready[1..][i] == nodes[c];
        assert ready[i + 1].id != ready[0].id;
      }
    }
  }

  lemma TargetsNotOut(nodes: map<string, Event>, links: Links, out: seq<Event>, p: string)
    requires LinksWithin(nodes, links) && Emitted(nodes, links, out) && p !in Ids(out) && Free(links, Ids(out), p)
    ensures forall c :: c in Targets(links, p) ==> c in nodes && c !in Ids(out) && c != p
  {
    forall c | c in Targets(links, p)
      ensures c in nodes && c !in Ids(out) && c != p
    {
      TargetsAreSpans(links, p, c);
      if c in Ids(out) {
        OutIsFree(nodes, links, out, c);
      }
    }
  }

  /** What holds when the head has just been popped and its children are about to be counted down. */
  lemma AfterPop(nodes: map<string, Event>, links: Links, indeg: map<string, int>, out: seq<Event>,
                 ready: seq<Event>)
    requires LinksWithin(nodes, links) && Emitted(nodes, links, out) && ready != []
    requires Counts(nodes, links, indeg, Ids(out), multiset{}) && Queue(nodes, indeg, Ids(out), ready)
    ensures var done := Ids(out + [ready[0]]);
      && Counts(nodes, links, indeg, done, multiset(Targets(links, ready[0].id)))
      && Queue(nodes, indeg, done, ready[1..])
      && Emitted(nodes, links, out + [ready[0]])
      && forall c :: c in Targets(links, ready[0].id) ==> c in nodes && c !in done
  {
    IdsAppend(out, ready[0]);
    HeadIsLeast(nodes, links, indeg, Ids(out), ready);
    EmitExtends(nodes, links, out, ready[0]);
    CountsAfterPop(nodes, links, indeg, Ids(out), ready[0].id);
    QueueAfterPop(nodes, indeg, Ids(out), ready);
    TargetsNotOut(nodes, links, out, ready[0].id);
  }

  /** An event that is out had all its parents out. */
  lemma OutIsFree(nodes: map<string, Event>, links: Links, out: seq<Event>, c: string)
    requires Emitted(nodes, links, out) && c in Ids(out)
    ensures Free(links, Ids(out), c)
  {
    var k :| 0 <= k < |out| && out[k].id == c;
    assert EmittedAt(nodes, links, Ids(out[..k]), out[k]);
    assert forall x :: x in out[..k] ==> x in out;
  }

  /** Counting one child down, and queueing it, somewhere, when its count reaches zero. */
  lemma CountDown(nodes: map<string, Event>, links: Links, indeg: map<string, int>, done: set<string>,
                  ready: seq<Event>, c: string, owed: multiset<string>, next: seq<Event>)
    requires LinksWithin(nodes, links) && c in nodes && c !in done && c in owed
    requires Counts(nodes, links, indeg, done, owed) && Waiting(nodes, indeg, done, ready)
    requires next == ready || multiset(next) == multiset(ready + [nodes[c]])
    requires next == ready <==> indeg[c] != 1
    ensures var less := indeg[c := indeg[c] - 1];
      Counts(nodes, links, less, done, owed - multiset{c}) && Waiting(nodes, less, done, next)
  {
    var less := indeg[c := indeg[c] - 1];
    assert nodes[c] !in ready;
    if less[c] == 0 {
      AddRecorded(nodes, ready, nodes[c], next);
    }
  }

  lemma AddRecorded(nodes: map<string, Event>, ready: seq<Event>, e: Event, next: seq<Event>)
    requires Recorded(nodes, ready) && e.id in nodes && nodes[e.id] == e && e !in ready
    requires multiset(next) == multiset(ready + [e])
    ensures Recorded(nodes, next) && forall x :: x in next <==> x == e || x in ready
  {
    SameElements(ready + [e], next);
    forall i | 0 <= i < |ready|
      ensures ready[i].id != e.id
    {
      assert ready[i] in ready;
    }
    DistinctPermutation(ready + [e], next);
    forall i | 0 <= i < |next|
      ensures next[i].id in nodes && nodes[next[i].id] == next[i]
    {
      assert next[i] in ready + [e];
    }
  }

  // ---- the end of the run ----

  lemma DistinctExtends(front: seq<Event>, last: Event)
    ensures DistinctIds(front + [last]) <==> DistinctIds(front) && last.id !in Ids(front)
  {
    var s := front + [last];
    assert forall i :: 0 <= i < |front| ==> s[i] == front[i] && front[i].id in Ids(front);
    if last.id in Ids(front) {
      var e :| e in front && e.id == last.id;
      var i :| 0 <= i < |front| && front[i] == e;
      assert s[i].id == s[|front|].id;
    }
    if DistinctIds(s) {
      assert forall i, j :: 0 <= i < j < |front| ==> s[i].id != s[j].id;
    }
  }

  lemma {:induction false} IdsCardinality(s: seq<Event>)
    ensures |Ids(s)| <= |s|
    ensures |Ids(s)| == |s| <==> DistinctIds(s)
  {
    if s != [] {
      var front, last := s[..|s| - 1], s[|s| - 1];
      IdsCardinality(front);
      assert s == front + [last];
      IdsAppend(front, last);
      DistinctExtends(front, last);
      if last.id in Ids(front) {
        assert Ids(s) == Ids(front);
      }
    }
  }

  /** The events are the nodes, and the links their edges. */
  ghost predicate Describes(events: seq<Event>, nodes: map<string, Event>, links: Links) {
    && nodes.Keys == Ids(events)
    && (forall id :: id in nodes ==> nodes[id].id == id && nodes[id] in events)
    && forall e :: e in links <==> e in Edges(events)
  }

  /** If the queue runs dry before every id is out, the ids left form a cycle. */
  lemma StuckMeansCycle(events: seq<Event>, nodes: map<string, Event>, links: Links, indeg: map<string, int>,
                        done: set<string>)
    requires Describes(events, nodes, links) && done < Ids(events)
    requires Counts(nodes, links, indeg, done, multiset{}) && Queue(nodes, indeg, done, [])
    ensures Cyclic(Edges(events))
  {
    var left := Ids(events) - done;
    var first :| first in Ids(events) && first !in done;
    assert first in left;
    forall c {:trigger HasPredecessor(Edges(events), left, c)} | c in left
      ensures HasPredecessor(Edges(events), left, c)
    {
      assert nodes[c] !in [];
      PendingZero(links, c, done);
      var p :| (p, c) in links && p !in done;
      assert (p, c) in Edges(events);
    }
    NoSourceMeansCycle(Edges(events), left);
  }

  lemma NoBackEdge(events: seq<Event>, nodes: map<string, Event>, links: Links, out: seq<Event>, i: nat, j: nat)
    requires Describes(events, nodes, links) && Emitted(nodes, links, out) && i <= j < |out|
    ensures (out[j].id, out[i].id) !in Edges(events)
  {
    assert EmittedAt(nodes, links, Ids(out[..i]), out[i]);
    assert EmittedAt(nodes, links, Ids(out[..j]), out[j]);
    assert forall x :: x in out[..i] ==> x in out[..j];
  }

  function IdsInOrder(out: seq<Event>): (r: seq<string>)
    ensures |r| == |out| && forall i :: 0 <= i < |out| ==> r[i] == out[i].id
  {
    seq(|out|, i requires 0 <= i < |out| => out[i].id)
  }

  lemma IdsListed(out: seq<Event>)
    ensures forall id :: id in Ids(out) ==> id in IdsInOrder(out)
  {
    forall id | id in Ids(out)
      ensures id in IdsInOrder(out)
    {
      var i :| 0 <= i < |out| && out[i].id == id;
      assert IdsInOrder(out)[i] == id;
    }
  }

  /** If every id is out, the order is topological and there is no cycle. */
  lemma FinishedMeansAcyclic(events: seq<Event>, nodes: map<string, Event>, links: Links, out: seq<Event>)
    requires Describes(events, nodes, links) && Emitted(nodes, links, out) && Ids(out) == Ids(events)
    ensures !Cyclic(Edges(events))
  {
    var order := IdsInOrder(out);
    IdsListed(out);
    forall i, j | 0 <= i <= j < |order|
      ensures (order[j], order[i]) !in Edges(events)
    {
      NoBackEdge(events, nodes, links, out, i, j);
    }
    assert forall e :: e in Edges(events) ==> e.0 in order && e.1 in order;
    TopologicalAcyclic(Edges(events), order);
  }

  /** With distinct ids, what was emitted is the greedy order of the events. */
  lemma FinishedIsGreedy(events: seq<Event>, nodes: map<string, Event>, links: Links, out: seq<Event>)
    requires Describes(events, nodes, links) && Emitted(nodes, links, out) && Ids(out) == Ids(events)
    requires DistinctIds(events)
    ensures Greedy(events, out)
  {
    forall e | e in events
      ensures e.id in nodes && nodes[e.id] == e
    {
      var i :| 0 <= i < |events| && events[i] == e;
      var j :| 0 <= j < |events| && events[j] == nodes[e.id];
    }
    forall e
      ensures e in out <==> e in events
    {
      if e in events {
        assert e.id in Ids(out);
      }
    }
    DistinctMultiset(events, out);
    forall k | 0 <= k < |out|
      ensures LeastReady(events, Ids(out[..k]), out[k])
    {
      var done := Ids(out[..k]);
      assert EmittedAt(nodes, links, done, out[k]);
      forall e | e in events
        ensures Ready(events, done, e) <==> e.id !in done && Free(links, done, e.id)
      {
        FreeIff(events, nodes, links, done, e);
      }
    }
  }

  lemma FreeIff(events: seq<Event>, nodes: map<string, Event>, links: Links, done: set<string>, e: Event)
    requires Describes(events, nodes, links) && e in events && DistinctIds(events)
    ensures Free(links, done, e.id) <==> forall p :: p in e.parents && p in Ids(events) ==> p in done
  {
    forall p
      ensures (p, e.id) in links <==> p in e.parents && p in Ids(events)
    {
      if (p, e.id) in Edges(events) {
        var f :| f in events && f.id == e.id && p in f.parents;
        var i :| 0 <= i < |events| && events[i] == e;
        var j :| 0 <= j < |events| && events[j] == f;
      }
    }
  }

  lemma {:induction false} DistinctMultiset(a: seq<Event>, b: seq<Event>)
    requires DistinctIds(a) && DistinctIds(b) && forall e :: e in a <==> e in b
    ensures multiset(a) == multiset(b)
  {
    forall e
      ensures multiset(a)[e] == multiset(b)[e]
    {
      if e in a {
        var i :| 0 <= i < |a| && a[i] == e;
        var j :| 0 <= j < |b| && b[j] == e;
        OnceListed(a, i);
        OnceListed(b, j);
      } else {
        assert e !in multiset(a) && e !in multiset(b);
      }
    }
  }

  // ---- the algorithm ----

  /** Filling `by_id`, with every count at zero: the last event recorded under an id is the one kept. */
  method Register(events: seq<Event>) returns (byId: map<string, Event>, indeg: map<string, int>)
    ensures byId.Keys == indeg.Keys == Ids(events)
    ensures forall id :: id in byId ==> byId[id].id == id && byId[id] in events && indeg[id] == 0
  {
    byId, indeg := map[], map[];
    for i := 0 to |events|
      invariant byId.Keys == indeg.Keys == Ids(events[..i])
      invariant forall id :: id in byId ==> byId[id].id == id && byId[id] in events[..i] && indeg[id] == 0
    {
      assert events[..i + 1] == events[..i] + [events[i]];
      byId, indeg := byId[events[i].id := events[i]], indeg[events[i].id := 0];
    }
    assert events[..|events|] == events;
  }

  ghost predicate Wired(ids: set<string>, links: Links, indeg: map<string, int>, children: map<string, seq<string>>) {
    && indeg.Keys == ids && children.Keys == ids
    && forall c :: c in ids ==> indeg[c] == Pending(links, c, {}) && children[c] == Targets(links, c)
  }

  lemma AddLink(ids: set<string>, links: Links, indeg: map<string, int>, children: map<string, seq<string>>,
                p: string, c: string)
    requires Wired(ids, links, indeg, children) && p in ids && c in ids
    ensures Wired(ids, links + [(p, c)], indeg[c := indeg[c] + 1], children[p := children[p] + [c]])
  {
    var more := links + [(p, c)];
    assert more[..|more| - 1] == links;
  }

  /** The links listed are these edges, repeated or not. */
  ghost predicate Spans(links: Links, edges: set<(string, string)>) {
    forall e :: e in links <==> e in edges
  }

  /** The inner loop of filling `indeg` and `children`: the parents of one event. */
  method ConnectOne(ids: set<string>, counts: map<string, int>, kids: map<string, seq<string>>, ghost before: Links, e: Event)
    returns (indeg: map<string, int>, children: map<string, seq<string>>, ghost links: Links)
    requires Wired(ids, before, counts, kids) && e.id in ids
    ensures Wired(ids, links, indeg, children)
    ensures forall x :: x in links <==> (x in before || (x.1 == e.id && x.0 in e.parents && x.0 in ids))
  {
    indeg, children, links := counts, kids, before;
    for j := 0 to |e.parents|
      invariant Wired(ids, links, indeg, children)
      invariant forall x :: x in links <==> (x in before || (x.1 == e.id && x.0 in e.parents[..j] && x.0 in ids))
    {
      var p := e.parents[j];
      assert e.parents[..j + 1] == e.parents[..j] + [p];
      if p in ids {
        AddLink(ids, links, indeg, children, p, e.id);
        links := links + [(p, e.id)];
        indeg := indeg[e.id := indeg[e.id] + 1];
        children := children[p := children[p] + [e.id]];
      }
    }
    assert e.parents[..|e.parents|] == e.parents;
  }

  lemma LinksOfNext(ids: set<string>, s: seq<Event>, e: Event)
    ensures forall x :: x in LinksOf(ids, s + [e])
                   <==> (x in LinksOf(ids, s) || (x.1 == e.id && x.0 in e.parents && x.0 in ids))
  {
    forall x | x in LinksOf(ids, s)
      ensures x in LinksOf(ids, s + [e])
    {
      var f, p :| f in s && p in f.parents && p in ids && x == (p, f.id);
      assert f in s + [e];
    }
    assert e in s + [e];
  }

  /** Filling `indeg` and `children`. */
  method Connect(byId: map<string, Event>, counts: map<string, int>, events: seq<Event>)
    returns (indeg: map<string, int>, children: map<string, seq<string>>, ghost links: Links)
    requires counts.Keys == byId.Keys == Ids(events) && forall id :: id in counts ==> counts[id] == 0
    ensures Wired(byId.Keys, links, indeg, children)
    ensures forall e :: e in links <==> e in Edges(events)
  {
    indeg, children, links := counts, map id | id in byId :: [], [];
    for i := 0 to |events|
      invariant Wired(byId.Keys, links, indeg, children)
      invariant Spans(links, LinksOf(byId.Keys, events[..i]))
    {
      var e := events[i];
      assert events[..i + 1] == events[..i] + [e] && e in events;
      LinksOfNext(byId.Keys, events[..i], e);
      indeg, children, links := ConnectOne(byId.Keys, indeg, children, links, e);
    }
    assert events[..|events|] == events;
    assert LinksOf(byId.Keys, events) == Edges(events);
  }

  /** The links into the events of `s` from parents among `ids`. */
  ghost function LinksOf(ids: set<string>, s: seq<Event>): set<(string, string)> {
    set e, p | e in s && p in e.parents && p in ids :: (p, e.id)
  }

  /** The queue before anything is popped. heapq is represented by the list of its entries in the order it would
      pop them. */
  method Heapify(byId: map<string, Event>, indeg: map<string, int>) returns (ready: seq<Event>)
    requires indeg.Keys == byId.Keys && forall id :: id in byId ==> byId[id].id == id
    ensures Queue(byId, indeg, {}, ready)
  {
    ready := [];
    var todo := indeg.Keys;
    while todo != {}
      invariant todo <= byId.Keys && Recorded(byId, ready) && Sorted(ready, EventAtMost)
      invariant forall c :: c in byId ==> ((c !in todo && indeg[c] == 0) <==> byId[c] in ready)
      decreases todo
    {
      var id :| id in todo;
      if indeg[id] == 0 {
        EventOrderTotal();
        InsertSorted(byId[id], ready, EventAtMost);
        AddRecorded(byId, ready, byId[id], Insert(byId[id], ready, EventAtMost));
        ready := Insert(byId[id], ready, EventAtMost);
      }
      todo := todo - {id};
    }
  }

  /** One child of the event just put out is counted down, and pushed when it reaches zero. */
  method ReleaseOne(byId: map<string, Event>, ghost links: Links, counts: map<string, int>, ghost done: set<string>,
                    queue: seq<Event>, c: string, ghost owed: multiset<string>)
    returns (indeg: map<string, int>, ready: seq<Event>)
    requires LinksWithin(byId, links) && c in byId && c !in done && c in owed
    requires Counts(byId, links, counts, done, owed) && Queue(byId, counts, done, queue)
    ensures Counts(byId, links, indeg, done, owed - multiset{c}) && Queue(byId, indeg, done, ready)
  {
    EventOrderTotal();
    InsertSorted(byId[c], queue, EventAtMost);
    CountDown(byId, links, counts, done, queue, c, owed, if counts[c] == 1 then Insert(byId[c], queue, EventAtMost) else queue);
    indeg := counts[c := counts[c] - 1];
    ready := if indeg[c] == 0 then Insert(byId[c], queue, EventAtMost) else queue;
  }

  /** The inner loop: count each child of the event just put out down by one, and push those that reach zero. */
  method Release(byId: map<string, Event>, ghost links: Links, counts: map<string, int>, ghost done: set<string>,
                 queue: seq<Event>, kids: seq<string>)
    returns (indeg: map<string, int>, ready: seq<Event>)
    requires LinksWithin(byId, links) && forall c :: c in kids ==> c in byId && c !in done
    requires Counts(byId, links, counts, done, multiset(kids)) && Queue(byId, counts, done, queue)
    ensures Counts(byId, links, indeg, done, multiset{}) && Queue(byId, indeg, done, ready)
  {
    indeg, ready := counts, queue;
    assert kids[0..] == kids;
    for k := 0 to |kids|
      invariant Counts(byId, links, indeg, done, multiset(kids[k..])) && Queue(byId, indeg, done, ready)
    {
      assert kids[k..] == [kids[k]] + kids[k + 1..];
      assert multiset(kids[k..]) - multiset{kids[k]} == multiset(kids[k + 1..]);
      indeg, ready := ReleaseOne(byId, links, indeg, done, ready, kids[k], multiset(kids[k..]));
    }
  }

  /** A linearisation that respects parents, or a refusal. */
  method CausalOrder(events: seq<Event>) returns (r: Result<seq<Event>>)
    ensures r.Ok? <==> DistinctIds(events) && !Cyclic(Edges(events))
    ensures r.Ok? ==> Greedy(events, r.value) && Behind(events, r.value) && TieBroken(r.value)
  {
    var byId, counts := Register(events);
    var indeg, children, links := Connect(byId, counts, events);
    assert forall k :: 0 <= k < |links| ==> links[k] in links;
    var ready := Heapify(byId, indeg);
    var out: seq<Event> := [];
    assert Ids(out) == {};
    while ready != []
      invariant Emitted(byId, links, out)
      invariant Counts(byId, links, indeg, Ids(out), multiset{}) && Queue(byId, indeg, Ids(out), ready)
      decreases byId.Keys - Ids(out)
    {
      AfterPop(byId, links, indeg, out, ready);
      var next := ready[0];
      IdsAppend(out, next);
      ready, out := ready[1..], out + [next];
      indeg, ready := Release(byId, links, indeg, Ids(out), ready, children[next.id]);
    }
    Verdict(events, byId, links, indeg, out);
    if |out| != |events| {
      return Refused;
    }
    GreedyIff(events, out);
    return Ok(out);
  }

  /** What the length of the output says once the queue is empty. */
  lemma Verdict(events: seq<Event>, nodes: map<string, Event>, links: Links, indeg: map<string, int>, out: seq<Event>)
    requires Describes(events, nodes, links) && Emitted(nodes, links, out)
    requires Counts(nodes, links, indeg, Ids(out), multiset{}) && Queue(nodes, indeg, Ids(out), [])
    ensures |out| == |events| <==> DistinctIds(events) && !Cyclic(Edges(events))
    ensures |out| == |events| ==> Greedy(events, out)
  {
    IdsCardinality(out);
    IdsCardinality(events);
    assert Ids(out) <= Ids(events);
    if Ids(out) == Ids(events) {
      FinishedMeansAcyclic(events, nodes, links, out);
      if DistinctIds(events) {
        FinishedIsGreedy(events, nodes, links, out);
      }
    } else {
      StuckMeansCycle(events, nodes, links, indeg, Ids(out));
      SubsetSmaller(Ids(out), Ids(events));
    }
  }

  lemma SubsetSmaller(a: set<string>, b: set<string>)
    requires a < b
    ensures |a| < |b|
  {
    var x :| x in b && x !in a;
    assert b == a + (b - a) && x in b - a;
    assert |b - a| > 0;
  }
}
