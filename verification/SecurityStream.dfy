/** Ordering a security-telemetry stream (`causal_order_events` in runtime_contracts/protocol/telemetry.py). */
module SecurityStream {
  import opened Wrappers
  import opened Text
  import opened Sorting
  import opened Graphs
  import opened CausalOrder

  /** A telemetry event as the ordering sees it: at most one parent, the empty string meaning none. */
  datatype SecurityEvent = SecurityEvent(eventId: string, sequence: int, parentEventId: string, payload: string)

  /** The same event as a node of a partially ordered history. */
  function View(e: SecurityEvent): Event {
    Event(e.eventId, e.sequence, if e.parentEventId == "" then [] else [e.parentEventId])
  }

  function Views(s: seq<SecurityEvent>): (r: seq<Event>)
    ensures |r| == |s| && forall i :: 0 <= i < |s| ==> r[i] == View(s[i])
  {
    seq(|s|, i requires 0 <= i < |s| => View(s[i]))
  }

  lemma ViewsAppend(s: seq<SecurityEvent>, e: SecurityEvent)
    ensures Views(s + [e]) == Views(s) + [View(e)]
  {}

  /** Filling `by_id`, with every count at zero and no children. */
  method Register(events: seq<SecurityEvent>) returns (byId: map<string, SecurityEvent>, indeg: map<string, int>)
    ensures byId.Keys == indeg.Keys == Ids(Views(events))
    ensures forall id :: id in byId ==> byId[id].eventId == id && byId[id] in events && indeg[id] == 0
  {
    byId, indeg := map[], map[];
    for i := 0 to |events|
      invariant byId.Keys == indeg.Keys == Ids(Views(events[..i]))
      invariant forall id :: id in byId ==> byId[id].eventId == id && byId[id] in events[..i] && indeg[id] == 0
    {
      assert events[..i + 1] == events[..i] + [events[i]];
      assert Views(events[..i + 1]) == Views(events[..i]) + [View(events[i])];
      byId, indeg := byId[events[i].eventId := events[i]], indeg[events[i].eventId := 0];
    }
    assert events[..|events|] == events;
  }

  lemma LinksOfNext(ids: set<string>, s: seq<Event>, e: SecurityEvent)
    ensures LinksOf(ids, s + [View(e)]) == LinksOf(ids, s)
      + if e.parentEventId != "" && e.parentEventId in ids then {(e.parentEventId, e.eventId)} else {}
  {}

  lemma LinksOfAll(s: seq<Event>)
    ensures LinksOf(Ids(s), s) == Edges(s)
  {}

  lemma SpansAdd(links: Links, edges: set<(string, string)>, e: (string, string))
    requires Spans(links, edges)
    ensures Spans(links + [e], edges + {e})
  {}

  /** One event's link to its parent, if the parent is in the stream. */
  method ConnectOne(ids: set<string>, counts: map<string, int>, kids: map<string, seq<string>>, ghost before: Links,
                    ghost s: seq<Event>, e: SecurityEvent)
    returns (indeg: map<string, int>, children: map<string, seq<string>>, ghost links: Links)
    requires Wired(ids, before, counts, kids) && e.eventId in ids && Spans(before, LinksOf(ids, s))
    ensures Wired(ids, links, indeg, children) && Spans(links, LinksOf(ids, s + [View(e)]))
  {
    indeg, children, links := counts, kids, before;
    LinksOfNext(ids, s, e);
    if e.parentEventId != "" && e.parentEventId in ids {
      SpansAdd(links, LinksOf(ids, s), (e.parentEventId, e.eventId));
      AddLink(ids, links, indeg, children, e.parentEventId, e.eventId);
      links := links + [(e.parentEventId, e.eventId)];
      indeg := indeg[e.eventId := indeg[e.eventId] + 1];
      children := children[e.parentEventId := children[e.parentEventId] + [e.eventId]];
    }
  }

  /** Filling `indeg` and `children`. */
  method Connect(byId: map<string, SecurityEvent>, counts: map<string, int>, events: seq<SecurityEvent>)
    returns (indeg: map<string, int>, children: map<string, seq<string>>, ghost links: Links)
    requires counts.Keys == byId.Keys == Ids(Views(events)) && forall id :: id in counts ==> counts[id] == 0
    ensures Wired(byId.Keys, links, indeg, children) && Spans(links, Edges(Views(events)))
  {
    indeg, children, links := counts, map id | id in byId :: [], [];
    for i := 0 to |events|
      invariant Wired(byId.Keys, links, indeg, children) && Spans(links, LinksOf(byId.Keys, Views(events[..i])))
    {
      var e := events[i];
      assert View(events[i]) == Views(events)[i] && Views(events)[i] in Views(events);
      assert Views(events[..i + 1]) == Views(events[..i]) + [View(e)];
      indeg, children, links := ConnectOne(byId.Keys, indeg, children, links, Views(events[..i]), e);
    }
    assert Views(events[..|events|]) == Views(events);
    LinksOfAll(Views(events));
  }

  /** `sorted(...)` of the events with nothing to wait for. */
  method Roots(nodes: map<string, Event>, indeg: map<string, int>) returns (ready: seq<Event>)
    requires indeg.Keys == nodes.Keys && forall id :: id in nodes ==> nodes[id].id == id
    ensures Queue(nodes, indeg, {}, ready)
  {
    ready := [];
    var todo := indeg.Keys;
    while todo != {}
      invariant todo <= nodes.Keys && Recorded(nodes, ready)
      invariant forall c :: c in nodes ==> ((c !in todo && indeg[c] == 0) <==> nodes[c] in ready)
      decreases todo
    {
      var id :| id in todo;
      if indeg[id] == 0 {
        AddRecorded(nodes, ready, nodes[id], ready + [nodes[id]]);
        ready := ready + [nodes[id]];
      }
      todo := todo - {id};
    }
    ready := Resort(nodes, indeg, {}, ready);
  }

  /** `ready.sort(key=tiebreak)`. */
  method Resort(nodes: map<string, Event>, indeg: map<string, int>, ghost done: set<string>, ready: seq<Event>)
    returns (r: seq<Event>)
    requires indeg.Keys == nodes.Keys && Waiting(nodes, indeg, done, ready)
    ensures Queue(nodes, indeg, done, r)
  {
    r := Sort(ready, EventAtMost);
    EventOrderTotal();
    SortSorted(ready, EventAtMost);
    SameElements(ready, r);
    DistinctPermutation(ready, r);
    forall i | 0 <= i < |r|
      ensures r[i].id in nodes && nodes[r[i].id] == r[i]
    {
      assert r[i] in ready;
    }
  }

  /** `sorted(children[eid], key=tiebreak)`. */
  method SortedChildren(nodes: map<string, Event>, children: seq<string>) returns (kids: seq<string>)
    ensures multiset(kids) == multiset(children)
  {
    kids := Sort(children, (a: string, b: string) => a in nodes && b in nodes ==> EventAtMost(nodes[a], nodes[b]));
  }

  /** Count one child down by one, and append it when it reaches zero. */
  method CountChild(nodes: map<string, Event>, ghost links: Links, counts: map<string, int>, ghost done: set<string>,
                    queue: seq<Event>, c: string, ghost owed: multiset<string>)
    returns (indeg: map<string, int>, ready: seq<Event>)
    requires LinksWithin(nodes, links) && c in nodes && c !in done && c in owed
    requires Counts(nodes, links, counts, done, owed) && Waiting(nodes, counts, done, queue)
    ensures Counts(nodes, links, indeg, done, owed - multiset{c}) && Waiting(nodes, indeg, done, ready)
  {
    indeg := counts[c := counts[c] - 1];
    ready := if indeg[c] == 0 then queue + [nodes[c]] else queue;
    CountDown(nodes, links, counts, done, queue, c, owed, ready);
  }

  /** The inner loop: count the children down in tie-break order, append those that reach zero, then sort. */
  method Release(nodes: map<string, Event>, ghost links: Links, counts: map<string, int>, ghost done: set<string>,
                 queue: seq<Event>, children: seq<string>)
    returns (indeg: map<string, int>, ready: seq<Event>)
    requires LinksWithin(nodes, links) && forall c :: c in children ==> c in nodes && c !in done
    requires Counts(nodes, links, counts, done, multiset(children)) && Queue(nodes, counts, done, queue)
    ensures Counts(nodes, links, indeg, done, multiset{}) && Queue(nodes, indeg, done, ready)
  {
    var kids := SortedChildren(nodes, children);
    SameElements(children, kids);
    indeg, ready := counts, queue;
    assert kids[0..] == kids;
    for k := 0 to |kids|
      invariant Counts(nodes, links, indeg, done, multiset(kids[k..])) && Waiting(nodes, indeg, done, ready)
    {
      assert kids[k] in kids && kids[k..] == [kids[k]] + kids[k + 1..];
      indeg, ready := CountChild(nodes, links, indeg, done, ready, kids[k], multiset(kids[k..]));
    }
    ready := Resort(nodes, indeg, done, ready);
  }

  lemma HeadIsNew(nodes: map<string, Event>, indeg: map<string, int>, seen: set<string>, ready: seq<Event>)
    requires indeg.Keys == nodes.Keys && Queue(nodes, indeg, seen, ready) && ready != []
    ensures ready[0].id in nodes && nodes[ready[0].id] == ready[0] && ready[0].id !in seen
  {
    assert nodes[ready[0].id] in ready;
  }

  function NodesOf(byId: map<string, SecurityEvent>): map<string, Event> {
    map id | id in byId :: View(byId[id])
  }

  lemma ViewsDescribe(events: seq<SecurityEvent>, byId: map<string, SecurityEvent>, links: Links)
    requires byId.Keys == Ids(Views(events)) && Spans(links, Edges(Views(events)))
    requires forall id :: id in byId ==> byId[id].eventId == id && byId[id] in events
    ensures Describes(Views(events), NodesOf(byId), links) && LinksWithin(NodesOf(byId), links)
  {
    var nodes := NodesOf(byId);
    forall id | id in nodes
      ensures nodes[id] in Views(events)
    {
      var i :| 0 <= i < |events| && events[i] == byId[id];
      assert Views(events)[i] == nodes[id];
    }
    assert forall k :: 0 <= k < |links| ==> links[k] in links;
  }

  /** What holds each time round the loop. */
  ghost predicate Running(nodes: map<string, Event>, links: Links, indeg: map<string, int>, out: seq<Event>,
                          ready: seq<Event>)
  {
    && LinksWithin(nodes, links) && Emitted(nodes, links, out)
    && Counts(nodes, links, indeg, Ids(out), multiset{}) && Queue(nodes, indeg, Ids(out), ready)
  }

  /** One turn of the loop: the head of the queue has been put out. */
  method Turn(nodes: map<string, Event>, ghost links: Links, counts: map<string, int>, ghost out: seq<Event>,
              queue: seq<Event>, children: seq<string>)
    returns (indeg: map<string, int>, ready: seq<Event>)
    requires Running(nodes, links, counts, out, queue) && queue != [] && children == Targets(links, queue[0].id)
    ensures Running(nodes, links, indeg, out + [queue[0]], ready)
  {
    AfterPop(nodes, links, counts, out, queue);
    indeg, ready := Release(nodes, links, counts, Ids(out + [queue[0]]), queue[1..], children);
  }

  /** Everything the loop starts from. */
  method Prepare(events: seq<SecurityEvent>)
    returns (byId: map<string, SecurityEvent>, nodes: map<string, Event>, indeg: map<string, int>,
             children: map<string, seq<string>>, ready: seq<Event>, ghost links: Links)
    ensures Running(nodes, links, indeg, [], ready) && Describes(Views(events), nodes, links)
    ensures byId.Keys == nodes.Keys == children.Keys
    ensures forall id :: id in byId ==> View(byId[id]) == nodes[id] && byId[id] in events
    ensures forall id :: id in byId ==> children[id] == Targets(links, id)
  {
    var counts;
    byId, counts := Register(events);
    indeg, children, links := Connect(byId, counts, events);
    nodes := NodesOf(byId);
    ViewsDescribe(events, byId, links);
    ready := Roots(nodes, indeg);
    RunningStarts(nodes, links, indeg, ready);
  }

  lemma RunningStarts(nodes: map<string, Event>, links: Links, indeg: map<string, int>, ready: seq<Event>)
    requires LinksWithin(nodes, links) && indeg.Keys == nodes.Keys && Queue(nodes, indeg, {}, ready)
    requires forall c :: c in nodes ==> indeg[c] == Pending(links, c, {})
    ensures Running(nodes, links, indeg, [], ready)
  {
    assert Ids([]) == {};
  }

  /** The events, each behind its parent if that is in the stream; of two events the one of lower sequence first, or on a tie the
      one whose id precedes, unless it had to wait for a parent that comes no sooner than the other. */
  ghost predicate InStreamOrder(events: seq<SecurityEvent>, out: seq<SecurityEvent>) {
    && multiset(out) == multiset(events)
    && (forall j, e :: 0 <= j < |out| && e in events && e.eventId == out[j].parentEventId != "" ==>
          exists k :: 0 <= k < j && out[k].eventId == e.eventId)
    && forall i, j :: 0 <= i < j < |out| ==>
         || out[i].sequence < out[j].sequence
         || (out[i].sequence == out[j].sequence && Precedes(out[i].eventId, out[j].eventId))
         || exists k :: i <= k < j && out[k].eventId == out[j].parentEventId != ""
  }

  lemma {:induction false} ViewsPermute(events: seq<SecurityEvent>, out: seq<SecurityEvent>)
    requires DistinctIds(Views(events)) && multiset(Views(out)) == multiset(Views(events)) && forall e :: e in out ==> e in events
    ensures multiset(out) == multiset(events)
  {
    var p, q := Views(events), Views(out);
    DistinctPermutation(p, q);
    SameElements(p, q);
    assert forall i :: 0 <= i < |p| ==> p[i].id == events[i].eventId;
    assert forall i :: 0 <= i < |q| ==> q[i].id == out[i].eventId;
    forall e | e in events
      ensures e in out
    {
      var i :| 0 <= i < |events| && events[i] == e;
      assert p[i] in q;
      var j :| 0 <= j < |q| && q[j] == p[i];
      assert out[j] in events;
      var k :| 0 <= k < |events| && events[k] == out[j];
      assert p[k].id == p[i].id;
    }
    assert forall i, j :: 0 <= i < j < |p| ==> p[i].id != p[j].id;
    assert forall i, j :: 0 <= i < j < |q| ==> q[i].id != q[j].id;
    DistinctSameElements(events, out);
  }

  lemma {:induction false} StreamParentFirst(events: seq<SecurityEvent>, out: seq<SecurityEvent>, j: nat, e: SecurityEvent)
    requires Behind(Views(events), Views(out)) && j < |out| && e in events && e.eventId == out[j].parentEventId != ""
    ensures exists k :: 0 <= k < j && out[k].eventId == e.eventId
  {
    var p, q := Views(events), Views(out);
    var i :| 0 <= i < |events| && events[i] == e;
    assert p[i] in p && p[i].id == e.eventId && e.eventId in q[j].parents;
    var k :| 0 <= k < j && q[k].id == e.eventId;
    assert out[k].eventId == e.eventId;
  }

  lemma {:induction false} StreamTieBroken(out: seq<SecurityEvent>, i: nat, j: nat)
    requires TieBroken(Views(out)) && i < j < |out|
    ensures || out[i].sequence < out[j].sequence
            || (out[i].sequence == out[j].sequence && Precedes(out[i].eventId, out[j].eventId))
            || exists k :: i <= k < j && out[k].eventId == out[j].parentEventId != ""
  {
    var q := Views(out);
    assert q[i] == View(out[i]) && q[j] == View(out[j]);
    if k :| i <= k < j && q[k].id in q[j].parents {
      assert out[k].eventId == out[j].parentEventId != "";
    }
  }

  lemma {:induction false} GreedyIsStreamOrder(events: seq<SecurityEvent>, out: seq<SecurityEvent>)
    requires DistinctIds(Views(events)) && Greedy(Views(events), Views(out)) && forall e :: e in out ==> e in events
    ensures InStreamOrder(events, out)
  {
    GreedyIff(Views(events), Views(out));
    ViewsPermute(events, out);
    forall j, e | 0 <= j < |out| && e in events && e.eventId == out[j].parentEventId != ""
      ensures exists k :: 0 <= k < j && out[k].eventId == e.eventId
    {
      StreamParentFirst(events, out, j, e);
    }
    forall i, j | 0 <= i < j < |out|
      ensures || out[i].sequence < out[j].sequence
              || (out[i].sequence == out[j].sequence && Precedes(out[i].eventId, out[j].eventId))
              || exists k :: i <= k < j && out[k].eventId == out[j].parentEventId != ""
    {
      StreamTieBroken(out, i, j);
    }
  }

  /** The stream in causal order, or a refusal: the same greedy order as `CausalOrder`, over single parents. */
  method CausalOrderEvents(events: seq<SecurityEvent>) returns (r: Result<seq<SecurityEvent>>)
    ensures r.Ok? <==> DistinctIds(Views(events)) && !Cyclic(Edges(Views(events)))
    ensures r.Ok? ==> Greedy(Views(events), Views(r.value)) && InStreamOrder(events, r.value)
  {
    var byId, nodes, indeg, children, ready, links := Prepare(events);
    var out: seq<SecurityEvent>, seen: set<string> := [], {};
    while ready != []
      invariant Running(nodes, links, indeg, Views(out), ready) && seen == Ids(Views(out))
      invariant forall e :: e in out ==> e in events
      decreases nodes.Keys - seen
    {
      var next, rest := ready[0].id, ready[1..];
      HeadIsNew(nodes, indeg, seen, ready);
      if next in seen {
        ready := rest;
      } else {
        IdsAppend(Views(out), ready[0]);
        ViewsAppend(out, byId[next]);
        indeg, ready := Turn(nodes, links, indeg, Views(out), ready, children[next]);
        seen, out := seen + {next}, out + [byId[next]];
      }
    }
    Verdict(Views(events), nodes, links, indeg, Views(out));
    if |out| != |events| {
      return Refused;
    }
    GreedyIsStreamOrder(events, out);
    return Ok(out);
  }

  /** On a stream of single-parent events the two orderings agree, whatever order each one received them in. */
  lemma AgreesWithCausalOrder(stream: seq<SecurityEvent>, ordered: seq<SecurityEvent>, history: seq<Event>,
                              linear: seq<Event>)
    requires multiset(history) == multiset(Views(stream)) && DistinctIds(history)
    requires Greedy(Views(stream), Views(ordered)) && Greedy(history, linear)
    ensures Views(ordered) == linear
    ensures Edges(history) == Edges(Views(stream))
  {
    GreedyUnique(history, Views(stream), linear, Views(ordered));
    ArrivalOrderIrrelevant(history, Views(stream));
  }
}
