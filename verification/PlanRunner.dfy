/** What a validated plan guarantees the runner that follows it (the design of `QAPlan`, runtime_contracts/qa/plan.py):
    the runner makes no decision, so a plan it could never finish has to be refused beforehand. */
module PlanRunner {
  import opened Graphs
  import opened GatePlan

  // ---- neighbours and whole lanes agree on cycles ----

  ghost predicate WellFormed(plan: Plan) {
    Typed(plan) && LanesWellFormed(plan) && GatesKnown(plan)
  }

  lemma NeighboursWithinPrecedence(plan: Plan)
    ensures NeighbourEdges(plan) <= Precedence(plan)
  {
    forall e | e in NeighbourEdges(plan)
      ensures e in Precedence(plan)
    {
      if e !in GateEdges(plan) {
        var a, b :| a in plan.items && b in plan.items && JustBefore(plan.items, a, b) && e == (a.specRef, b.specRef);
      }
    }
  }

  /** Of the items of b's lane from a on and before b, the last is just before b. */
  lemma {:induction false} LastBefore(items: seq<PlanItem>, a: PlanItem, b: PlanItem) returns (c: PlanItem)
    requires a in items && b in items && a.lane == b.lane && a.order < b.order
    ensures JustBefore(items, c, b) && a.order <= c.order
    decreases b.order - a.order
  {
    if d :| d in items && d.lane == a.lane && a.order < d.order < b.order {
      c := LastBefore(items, d, b);
    } else {
      c := a;
    }
  }

  /** In a listing that respects neighbours, whole lanes are respected. */
  lemma {:induction false} LaneForward(plan: Plan, order: seq<string>, a: PlanItem, b: PlanItem, i: nat, j: nat)
    requires WellFormed(plan) && Forward(NeighbourEdges(plan), order)
    requires forall x :: x in order <==> x in Refs(plan)
    requires a in plan.items && b in plan.items && a.lane == b.lane && a.order < b.order
    requires i < |order| && order[i] == a.specRef && j < |order| && order[j] == b.specRef
    ensures i < j
    decreases b.order
  {
    var c := LastBefore(plan.items, a, b);
    assert (c.specRef, b.specRef) in NeighbourEdges(plan);
    assert c.specRef in order;
    var k :| 0 <= k < |order| && order[k] == c.specRef;
    assert k < j;
    if c.order == a.order {
      SameSlot(plan, a, c);
    } else {
      LaneForward(plan, order, a, c, i, k);
    }
  }

  lemma SameSlot(plan: Plan, a: PlanItem, c: PlanItem)
    requires LanesWellFormed(plan) && a in plan.items && c in plan.items && a.lane == c.lane && a.order == c.order
    ensures a == c
  {
    var i :| 0 <= i < |plan.items| && plan.items[i] == a;
    var j :| 0 <= j < |plan.items| && plan.items[j] == c;
  }

  /** Walking only the neighbours of each lane loses nothing: with them there is a cycle exactly when there is one
      with the whole order the runner honours. */
  lemma NeighboursSuffice(plan: Plan)
    requires WellFormed(plan)
    ensures Cyclic(NeighbourEdges(plan)) <==> Cyclic(Precedence(plan))
  {
    NeighboursWithinPrecedence(plan);
    if Cyclic(NeighbourEdges(plan)) {
      CyclicMonotone(NeighbourEdges(plan), Precedence(plan));
    } else {
      var order := AcyclicHasOrder(NeighbourEdges(plan), Refs(plan));
      forall i, j | 0 <= i <= j < |order|
        ensures (order[j], order[i]) !in Precedence(plan)
      {
        if (order[j], order[i]) in Precedence(plan) && (order[j], order[i]) !in GateEdges(plan) {
          var a, b :| a in plan.items && b in plan.items && a.lane == b.lane && a.order < b.order
                      && (order[j], order[i]) == (a.specRef, b.specRef);
          LaneForward(plan, order, a, b, j, i);
        }
      }
      DistinctListing(order, Refs(plan));
      PrecedenceWithin(plan);
      TopologicalAcyclic(Precedence(plan), order);
    }
  }

  lemma PrecedenceWithin(plan: Plan)
    requires GatesKnown(plan)
    ensures forall e :: e in Precedence(plan) ==> e.0 in Refs(plan) && e.1 in Refs(plan)
  {}

  // ---- the runner ----

  /** Which items are being run and which have finished. */
  datatype RunState = RunState(running: set<string>, done: set<string>)

  const START := RunState({}, {})

  /** Every earlier item of its lane has finished, and so has everything a gate on it names. */
  ghost predicate Cleared(plan: Plan, done: set<string>, x: string) {
    && (forall g, d :: g in plan.gates && g.item == x && d in g.after ==> d in done)
    && (forall a, b :: a in plan.items && b in plan.items && b.specRef == x && a.lane == b.lane && a.order < b.order ==>
          a.specRef in done)
  }

  lemma ClearedIff(plan: Plan, done: set<string>, x: string)
    ensures Cleared(plan, done, x) <==> forall p :: (p, x) in Precedence(plan) ==> p in done
  {
    if forall p :: (p, x) in Precedence(plan) ==> p in done {
      forall g, d | g in plan.gates && g.item == x && d in g.after
        ensures d in done
      {
        assert (d, x) in GateEdges(plan);
      }
    }
  }

  /** An item may start when a worker is free and it is cleared. */
  ghost predicate MayStart(plan: Plan, s: RunState, x: string) {
    x in Refs(plan) && x !in s.running && x !in s.done && |s.running| < plan.maxParallel && Cleared(plan, s.done, x)
  }

  /** One item starts, or one finishes. */
  ghost predicate Step(plan: Plan, s: RunState, t: RunState) {
    || (exists x :: MayStart(plan, s, x) && t == RunState(s.running + {x}, s.done))
    || (exists x :: x in s.running && t == RunState(s.running - {x}, s.done + {x}))
  }

  ghost predicate Run(plan: Plan, run: seq<RunState>) {
    run != [] && run[0] == START && forall k :: 0 <= k < |run| - 1 ==> Step(plan, run[k], run[k + 1])
  }

  ghost predicate Complete(plan: Plan, s: RunState) {
    s.running == {} && s.done == Refs(plan)
  }

  /** What every run keeps. */
  ghost predicate Inv(plan: Plan, s: RunState) {
    && s.running !! s.done && s.running + s.done <= Refs(plan) && |s.running| <= plan.maxParallel
    && forall p, x :: (p, x) in Precedence(plan) && x in s.running + s.done ==> p in s.done
  }

  lemma {:induction false} StepKeepsInv(plan: Plan, s: RunState, t: RunState)
    requires Inv(plan, s) && Step(plan, s, t)
    ensures Inv(plan, t)
    ensures |t.running| + 2 * |t.done| == |s.running| + 2 * |s.done| + 1
  {
    if x :| MayStart(plan, s, x) && t == RunState(s.running + {x}, s.done) {
      ClearedIff(plan, s.done, x);
    } else {
      var x :| x in s.running && t == RunState(s.running - {x}, s.done + {x});
    }
  }

  /** In every state of every run: the order is honoured, no more than max_parallel items run, and each step is
      progress. */
  lemma {:induction false} RunKeepsInv(plan: Plan, run: seq<RunState>, k: nat)
    requires Run(plan, run) && k < |run|
    ensures Inv(plan, run[k]) && |run[k].running| + 2 * |run[k].done| == k
  {
    if k > 0 {
      RunKeepsInv(plan, run, k - 1);
      assert Step(plan, run[k - 1], run[k - 1 + 1]);
      StepKeepsInv(plan, run[k - 1], run[k]);
    }
  }

  /** In every state of every run, whatever a gate on a started item names is done, so is every earlier item of its lane, and
      no more than max_parallel items run. */
  lemma {:induction false} RunHonours(plan: Plan, run: seq<RunState>, k: nat)
    requires Run(plan, run) && k < |run|
    ensures forall g, d :: g in plan.gates && g.item in run[k].running + run[k].done && d in g.after ==> d in run[k].done
    ensures forall a, b :: a in plan.items && b in plan.items && a.lane == b.lane && a.order < b.order && b.specRef in run[k].running + run[k].done ==>
              a.specRef in run[k].done
    ensures |run[k].running| <= plan.maxParallel
  {
    RunKeepsInv(plan, run, k);
    forall x | x in run[k].running + run[k].done
      ensures Cleared(plan, run[k].done, x)
    {
      ClearedIff(plan, run[k].done, x);
    }
  }

  /** Two items of one lane never run at the same time. */
  lemma OneItemPerLane(plan: Plan, run: seq<RunState>, k: nat, a: PlanItem, b: PlanItem)
    requires WellFormed(plan) && Run(plan, run) && k < |run|
    requires a in plan.items && b in plan.items && a.lane == b.lane
    requires a.specRef in run[k].running && b.specRef in run[k].running
    ensures a == b
  {
    RunKeepsInv(plan, run, k);
    assert a.order < b.order ==> (a.specRef, b.specRef) in Precedence(plan);
    assert b.order < a.order ==> (b.specRef, a.specRef) in Precedence(plan);
    if a.order == b.order {
      SameSlot(plan, a, b);
    }
  }

  /** No run is longer than two steps an item. */
  lemma RunLength(plan: Plan, run: seq<RunState>)
    requires Run(plan, run)
    ensures |run| <= 2 * |Refs(plan)| + 1
  {
    var last := run[|run| - 1];
    RunKeepsInv(plan, run, |run| - 1);
    assert Refs(plan) == (last.running + last.done) + (Refs(plan) - (last.running + last.done));
    assert |last.running + last.done| == |last.running| + |last.done|;
  }

  /** Some item is running, or may start. */
  ghost predicate CanMove(plan: Plan, s: RunState) {
    s.running != {} || exists x :: MayStart(plan, s, x)
  }

  lemma CanMoveMeansStep(plan: Plan, s: RunState) returns (t: RunState)
    requires CanMove(plan, s)
    ensures Step(plan, s, t)
  {
    if s.running != {} {
      var x :| x in s.running;
      t := RunState(s.running - {x}, s.done + {x});
    } else {
      var x :| MayStart(plan, s, x);
      t := RunState(s.running + {x}, s.done);
    }
  }

  lemma HasFirst(plan: Plan, left: set<string>) returns (x: string)
    requires !Cyclic(Precedence(plan)) && left != {}
    ensures x in left && !HasPredecessor(Precedence(plan), left, x)
  {
    if forall x :: x in left ==> HasPredecessor(Precedence(plan), left, x) {
      NoSourceMeansCycle(Precedence(plan), left);
    }
    x :| x in left && !HasPredecessor(Precedence(plan), left, x);
  }

  /** A state in which items remain can always move. */
  lemma NeverStuck(plan: Plan, s: RunState)
    requires WellFormed(plan) && !Cyclic(Precedence(plan)) && Inv(plan, s) && !Complete(plan, s)
    ensures CanMove(plan, s)
  {
    if s.running == {} {
      var left := Refs(plan) - s.done;
      assert left == {} ==> s.done == Refs(plan);
      var x := HasFirst(plan, left);
      PrecedenceWithin(plan);
      forall p | (p, x) in Precedence(plan)
        ensures p in s.done
      {
        assert p in left ==> HasPredecessor(Precedence(plan), left, x);
        assert (p, x).0 in Refs(plan);
      }
      ClearedIff(plan, s.done, x);
      assert MayStart(plan, s, x);
    }
  }

  /** On an accepted plan every run that has come to a stop has finished every item. */
  lemma StoppedMeansComplete(plan: Plan, run: seq<RunState>)
    requires WellFormed(plan) && !Cyclic(NeighbourEdges(plan)) && Run(plan, run)
    requires !CanMove(plan, run[|run| - 1])
    ensures Complete(plan, run[|run| - 1])
  {
    NeighboursSuffice(plan);
    RunKeepsInv(plan, run, |run| - 1);
    if !Complete(plan, run[|run| - 1]) {
      NeverStuck(plan, run[|run| - 1]);
    }
  }

  lemma RunExtends(plan: Plan, run: seq<RunState>, t: RunState)
    requires Run(plan, run) && Step(plan, run[|run| - 1], t)
    ensures Run(plan, run + [t])
  {
    var next := run + [t];
    forall k | 0 <= k < |next| - 1
      ensures Step(plan, next[k], next[k + 1])
    {
      if k < |run| - 1 {
        assert Step(plan, run[k], run[k + 1]);
      }
    }
  }

  lemma RunGrows(plan: Plan, run: seq<RunState>) returns (next: seq<RunState>)
    requires WellFormed(plan) && !Cyclic(Precedence(plan)) && Run(plan, run) && !Complete(plan, run[|run| - 1])
    ensures Run(plan, next) && run < next && |next| <= 2 * |Refs(plan)| + 1
  {
    RunKeepsInv(plan, run, |run| - 1);
    NeverStuck(plan, run[|run| - 1]);
    var t := CanMoveMeansStep(plan, run[|run| - 1]);
    next := run + [t];
    RunExtends(plan, run, t);
    RunLength(plan, next);
  }

  /** Every run can be continued until it is complete. */
  lemma {:induction false} RunCompletes(plan: Plan, run: seq<RunState>) returns (longer: seq<RunState>)
    requires WellFormed(plan) && !Cyclic(Precedence(plan)) && Run(plan, run)
    ensures Run(plan, longer) && run <= longer && Complete(plan, longer[|longer| - 1])
    decreases 2 * |Refs(plan)| + 1 - |run|
  {
    if Complete(plan, run[|run| - 1]) {
      longer := run;
    } else {
      var next := RunGrows(plan, run);
      longer := RunCompletes(plan, next);
    }
  }

  /** An item on a cycle never starts. */
  lemma {:induction false} CycleNeverStarts(plan: Plan, cycle: seq<string>, run: seq<RunState>, k: nat)
    requires IsCycle(Precedence(plan), cycle) && Run(plan, run) && k < |run|
    ensures forall x :: x in cycle ==> x !in run[k].running && x !in run[k].done
  {
    if k > 0 {
      CycleNeverStarts(plan, cycle, run, k - 1);
      var s, t := run[k - 1], run[k];
      assert Step(plan, run[k - 1], run[k - 1 + 1]);
      forall x | x in cycle
        ensures x !in t.running && x !in t.done
      {
        var i :| 0 <= i < |cycle| && cycle[i] == x;
        var j := if i == 0 then |cycle| - 2 else i - 1;
        assert (cycle[j], cycle[j + 1]) in Precedence(plan);
        ClearedIff(plan, s.done, x);
        assert cycle[j] in cycle && !MayStart(plan, s, x);
      }
    }
  }

  /** The refs in an order in which each item comes behind the earlier items of its lane and behind all that a gate on it
      names. */
  ghost predicate StartOrder(plan: Plan, order: seq<string>) {
    && (forall x :: x in order <==> exists i :: i in plan.items && i.specRef == x)
    && (forall i, j :: 0 <= i < j < |order| ==> order[i] != order[j])
    && (forall g, d, k :: g in plan.gates && d in g.after && 0 <= k < |order| && order[k] == g.item ==> d in order[..k])
    && (forall a, b, k :: a in plan.items && b in plan.items && a.lane == b.lane && a.order < b.order && 0 <= k < |order| && order[k] == b.specRef ==>
          a.specRef in order[..k])
  }

  /** A plan with well-formed lanes and known gate references passes the check if and only if its items can be put in such an
      order. */
  lemma {:induction false} AcceptedIffOrderable(plan: Plan)
    requires WellFormed(plan)
    ensures !Cyclic(NeighbourEdges(plan)) <==> exists order :: StartOrder(plan, order)
  {
    NeighboursSuffice(plan);
    if !Cyclic(Precedence(plan)) {
      var order := AcyclicHasOrder(Precedence(plan), Refs(plan));
      DistinctListing(order, Refs(plan));
      ForwardStarts(plan, order);
    }
    if order :| StartOrder(plan, order) {
      StartsForward(plan, order);
      PrecedenceWithin(plan);
      TopologicalAcyclic(Precedence(plan), order);
    }
  }

  function Earlier(order: seq<string>, k: nat): set<string>
    requires k <= |order|
  {
    set p | p in order[..k]
  }

  lemma {:induction false} ForwardStarts(plan: Plan, order: seq<string>)
    requires WellFormed(plan) && Forward(Precedence(plan), order) && forall x :: x in order <==> x in Refs(plan)
    requires forall i, j :: 0 <= i < j < |order| ==> order[i] != order[j]
    ensures StartOrder(plan, order)
  {
    forall p, k | 0 <= k < |order| && (p, order[k]) in Precedence(plan)
      ensures p in order[..k]
    {
      PrecedenceWithin(plan);
      assert (p, order[k]).0 in Refs(plan);
      var j :| 0 <= j < |order| && order[j] == p;
      assert j < k && order[..k][j] == p;
    }
    forall k | 0 <= k < |order|
      ensures Cleared(plan, Earlier(order, k), order[k])
    {
      ClearedIff(plan, Earlier(order, k), order[k]);
    }
  }

  lemma {:induction false} StartsForward(plan: Plan, order: seq<string>)
    requires StartOrder(plan, order)
    ensures Forward(Precedence(plan), order)
  {
    forall i, j | 0 <= i <= j < |order|
      ensures (order[j], order[i]) !in Precedence(plan)
    {
      ClearedIff(plan, Earlier(order, i), order[i]);
      assert forall k :: 0 <= k < i ==> order[..i][k] == order[k] && order[k] != order[j];
    }
  }

  /** The gate check is exact: a plan with well-formed lanes and known gate references passes it if and only if some
      run finishes every item. */
  lemma AcceptedIffFinishable(plan: Plan)
    requires WellFormed(plan)
    ensures !Cyclic(NeighbourEdges(plan)) <==> exists run :: Run(plan, run) && Complete(plan, run[|run| - 1])
  {
    NeighboursSuffice(plan);
    if !Cyclic(NeighbourEdges(plan)) {
      var run := RunCompletes(plan, [START]);
    } else {
      var cycle :| IsCycle(Precedence(plan), cycle);
      forall run | Run(plan, run)
        ensures !Complete(plan, run[|run| - 1])
      {
        CycleNeverStarts(plan, cycle, run, |run| - 1);
        PrecedenceWithin(plan);
        assert (cycle[0], cycle[1]) in Precedence(plan) && cycle[0] in cycle;
      }
    }
  }
}
