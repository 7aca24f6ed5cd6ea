/** The containment state machine (`Containment` in runtime_contracts/protocol/telemetry.py), driven by dispositions. */
module Containment {

  datatype State = Running | Containing | Contained | ReviewRequired | Recovered

  datatype Disposition = Allow | RequireReview | NoOverride | Deny

  /** The transition table. */
  predicate Table(a: State, b: State) {
    match a
    case Running => b in {Running, ReviewRequired, Containing}
    case ReviewRequired => b in {ReviewRequired, Running, Containing}
    case Containing => b in {Contained}
    case Contained => b in {Contained, Recovered}
    case Recovered => b in {Recovered, Running}
  }

  datatype Machine = Machine(state: State, noOverride: bool, history: seq<(State, State)>)

  const INITIAL := Machine(Running, false, [])

  // ---- what each call does ----

  /** One move, and whether it was accepted. Staying put is always accepted and leaves no trace. */
  function Moved(m: Machine, target: State): (Machine, bool) {
    if target == m.state then (m, true)
    else if !Table(m.state, target) then (m, false)
    else (m.(state := target, history := m.history + [(m.state, target)]), true)
  }

  function Confined(m: Machine): (Machine, bool) {
    var (n, ok) := Moved(m, Containing);
    if ok then Moved(n, Contained) else (n, false)
  }

  datatype Call = OnDisposition(disposition: Disposition) | ResolveReview(approved: bool) | Recover

  /** The machine after a call, accepted or refused. */
  function Step(m: Machine, call: Call): (Machine, bool) {
    match call
    case OnDisposition(Allow) => (m, true)
    case OnDisposition(RequireReview) => Moved(m, ReviewRequired)
    case OnDisposition(NoOverride) => Confined(m.(noOverride := true))
    case OnDisposition(Deny) => Confined(m)
    case ResolveReview(approved) =>
      if m.state != ReviewRequired then (m, false) else if approved then Moved(m, Running) else Confined(m)
    case Recover => if m.noOverride then (m, false) else Moved(m, Recovered)
  }

  class Controller {
    var state: State
    var noOverride: bool
    var history: seq<(State, State)>

    function Snapshot(): Machine
      reads this
    {
      Machine(state, noOverride, history)
    }

    constructor ()
      ensures Snapshot() == INITIAL
    {
      state, noOverride, history := Running, false, [];
    }

    method To(target: State) returns (ok: bool)
      modifies this
      ensures (Snapshot(), ok) == Moved(old(Snapshot()), target)
    {
      if target != state && !Table(state, target) {
        return false;
      }
      if target != state {
        history := history + [(state, target)];
        state := target;
      }
      ok := true;
    }

    method OnDisposition(disposition: Disposition) returns (ok: bool)
      modifies this
      ensures (Snapshot(), ok) == Step(old(Snapshot()), Call.OnDisposition(disposition))
    {
      if disposition == Allow {
        return true;
      }
      if disposition == RequireReview {
        ok := To(ReviewRequired);
      } else {
        if disposition == NoOverride {
          noOverride := true;
        }
        ok := To(Containing);
        if ok {
          ok := To(Contained);
        }
      }
    }

    method ResolveReview(approved: bool) returns (ok: bool)
      modifies this
      ensures (Snapshot(), ok) == Step(old(Snapshot()), Call.ResolveReview(approved))
    {
      if state != ReviewRequired {
        return false;
      }
      if approved {
        ok := To(Running);
      } else {
        ok := To(Containing);
        if ok {
          ok := To(Contained);
        }
      }
    }

    method Recover() returns (ok: bool)
      modifies this
      ensures (Snapshot(), ok) == Step(old(Snapshot()), Call.Recover)
    {
      if noOverride {
        return false;
      }
      ok := To(Recovered);
    }
  }

  // ---- every run, refused calls included ----

  function Run(calls: seq<Call>): Machine {
    if calls == [] then INITIAL else Step(Run(calls[..|calls| - 1]), calls[|calls| - 1]).0
  }

  /** Moves that follow on from one another, never standing still, each one in the table. */
  ghost predicate IsTrail(moves: seq<(State, State)>, from: State, to: State) {
    if moves == [] then from == to
    else
      var (a, b) := moves[|moves| - 1];
      b == to && a != b && Table(a, b) && IsTrail(moves[..|moves| - 1], from, a)
  }

  /** How often a state was entered. */
  function Entries(moves: seq<(State, State)>, s: State): nat {
    if moves == [] then 0
    else Entries(moves[..|moves| - 1], s) + if moves[|moves| - 1].1 == s then 1 else 0
  }

  /** The history is a trail from RUNNING to the current state; a machine at rest is not half contained; it was contained
      at most once and recovered at most once, and the state says which of the two have happened. */
  ghost predicate Coherent(m: Machine) {
    && IsTrail(m.history, Running, m.state)
    && m.state != Containing
    && Entries(m.history, Contained) == (if m.state in {Contained, Recovered} then 1 else 0)
    && Entries(m.history, Recovered) == (if m.state == Recovered then 1 else 0)
  }

  lemma MoveKeepsTrail(m: Machine, target: State)
    requires IsTrail(m.history, Running, m.state)
    ensures var n := Moved(m, target).0;
      && IsTrail(n.history, Running, n.state)
      && forall s :: Entries(n.history, s) == Entries(m.history, s) + if n != m && s == target then 1 else 0
  {
    var n := Moved(m, target).0;
    if n != m {
      assert n.history[..|n.history| - 1] == m.history;
    }
  }

  lemma ConfineKeeps(m: Machine)
    requires Coherent(m)
    ensures Coherent(Confined(m).0)
  {
    MoveKeepsTrail(m, Containing);
    MoveKeepsTrail(Moved(m, Containing).0, Contained);
  }

  lemma {:induction false} StepKeeps(m: Machine, call: Call)
    requires Coherent(m)
    ensures Coherent(Step(m, call).0)
  {
    match call
    case OnDisposition(d) =>
      MoveKeepsTrail(m, ReviewRequired);
      ConfineKeeps(m.(noOverride := true));
      ConfineKeeps(m);
    case ResolveReview(_) =>
      MoveKeepsTrail(m, Running);
      ConfineKeeps(m);
    case Recover =>
      MoveKeepsTrail(m, Recovered);
  }

  lemma {:induction false} EveryRunCoheres(calls: seq<Call>)
    ensures Coherent(Run(calls))
  {
    if calls != [] {
      EveryRunCoheres(calls[..|calls| - 1]);
      StepKeeps(Run(calls[..|calls| - 1]), calls[|calls| - 1]);
    }
  }

  /** The override bar is up exactly when NO_OVERRIDE was ever ruled, be it in a call that was refused. */
  lemma {:induction false} BarredIff(calls: seq<Call>)
    ensures Run(calls).noOverride <==> OnDisposition(NoOverride) in calls
  {
    if calls != [] {
      var front, last := calls[..|calls| - 1], calls[|calls| - 1];
      BarredIff(front);
      assert calls == front + [last];
    }
  }

  /** Nothing undoes NO_OVERRIDE: from then on state and history stay as they are, whatever is called. */
  lemma {:induction false} BarredIsFrozen(calls: seq<Call>, more: seq<Call>)
    requires OnDisposition(NoOverride) in calls
    ensures Run(calls + more).state == Run(calls).state && Run(calls + more).history == Run(calls).history
  {
    if more == [] {
      assert calls + more == calls;
    } else {
      var front := more[..|more| - 1];
      BarredIsFrozen(calls, front);
      assert (calls + more)[..|calls + more| - 1] == calls + front;
      BarredIff(calls + front);
      EveryRunCoheres(calls + front);
      BarredIsConfined(calls + front);
    }
  }

  lemma {:induction false} BarredIsConfined(calls: seq<Call>)
    requires OnDisposition(NoOverride) in calls
    ensures Run(calls).state in {Contained, Recovered}
  {
    var front, last := calls[..|calls| - 1], calls[|calls| - 1];
    assert calls == front + [last];
    EveryRunCoheres(front);
    if OnDisposition(NoOverride) in front {
      BarredIsConfined(front);
    }
  }

  /** A recovered machine stays recovered: the way back to RUNNING in the table is never taken. */
  lemma {:induction false} RecoveredIsFinal(calls: seq<Call>, more: seq<Call>)
    requires Run(calls).state == Recovered
    ensures Run(calls + more).state == Recovered && Run(calls + more).history == Run(calls).history
  {
    if more == [] {
      assert calls + more == calls;
    } else {
      RecoveredIsFinal(calls, more[..|more| - 1]);
      assert (calls + more)[..|calls + more| - 1] == calls + more[..|more| - 1];
    }
  }

  /** A ruling to contain is accepted exactly before the first containment; a refused one still finds the machine
      contained unless it has recovered, and after a recovery nothing contains it again. */
  lemma DenyContainsIff(calls: seq<Call>, d: Disposition)
    requires d == Deny || d == NoOverride
    ensures Step(Run(calls), OnDisposition(d)).1 <==> Entries(Run(calls).history, Contained) == 0
    ensures Run(calls + [OnDisposition(d)]).state == Contained <==> Run(calls).state != Recovered
  {
    EveryRunCoheres(calls);
    assert (calls + [OnDisposition(d)])[..|calls|] == calls;
  }

  /** A pending review is resolved to RUNNING when it is approved, and to CONTAINED when it is not; with none pending the call is
      refused. */
  lemma ReviewResolved(calls: seq<Call>, approved: bool)
    ensures Step(Run(calls), ResolveReview(approved)).1 <==> Run(calls).state == ReviewRequired
    ensures Run(calls).state == ReviewRequired ==>
      Run(calls + [ResolveReview(approved)]).state == if approved then Running else Contained
  {
    assert (calls + [ResolveReview(approved)])[..|calls|] == calls;
  }

  /** A ruling to review parks a machine that has not been contained, and is refused by one that has. */
  lemma ReviewParksIff(calls: seq<Call>)
    ensures Step(Run(calls), OnDisposition(RequireReview)).1 <==> Entries(Run(calls).history, Contained) == 0
    ensures Run(calls + [OnDisposition(RequireReview)]).state
         == if Entries(Run(calls).history, Contained) == 0 then ReviewRequired else Run(calls).state
    ensures Run(calls + [OnDisposition(Allow)]) == Run(calls)
  {
    EveryRunCoheres(calls);
    assert (calls + [OnDisposition(RequireReview)])[..|calls|] == calls;
    assert (calls + [OnDisposition(Allow)])[..|calls|] == calls;
  }

  /** Recovery takes a contained machine out, unless NO_OVERRIDE was ever ruled; a recovered one may be recovered again, to no
      effect. */
  lemma RecoverIff(calls: seq<Call>)
    ensures Step(Run(calls), Recover).1
       <==> OnDisposition(NoOverride) !in calls && (Run(calls).state == Contained || Run(calls).state == Recovered)
    ensures Step(Run(calls), Recover).1 ==> Run(calls + [Recover]).state == Recovered
  {
    EveryRunCoheres(calls);
    BarredIff(calls);
    assert (calls + [Recover])[..|calls|] == calls;
  }

  /** A refused call leaves state and history as they were. */
  lemma RefusedChangesNothing(calls: seq<Call>, call: Call)
    requires !Step(Run(calls), call).1
    ensures Step(Run(calls), call).0.state == Run(calls).state
    ensures Step(Run(calls), call).0.history == Run(calls).history
  {
    EveryRunCoheres(calls);
  }
}
