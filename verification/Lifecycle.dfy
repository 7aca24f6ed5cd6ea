/** Mission programs and the transitions they permit (runtime_contracts/models/mission.py and investigation.py). */
module Lifecycle {
  import opened Wrappers

  datatype Disposition = ProducedResult | ProducedNothing | Stopped

  datatype TerminalOutcome = TerminalOutcome(outcomeId: string, disposition: Disposition, emits: seq<string>)

  datatype State = State(stateId: string, terminal: bool)

  datatype Transition = Transition(transitionId: string, fromStates: seq<string>, toState: string,
                                   outcome: Option<string>, verificationMethod: Option<string>, retryLimit: int,
                                   compensation: Option<string>)

  datatype Supports = Supports(pause: bool, cancellation: bool, retries: bool, compensation: bool)

  /** A program; `contentHash` is what its content_hash property computes. */
  datatype MissionProgram = MissionProgram(states: seq<State>, transitions: seq<Transition>,
                                           terminalOutcomes: seq<TerminalOutcome>, initialState: string,
                                           emittedOutputs: seq<string>, supports: Supports, contentHash: string)

  /** Neither None nor the empty string. */
  predicate Set(o: Option<string>) {
    o.Some? && o.value != ""
  }

  // ---- a validated program ----

  function StateIds(p: MissionProgram): set<string> {
    set s | s in p.states :: s.stateId
  }

  function TerminalIds(p: MissionProgram): set<string> {
    set s | s in p.states && s.terminal :: s.stateId
  }

  function OutcomeIds(p: MissionProgram): set<string> {
    set o | o in p.terminalOutcomes :: o.outcomeId
  }

  predicate TransitionDeclared(p: MissionProgram, t: Transition) {
    && (forall s :: s in t.fromStates ==> s in StateIds(p))
    && t.toState in StateIds(p)
    && (t.toState in TerminalIds(p) <==> Set(t.outcome))
    && (Set(t.outcome) ==> t.outcome.value in OutcomeIds(p))
    && (forall s :: s in t.fromStates ==> s !in TerminalIds(p))
    && (t.retryLimit != 0 ==> p.supports.retries)
    && (Set(t.compensation) ==> p.supports.compensation)
  }

  ghost predicate StatesReached(p: MissionProgram) {
    forall s :: s in StateIds(p) && s != p.initialState ==> exists t :: t in p.transitions && t.toState == s
  }

  ghost predicate OutcomesReached(p: MissionProgram) {
    forall o :: o in OutcomeIds(p) ==> exists t :: t in p.transitions && Set(t.outcome) && t.outcome.value == o
  }

  ghost predicate PausesResumable(p: MissionProgram) {
    forall t :: t in p.transitions && "pause" <= t.transitionId ==>
      exists u :: u in p.transitions && t.toState in u.fromStates
  }

  ghost predicate OutputsDeclared(p: MissionProgram) {
    forall o, k :: o in p.terminalOutcomes && k in o.emits ==> k in p.emittedOutputs
  }

  /** Every outcome and every state but the initial one can be arrived at, a paused state can be left, and some
      outcome says that nothing was produced. */
  ghost predicate Covered(p: MissionProgram) {
    && (exists o :: o in p.terminalOutcomes && o.disposition == ProducedNothing)
    && StatesReached(p) && OutcomesReached(p) && (p.supports.pause ==> PausesResumable(p)) && OutputsDeclared(p)
  }

  /** What constructing a program guarantees. Two states may share an id. */
  ghost predicate Validated(p: MissionProgram) {
    && p.initialState in StateIds(p)
    && (forall i, j :: 0 <= i < j < |p.transitions| ==> p.transitions[i].transitionId != p.transitions[j].transitionId)
    && (forall t :: t in p.transitions ==> TransitionDeclared(p, t))
    && Covered(p)
  }

  predicate IsState(p: MissionProgram, id: string) {
    exists s :: s in p.states && s.stateId == id
  }

  predicate IsEnd(p: MissionProgram, id: string) {
    exists s :: s in p.states && s.stateId == id && s.terminal
  }

  predicate IsOutcome(p: MissionProgram, id: string) {
    exists o :: o in p.terminalOutcomes && o.outcomeId == id
  }

  /** What a transition is refused for. */
  predicate Amiss(p: MissionProgram, t: Transition) {
    || (exists s :: s in t.fromStates && (!IsState(p, s) || IsEnd(p, s)))
    || !IsState(p, t.toState)
    || (IsEnd(p, t.toState) && !Set(t.outcome)) || (!IsEnd(p, t.toState) && Set(t.outcome))
    || (Set(t.outcome) && !IsOutcome(p, t.outcome.value))
    || (t.retryLimit != 0 && !p.supports.retries)
    || (Set(t.compensation) && !p.supports.compensation)
  }

  ghost predicate NoWayOut(p: MissionProgram, state: string) {
    forall u :: u in p.transitions ==> state !in u.fromStates
  }

  /** What the whole of a program is refused for: no outcome that says nothing was produced, a state or an outcome never arrived
      at, a pause that cannot be left, an output that is not declared. */
  ghost predicate Wanting(p: MissionProgram) {
    || (forall o :: o in p.terminalOutcomes ==> o.disposition != ProducedNothing)
    || (exists s :: s in p.states && s.stateId != p.initialState && forall t :: t in p.transitions ==> t.toState != s.stateId)
    || (exists o :: o in p.terminalOutcomes && forall t :: t in p.transitions ==> !(Set(t.outcome) && t.outcome.value == o.outcomeId))
    || (p.supports.pause && exists t :: t in p.transitions && "pause" <= t.transitionId && NoWayOut(p, t.toState))
    || (exists o, k :: o in p.terminalOutcomes && k in o.emits && k !in p.emittedOutputs)
  }

  lemma AmissIff(p: MissionProgram, t: Transition)
    ensures Amiss(p, t) <==> !TransitionDeclared(p, t)
  {
    forall id
      ensures IsState(p, id) <==> id in StateIds(p)
      ensures IsEnd(p, id) <==> id in TerminalIds(p)
      ensures IsOutcome(p, id) <==> id in OutcomeIds(p)
    {}
  }

  lemma WantingIff(p: MissionProgram)
    ensures Wanting(p) <==> !Covered(p)
  {
    WantingStates(p);
    WantingOutcomes(p);
  }

  lemma WantingStates(p: MissionProgram)
    ensures StatesReached(p)
       <==> forall s :: s in p.states && s.stateId != p.initialState ==> exists t :: t in p.transitions && t.toState == s.stateId
  {
    if StatesReached(p) {
      forall s | s in p.states && s.stateId != p.initialState
        ensures exists t :: t in p.transitions && t.toState == s.stateId
      {
        assert s.stateId in StateIds(p);
      }
    }
  }

  lemma WantingOutcomes(p: MissionProgram)
    ensures OutcomesReached(p)
       <==> forall o :: o in p.terminalOutcomes ==> exists t :: t in p.transitions && Set(t.outcome) && t.outcome.value == o.outcomeId
  {
    if OutcomesReached(p) {
      forall o | o in p.terminalOutcomes
        ensures exists t :: t in p.transitions && Set(t.outcome) && t.outcome.value == o.outcomeId
      {
        assert o.outcomeId in OutcomeIds(p);
      }
    }
  }

  /** Exactly when a program is refused. */
  lemma RefusedIff(p: MissionProgram)
    ensures !Validated(p)
       <==> || !IsState(p, p.initialState)
            || (exists i, j :: 0 <= i < j < |p.transitions| && p.transitions[i].transitionId == p.transitions[j].transitionId)
            || (exists t :: t in p.transitions && Amiss(p, t))
            || Wanting(p)
  {
    WantingIff(p);
    forall t | t in p.transitions
      ensures Amiss(p, t) <==> !TransitionDeclared(p, t)
    {
      AmissIff(p, t);
    }
    assert IsState(p, p.initialState) <==> p.initialState in StateIds(p);
  }

  /** `MissionProgram.__post_init__`. */
  method Validate(p: MissionProgram) returns (ok: bool)
    ensures ok <==> Validated(p)
  {
    var stateIds, outcomeIds := StateIds(p), OutcomeIds(p);
    if p.initialState !in stateIds {
      return false;
    }
    var seen: set<string> := {};
    for k := 0 to |p.transitions|
      invariant seen == set t | t in p.transitions[..k] :: t.transitionId
      invariant forall i :: 0 <= i < k ==> TransitionDeclared(p, p.transitions[i])
      invariant forall i, j :: 0 <= i < j < k ==> p.transitions[i].transitionId != p.transitions[j].transitionId
    {
      var t := p.transitions[k];
      assert t in p.transitions && p.transitions[..k + 1] == p.transitions[..k] + [t];
      if t.transitionId in seen {
        var u :| u in p.transitions[..k] && u.transitionId == t.transitionId;
        var i :| 0 <= i < k && p.transitions[i] == u;
        return false;
      }
      forall i | 0 <= i < k
        ensures p.transitions[i].transitionId != t.transitionId
      {
        assert p.transitions[i] in p.transitions[..k];
      }
      seen := seen + {t.transitionId};
      if !TransitionDeclared(p, t) {
        return false;
      }
    }
    ok := CheckCoverage(p);
  }

  lemma Empty(s: set<string>)
    ensures s == {} <==> forall x :: x !in s
  {
    if s != {} {
      var x :| x in s;
    }
  }

  method CheckCoverage(p: MissionProgram) returns (ok: bool)
    ensures ok <==> Covered(p)
  {
    var nothing := exists o :: o in p.terminalOutcomes && o.disposition == ProducedNothing;
    var reached := set t | t in p.transitions :: t.toState;
    var unreachable := StateIds(p) - reached - {p.initialState};
    var declared := set t | t in p.transitions && Set(t.outcome) :: t.outcome.value;
    var orphans := OutcomeIds(p) - declared;
    var paused := set t | t in p.transitions && "pause" <= t.transitionId :: t.toState;
    var resumable := set t, s | t in p.transitions && s in t.fromStates :: s;
    var stranded := paused - resumable;
    var emitted := set o, k | o in p.terminalOutcomes && k in o.emits :: k;
    var undeclared := set k | k in emitted && k !in p.emittedOutputs;
    Empty(unreachable);
    assert unreachable == {} <==> StatesReached(p) by {
      assert forall s :: s in unreachable <==> s in StateIds(p) && s !in reached && s != p.initialState;
    }
    Empty(orphans);
    assert orphans == {} <==> OutcomesReached(p) by {
      assert forall o :: o in orphans <==> o in OutcomeIds(p) && o !in declared;
    }
    Empty(stranded);
    assert stranded == {} ==> PausesResumable(p) by {
      forall t | stranded == {} && t in p.transitions && "pause" <= t.transitionId
        ensures exists u :: u in p.transitions && t.toState in u.fromStates
      {
        assert t.toState in paused && t.toState !in stranded;
      }
    }
    assert PausesResumable(p) ==> stranded == {} by {
      forall s | PausesResumable(p) && s in paused
        ensures s in resumable
      {
        var t :| t in p.transitions && "pause" <= t.transitionId && t.toState == s;
      }
    }
    Empty(undeclared);
    assert undeclared == {} ==> OutputsDeclared(p) by {
      forall o, k | undeclared == {} && o in p.terminalOutcomes && k in o.emits
        ensures k in p.emittedOutputs
      {
        assert k in emitted && k !in undeclared;
      }
    }
    ok := p.terminalOutcomes != [] && nothing && unreachable == {} && orphans == {}
          && (!p.supports.pause || stranded == {}) && undeclared == {};
  }

  // ---- lookups ----

  /** The first state with this id; None stands for KeyError. */
  function StateOf(states: seq<State>, id: string): Option<State> {
    if states == [] then None
    else if states[0].stateId == id then Some(states[0])
    else StateOf(states[1..], id)
  }

  /** The first transition that makes this move under this name. */
  function Permits(transitions: seq<Transition>, from: string, to: string, id: string): Option<Transition> {
    if transitions == [] then None
    else
      var t := transitions[0];
      if from in t.fromStates && t.toState == to && t.transitionId == id then Some(t)
      else Permits(transitions[1..], from, to, id)
  }

  lemma {:induction false} StateOfSound(states: seq<State>, id: string)
    ensures StateOf(states, id).Some? <==> exists s :: s in states && s.stateId == id
    ensures StateOf(states, id).Some? ==> StateOf(states, id).value in states && StateOf(states, id).value.stateId == id
  {
    if states != [] {
      StateOfSound(states[1..], id);
      assert states == [states[0]] + states[1..];
    }
  }

  lemma {:induction false} PermitsSound(transitions: seq<Transition>, from: string, to: string, id: string)
    ensures var r := Permits(transitions, from, to, id);
      r.Some? ==> r.value in transitions && from in r.value.fromStates && r.value.toState == to
                  && r.value.transitionId == id
    ensures Permits(transitions, from, to, id).None? ==>
      forall t :: t in transitions ==> !(from in t.fromStates && t.toState == to && t.transitionId == id)
  {
    if transitions != [] {
      PermitsSound(transitions[1..], from, to, id);
      assert transitions == [transitions[0]] + transitions[1..];
    }
  }

  // ---- events ----

  datatype Verdict = Pass | Fail | Indeterminate | NotApplicable

  datatype Verification = Verification(verdict: Verdict, verifierId: string)

  datatype OwnershipChange = OwnershipChange(fromActor: Option<string>, toActor: Option<string>)

  /** A recorded transition: the fields that replay reads. */
  datatype Event = Event(programHash: string, transitionId: string, fromState: string, toState: string,
                         sequence: int, terminalOutcome: Option<string>, evidenceRefs: seq<string>,
                         isPublic: bool, verification: Option<Verification>,
                         ownershipChange: Option<OwnershipChange>)

  /** `ref.split("/")[0]`. */
  function FirstSegment(ref: string): string {
    if ref == [] || ref[0] == '/' then [] else [ref[0]] + FirstSegment(ref[1..])
  }

  const PRIVATE_KINDS := {"mission", "intent", "plan-run", "scenario", "observation"}

  /** A public event cites a private artifact. */
  predicate PublicLeak(e: Event) {
    e.isPublic && exists r :: r in e.evidenceRefs && FirstSegment(r) in PRIVATE_KINDS
  }

  lemma {:induction false} FirstSegmentIs(ref: string)
    ensures '/' !in FirstSegment(ref)
    ensures ref == FirstSegment(ref) || FirstSegment(ref) + "/" <= ref
  {
    if ref != [] && ref[0] != '/' {
      FirstSegmentIs(ref[1..]);
      assert ref == [ref[0]] + ref[1..];
      assert FirstSegment(ref) + "/" == [ref[0]] + (FirstSegment(ref[1..]) + "/");
    }
  }

  /** The first segment is what stands before the first slash, or the whole. */
  lemma {:induction false} FirstSegmentIff(ref: string, kind: string)
    requires '/' !in kind
    ensures FirstSegment(ref) == kind <==> ref == kind || kind + "/" <= ref
  {
    FirstSegmentIs(ref);
    if ref == kind || kind + "/" <= ref {
      SegmentBefore(ref, kind);
    }
  }

  lemma {:induction false} SegmentBefore(ref: string, kind: string)
    requires '/' !in kind && (ref == kind || kind + "/" <= ref)
    ensures FirstSegment(ref) == kind
  {
    if kind == [] {
      assert ref == [] || ref[0] == '/' by {
        assert [] + "/" == "/";
      }
    } else {
      assert ref[0] == kind[0] by {
        assert (kind + "/")[0] == kind[0];
      }
      assert kind[0] in kind;
      if kind + "/" <= ref {
        assert (kind + "/")[1..] == kind[1..] + "/";
        assert ref[1..][..|kind|] == ref[..|kind| + 1][1..];
      }
      SegmentBefore(ref[1..], kind[1..]);
      assert kind == [kind[0]] + kind[1..];
    }
  }

  /** The kind, or something under it. */
  predicate Under(ref: string, kind: string) {
    ref == kind || kind + "/" <= ref
  }

  /** Of one of the kinds that are private. */
  predicate Private(ref: string) {
    Under(ref, "mission") || Under(ref, "intent") || Under(ref, "plan-run") || Under(ref, "scenario") || Under(ref, "observation")
  }

  lemma PrivateIff(ref: string)
    ensures FirstSegment(ref) in PRIVATE_KINDS <==> Private(ref)
  {
    FirstSegmentIff(ref, "mission");
    FirstSegmentIff(ref, "intent");
    FirstSegmentIff(ref, "plan-run");
    FirstSegmentIff(ref, "scenario");
    FirstSegmentIff(ref, "observation");
  }

  /** A public event leaks exactly when it cites something private. */
  lemma LeakIff(e: Event)
    ensures PublicLeak(e) <==> e.isPublic && exists r :: r in e.evidenceRefs && Private(r)
  {
    forall r
      ensures FirstSegment(r) in PRIVATE_KINDS <==> Private(r)
    {
      PrivateIff(r);
    }
  }

  /** `permitted_by`: permission re-derived from the pinned program. */
  function PermittedBy(e: Event, p: MissionProgram): Result<Transition> {
    if p.contentHash != e.programHash then Refused
    else
      match Permits(p.transitions, e.fromState, e.toState, e.transitionId)
      case None => Refused
      case Some(t) =>
        if e.fromState == e.toState && t.toState !in t.fromStates then Refused
        else
          match StateOf(p.states, e.toState)
          case None => Refused
          case Some(s) =>
            if s.terminal && !Set(e.terminalOutcome) then Refused
            else if Set(e.terminalOutcome) && !s.terminal then Refused
            else if Set(e.terminalOutcome) && t.outcome != e.terminalOutcome then Refused
            else if PublicLeak(e) then Refused
            else Ok(t)
  }

  predicate IsTerminal(p: MissionProgram, state: string) {
    var s := StateOf(p.states, state);
    s.Some? && s.value.terminal
  }

  /** What a permitted event guarantees: a declared move out of a state that is not terminal, carrying an outcome
      exactly when it ends the inquiry, and then the one its transition declares. */
  lemma PermittedMeans(e: Event, p: MissionProgram)
    requires Validated(p) && PermittedBy(e, p).Ok?
    ensures var t := PermittedBy(e, p).value;
      && t in p.transitions && t.transitionId == e.transitionId
      && e.fromState in t.fromStates && t.toState == e.toState && p.contentHash == e.programHash
      && !IsTerminal(p, e.fromState)
      && (IsTerminal(p, e.toState) <==> Set(e.terminalOutcome))
      && (Set(e.terminalOutcome) ==> t.outcome == e.terminalOutcome && e.terminalOutcome.value in OutcomeIds(p))
      && !PublicLeak(e)
  {
    PermitsSound(p.transitions, e.fromState, e.toState, e.transitionId);
    StateOfSound(p.states, e.fromState);
    var t := PermittedBy(e, p).value;
    assert TransitionDeclared(p, t);
    if IsTerminal(p, e.fromState) {
      assert StateOf(p.states, e.fromState).value in p.states;
    }
  }

  /** Exactly when an event is permitted by a validated program whose state ids are distinct. */
  lemma PermittedIff(e: Event, p: MissionProgram)
    requires Validated(p)
    requires forall s, t :: s in p.states && t in p.states && s.stateId == t.stateId ==> s == t
    ensures PermittedBy(e, p).Ok? <==>
      && e.programHash == p.contentHash && !PublicLeak(e)
      && exists t :: t in p.transitions && Makes(t, e)
  {
    PermitsSound(p.transitions, e.fromState, e.toState, e.transitionId);
    StateOfSound(p.states, e.toState);
    if t :| t in p.transitions && Makes(t, e) {
      assert TransitionDeclared(p, t);
      var found := Permits(p.transitions, e.fromState, e.toState, e.transitionId);
      var i :| 0 <= i < |p.transitions| && p.transitions[i] == t;
      var j :| 0 <= j < |p.transitions| && p.transitions[j] == found.value;
      assert found.value == t;
    }
    if PermittedBy(e, p).Ok? {
      var t := PermittedBy(e, p).value;
      assert TransitionDeclared(p, t);
      assert Makes(t, e);
    }
  }

  /** The transition is the one the event names, makes its move and produces the outcome it records. */
  ghost predicate Makes(t: Transition, e: Event) {
    && t.transitionId == e.transitionId && e.fromState in t.fromStates && t.toState == e.toState
    && (Set(t.outcome) <==> Set(e.terminalOutcome)) && (Set(t.outcome) ==> t.outcome == e.terminalOutcome)
  }
}
