/** Replaying a transition history: `replay_states` (runtime_contracts/models/investigation.py), `replay_ledger` and
    `submit` (runtime_contracts/models/ledger.py). */
module Ledger {
  import opened Wrappers
  import opened Sorting
  import opened Lifecycle

  predicate BySequence(a: Event, b: Event) {
    a.sequence <= b.sequence
  }

  /** `sorted(events, key=lambda e: e.sequence)`: stable. */
  function Ordered(events: seq<Event>): seq<Event> {
    Sort(events, BySequence)
  }

  /** The events of one sequence, in order. */
  function OfSequence(events: seq<Event>, n: int): seq<Event> {
    Chosen(events, (e: Event) => e.sequence == n)
  }

  /** The same events by ascending sequence, those of one sequence in the order they arrived. */
  lemma {:induction false} OrderedIs(events: seq<Event>)
    ensures multiset(Ordered(events)) == multiset(events)
    ensures forall i, j :: 0 <= i < j < |events| ==> Ordered(events)[i].sequence <= Ordered(events)[j].sequence
    ensures forall e :: e in events ==> OfSequence(Ordered(events), e.sequence) == OfSequence(events, e.sequence)
  {
    BySequenceTotal();
    SortSorted(events, BySequence);
    assert forall i, j :: 0 <= i < j < |events| ==> BySequence(Ordered(events)[i], Ordered(events)[j]);
    forall e | e in events
      ensures OfSequence(Ordered(events), e.sequence) == OfSequence(events, e.sequence)
    {
      SortStable(events, (f: Event) => f.sequence == e.sequence, BySequence);
    }
  }

  // ---- replay_states ----

  /** The state after a run of events, and whether it has ended; Refused where the source raises. */
  function Walk(p: MissionProgram, events: seq<Event>): Result<(string, bool)> {
    if events == [] then Ok((p.initialState, false))
    else
      var e := events[|events| - 1];
      var (state, terminated) :- Walk(p, events[..|events| - 1]);
      if terminated || e.fromState != state || PermittedBy(e, p).Refused? then Refused
      else Ok((e.toState, IsTerminal(p, e.toState)))
  }

  ghost predicate DistinctSequences(events: seq<Event>) {
    forall i, j :: 0 <= i < j < |events| ==> events[i].sequence != events[j].sequence
  }

  /** The first loop of `replay_states`. */
  method CheckSequences(ordered: seq<Event>) returns (ok: bool)
    ensures ok <==> DistinctSequences(ordered)
  {
    var seen: set<int> := {};
    for k := 0 to |ordered|
      invariant DistinctSequences(ordered[..k]) && seen == set i | 0 <= i < k :: ordered[i].sequence
    {
      assert ordered[..k + 1] == ordered[..k] + [ordered[k]];
      if ordered[k].sequence in seen {
        return false;
      }
      seen := seen + {ordered[k].sequence};
    }
    assert ordered[..|ordered|] == ordered;
    ok := true;
  }

  /** `replay_states`. */
  method ReplayStates(events: seq<Event>, p: MissionProgram) returns (r: Result<string>)
    ensures r.Ok? <==> DistinctSequences(Ordered(events)) && Walk(p, Ordered(events)).Ok?
    ensures r.Ok? ==> r.value == Walk(p, Ordered(events)).value.0
  {
    var ordered := Ordered(events);
    var distinct := CheckSequences(ordered);
    if !distinct {
      return Refused;
    }
    var state, terminated := p.initialState, false;
    for k := 0 to |ordered|
      invariant Walk(p, ordered[..k]) == Ok((state, terminated))
    {
      var e := ordered[k];
      assert ordered[..k + 1][..k] == ordered[..k];
      if terminated || e.fromState != state || PermittedBy(e, p).Refused? {
        WalkRefusal(p, ordered, k + 1);
        return Refused;
      }
      state := e.toState;
      terminated := IsTerminal(p, state);
    }
    assert ordered[..|ordered|] == ordered;
    r := Ok(state);
  }

  lemma {:induction false} WalkRefusal(p: MissionProgram, events: seq<Event>, k: nat)
    requires k <= |events| && Walk(p, events[..k]).Refused?
    ensures Walk(p, events).Refused?
    decreases |events| - k
  {
    if k < |events| {
      assert events[..k + 1][..k] == events[..k];
      WalkRefusal(p, events, k + 1);
    } else {
      assert events[..k] == events;
    }
  }

  // ---- replay_ledger ----

  datatype VerificationEntry = VerificationEntry(sequence: int, transitionId: string, verdict: Verdict,
                                                 verifierId: string)

  /** Everything the replay loop updates. */
  datatype Books = Books(state: string, assignment: Option<string>, outcome: Option<string>, terminal: bool,
                         seen: set<int>, accepted: seq<Event>, invalid: seq<Event>, mismatches: seq<Event>,
                         verifications: seq<VerificationEntry>)

  function Opened(p: MissionProgram): Books {
    Books(p.initialState, None, None, false, {}, [], [], [], [])
  }

  datatype Entry = Accepted | Invalid | Mismatch

  /** What the loop decides about the next event, in the order of its checks. */
  function Judge(p: MissionProgram, b: Books, e: Event): Entry {
    if e.sequence in b.seen then Invalid
    else if e.programHash != p.contentHash then Mismatch
    else if b.terminal then Invalid
    else if e.fromState != b.state then Invalid
    else if PermittedBy(e, p).Refused? then Invalid
    else Accepted
  }

  function Recorded(e: Event): seq<VerificationEntry> {
    match e.verification
    case None => []
    case Some(v) => [VerificationEntry(e.sequence, e.transitionId, v.verdict, v.verifierId)]
  }

  function Accept(p: MissionProgram, b: Books, e: Event): Books {
    Books(e.toState,
          if e.ownershipChange.Some? then e.ownershipChange.value.toActor else b.assignment,
          if Set(e.terminalOutcome) then e.terminalOutcome else b.outcome,
          IsTerminal(p, e.toState), b.seen + {e.sequence}, b.accepted + [e], b.invalid, b.mismatches,
          b.verifications + Recorded(e))
  }

  function Post(p: MissionProgram, b: Books, e: Event): Books {
    match Judge(p, b, e)
    case Accepted => Accept(p, b, e)
    case Invalid => b.(seen := b.seen + {e.sequence}, invalid := b.invalid + [e])
    case Mismatch => b.(seen := b.seen + {e.sequence}, mismatches := b.mismatches + [e])
  }

  /** The books after a run of events, bad ones set aside. */
  function Lenient(p: MissionProgram, events: seq<Event>): Books {
    if events == [] then Opened(p)
    else Post(p, Lenient(p, events[..|events| - 1]), events[|events| - 1])
  }

  /** The books after a run of events, when none is bad. */
  function Strict(p: MissionProgram, events: seq<Event>): Result<Books> {
    if events == [] then Ok(Opened(p))
    else
      var b :- Strict(p, events[..|events| - 1]);
      var e := events[|events| - 1];
      if Judge(p, b, e) == Accepted then Ok(Accept(p, b, e)) else Refused
  }

  datatype ReplayResult = ReplayResult(currentState: string, terminalOutcome: Option<string>,
                                       activeAssignment: Option<string>, history: seq<Event>, invalid: seq<Event>,
                                       mismatches: seq<Event>, verifications: seq<VerificationEntry>,
                                       isTerminal: bool)
  {
    predicate CanTransition() {
      !isTerminal
    }

    predicate IsConsistent() {
      invalid == [] && mismatches == []
    }
  }

  function Closed(b: Books): ReplayResult {
    ReplayResult(b.state, if b.terminal then b.outcome else None, b.assignment, b.accepted, b.invalid, b.mismatches,
                 b.verifications, b.terminal)
  }

  function Posted(p: MissionProgram, b: Books, e: Event, strict: bool): Result<Books> {
    if strict && Judge(p, b, e) != Accepted then Refused else Ok(Post(p, b, e))
  }

  /** The books so far are those of the replay, strict or not. */
  ghost predicate InStep(p: MissionProgram, events: seq<Event>, b: Books, strict: bool) {
    b == Lenient(p, events) && (strict ==> Strict(p, events) == Ok(b))
  }

  lemma OneStep(p: MissionProgram, events: seq<Event>, e: Event, b: Books, strict: bool)
    requires InStep(p, events, b, strict)
    ensures var posted := Posted(p, b, e, strict);
      if posted.Ok? then InStep(p, events + [e], posted.value, strict)
      else strict && Strict(p, events + [e]).Refused?
  {
    assert (events + [e])[..|events|] == events;
  }

  /** One turn of the loop of `replay_ledger`: the event is posted, or in a strict replay a bad one refuses the whole. */
  method PostOne(p: MissionProgram, b: Books, e: Event, strict: bool) returns (r: Result<Books>)
    ensures r == Posted(p, b, e, strict)
  {
    if e.sequence in b.seen {
      if strict {
        return Refused;
      }
      return Ok(b.(seen := b.seen + {e.sequence}, invalid := b.invalid + [e]));
    }
    var seen := b.seen + {e.sequence};
    if e.programHash != p.contentHash {
      if strict {
        return Refused;
      }
      return Ok(b.(seen := seen, mismatches := b.mismatches + [e]));
    }
    if b.terminal || e.fromState != b.state || PermittedBy(e, p).Refused? {
      if strict {
        return Refused;
      }
      return Ok(b.(seen := seen, invalid := b.invalid + [e]));
    }
    var assignment := if e.ownershipChange.Some? then e.ownershipChange.value.toActor else b.assignment;
    var outcome := if Set(e.terminalOutcome) then e.terminalOutcome else b.outcome;
    r := Ok(Books(e.toState, assignment, outcome, IsTerminal(p, e.toState), seen, b.accepted + [e], b.invalid,
                  b.mismatches, b.verifications + Recorded(e)));
  }

  /** `replay_ledger`. The variables its loop updates are kept together. */
  method ReplayLedger(events: seq<Event>, p: MissionProgram, strict: bool) returns (r: Result<ReplayResult>)
    ensures strict ==> r == var b := Strict(p, Ordered(events)); if b.Ok? then Ok(Closed(b.value)) else Refused
    ensures !strict ==> r == Ok(Closed(Lenient(p, Ordered(events))))
  {
    var ordered := Ordered(events);
    var books := Opened(p);
    for k := 0 to |ordered|
      invariant InStep(p, ordered[..k], books, strict)
    {
      OneStep(p, ordered[..k], ordered[k], books, strict);
      assert ordered[..k + 1] == ordered[..k] + [ordered[k]];
      var posted := PostOne(p, books, ordered[k], strict);
      if posted.Refused? {
        StrictRefusal(p, ordered, k + 1);
        return Refused;
      }
      books := posted.value;
    }
    assert ordered[..|ordered|] == ordered;
    r := Ok(Closed(books));
  }

  lemma {:induction false} StrictRefusal(p: MissionProgram, events: seq<Event>, k: nat)
    requires k <= |events| && Strict(p, events[..k]).Refused?
    ensures Strict(p, events).Refused?
    decreases |events| - k
  {
    if k < |events| {
      assert events[..k + 1][..k] == events[..k];
      StrictRefusal(p, events, k + 1);
    } else {
      assert events[..k] == events;
    }
  }

  // ---- strict and lenient replay agree ----

  /** The lenient books once their seen-set is taken to the sequences of the events read. */
  lemma {:induction false} SeenAreRead(p: MissionProgram, events: seq<Event>)
    ensures Lenient(p, events).seen == set e | e in events :: e.sequence
  {
    if events != [] {
      SeenAreRead(p, events[..|events| - 1]);
      assert events == events[..|events| - 1] + [events[|events| - 1]];
    }
  }

  /** Strict replay succeeds exactly when the lenient one sets nothing aside, and then they agree. */
  lemma {:induction false} StrictIffConsistent(p: MissionProgram, events: seq<Event>)
    ensures Strict(p, events).Ok? <==> Closed(Lenient(p, events)).IsConsistent()
    ensures Strict(p, events).Ok? ==> Strict(p, events).value == Lenient(p, events)
  {
    if events != [] {
      StrictIffConsistent(p, events[..|events| - 1]);
    }
  }

  /** Strict replay succeeds exactly when `replay_states` does, and ends in the same state. */
  lemma {:induction false} StrictIffWalk(p: MissionProgram, events: seq<Event>)
    ensures Strict(p, events).Ok? <==> DistinctSequences(events) && Walk(p, events).Ok?
    ensures Strict(p, events).Ok? ==>
      Walk(p, events).value == (Strict(p, events).value.state, Strict(p, events).value.terminal)
  {
    if events != [] {
      var front, e := events[..|events| - 1], events[|events| - 1];
      StrictIffWalk(p, front);
      StrictIffConsistent(p, front);
      SeenAreRead(p, front);
      DistinctSplits(events);
      if Walk(p, front).Ok? && PermittedBy(e, p).Ok? {
        assert e.programHash == p.contentHash;
      }
    }
  }

  lemma DistinctSplits(events: seq<Event>)
    requires events != []
    ensures var front, e := events[..|events| - 1], events[|events| - 1];
      DistinctSequences(events) <==>
        DistinctSequences(front) && e.sequence !in set f | f in front :: f.sequence
  {
    var front, e := events[..|events| - 1], events[|events| - 1];
    assert events == front + [e];
    assert forall i :: 0 <= i < |front| ==> front[i] in front;
  }

  /** Every event ends up in exactly one of history, invalid and mismatches. */
  lemma {:induction false} EveryEventPosted(p: MissionProgram, events: seq<Event>)
    ensures var b := Lenient(p, events);
      multiset(b.accepted) + multiset(b.invalid) + multiset(b.mismatches) == multiset(events)
  {
    if events != [] {
      EveryEventPosted(p, events[..|events| - 1]);
      PostConserves(p, Lenient(p, events[..|events| - 1]), events[|events| - 1]);
      assert events == events[..|events| - 1] + [events[|events| - 1]];
    }
  }

  lemma PostConserves(p: MissionProgram, b: Books, e: Event)
    ensures var c := Post(p, b, e);
      multiset(c.accepted) + multiset(c.invalid) + multiset(c.mismatches)
        == multiset(b.accepted) + multiset(b.invalid) + multiset(b.mismatches) + multiset{e}
  {}

  lemma EveryInputPosted(p: MissionProgram, events: seq<Event>)
    ensures var r := Closed(Lenient(p, Ordered(events)));
      multiset(r.history) + multiset(r.invalid) + multiset(r.mismatches) == multiset(events)
  {
    EveryEventPosted(p, Ordered(events));
  }

  /** The books of the history alone. */
  ghost predicate SameStanding(a: Books, b: Books) {
    && a.state == b.state && a.assignment == b.assignment && a.outcome == b.outcome && a.terminal == b.terminal
    && a.accepted == b.accepted && a.verifications == b.verifications
  }

  /** Strictly replaying just the history reproduces state, outcome, assignment and verifications. */
  lemma {:induction false} HistoryReplays(p: MissionProgram, events: seq<Event>)
    ensures var b := Lenient(p, events);
      && Strict(p, b.accepted).Ok? && SameStanding(Strict(p, b.accepted).value, b)
      && Strict(p, b.accepted).value.seen <= b.seen
  {
    if events != [] {
      var front, e := events[..|events| - 1], events[|events| - 1];
      HistoryReplays(p, front);
      var before, after := Lenient(p, front), Lenient(p, events);
      if Judge(p, before, e) == Accepted {
        assert after.accepted[..|after.accepted| - 1] == before.accepted;
      }
    }
  }

  lemma {:induction false} HistoryWithin(p: MissionProgram, events: seq<Event>)
    ensures forall e :: e in Lenient(p, events).accepted ==> e in events
  {
    if events != [] {
      var front, e := events[..|events| - 1], events[|events| - 1];
      assert events == front + [e];
      HistoryWithin(p, front);
    }
  }

  lemma LastIsGreatest(front: seq<Event>, e: Event, some: seq<Event>)
    requires Sorted(front + [e], BySequence) && forall x :: x in some ==> x in front
    requires Sorted(some, BySequence)
    ensures Sorted(some + [e], BySequence)
  {
    forall i | 0 <= i < |some|
      ensures BySequence(some[i], e)
    {
      assert some[i] in front;
      var k :| 0 <= k < |front| && front[k] == some[i];
      assert BySequence((front + [e])[k], (front + [e])[|front|]);
    }
  }

  /** The history is already in order, so the whole replay of it gives the same result. */
  lemma {:induction false} HistoryInOrder(p: MissionProgram, events: seq<Event>)
    requires Sorted(events, BySequence)
    ensures Sorted(Lenient(p, events).accepted, BySequence)
  {
    if events != [] {
      var front, e := events[..|events| - 1], events[|events| - 1];
      assert events == front + [e];
      HistoryInOrder(p, front);
      HistoryWithin(p, front);
      LastIsGreatest(front, e, Lenient(p, front).accepted);
    }
  }

  lemma BySequenceTotal()
    ensures TotalPreorder(BySequence)
  {}

  /** Replaying the history of a lenient replay strictly, from scratch. */
  lemma HistoryIsFaithful(p: MissionProgram, events: seq<Event>)
    ensures var r := Closed(Lenient(p, Ordered(events)));
      var again := Strict(p, Ordered(r.history));
      && again.Ok?
      && Closed(again.value) == r.(invalid := [], mismatches := [])
  {
    BySequenceTotal();
    SortSorted(events, BySequence);
    HistoryReplays(p, Ordered(events));
    HistoryInOrder(p, Ordered(events));
    var b := Lenient(p, Ordered(events));
    SortFixed(b.accepted, BySequence);
    StrictIffConsistent(p, b.accepted);
  }

  // ---- order of arrival ----

  /** Strict replay, success and result, does not depend on the order the events arrive in. */
  lemma ArrivalOrderIrrelevant(p: MissionProgram, a: seq<Event>, b: seq<Event>)
    requires multiset(a) == multiset(b)
    ensures Strict(p, Ordered(a)) == Strict(p, Ordered(b))
  {
    BySequenceTotal();
    SortSorted(a, BySequence);
    SortSorted(b, BySequence);
    StrictIffWalk(p, Ordered(a));
    StrictIffWalk(p, Ordered(b));
    if DistinctSequences(Ordered(a)) {
      SameOrder(Ordered(a), Ordered(b));
    } else if DistinctSequences(Ordered(b)) {
      SameOrder(Ordered(b), Ordered(a));
    }
  }

  lemma SameOrder(a: seq<Event>, b: seq<Event>)
    requires multiset(a) == multiset(b) && DistinctSequences(a)
    requires Sorted(a, BySequence) && Sorted(b, BySequence)
    ensures a == b
  {
    BySequenceTotal();
    forall x, y | x in a && y in a && BySequence(x, y) && BySequence(y, x)
      ensures x == y
    {
      var i :| 0 <= i < |a| && a[i] == x;
      var j :| 0 <= j < |a| && a[j] == y;
    }
    SortedUnique(a, b, BySequence);
  }

  // ---- what every replayed history satisfies ----

  /** Nothing is accepted after a terminal state, and the check on `terminal` refuses nothing that re-deriving
      permission would not refuse by itself. */
  lemma TerminalGuardIsRedundant(p: MissionProgram, b: Books, e: Event)
    requires Validated(p) && IsTerminal(p, b.state)
    ensures e.fromState == b.state ==> PermittedBy(e, p).Refused?
    ensures Judge(p, b, e) != Accepted
  {
    if e.fromState == b.state && PermittedBy(e, p).Ok? {
      PermittedMeans(e, p);
    }
  }

  /** The state a history ends in. */
  function StateAfter(p: MissionProgram, history: seq<Event>): string {
    if history == [] then p.initialState else history[|history| - 1].toState
  }

  /** Every event of the history is permitted and leaves the state the events before it end in, which is never a
      terminal one: nothing follows an event that ends the inquiry. */
  ghost predicate Contiguous(p: MissionProgram, history: seq<Event>) {
    history == [] ||
    var front, last := history[..|history| - 1], history[|history| - 1];
    && Contiguous(p, front) && PermittedBy(last, p).Ok?
    && last.fromState == StateAfter(p, front) && !IsTerminal(p, last.fromState)
  }

  /** ... and the books carry the outcome its last event records once it has ended. */
  ghost predicate Sound(p: MissionProgram, b: Books) {
    && Contiguous(p, b.accepted) && b.state == StateAfter(p, b.accepted)
    && b.terminal == (b.accepted != [] && IsTerminal(p, b.state))
    && b.outcome == (if b.terminal then b.accepted[|b.accepted| - 1].terminalOutcome else None)
  }

  lemma {:induction false} ReplayIsSound(p: MissionProgram, events: seq<Event>)
    requires Validated(p)
    ensures Sound(p, Lenient(p, events))
  {
    if events != [] {
      var front, e := events[..|events| - 1], events[|events| - 1];
      ReplayIsSound(p, front);
      PostIsSound(p, Lenient(p, front), e);
    }
  }

  lemma PostIsSound(p: MissionProgram, b: Books, e: Event)
    requires Validated(p) && Sound(p, b)
    ensures Sound(p, Post(p, b, e))
  {
    if Judge(p, b, e) == Accepted {
      PermittedMeans(e, p);
      assert (b.accepted + [e])[..|b.accepted|] == b.accepted;
    }
  }

  // ---- what the result says, read off its history ----

  /** The events that carry a verification, in order. */
  function Verified(history: seq<Event>): seq<Event> {
    if history == [] then []
    else
      var last := history[|history| - 1];
      Verified(history[..|history| - 1]) + if last.verification.Some? then [last] else []
  }

  /** One entry for each, saying when and what was decided, and by whom. */
  ghost predicate Lists(verified: seq<Event>, entries: seq<VerificationEntry>) {
    |verified| == |entries| && forall i :: 0 <= i < |verified| ==>
      && verified[i].verification.Some? && entries[i].sequence == verified[i].sequence
      && entries[i].transitionId == verified[i].transitionId && entries[i].verdict == verified[i].verification.value.verdict
      && entries[i].verifierId == verified[i].verification.value.verifierId
  }

  /** The last event that changes the ownership. */
  ghost predicate LastChange(history: seq<Event>, i: int) {
    && 0 <= i < |history| && history[i].ownershipChange.Some?
    && forall j :: i < j < |history| ==> history[j].ownershipChange.None?
  }

  /** The assignment and the verifications are what the history says. */
  ghost predicate Reflects(history: seq<Event>, assignment: Option<string>, entries: seq<VerificationEntry>) {
    && (forall i :: LastChange(history, i) ==> assignment == history[i].ownershipChange.value.toActor)
    && ((forall e :: e in history ==> e.ownershipChange.None?) ==> assignment.None?)
    && Lists(Verified(history), entries)
  }

  lemma {:induction false} BooksReflect(p: MissionProgram, events: seq<Event>)
    ensures Reflects(Lenient(p, events).accepted, Lenient(p, events).assignment, Lenient(p, events).verifications)
  {
    if events != [] {
      var front, e := events[..|events| - 1], events[|events| - 1];
      BooksReflect(p, front);
      var b := Lenient(p, front);
      if Judge(p, b, e) == Accepted {
        AcceptReflects(b.accepted, b.assignment, b.verifications, e);
      }
    }
  }

  lemma {:induction false} AcceptReflects(history: seq<Event>, assignment: Option<string>, entries: seq<VerificationEntry>, e: Event)
    requires Reflects(history, assignment, entries)
    ensures Reflects(history + [e], if e.ownershipChange.Some? then e.ownershipChange.value.toActor else assignment, entries + Recorded(e))
  {
    var longer := history + [e];
    assert longer[..|history|] == history;
    forall i | LastChange(longer, i)
      ensures e.ownershipChange.None? ==> LastChange(history, i)
    {
      assert longer[|history|] == e;
    }
    assert forall f :: f in history ==> f in longer;
    assert e in longer;
  }

  /** The active assignment is the actor the last ownership change of the history names, none without one; there is one entry for
      every verification of the history, in its order; and the state is the one its last event leads to. */
  lemma {:induction false} ResultReflectsHistory(p: MissionProgram, events: seq<Event>)
    requires Validated(p)
    ensures var r := Closed(Lenient(p, Ordered(events)));
      && (forall i :: LastChange(r.history, i) ==> r.activeAssignment == r.history[i].ownershipChange.value.toActor)
      && ((forall e :: e in r.history ==> e.ownershipChange.None?) ==> r.activeAssignment.None?)
      && Lists(Verified(r.history), r.verifications)
      && r.currentState == (if r.history == [] then p.initialState else r.history[|r.history| - 1].toState)
  {
    BooksReflect(p, Ordered(events));
    ReplayIsSound(p, Ordered(events));
  }

  /** The next event enters the history exactly when it repeats no sequence, is permitted and leaves the state the history has
      led to. */
  lemma {:induction false} EntersIff(p: MissionProgram, events: seq<Event>, e: Event)
    requires Validated(p)
    ensures var before := Lenient(p, events).accepted;
      Lenient(p, events + [e]).accepted
        == if (forall f :: f in events ==> f.sequence != e.sequence) && PermittedBy(e, p).Ok?
              && e.fromState == (if before == [] then p.initialState else before[|before| - 1].toState)
           then before + [e] else before
  {
    assert (events + [e])[..|events|] == events;
    SeenAreRead(p, events);
    ReplayIsSound(p, events);
    if PermittedBy(e, p).Ok? {
      PermittedMeans(e, p);
    }
  }

  /** The first of each sequence, if made for another program, in order. */
  function Strangers(p: MissionProgram, events: seq<Event>): seq<Event> {
    if events == [] then []
    else
      var front, e := events[..|events| - 1], events[|events| - 1];
      Strangers(p, front)
      + if e.programHash != p.contentHash && forall f :: f in front ==> f.sequence != e.sequence then [e] else []
  }

  lemma {:induction false} MismatchesAreStrangers(p: MissionProgram, events: seq<Event>)
    ensures Lenient(p, events).mismatches == Strangers(p, events)
  {
    if events != [] {
      MismatchesAreStrangers(p, events[..|events| - 1]);
      SeenAreRead(p, events[..|events| - 1]);
    }
  }

  /** A history is in strictly ascending sequence. */
  lemma {:induction false} HistoryAscends(p: MissionProgram, events: seq<Event>)
    ensures var h := Closed(Lenient(p, Ordered(events))).history;
      forall i, j :: 0 <= i < j < |h| ==> h[i].sequence < h[j].sequence
  {
    OrderedIs(events);
    AcceptedAscend(p, Ordered(events));
  }

  lemma {:induction false} AcceptedAscend(p: MissionProgram, events: seq<Event>)
    requires forall i, j :: 0 <= i < j < |events| ==> events[i].sequence <= events[j].sequence
    ensures var h := Lenient(p, events).accepted;
      forall i, j :: 0 <= i < j < |h| ==> h[i].sequence < h[j].sequence
  {
    if events != [] {
      var front, e := events[..|events| - 1], events[|events| - 1];
      assert events == front + [e];
      AcceptedAscend(p, front);
      HistoryWithin(p, front);
      NoneLater(front, e, Lenient(p, front).accepted);
      NoneAlike(p, front, e);
    }
  }

  lemma {:induction false} NoneAlike(p: MissionProgram, front: seq<Event>, e: Event)
    ensures var b := Lenient(p, front);
      Judge(p, b, e) == Accepted ==> forall i :: 0 <= i < |b.accepted| ==> b.accepted[i].sequence != e.sequence
  {
    SeenAreRead(p, front);
    HistoryWithin(p, front);
    var h := Lenient(p, front).accepted;
    assert forall i :: 0 <= i < |h| ==> h[i] in h;
  }

  lemma {:induction false} NoneLater(front: seq<Event>, e: Event, some: seq<Event>)
    requires forall i, j :: 0 <= i < j < |front + [e]| ==> (front + [e])[i].sequence <= (front + [e])[j].sequence
    requires forall x :: x in some ==> x in front
    ensures forall i :: 0 <= i < |some| ==> some[i].sequence <= e.sequence
  {
    forall i | 0 <= i < |some|
      ensures some[i].sequence <= e.sequence
    {
      assert some[i] in front;
      var k :| 0 <= k < |front| && front[k] == some[i];
      assert (front + [e])[k].sequence <= (front + [e])[|front|].sequence;
    }
  }

  /** A result says "terminal" with the outcome its last transition declares, one of the program's outcomes, or it
      says "not terminal" with no outcome. */
  lemma OutcomeIsDeclared(p: MissionProgram, events: seq<Event>)
    requires Validated(p)
    ensures var r := Closed(Lenient(p, Ordered(events)));
      if r.isTerminal then
        && r.history != [] && PermittedBy(r.history[|r.history| - 1], p).Ok?
        && r.terminalOutcome == PermittedBy(r.history[|r.history| - 1], p).value.outcome
        && Set(r.terminalOutcome) && r.terminalOutcome.value in OutcomeIds(p)
      else r.terminalOutcome.None?
  {
    ReplayIsSound(p, Ordered(events));
    var r := Closed(Lenient(p, Ordered(events)));
    if r.isTerminal {
      PermittedMeans(r.history[|r.history| - 1], p);
    }
  }

  /** `can_transition` is meant to say whether the inquiry can move again. It says so correctly for every history of
      a program exactly when the program's initial state is not a terminal one. */
  lemma CanTransitionIff(p: MissionProgram)
    requires Validated(p)
    ensures (forall events :: var r := Closed(Lenient(p, Ordered(events)));
                r.CanTransition() <==> !IsTerminal(p, r.currentState))
       <==> !IsTerminal(p, p.initialState)
  {
    if IsTerminal(p, p.initialState) {
      var r := Closed(Lenient(p, Ordered([])));
      assert r.CanTransition() && IsTerminal(p, r.currentState);
    } else {
      forall events
        ensures var r := Closed(Lenient(p, Ordered(events)));
          r.CanTransition() <==> !IsTerminal(p, r.currentState)
      {
        ReplayIsSound(p, Ordered(events));
      }
    }
  }

  /** A validated program whose initial state is terminal: it has ended before it starts and still says it can move. */
  function TerminalStart(): MissionProgram {
    MissionProgram(
      [State("end", true), State("open", false)],
      [Transition("reopen", ["open"], "open", None, None, 0, None),
       Transition("close", ["open"], "end", Some("nothing"), None, 0, None)],
      [TerminalOutcome("nothing", ProducedNothing, [])], "end", [], Supports(false, false, false, false), "")
  }

  lemma TerminalStartCovered()
    ensures Covered(TerminalStart())
  {
    var p := TerminalStart();
    var reopen, close, nothing := p.transitions[0], p.transitions[1], p.terminalOutcomes[0];
    assert nothing in p.terminalOutcomes && reopen in p.transitions && close in p.transitions;
  }

  lemma TerminalStartDeclared()
    ensures forall t :: t in TerminalStart().transitions ==> TransitionDeclared(TerminalStart(), t)
  {
    var p := TerminalStart();
    assert p.states[0] in p.states && p.states[1] in p.states && p.terminalOutcomes[0] in p.terminalOutcomes;
    assert TransitionDeclared(p, p.transitions[0]) && TransitionDeclared(p, p.transitions[1]);
  }

  lemma TerminalStartExample()
    ensures var p := TerminalStart();
      Validated(p) && Closed(Lenient(p, [])).CanTransition() && IsTerminal(p, Closed(Lenient(p, [])).currentState)
  {
    var p := TerminalStart();
    TerminalStartCovered();
    TerminalStartDeclared();
    assert p.states[0] in p.states;
  }

  // ---- submission ----

  datatype SubmissionOutcome = Stored | Duplicate | Conflict | NotPermitted

  /** An event arriving under an id, with its canonical hash. */
  datatype Delivery = Delivery(eventId: string, eventHash: string, event: Event)

  /** `submit`. */
  function Submit(d: Delivery, existing: map<string, string>, p: MissionProgram): SubmissionOutcome {
    if d.eventId in existing then
      if existing[d.eventId] == d.eventHash then Duplicate else Conflict
    else if PermittedBy(d.event, p).Refused? then NotPermitted
    else Stored
  }

  /** The ledger's hashes by id after a run of deliveries, storing what `submit` says to store. */
  function Shelf(p: MissionProgram, deliveries: seq<Delivery>): map<string, string> {
    if deliveries == [] then map[]
    else
      var before := Shelf(p, deliveries[..|deliveries| - 1]);
      var d := deliveries[|deliveries| - 1];
      if Submit(d, before, p).Stored? then before[d.eventId := d.eventHash] else before
  }

  /** Delivery i is the first permitted one under its id. */
  ghost predicate FirstPermitted(p: MissionProgram, deliveries: seq<Delivery>, i: int) {
    && 0 <= i < |deliveries| && PermittedBy(deliveries[i].event, p).Ok?
    && forall j :: 0 <= j < i && deliveries[j].eventId == deliveries[i].eventId ==> PermittedBy(deliveries[j].event, p).Refused?
  }

  /** Over any run of deliveries, an id holds the hash of the first permitted event delivered under it and nothing
      delivered later changes that: history is never rewritten. */
  lemma {:induction false} FirstPermittedIsKept(p: MissionProgram, deliveries: seq<Delivery>, id: string)
    ensures id in Shelf(p, deliveries)
       <==> exists i :: FirstPermitted(p, deliveries, i) && deliveries[i].eventId == id
    ensures forall i :: FirstPermitted(p, deliveries, i) && deliveries[i].eventId == id ==>
      id in Shelf(p, deliveries) && Shelf(p, deliveries)[id] == deliveries[i].eventHash
  {
    if deliveries != [] {
      var n := |deliveries| - 1;
      var front, d := deliveries[..n], deliveries[n];
      FirstPermittedIsKept(p, front, id);
      forall i | 0 <= i < n
        ensures FirstPermitted(p, deliveries, i) <==> FirstPermitted(p, front, i)
      {}
      if FirstPermitted(p, deliveries, n) && d.eventId == id {
        assert forall i :: 0 <= i < n ==> front[i] == deliveries[i];
      } else if d.eventId == id && PermittedBy(d.event, p).Ok? && id !in Shelf(p, front) {
        EarlierFirst(p, deliveries, n);
      }
    }
  }

  /** Behind a permitted delivery that is not the first there is a first one. */
  lemma {:induction false} EarlierFirst(p: MissionProgram, deliveries: seq<Delivery>, i: nat)
    requires i < |deliveries| && PermittedBy(deliveries[i].event, p).Ok?
    ensures exists j :: j <= i && FirstPermitted(p, deliveries, j) && deliveries[j].eventId == deliveries[i].eventId
  {
    if j :| 0 <= j < i && deliveries[j].eventId == deliveries[i].eventId && PermittedBy(deliveries[j].event, p).Ok? {
      EarlierFirst(p, deliveries, j);
    } else {
      assert FirstPermitted(p, deliveries, i);
    }
  }

  /** A retry is absorbed and a rewrite is a conflict, at any later point of any run. */
  lemma {:induction false} RetryOrConflict(p: MissionProgram, before: seq<Delivery>, after: seq<Delivery>, id: string)
    requires id in Shelf(p, before)
    ensures id in Shelf(p, before + after) && Shelf(p, before + after)[id] == Shelf(p, before)[id]
    ensures forall d: Delivery :: d.eventId == id ==>
      Submit(d, Shelf(p, before + after), p) == if d.eventHash == Shelf(p, before)[id] then Duplicate else Conflict
  {
    if after == [] {
      assert before + after == before;
    } else {
      RetryOrConflict(p, before, after[..|after| - 1], id);
      assert (before + after)[..|before + after| - 1] == before + after[..|after| - 1];
    }
  }
}
