/** Matching providers to a request for evidence and buying it behind a gate (runtime_contracts/protocol/
    intelligence_registry.py). Money is a real; what a provider answers when called is part of the provider. */
module Acquisition {
  import opened Wrappers
  import opened Sorting
  import Decimals

  datatype Failure =
    | Unavailable | RateLimited | BudgetExceeded | NotEntitled | NoMatch | LowConfidence | Stale | LicenseBlocked
    | NoAuthorityFound | JurisdictionUnresolved | ConflictingAuthority | OutsideProviderCoverage | StaleAuthority
    | ProfessionalReviewRequired

  datatype Fallback = ContinueWithLocalEvidence | TryAlternateProvider | Abstain

  datatype Request = Request(caseId: string, capability: string, tenant: string, purpose: string, maxCost: real)

  datatype Answer = Answer(ok: bool, artifacts: seq<string>, failure: Option<Failure>, cost: real)

  datatype Provider = Provider(
    id: string, capabilities: set<string>, entitlements: set<(string, string)>, estimate: real, answer: Answer)

  datatype Evidence = Evidence(caseId: string, capability: string, provider: string, requested: bool, received: bool, cost: real)

  datatype Gate = Acquire | Skip(fallback: Fallback, failure: Option<Failure>)

  const PII_CAPABILITIES: set<string> := {"person_search", "person_enrichment", "beneficial_ownership"}

  // ---- the registry ----

  /** A dict of providers by id: one already there keeps its place. */
  function Placed(ps: seq<Provider>, p: Provider): seq<Provider> {
    if ps == [] then [p]
    else if ps[0].id == p.id then [p] + ps[1..]
    else [ps[0]] + Placed(ps[1..], p)
  }

  function Lookup(ps: seq<Provider>, id: string): Option<Provider> {
    if ps == [] then None else if ps[0].id == id then Some(ps[0]) else Lookup(ps[1..], id)
  }

  ghost predicate IdsApart(ps: seq<Provider>) {
    forall i, j :: 0 <= i < j < |ps| ==> ps[i].id != ps[j].id
  }

  class IntelligenceRegistry {
    var providers: seq<Provider>

    ghost predicate Valid()
      reads this
    {
      IdsApart(providers)
    }

    constructor ()
      ensures Valid() && providers == []
    {
      providers := [];
    }

    method Register(p: Provider)
      requires Valid()
      modifies this
      ensures Valid() && providers == Placed(old(providers), p)
    {
      PlacedApart(providers, p);
      providers := Placed(providers, p);
    }
  }

  lemma {:induction false} PlacedIds(ps: seq<Provider>, p: Provider)
    ensures forall q :: q in Placed(ps, p) ==> q == p || q in ps
  {
    if ps != [] && ps[0].id != p.id {
      PlacedIds(ps[1..], p);
    }
  }

  lemma {:induction false} PlacedApart(ps: seq<Provider>, p: Provider)
    requires IdsApart(ps)
    ensures IdsApart(Placed(ps, p))
  {
    if ps != [] && ps[0].id != p.id {
      PlacedApart(ps[1..], p);
      PlacedIds(ps[1..], p);
      var rest := Placed(ps[1..], p);
      forall j | 0 <= j < |rest|
        ensures rest[j].id != ps[0].id
      {
        assert rest[j] in rest;
      }
    }
  }

  /** A provider registered is the one found under its id; the others are found as before. */
  lemma {:induction false} RegisteredIsFound(ps: seq<Provider>, p: Provider, id: string)
    ensures Lookup(Placed(ps, p), id) == if id == p.id then Some(p) else Lookup(ps, id)
  {
    if ps != [] && ps[0].id != p.id {
      RegisteredIsFound(ps[1..], p, id);
    }
  }

  // ---- match ----

  predicate Offers(p: Provider, r: Request) {
    r.capability in p.capabilities && (r.tenant, r.capability) in p.entitlements
  }

  function Offering(ps: seq<Provider>, r: Request): (out: seq<Provider>)
    ensures forall p :: p in out <==> p in ps && Offers(p, r)
  {
    if ps == [] then []
    else (if Offers(ps[0], r) then [ps[0]] else []) + Offering(ps[1..], r)
  }

  predicate Cheaper(p: Provider, q: Provider) {
    p.estimate <= q.estimate
  }

  /** `match`: the entitled providers of the capability, cheapest estimate first. */
  function Match(ps: seq<Provider>, r: Request): seq<Provider> {
    Sort(Offering(ps, r), Cheaper)
  }

  lemma MatchInOrder(ps: seq<Provider>, r: Request)
    ensures Sorted(Match(ps, r), Cheaper)
    ensures forall p :: p in Match(ps, r) <==> p in ps && Offers(p, r)
  {
    SortSorted(Offering(ps, r), Cheaper);
    SameElements(Match(ps, r), Offering(ps, r));
  }

  /** Candidates are the providers that offer the capability and to which the tenant is entitled, the cheapest estimate first. */
  lemma {:induction false} MatchSorted(ps: seq<Provider>, r: Request)
    ensures forall i, j :: 0 <= i < j < |Match(ps, r)| ==> Match(ps, r)[i].estimate <= Match(ps, r)[j].estimate
    ensures forall p :: p in Match(ps, r) <==> p in ps && r.capability in p.capabilities && (r.tenant, r.capability) in p.entitlements
  {
    MatchInOrder(ps, r);
    assert forall i, j :: 0 <= i < j < |Match(ps, r)| ==> Cheaper(Match(ps, r)[i], Match(ps, r)[j]);
  }

  /** Candidates of one estimate are called in the order they are registered in. */
  lemma {:induction false} MatchStable(ps: seq<Provider>, r: Request, estimate: real)
    ensures Sorting.Chosen(Match(ps, r), (p: Provider) => p.estimate == estimate)
         == Sorting.Chosen(ps, (p: Provider) => p.estimate == estimate && r.capability in p.capabilities && (r.tenant, r.capability) in p.entitlements)
  {
    SortStable(Offering(ps, r), (p: Provider) => p.estimate == estimate, Cheaper);
    OfferingChosen(ps, r, estimate);
  }

  lemma {:induction false} OfferingChosen(ps: seq<Provider>, r: Request, estimate: real)
    ensures Sorting.Chosen(Offering(ps, r), (p: Provider) => p.estimate == estimate)
         == Sorting.Chosen(ps, (p: Provider) => p.estimate == estimate && r.capability in p.capabilities && (r.tenant, r.capability) in p.entitlements)
  {
    if ps != [] {
      OfferingChosen(ps[1..], r, estimate);
      if Offers(ps[0], r) {
        ChosenCons(ps[0], Offering(ps[1..], r), (p: Provider) => p.estimate == estimate);
      } else {
        assert Offering(ps, r) == Offering(ps[1..], r);
      }
    }
  }

  function Chosen(p: Provider, r: Request): seq<Provider> {
    if Offers(p, r) then [p] else []
  }

  lemma OfferingCons(p: Provider, ps: seq<Provider>, r: Request)
    ensures Offering([p] + ps, r) == Chosen(p, r) + Offering(ps, r)
  {
    assert ([p] + ps)[1..] == ps;
  }

  lemma SamePrefix(p: Provider, r: Request, a: seq<Provider>, b: seq<Provider>, d: seq<Provider>)
    requires multiset(Offering(a, r)) == multiset(Offering(b, r)) + multiset(d)
    ensures multiset(Offering([p] + a, r)) == multiset(Offering([p] + b, r)) + multiset(d)
  {
    OfferingCons(p, a, r);
    OfferingCons(p, b, r);
  }

  lemma {:induction false} OfferingDrops(ps: seq<Provider>, r: Request, k: nat)
    requires k < |ps|
    ensures multiset(Offering(ps, r)) == multiset(Offering(Dropped(ps, k), r)) + multiset(Chosen(ps[k], r))
  {
    var head, tail := ps[0], ps[1..];
    assert [head] + tail == ps;
    if k == 0 {
      OfferingCons(head, tail, r);
      assert Dropped(ps, 0) == tail;
    } else {
      OfferingDrops(tail, r, k - 1);
      SamePrefix(head, r, tail, Dropped(tail, k - 1), Chosen(ps[k], r));
      DroppedLater(ps, k);
    }
  }

  lemma {:induction false} OfferingPermutes(ps: seq<Provider>, qs: seq<Provider>, r: Request)
    requires multiset(ps) == multiset(qs)
    ensures multiset(Offering(ps, r)) == multiset(Offering(qs, r))
    decreases |ps|
  {
    if ps == [] {
      assert |multiset(qs)| == 0;
    } else {
      SameElements(ps, qs);
      assert ps[0] in ps;
      var k :| 0 <= k < |qs| && qs[k] == ps[0];
      DroppedOnce(ps, 0);
      DroppedOnce(qs, k);
      OfferingPermutes(Dropped(ps, 0), Dropped(qs, k), r);
      OfferingDrops(ps, r, 0);
      OfferingDrops(qs, r, k);
    }
  }

  /** However the providers were registered, the same candidates in the same order. */
  ghost predicate OrderIrrelevant(ps: seq<Provider>, r: Request) {
    forall qs :: multiset(qs) == multiset(ps) ==> Match(qs, r) == Match(ps, r)
  }

  ghost predicate EstimatesApart(ps: seq<Provider>, r: Request) {
    forall p, q :: p in ps && q in ps && Offers(p, r) && Offers(q, r) && p.estimate == q.estimate ==> p == q
  }

  lemma MatchPermuted(ps: seq<Provider>, qs: seq<Provider>, r: Request)
    requires multiset(ps) == multiset(qs) && EstimatesApart(ps, r)
    ensures Match(ps, r) == Match(qs, r)
  {
    OfferingPermutes(ps, qs, r);
    MatchInOrder(ps, r);
    MatchInOrder(qs, r);
    SortedUnique(Match(ps, r), Match(qs, r), Cheaper);
  }

  function FirstNotBelow(ps: seq<Provider>, estimate: real): Option<Provider> {
    if ps == [] then None else if ps[0].estimate >= estimate then Some(ps[0]) else FirstNotBelow(ps[1..], estimate)
  }

  lemma {:induction false} InsertedIsFirst(p: Provider, ps: seq<Provider>)
    ensures FirstNotBelow(Insert(p, ps, Cheaper), p.estimate) == Some(p)
  {
    if ps != [] && !Cheaper(p, ps[0]) {
      InsertedIsFirst(p, ps[1..]);
    }
  }

  /** Of candidates estimated alike, the one registered first comes first. */
  lemma {:induction false} FirstRegisteredFirst(ps: seq<Provider>, k: nat, r: Request)
    requires OrderIrrelevant(ps, r) && k < |ps| && Offers(ps[k], r)
    ensures FirstNotBelow(Match(ps, r), ps[k].estimate) == Some(ps[k])
  {
    var p, rest := ps[k], Dropped(ps, k);
    DroppedOnce(ps, k);
    assert multiset([p] + rest) == multiset(ps);
    assert Match([p] + rest, r) == Match(ps, r);
    OfferingCons(p, rest, r);
    assert ([p] + Offering(rest, r))[1..] == Offering(rest, r);
    InsertedIsFirst(p, Sort(Offering(rest, r), Cheaper));
  }

  /** The order of registration does not matter exactly when no two candidates are estimated alike. */
  lemma MatchOrderIrrelevantIff(ps: seq<Provider>, r: Request)
    ensures OrderIrrelevant(ps, r) <==> EstimatesApart(ps, r)
  {
    if EstimatesApart(ps, r) {
      forall qs | multiset(qs) == multiset(ps)
        ensures Match(qs, r) == Match(ps, r)
      {
        MatchPermuted(ps, qs, r);
      }
    }
    if OrderIrrelevant(ps, r) {
      forall p, q | p in ps && q in ps && Offers(p, r) && Offers(q, r) && p.estimate == q.estimate
        ensures p == q
      {
        var i :| 0 <= i < |ps| && ps[i] == p;
        var j :| 0 <= j < |ps| && ps[j] == q;
        FirstRegisteredFirst(ps, i, r);
        FirstRegisteredFirst(ps, j, r);
      }
    }
  }

  // ---- the gate ----

  /** `decide_acquire`. */
  function DecideAcquire(r: Request, entitled: bool, cost: real, value: real, threshold: real): Gate {
    if !entitled then Skip(TryAlternateProvider, Some(NotEntitled))
    else if r.capability in PII_CAPABILITIES && Decimals.Strip(r.purpose) == "" then Skip(Abstain, None)
    else if cost > r.maxCost then Skip(ContinueWithLocalEvidence, Some(BudgetExceeded))
    else if value < threshold then Skip(ContinueWithLocalEvidence, None)
    else Acquire
  }

  predicate PurposeStated(r: Request) {
    r.capability in PII_CAPABILITIES ==> Decimals.Strip(r.purpose) != ""
  }

  lemma AcquireIff(r: Request, entitled: bool, cost: real, value: real, threshold: real)
    ensures DecideAcquire(r, entitled, cost, value, threshold).Acquire?
       <==> entitled && PurposeStated(r) && cost <= r.maxCost && value >= threshold
    ensures DecideAcquire(r, entitled, cost, value, threshold) == Skip(ContinueWithLocalEvidence, Some(BudgetExceeded))
       <==> entitled && PurposeStated(r) && cost > r.maxCost
  {}

  // ---- the ladder ----

  predicate Succeeds(p: Provider) {
    p.answer.ok && p.answer.artifacts != []
  }

  function FailureOf(p: Provider): Failure {
    match p.answer.failure
    case Some(f) => f
    case None => NoMatch
  }

  predicate Retryable(f: Failure) {
    f in {Unavailable, RateLimited, NoMatch, LowConfidence, Stale, OutsideProviderCoverage}
  }

  /** The ladder goes on after this provider. */
  predicate GoesOn(p: Provider) {
    !Succeeds(p) && Retryable(FailureOf(p))
  }

  /** The next provider is called after an answer without evidence whose reason is one of six; no reason counts as no match. */
  lemma GoesOnIff(p: Provider)
    ensures GoesOn(p)
       <==> (!p.answer.ok || p.answer.artifacts == [])
            && (p.answer.failure.None?
                || p.answer.failure.value in [Unavailable, RateLimited, NoMatch, LowConfidence, Stale, OutsideProviderCoverage])
  {}

  function Spent(called: seq<Provider>): real {
    if called == [] then 0.0 else Spent(called[..|called| - 1]) + called[|called| - 1].answer.cost
  }

  predicate Passes(p: Provider, r: Request, value: real, threshold: real) {
    DecideAcquire(r, true, p.estimate, value, threshold).Acquire?
  }

  /** These providers, and no more, were called. */
  ghost predicate Climbed(cands: seq<Provider>, r: Request, value: real, threshold: real, called: seq<Provider>) {
    && called <= cands
    && (forall i :: 0 <= i < |called| ==> Passes(called[i], r, value, threshold))
    && (forall i :: 0 <= i < |called| - 1 ==> GoesOn(called[i]))
    && (|called| == |cands| || (called != [] && !GoesOn(called[|called| - 1])) || !Passes(cands[|called|], r, value, threshold))
  }

  function NoEvidence(failure: Failure, cost: real): Answer {
    Answer(false, [], Some(failure), cost)
  }

  function Entry(r: Request, provider: string, requested: bool, received: bool, cost: real): Evidence {
    Evidence(r.caseId, r.capability, provider, requested, received, cost)
  }

  /** The gate held the next candidate back. */
  predicate Held(cands: seq<Provider>, called: seq<Provider>) {
    |called| < |cands| && (called == [] || GoesOn(called[|called| - 1]))
  }

  /** What a gate that does not let through is reported as. */
  function GateFailure(gate: Gate): Failure {
    if gate.Skip? && gate.failure.Some? then gate.failure.value else BudgetExceeded
  }

  /** Why no evidence came, when none did. */
  function Reason(cands: seq<Provider>, r: Request, value: real, threshold: real, called: seq<Provider>): Failure {
    if Held(cands, called) then GateFailure(DecideAcquire(r, true, cands[|called|].estimate, value, threshold))
    else if called == [] then NotEntitled
    else FailureOf(called[|called| - 1])
  }

  /** The loop of `gated_acquire`. */
  method Climb(cands: seq<Provider>, r: Request, value: real, threshold: real)
    returns (called: seq<Provider>, spent: real)
    ensures Climbed(cands, r, value, threshold, called) && spent == Spent(called)
  {
    called, spent := [], 0.0;
    while |called| < |cands|
      invariant called <= cands && spent == Spent(called)
      invariant forall k :: 0 <= k < |called| ==> Passes(called[k], r, value, threshold) && GoesOn(called[k])
    {
      var p := cands[|called|];
      if DecideAcquire(r, true, p.estimate, value, threshold).Skip? {
        return;
      }
      assert (called + [p])[..|called|] == called;
      called, spent := called + [p], spent + p.answer.cost;
      if Succeeds(p) || !Retryable(FailureOf(p)) {
        return;
      }
    }
  }

  /** `gated_acquire`; the providers called stand for the trace. */
  method GatedAcquire(ps: seq<Provider>, r: Request, value: real, threshold: real)
    returns (result: Answer, record: Evidence, called: seq<Provider>)
    ensures Climbed(Match(ps, r), r, value, threshold, called)
    ensures result == if called != [] && Succeeds(called[|called| - 1])
                      then Answer(true, called[|called| - 1].answer.artifacts, None, Spent(called))
                      else NoEvidence(Reason(Match(ps, r), r, value, threshold, called), Spent(called))
    ensures record.caseId == r.caseId && record.capability == r.capability && record.cost == Spent(called)
    ensures record.received == result.ok && record.provider == (if result.ok then called[|called| - 1].id else "")
    ensures record.requested == (result.ok || (called != [] && !Held(Match(ps, r), called)))
  {
    var candidates := Match(ps, r);
    var spent;
    called, spent := Climb(candidates, r, value, threshold);
    if Held(candidates, called) {
      var gate := DecideAcquire(r, true, candidates[|called|].estimate, value, threshold);
      return NoEvidence(GateFailure(gate), spent), Entry(r, "", false, false, spent), called;
    }
    if called == [] {
      return NoEvidence(NotEntitled, 0.0), Entry(r, "", false, false, 0.0), called;
    }
    var last := called[|called| - 1];
    if Succeeds(last) {
      return Answer(true, last.answer.artifacts, None, spent), Entry(r, last.id, true, true, spent), called;
    }
    return NoEvidence(FailureOf(last), spent), Entry(r, "", true, false, spent), called;
  }

  // ---- what a run of the ladder means ----

  /** Which providers are called is settled by the candidates: none is skipped, and none called out of turn. */
  lemma ClimbIsSettled(cands: seq<Provider>, r: Request, value: real, threshold: real, a: seq<Provider>, b: seq<Provider>)
    requires Climbed(cands, r, value, threshold, a) && Climbed(cands, r, value, threshold, b)
    ensures a == b
  {
    ClimbNotShorter(cands, r, value, threshold, a, b);
    ClimbNotShorter(cands, r, value, threshold, b, a);
    assert a == cands[..|a|] && b == cands[..|b|];
  }

  lemma ClimbNotShorter(cands: seq<Provider>, r: Request, value: real, threshold: real, a: seq<Provider>, b: seq<Provider>)
    requires Climbed(cands, r, value, threshold, a) && Climbed(cands, r, value, threshold, b)
    ensures |b| <= |a|
  {
    assert forall i :: 0 <= i < |a| ==> a[i] == cands[i];
    assert forall i :: 0 <= i < |b| ==> b[i] == cands[i];
  }

  /** When the gate holds the ladder back, either nothing was called at all, the purpose or the value being wanting, or every
      provider not called is unaffordable. */
  lemma HeldMeansUnaffordable(ps: seq<Provider>, r: Request, value: real, threshold: real, called: seq<Provider>)
    requires Climbed(Match(ps, r), r, value, threshold, called) && Held(Match(ps, r), called)
    ensures called == [] || (PurposeStated(r) && value >= threshold)
    ensures PurposeStated(r) && value >= threshold ==>
      forall p :: p in Match(ps, r)[|called|..] ==> p.estimate > r.maxCost
  {
    var cands := Match(ps, r);
    MatchInOrder(ps, r);
    AcquireIff(r, true, cands[|called|].estimate, value, threshold);
    if called != [] {
      AcquireIff(r, true, called[0].estimate, value, threshold);
    }
    if PurposeStated(r) && value >= threshold {
      forall p | p in cands[|called|..]
        ensures p.estimate > r.maxCost
      {
        var k :| 0 <= k < |cands[|called|..]| && cands[|called|..][k] == p;
        assert k > 0 ==> Cheaper(cands[|called|], cands[|called| + k]);
      }
    }
  }

  /** A refusal for a missing purpose or for too little value is reported as one for budget, whatever the budget. */
  lemma HeldIsReportedAsBudget(cands: seq<Provider>, r: Request, value: real, threshold: real, called: seq<Provider>)
    requires Climbed(cands, r, value, threshold, called) && Held(cands, called)
    ensures Reason(cands, r, value, threshold, called) == BudgetExceeded
  {
    AcquireIff(r, true, cands[|called|].estimate, value, threshold);
  }

  /** Evidence comes from the cheapest provider that gives it: all those before it were called and failed in a way that
      allows another try. */
  lemma FoundIsCheapest(ps: seq<Provider>, r: Request, value: real, threshold: real, called: seq<Provider>, p: Provider)
    requires Climbed(Match(ps, r), r, value, threshold, called) && called != [] && Succeeds(called[|called| - 1])
    requires p in ps && Offers(p, r) && p.estimate < called[|called| - 1].estimate
    ensures p in called && GoesOn(p)
  {
    var cands, n := Match(ps, r), |called| - 1;
    MatchInOrder(ps, r);
    assert cands[n] == called[n] && forall j :: n < j < |cands| ==> Cheaper(cands[n], cands[j]);
    var k :| 0 <= k < |cands| && cands[k] == p;
    assert called[k] == p;
  }

  // ---- spending ----

  function Estimated(called: seq<Provider>): real {
    if called == [] then 0.0 else Estimated(called[..|called| - 1]) + called[|called| - 1].estimate
  }

  // ---- when the budget is kept ----

  /** Quotes with the answers that calling their providers would give. */
  function Answered(ps: seq<Provider>, answer: Provider -> Answer): (r: seq<Provider>)
    ensures |r| == |ps| && forall i :: 0 <= i < |r| ==> r[i] == ps[i].(answer := answer(ps[i]))
  {
    Image(ps, (p: Provider) => p.(answer := answer(p)))
  }

  ghost predicate Honest(ps: seq<Provider>) {
    forall i :: 0 <= i < |ps| ==> ps[i].answer.cost <= ps[i].estimate
  }

  /** Whatever the providers answer, as long as none charges more than it quoted, a run stays within the budget. */
  ghost predicate StaysWithin(ps: seq<Provider>, r: Request, value: real, threshold: real) {
    forall answer, called ::
      Honest(Answered(ps, answer)) && Climbed(Match(Answered(ps, answer), r), r, value, threshold, called) ==> Spent(called) <= r.maxCost
  }

  /** The candidates whose own quote is within the budget: the first ones, cheapest first. */
  function Affordable(cands: seq<Provider>, maxCost: real): (out: seq<Provider>)
    ensures out <= cands && forall i :: 0 <= i < |out| ==> out[i].estimate <= maxCost
    ensures |out| < |cands| ==> cands[|out|].estimate > maxCost
  {
    if cands == [] || cands[0].estimate > maxCost then []
    else
      var rest := Affordable(cands[1..], maxCost);
      assert [cands[0]] + rest <= cands;
      [cands[0]] + rest
  }

  lemma {:induction false} OfferingAnswered(ps: seq<Provider>, answer: Provider -> Answer, r: Request)
    ensures Offering(Answered(ps, answer), r) == Answered(Offering(ps, r), answer)
  {
    if ps != [] {
      OfferingAnswered(ps[1..], answer, r);
      assert Answered(ps, answer)[1..] == Answered(ps[1..], answer);
      assert Offers(Answered(ps, answer)[0], r) == Offers(ps[0], r);
    }
  }

  /** Answers do not change who is a candidate, nor in which order. */
  lemma MatchAnswered(ps: seq<Provider>, answer: Provider -> Answer, r: Request)
    ensures Match(Answered(ps, answer), r) == Answered(Match(ps, r), answer)
  {
    OfferingAnswered(ps, answer, r);
    SortImage(Offering(ps, r), (p: Provider) => p.(answer := answer(p)), Cheaper, Cheaper);
  }

  lemma {:induction false} SameEstimates(a: seq<Provider>, b: seq<Provider>)
    requires |a| == |b| && forall i :: 0 <= i < |a| ==> a[i].estimate == b[i].estimate
    ensures Estimated(a) == Estimated(b)
  {
    if a != [] {
      SameEstimates(a[..|a| - 1], b[..|b| - 1]);
    }
  }

  lemma {:induction false} LongerCostsMore(a: seq<Provider>, n: nat)
    requires n <= |a| && forall i :: 0 <= i < |a| ==> a[i].estimate >= 0.0
    ensures Estimated(a[..n]) <= Estimated(a)
  {
    if n == |a| {
      assert a[..n] == a;
    } else {
      LongerCostsMore(a[..|a| - 1], n);
      assert a[..|a| - 1][..n] == a[..n];
    }
  }

  lemma {:induction false} HonestSpends(called: seq<Provider>)
    requires Honest(called)
    ensures Spent(called) <= Estimated(called)
  {
    if called != [] {
      HonestSpends(called[..|called| - 1]);
    }
  }

  lemma ClimbedIsAffordable(cands: seq<Provider>, r: Request, value: real, threshold: real, called: seq<Provider>)
    requires Climbed(cands, r, value, threshold, called)
    ensures called <= Affordable(cands, r.maxCost)
  {
    var all := Affordable(cands, r.maxCost);
    assert forall i :: 0 <= i < |called| ==> called[i] == cands[i] && Passes(called[i], r, value, threshold);
    if |all| < |called| {
      AcquireIff(r, true, called[|all|].estimate, value, threshold);
    }
    assert forall i :: 0 <= i < |called| ==> called[i] == all[i];
  }

  /** An honest run spends no more than the quotes of the candidates that are affordable each on its own. */
  lemma ClimbSpendsAtMost(cands: seq<Provider>, r: Request, value: real, threshold: real, called: seq<Provider>)
    requires Climbed(cands, r, value, threshold, called) && Honest(cands)
    requires forall i :: 0 <= i < |cands| ==> cands[i].estimate >= 0.0
    ensures Spent(called) <= Estimated(Affordable(cands, r.maxCost))
  {
    var all := Affordable(cands, r.maxCost);
    ClimbedIsAffordable(cands, r, value, threshold, called);
    assert called == all[..|called|];
    HonestSpends(called);
    LongerCostsMore(all, |called|);
  }

  /** The answer of a provider that is down and charges its quote all the same. */
  function Down(p: Provider): Answer {
    Answer(false, [], Some(Unavailable), p.estimate)
  }

  /** When every candidate is down, all the affordable ones are called and charge their quotes. */
  lemma DownLadder(cands: seq<Provider>, r: Request, value: real, threshold: real)
    requires PurposeStated(r) && value >= threshold
    ensures var down := Answered(cands, Down);
      && Climbed(down, r, value, threshold, Affordable(down, r.maxCost))
      && Spent(Affordable(down, r.maxCost)) == Estimated(Affordable(down, r.maxCost))
  {
    var down := Answered(cands, Down);
    var called := Affordable(down, r.maxCost);
    assert forall i :: 0 <= i < |down| ==> GoesOn(down[i]) && down[i].answer.cost == down[i].estimate;
    assert forall i :: 0 <= i < |called| ==> called[i] == down[i];
    forall i | 0 <= i < |called|
      ensures Passes(called[i], r, value, threshold)
    {
      AcquireIff(r, true, called[i].estimate, value, threshold);
    }
    if |called| < |down| {
      AcquireIff(r, true, down[|called|].estimate, value, threshold);
    }
    QuotedSpends(called);
  }

  lemma {:induction false} QuotedSpends(called: seq<Provider>)
    requires forall i :: 0 <= i < |called| ==> called[i].answer.cost == called[i].estimate
    ensures Spent(called) == Estimated(called)
  {
    if called != [] {
      QuotedSpends(called[..|called| - 1]);
    }
  }

  lemma {:induction false} AffordableAnswered(cands: seq<Provider>, answer: Provider -> Answer, maxCost: real)
    ensures Estimated(Affordable(Answered(cands, answer), maxCost)) == Estimated(Affordable(cands, maxCost))
  {
    var a, b := Affordable(Answered(cands, answer), maxCost), Affordable(cands, maxCost);
    assert forall i :: 0 <= i < |a| ==> a[i] == Answered(cands, answer)[i];
    assert forall i :: 0 <= i < |b| ==> b[i] == cands[i];
    assert |a| == |b|;
    SameEstimates(a, b);
  }

  /** The gate compares each quote with the whole budget, not with what is left of it. So honest providers keep a run within the
      budget, whatever they answer, exactly when the quotes of the candidates affordable each on its own sum to no more. */
  lemma StaysWithinIff(ps: seq<Provider>, r: Request, value: real, threshold: real)
    requires PurposeStated(r) && value >= threshold && forall p :: p in ps ==> p.estimate >= 0.0
    ensures StaysWithin(ps, r, value, threshold) <==> Estimated(Affordable(Match(ps, r), r.maxCost)) <= r.maxCost
  {
    if Estimated(Affordable(Match(ps, r), r.maxCost)) <= r.maxCost {
      forall answer, called | Honest(Answered(ps, answer)) && Climbed(Match(Answered(ps, answer), r), r, value, threshold, called)
        ensures Spent(called) <= r.maxCost
      {
        HonestWithin(ps, r, value, threshold, answer, called);
      }
    }
    if StaysWithin(ps, r, value, threshold) {
      DownWithin(ps, r, value, threshold);
    }
  }

  lemma DownWithin(ps: seq<Provider>, r: Request, value: real, threshold: real)
    requires PurposeStated(r) && value >= threshold && StaysWithin(ps, r, value, threshold)
    ensures Estimated(Affordable(Match(ps, r), r.maxCost)) <= r.maxCost
  {
    var down := Answered(ps, Down);
    MatchAnswered(ps, Down, r);
    DownLadder(Match(ps, r), r, value, threshold);
    AffordableAnswered(Match(ps, r), Down, r.maxCost);
    assert Honest(down);
    assert Climbed(Match(down, r), r, value, threshold, Affordable(Match(down, r), r.maxCost));
  }

  lemma HonestWithin(
    ps: seq<Provider>, r: Request, value: real, threshold: real, answer: Provider -> Answer, called: seq<Provider>)
    requires forall p :: p in ps ==> p.estimate >= 0.0
    requires Honest(Answered(ps, answer)) && Climbed(Match(Answered(ps, answer), r), r, value, threshold, called)
    ensures Spent(called) <= Estimated(Affordable(Match(ps, r), r.maxCost))
  {
    MatchAnswered(ps, answer, r);
    AffordableAnswered(Match(ps, r), answer, r.maxCost);
    var given, cands := Answered(ps, answer), Match(Answered(ps, answer), r);
    MatchInOrder(given, r);
    forall i | 0 <= i < |cands|
      ensures cands[i].answer.cost <= cands[i].estimate && cands[i].estimate >= 0.0
    {
      assert cands[i] in cands;
      var j :| 0 <= j < |given| && given[j] == cands[i];
      assert ps[j] in ps;
    }
    ClimbSpendsAtMost(cands, r, value, threshold, called);
  }

  /** Two candidates that each quote the whole budget are enough to overspend it. */
  lemma TwoQuotesOverspend(r: Request, value: real, threshold: real, p: Provider, q: Provider)
    requires PurposeStated(r) && value >= threshold && r.maxCost > 0.0
    requires Offers(p, r) && Offers(q, r) && p.estimate == q.estimate == r.maxCost
    ensures !StaysWithin([p, q], r, value, threshold)
  {
    BothOffered(p, q, r);
    BothEstimated(p, q);
    StaysWithinIff([p, q], r, value, threshold);
  }

  lemma BothOffered(p: Provider, q: Provider, r: Request)
    requires Offers(p, r) && Offers(q, r) && p.estimate == q.estimate == r.maxCost
    ensures Match([p, q], r) == [p, q] && Affordable([p, q], r.maxCost) == [p, q]
  {
    assert [p, q][1..] == [q] && [q][1..] == [];
    assert Offering([], r) == [] && Offering([q], r) == [q] && Offering([p, q], r) == [p, q];
    assert Sort([q], Cheaper) == [q] && Sort([p, q], Cheaper) == Insert(p, [q], Cheaper);
    assert Affordable([], r.maxCost) == [] && Affordable([q], r.maxCost) == [q];
  }

  lemma BothEstimated(p: Provider, q: Provider)
    ensures Estimated([p, q]) == p.estimate + q.estimate
  {
    assert [p, q][..1] == [p] && [p][..0] == [];
    assert Estimated([]) == 0.0;
    assert Estimated([p]) == Estimated([p][..0]) + p.estimate;
  }
}
