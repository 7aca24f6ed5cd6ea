/** Combining security decisions, deny-wins (`SecurityDecision.combine` in runtime_contracts/protocol/security.py). */
module Decisions {
  import opened Text

  datatype Verdict = Allow | Attestation | Isolation | StrongerAuth | RequireReview | Deny

  datatype Decision = Decision(
    verdict: Verdict, subject: string, resource: string, reason: string, obligations: seq<string>, evidence: seq<string>,
    decidedBy: string)

  const UNOPPOSED := Decision(Allow, "", "", "", [], [], "")

  function Rank(v: Verdict): nat {
    match v
    case Allow => 0
    case Attestation => 1
    case Isolation => 2
    case StrongerAuth => 3
    case RequireReview => 4
    case Deny => 5
  }

  /** The first of the most severe. */
  function Worst(ds: seq<Decision>): (w: Decision)
    requires ds != []
    ensures w in ds && forall d :: d in ds ==> Rank(d.verdict) <= Rank(w.verdict)
  {
    var last := ds[|ds| - 1];
    if |ds| == 1 then last
    else
      var front := ds[..|ds| - 1];
      assert ds == front + [last];
      var w := Worst(front);
      if Rank(last.verdict) > Rank(w.verdict) then last else w
  }

  function Obligations(ds: seq<Decision>): set<string> {
    set d, o | d in ds && o in d.obligations :: o
  }

  function Evidence(ds: seq<Decision>): set<string> {
    set d, e | d in ds && e in d.evidence :: e
  }

  function Combine(ds: seq<Decision>): (r: Decision)
    ensures forall d :: d in ds ==> Rank(d.verdict) <= Rank(r.verdict)
    ensures r.verdict == Allow <==> forall d :: d in ds ==> d.verdict == Allow
    ensures forall o :: o in r.obligations <==> exists d :: d in ds && o in d.obligations
  {
    if ds == [] then UNOPPOSED
    else
      var worst := Worst(ds);
      worst.(obligations := Ascending(Obligations(ds)), evidence := Ascending(Evidence(ds)))
  }

  ghost predicate Has(ds: seq<Decision>, v: Verdict) {
    exists d :: d in ds && d.verdict == v
  }

  /** The most severe verdict governs: DENY before REQUIRE_REVIEW before STRONGER_AUTH before ISOLATION before ATTESTATION. */
  lemma MostSevereGoverns(ds: seq<Decision>)
    ensures Combine(ds).verdict
         == if Has(ds, Deny) then Deny
            else if Has(ds, RequireReview) then RequireReview
            else if Has(ds, StrongerAuth) then StrongerAuth
            else if Has(ds, Isolation) then Isolation
            else if Has(ds, Attestation) then Attestation
            else Allow
  {
    if ds != [] {
      var w := Worst(ds);
      assert w in ds && Has(ds, w.verdict);
      assert forall d :: d in ds ==> Rank(d.verdict) <= Rank(w.verdict);
    }
  }

  /** The decision that governs is the first with that verdict; with it go all obligations and all evidence, sorted. */
  lemma {:induction false} FirstGoverns(ds: seq<Decision>) returns (i: nat)
    requires ds != []
    ensures i < |ds| && (forall j :: 0 <= j < i ==> ds[j].verdict != Combine(ds).verdict)
    ensures Combine(ds) == ds[i].(obligations := Combine(ds).obligations, evidence := Combine(ds).evidence)
    ensures Increasing(Combine(ds).obligations) && Increasing(Combine(ds).evidence)
    ensures forall o :: o in Combine(ds).obligations <==> exists d :: d in ds && o in d.obligations
    ensures forall e :: e in Combine(ds).evidence <==> exists d :: d in ds && e in d.evidence
  {
    i := FirstWorst(ds);
  }

  lemma {:induction false} FirstWorst(ds: seq<Decision>) returns (i: nat)
    requires ds != []
    ensures i < |ds| && ds[i] == Worst(ds) && forall j :: 0 <= j < i ==> Rank(ds[j].verdict) < Rank(Worst(ds).verdict)
  {
    var n := |ds| - 1;
    if n == 0 {
      i := 0;
    } else {
      var front := ds[..n];
      i := FirstWorst(front);
      assert forall j :: 0 <= j < n ==> front[j] == ds[j] && front[j] in front;
      if Rank(ds[n].verdict) > Rank(Worst(front).verdict) {
        i := n;
      }
    }
  }

  lemma {:induction false} WorstSplits(a: seq<Decision>, b: seq<Decision>)
    requires a != [] && b != []
    ensures Worst(a + b) == if Rank(Worst(b).verdict) > Rank(Worst(a).verdict) then Worst(b) else Worst(a)
    decreases |b|
  {
    var front, last := b[..|b| - 1], b[|b| - 1];
    assert (a + b)[..|a + b| - 1] == a + front;
    if front == [] {
      assert a + front == a;
    } else {
      WorstSplits(a, front);
    }
  }

  /** Combining in two stages changes nothing, as long as the first stage has a decision in it: the governing decision,
      every obligation and every piece of evidence come out the same. */
  lemma {:induction false} CombineInStages(a: seq<Decision>, b: seq<Decision>)
    requires a != []
    ensures Combine([Combine(a), Combine(b)]) == Combine(a + b)
  {
    var x, y := Combine(a), Combine(b);
    assert [x, y][..1] == [x];
    assert [x] + [y] == [x, y];
    WorstSplits([x], [y]);
    if b == [] {
      assert a + b == a;
    } else {
      WorstSplits(a, b);
    }
    StagedTexts(a, b);
  }

  lemma StagedTexts(a: seq<Decision>, b: seq<Decision>)
    ensures Obligations([Combine(a), Combine(b)]) == Obligations(a + b)
    ensures Evidence([Combine(a), Combine(b)]) == Evidence(a + b)
  {
    TextsJoin(a, b);
    PairTexts(Combine(a), Combine(b));
    CombinedTexts(a);
    CombinedTexts(b);
  }

  lemma PairTexts(x: Decision, y: Decision)
    ensures Obligations([x, y]) == Obligations([x]) + Obligations([y])
    ensures Evidence([x, y]) == Evidence([x]) + Evidence([y])
  {
    TextsJoin([x], [y]);
    assert [x] + [y] == [x, y];
  }

  lemma TextsJoin(a: seq<Decision>, b: seq<Decision>)
    ensures Obligations(a + b) == Obligations(a) + Obligations(b)
    ensures Evidence(a + b) == Evidence(a) + Evidence(b)
  {
    assert forall d :: d in a + b <==> d in a || d in b;
  }

  lemma CombinedTexts(ds: seq<Decision>)
    ensures Obligations([Combine(ds)]) == Obligations(ds) && Evidence([Combine(ds)]) == Evidence(ds)
  {
    var x := Combine(ds);
    assert forall d :: d in [x] <==> d == x;
    assert forall o :: o in x.obligations <==> o in Obligations(ds);
    assert forall e :: e in x.evidence <==> e in Evidence(ds);
    assert x in [x];
  }

  /** With nothing in the first stage, combining in stages changes nothing exactly when the second stage is empty too, or does
      not allow, or is governed by a decision that says as little as the stand-in. */
  lemma EmptyStageIff(b: seq<Decision>)
    ensures Combine([Combine([]), Combine(b)]) == Combine(b)
       <==> b == [] || Combine(b).verdict != Allow || SaysNothing(Combine(b))
  {
    var y := Combine(b);
    assert [UNOPPOSED, y][..1] == [UNOPPOSED];
    StagedTexts([], b);
    assert [] + b == b;
  }

  /** The governing decision says as little as the stand-in does. */
  predicate SaysNothing(d: Decision) {
    d.subject == "" && d.resource == "" && d.reason == "" && d.decidedBy == ""
  }

  /** Exactly when combining in two stages changes nothing. */
  lemma StagesAgreeIff(a: seq<Decision>, b: seq<Decision>)
    ensures Combine([Combine(a), Combine(b)]) == Combine(a + b)
       <==> a != [] || b == [] || Combine(b).verdict != Allow || SaysNothing(Combine(b))
  {
    if a == [] {
      EmptyStageIff(b);
      assert a + b == b;
    } else {
      CombineInStages(a, b);
    }
  }
}
