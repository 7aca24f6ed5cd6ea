/** What a run manifest may claim (runtime_contracts/qa/manifest.py), the accounting of its assertions
    (runtime_contracts/qa/integrity.py) and the check against the frozen spec (runtime_contracts/qa/conformance.py). */
module Manifest {
  import opened Wrappers

  datatype Verdict = Pass | Fail | Indeterminate
  datatype Outcome = PassOutcome | ProductFail | TestDefect | EnvironmentFail | Inconclusive

  datatype Assertion = Assertion(id: string, executor: string, expectedHash: string)

  /** A frozen spec; its reference and the hash of its assertions are carried, not recomputed. */
  datatype Spec = Spec(ref: string, assertions: seq<Assertion>, setHash: string)

  datatype AssertionResult = AssertionResult(
    id: string, setHash: string, expectedHash: string, executor: string, verdict: Verdict, deterministic: bool)

  datatype StepResult = StepResult(stepId: string, ok: bool, satisfied: bool)

  datatype FaultEvent = FaultEvent(id: string, detected: bool, postconditionVerified: bool)

  datatype RunManifest = RunManifest(
    specRef: string, setHash: string, declared: seq<string>, executed: seq<string>, skipped: seq<string>,
    outcome: Outcome, outcomeReason: Option<string>, results: seq<AssertionResult>, steps: seq<StepResult>,
    faults: seq<FaultEvent>, recoveryEnabled: bool, modelRecoveryEnabled: bool, modelRecorded: bool,
    plannerRecorded: bool, planHashRecorded: bool)

  const INTEGRITY := "ASSERTION_INTEGRITY"

  function AsSet(ids: seq<string>): set<string> {
    set id | id in ids
  }

  function ResultIds(results: seq<AssertionResult>): set<string> {
    set r | r in results :: r.id
  }

  // ---- the accounting ----

  datatype Violation =
    | ExecutedNotDeclared
    | SkippedNotDeclared
    | ExecutedAndSkipped
    | DeclaredUnaccounted
    | ResultsDoNotMatchExecuted
    | ResultForADifferentSet

  /** Every declared assertion is either executed or skipped and never both, nothing else is, the results are those of the
      executed ones, and all were obtained under the pinned set. */
  ghost predicate Balanced(m: RunManifest) {
    && AsSet(m.declared) == AsSet(m.executed) + AsSet(m.skipped)
    && AsSet(m.executed) !! AsSet(m.skipped)
    && ResultIds(m.results) == AsSet(m.executed)
    && forall r :: r in m.results ==> r.setHash == m.setHash
  }

  /** The accounting, assertion by assertion: one that is declared is executed or skipped, not both; one that is not is neither; and
      exactly those executed have results, all under the pinned set. */
  lemma BalancedIff(m: RunManifest)
    ensures Balanced(m)
       <==> && (forall id :: id in m.declared <==> id in m.executed || id in m.skipped)
            && (forall id :: !(id in m.executed && id in m.skipped))
            && (forall id :: id in m.executed <==> exists r :: r in m.results && r.id == id)
            && forall r :: r in m.results ==> r.setHash == m.setHash
  {
    forall id
      ensures id in m.declared <==> id in AsSet(m.declared)
      ensures id in m.executed <==> id in AsSet(m.executed)
      ensures id in m.skipped <==> id in AsSet(m.skipped)
      ensures (exists r :: r in m.results && r.id == id) <==> id in ResultIds(m.results)
    {}
    if Balanced(m) {
      forall id
        ensures !(id in m.executed && id in m.skipped)
      {
        assert id in AsSet(m.executed) && id in AsSet(m.skipped) ==> id in AsSet(m.executed) * AsSet(m.skipped);
      }
    }
  }

  method CoverageViolations(declared: seq<string>, executed: seq<string>, skipped: seq<string>)
    returns (found: seq<Violation>)
    ensures found == []
       <==> AsSet(declared) == AsSet(executed) + AsSet(skipped) && AsSet(executed) !! AsSet(skipped)
  {
    var d, e, s := AsSet(declared), AsSet(executed), AsSet(skipped);
    found := [];
    if e - d != {} {
      found := found + [ExecutedNotDeclared];
    }
    if s - d != {} {
      found := found + [SkippedNotDeclared];
    }
    if e * s != {} {
      found := found + [ExecutedAndSkipped];
    }
    if d - e - s != {} {
      found := found + [DeclaredUnaccounted];
    }
    CoverageIff(d, e, s);
  }

  lemma CoverageIff(d: set<string>, e: set<string>, s: set<string>)
    ensures e - d == {} && s - d == {} && e * s == {} && d - e - s == {} <==> d == e + s && e !! s
  {
    if e - d == {} && s - d == {} && d - e - s == {} {
      assert forall x :: x in d ==> x !in d - e - s;
      assert forall x :: x in e ==> x !in e - d;
      assert forall x :: x in s ==> x !in s - d;
    }
  }

  method IntegrityViolations(m: RunManifest) returns (found: seq<Violation>)
    ensures found == [] <==> Balanced(m)
  {
    found := CoverageViolations(m.declared, m.executed, m.skipped);
    if ResultIds(m.results) != AsSet(m.executed) {
      found := found + [ResultsDoNotMatchExecuted];
    }
    if exists r :: r in m.results && r.setHash != m.setHash {
      found := found + [ResultForADifferentSet];
    }
  }

  // ---- the guards ----

  /** The guards in their order. */
  ghost predicate Valid(m: RunManifest) {
    && (m.modelRecoveryEnabled ==> m.recoveryEnabled && m.modelRecorded)
    && (m.plannerRecorded <==> m.planHashRecorded)
    && (forall i, j :: 0 <= i < j < |m.faults| ==> m.faults[i].id != m.faults[j].id)
    && (if Balanced(m) then m.outcomeReason != Some(INTEGRITY) else m.outcome == Inconclusive && m.outcomeReason == Some(INTEGRITY))
    && (m.outcome == PassOutcome ==> Earned(m))
    && (m.outcome == ProductFail ==> exists r :: r in m.results && r.verdict == Fail)
  }

  /** Something was declared, nothing was skipped, everything declared was executed and passed deterministically, every
      step ended well, and every detected fault was recovered by its own postcondition. */
  ghost predicate Earned(m: RunManifest) {
    && m.declared != [] && m.skipped == [] && AsSet(m.executed) == AsSet(m.declared)
    && (forall r :: r in m.results ==> r.verdict == Pass && r.deterministic)
    && (forall s :: s in m.steps ==> s.ok && s.satisfied)
    && (forall f :: f in m.faults && f.detected ==> f.postconditionVerified)
  }

  method PassIsEarned(m: RunManifest) returns (ok: bool)
    ensures ok <==> (m.outcome == PassOutcome ==> Earned(m))
  {
    if m.outcome != PassOutcome {
      return true;
    }
    var why := [];
    if m.declared == [] {
      why := why + ["no assertion declared"];
    }
    if m.skipped != [] {
      why := why + ["an assertion was skipped"];
    }
    if AsSet(m.executed) != AsSet(m.declared) {
      why := why + ["not every declared assertion was executed"];
    }
    if exists r :: r in m.results && (r.verdict != Pass || !r.deterministic) {
      why := why + ["an assertion did not pass deterministically"];
    }
    if exists s :: s in m.steps && (!s.ok || !s.satisfied) {
      why := why + ["a step did not end well"];
    }
    if exists f :: f in m.faults && f.detected && !f.postconditionVerified {
      why := why + ["a detected fault was not recovered"];
    }
    ok := why == [];
  }

  method Validate(m: RunManifest) returns (ok: bool)
    ensures ok <==> Valid(m)
  {
    if m.modelRecoveryEnabled && !(m.recoveryEnabled && m.modelRecorded) {
      return false;
    }
    if m.plannerRecorded != m.planHashRecorded {
      return false;
    }
    if exists i, j :: 0 <= i < j < |m.faults| && m.faults[i].id == m.faults[j].id {
      return false;
    }
    var violations := IntegrityViolations(m);
    if violations != [] && (m.outcome != Inconclusive || m.outcomeReason != Some(INTEGRITY)) {
      return false;
    }
    if violations == [] && m.outcomeReason == Some(INTEGRITY) {
      return false;
    }
    var earned := PassIsEarned(m);
    if !earned {
      return false;
    }
    ok := m.outcome == ProductFail ==> exists r :: r in m.results && r.verdict == Fail;
  }

  /** What a manifest is refused for: recovery by a model without recovery or without a record of the model, a planner without a
      plan hash or the reverse, a fault listed twice, accounting and its reason at odds, a PASS that is not earned, and a product
      failure without a failed result. */
  lemma RefusedIff(m: RunManifest)
    ensures !Valid(m)
       <==> || (m.modelRecoveryEnabled && !(m.recoveryEnabled && m.modelRecorded))
            || m.plannerRecorded != m.planHashRecorded
            || (exists i, j :: 0 <= i < j < |m.faults| && m.faults[i].id == m.faults[j].id)
            || (Balanced(m) && m.outcomeReason == Some("ASSERTION_INTEGRITY"))
            || (!Balanced(m) && !(m.outcome == Inconclusive && m.outcomeReason == Some("ASSERTION_INTEGRITY")))
            || (m.outcome == PassOutcome
                && (m.declared == [] || m.skipped != []
                    || (exists id :: (id in m.executed) != (id in m.declared))
                    || (exists r :: r in m.results && (r.verdict != Pass || !r.deterministic))
                    || (exists s :: s in m.steps && !(s.ok && s.satisfied))
                    || exists f :: f in m.faults && f.detected && !f.postconditionVerified))
            || (m.outcome == ProductFail && forall r :: r in m.results ==> r.verdict != Fail)
  {
    SameIdsIff(m.executed, m.declared);
  }

  lemma SameIdsIff(a: seq<string>, b: seq<string>)
    ensures AsSet(a) == AsSet(b) <==> forall id :: id in a <==> id in b
  {
    forall id
      ensures (id in a <==> id in AsSet(a)) && (id in b <==> id in AsSet(b))
    {}
  }

  /** Broken accounting has one outcome and one reason, and the reason is given for nothing else. */
  lemma BrokenAccountingIff(m: RunManifest)
    requires Valid(m)
    ensures !Balanced(m) <==> m.outcomeReason == Some(INTEGRITY)
    ensures !Balanced(m) ==> m.outcome == Inconclusive
  {}

  // ---- against the spec ----

  function AssertionIds(assertions: seq<Assertion>): set<string> {
    set a | a in assertions :: a.id
  }

  predicate Matches(r: AssertionResult, a: Assertion) {
    r.id == a.id && r.executor == a.executor && r.expectedHash == a.expectedHash
  }

  /** A spec has at least one assertion, and no two with the same id. */
  predicate WellFormed(spec: Spec) {
    spec.assertions != [] && forall i, j :: 0 <= i < j < |spec.assertions| ==> spec.assertions[i].id != spec.assertions[j].id
  }

  /** The manifest is of this very spec, and every result is one of its assertions evaluated as frozen. */
  ghost predicate Conforms(m: RunManifest, spec: Spec) {
    && m.specRef == spec.ref && m.setHash == spec.setHash
    && AsSet(m.declared) == AssertionIds(spec.assertions)
    && forall r :: r in m.results ==> exists a :: a in spec.assertions && Matches(r, a)
  }

  method ById(assertions: seq<Assertion>) returns (byId: map<string, Assertion>)
    requires forall i, j :: 0 <= i < j < |assertions| ==> assertions[i].id != assertions[j].id
    ensures forall a :: a in assertions ==> a.id in byId && byId[a.id] == a
    ensures forall id :: id in byId ==> byId[id] in assertions && byId[id].id == id
  {
    byId := map[];
    for i := 0 to |assertions|
      invariant forall k :: 0 <= k < i ==> assertions[k].id in byId && byId[assertions[k].id] == assertions[k]
      invariant forall id :: id in byId ==> byId[id] in assertions && byId[id].id == id
    {
      byId := byId[assertions[i].id := assertions[i]];
    }
  }

  /** `verify_manifest_against_spec`. */
  method VerifyAgainstSpec(m: RunManifest, spec: Spec) returns (ok: bool)
    requires WellFormed(spec)
    ensures ok <==> Conforms(m, spec)
  {
    if m.specRef != spec.ref || m.setHash != spec.setHash {
      return false;
    }
    if AsSet(m.declared) != AssertionIds(spec.assertions) {
      return false;
    }
    var byId := ById(spec.assertions);
    for i := 0 to |m.results|
      invariant forall k :: 0 <= k < i ==> exists a :: a in spec.assertions && Matches(m.results[k], a)
    {
      var r := m.results[i];
      if r.id !in byId || r.executor != byId[r.id].executor || r.expectedHash != byId[r.id].expectedHash {
        assert r in m.results && !exists a :: a in spec.assertions && Matches(r, a);
        return false;
      }
      assert Matches(r, byId[r.id]);
    }
    ok := true;
  }

  /** The results are in one-to-one correspondence with the assertions of the spec, each one its own assertion evaluated as
      frozen, under the frozen set, and passed deterministically. */
  ghost predicate EveryAssertionPassedOnce(m: RunManifest, spec: Spec) {
    && |m.results| == |spec.assertions|
    && (forall i, j :: 0 <= i < j < |m.results| ==> m.results[i].id != m.results[j].id)
    && (forall a :: a in spec.assertions ==> exists r :: r in m.results && Matches(r, a))
    && forall r :: r in m.results ==> r.setHash == spec.setHash && r.verdict == Pass && r.deterministic
  }

  /** What a PASS amounts to: a manifest with distinct result ids is accepted as a PASS of a spec exactly when it is of
      that spec, every assertion of it passed, once, as it was frozen, nothing was skipped, every step ended well and every
      detected fault was recovered (and the remaining fields are in order). */
  lemma {:induction false} PassIff(m: RunManifest, spec: Spec)
    requires WellFormed(spec) && m.outcome == PassOutcome
    requires forall i, j :: 0 <= i < j < |m.results| ==> m.results[i].id != m.results[j].id
    ensures Valid(m) && Conforms(m, spec)
       <==> && EveryAssertionPassedOnce(m, spec)
            && m.specRef == spec.ref && m.setHash == spec.setHash && m.skipped == []
            && AsSet(m.declared) == AsSet(m.executed) == AssertionIds(spec.assertions)
            && (forall s :: s in m.steps ==> s.ok && s.satisfied)
            && (forall f :: f in m.faults && f.detected ==> f.postconditionVerified)
            && m.outcomeReason != Some(INTEGRITY)
            && (m.modelRecoveryEnabled ==> m.recoveryEnabled && m.modelRecorded)
            && (m.plannerRecorded <==> m.planHashRecorded)
            && (forall i, j :: 0 <= i < j < |m.faults| ==> m.faults[i].id != m.faults[j].id)
  {
    if Valid(m) && Conforms(m, spec) {
      PassMeansEveryAssertion(m, spec);
    }
    if EveryAssertionPassedOnce(m, spec) && m.skipped == [] && AsSet(m.executed) == AssertionIds(spec.assertions) {
      ResultsAreAssertions(m, spec);
      var a := spec.assertions[0];
      assert a in spec.assertions && a.id in AssertionIds(spec.assertions);
    }
  }

  lemma {:induction false} PassMeansEveryAssertion(m: RunManifest, spec: Spec)
    requires WellFormed(spec) && m.outcome == PassOutcome && Valid(m) && Conforms(m, spec)
    requires forall i, j :: 0 <= i < j < |m.results| ==> m.results[i].id != m.results[j].id
    ensures EveryAssertionPassedOnce(m, spec) && AsSet(m.declared) == AsSet(m.executed) == AssertionIds(spec.assertions)
  {
    assert Balanced(m);
    forall a | a in spec.assertions
      ensures exists r :: r in m.results && Matches(r, a)
    {
      assert a.id in AssertionIds(spec.assertions);
      assert a.id in ResultIds(m.results);
      var r :| r in m.results && r.id == a.id;
      var b :| b in spec.assertions && Matches(r, b);
      SameIdSameAssertion(spec, a, b);
    }
    IdCount(m.results);
    AssertionIdCount(spec.assertions);
    assert ResultIds(m.results) == AssertionIds(spec.assertions);
  }

  lemma SameIdSameAssertion(spec: Spec, a: Assertion, b: Assertion)
    requires WellFormed(spec) && a in spec.assertions && b in spec.assertions && a.id == b.id
    ensures a == b
  {
    var i :| 0 <= i < |spec.assertions| && spec.assertions[i] == a;
    var j :| 0 <= j < |spec.assertions| && spec.assertions[j] == b;
  }

  lemma {:induction false} IdCount(results: seq<AssertionResult>)
    requires forall i, j :: 0 <= i < j < |results| ==> results[i].id != results[j].id
    ensures |ResultIds(results)| == |results|
  {
    if results == [] {
      assert ResultIds(results) == {};
    } else {
      var front, last := results[..|results| - 1], results[|results| - 1];
      IdCount(front);
      assert results == front + [last];
      assert ResultIds(results) == ResultIds(front) + {last.id};
    }
  }

  lemma {:induction false} AssertionIdCount(assertions: seq<Assertion>)
    requires forall i, j :: 0 <= i < j < |assertions| ==> assertions[i].id != assertions[j].id
    ensures |AssertionIds(assertions)| == |assertions|
  {
    if assertions == [] {
      assert AssertionIds(assertions) == {};
    } else {
      var front, last := assertions[..|assertions| - 1], assertions[|assertions| - 1];
      AssertionIdCount(front);
      assert assertions == front + [last];
      assert AssertionIds(assertions) == AssertionIds(front) + {last.id};
    }
  }

  lemma SameSizeSubset(a: set<string>, b: set<string>)
    requires a <= b && |a| == |b|
    ensures a == b
  {
    assert b == a + (b - a);
    assert |b - a| == |b| - |a|;
  }

  lemma ResultsAreAssertions(m: RunManifest, spec: Spec)
    requires WellFormed(spec) && EveryAssertionPassedOnce(m, spec)
    ensures ResultIds(m.results) == AssertionIds(spec.assertions)
    ensures forall r :: r in m.results ==> exists a :: a in spec.assertions && Matches(r, a)
  {
    IdCount(m.results);
    AssertionIdCount(spec.assertions);
    forall id | id in AssertionIds(spec.assertions)
      ensures id in ResultIds(m.results)
    {
      var a :| a in spec.assertions && a.id == id;
      var r :| r in m.results && Matches(r, a);
    }
    SameSizeSubset(AssertionIds(spec.assertions), ResultIds(m.results));
    forall r | r in m.results
      ensures exists a :: a in spec.assertions && Matches(r, a)
    {
      assert r.id in ResultIds(m.results);
      var a :| a in spec.assertions && a.id == r.id;
      var q :| q in m.results && Matches(q, a);
      SameIdSameResult(m, q, r);
    }
  }

  lemma SameIdSameResult(m: RunManifest, q: AssertionResult, r: AssertionResult)
    requires forall i, j :: 0 <= i < j < |m.results| ==> m.results[i].id != m.results[j].id
    requires q in m.results && r in m.results && q.id == r.id
    ensures q == r
  {
    var i :| 0 <= i < |m.results| && m.results[i] == q;
    var j :| 0 <= j < |m.results| && m.results[j] == r;
  }

  // ---- idempotency keys ----

  datatype Receipt = Receipt(runId: string, stepId: string, key: string)

  datatype KeyViolation = KeyChangedAcrossAttempts | KeySharedAcrossSteps

  /** A dict from keys to the sets of values seen with them. */
  ghost predicate Groups(receipts: seq<Receipt>, key: Receipt -> (string, string), value: Receipt -> string,
                         index: map<(string, string), set<string>>) {
    && (forall r :: r in receipts ==> key(r) in index && value(r) in index[key(r)])
    && (forall k, v :: k in index && v in index[k] ==> exists r :: r in receipts && key(r) == k && value(r) == v)
  }

  method Group(receipts: seq<Receipt>, key: Receipt -> (string, string), value: Receipt -> string)
    returns (index: map<(string, string), set<string>>)
    ensures Groups(receipts, key, value, index)
  {
    index := map[];
    for i := 0 to |receipts|
      invariant Groups(receipts[..i], key, value, index)
    {
      var k, v := key(receipts[i]), value(receipts[i]);
      GroupsExtend(receipts[..i], receipts[i], key, value, index);
      assert receipts[..i + 1] == receipts[..i] + [receipts[i]];
      index := Added(index, k, v);
    }
    assert receipts[..|receipts|] == receipts;
  }

  /** `setdefault(k, set()).add(v)`. */
  function Added(index: map<(string, string), set<string>>, k: (string, string), v: string): map<(string, string), set<string>> {
    index[k := (if k in index then index[k] else {}) + {v}]
  }

  lemma GroupsExtend(receipts: seq<Receipt>, r: Receipt, key: Receipt -> (string, string), value: Receipt -> string,
                     index: map<(string, string), set<string>>)
    requires Groups(receipts, key, value, index)
    ensures Groups(receipts + [r], key, value, Added(index, key(r), value(r)))
  {
    var grown, after := receipts + [r], Added(index, key(r), value(r));
    forall k, v | k in after && v in after[k]
      ensures exists q :: q in grown && key(q) == k && value(q) == v
    {
      if k == key(r) && v == value(r) {
        assert r in grown;
      } else {
        var q :| q in receipts && key(q) == k && value(q) == v;
        assert q in grown;
      }
    }
  }

  lemma {:induction false} CrowdedIff(receipts: seq<Receipt>, key: Receipt -> (string, string), value: Receipt -> string,
                   index: map<(string, string), set<string>>)
    requires Groups(receipts, key, value, index)
    ensures (exists k :: k in index && |index[k]| > 1)
       <==> exists r, s :: r in receipts && s in receipts && key(r) == key(s) && value(r) != value(s)
  {
    if k :| k in index && |index[k]| > 1 {
      var v :| v in index[k];
      assert |index[k] - {v}| >= 1;
      var w :| w in index[k] - {v};
      var r :| r in receipts && key(r) == k && value(r) == v;
      var s :| s in receipts && key(s) == k && value(s) == w;
    }
    if r, s :| r in receipts && s in receipts && key(r) == key(s) && value(r) != value(s) {
      var seen := index[key(r)];
      assert {value(r), value(s)} <= seen;
      assert |seen| >= |{value(r), value(s)}| by {
        assert seen == {value(r), value(s)} + (seen - {value(r), value(s)});
      }
    }
  }

  function StepOf(r: Receipt): (string, string) {
    (r.runId, r.stepId)
  }

  function KeyOf(r: Receipt): (string, string) {
    (r.runId, r.key)
  }

  function Step(r: Receipt): string {
    r.stepId
  }

  function Key(r: Receipt): string {
    r.key
  }

  predicate Crowded(index: map<(string, string), set<string>>) {
    exists k :: k in index && |index[k]| > 1
  }

  lemma CrowdedStepsIff(receipts: seq<Receipt>, index: map<(string, string), set<string>>)
    requires Groups(receipts, StepOf, Key, index)
    ensures Crowded(index)
       <==> exists r, s :: r in receipts && s in receipts && r.runId == s.runId && r.stepId == s.stepId && r.key != s.key
  {
    CrowdedIff(receipts, StepOf, Key, index);
  }

  lemma CrowdedKeysIff(receipts: seq<Receipt>, index: map<(string, string), set<string>>)
    requires Groups(receipts, KeyOf, Step, index)
    ensures Crowded(index)
       <==> exists r, s :: r in receipts && s in receipts && r.runId == s.runId && r.key == s.key && r.stepId != s.stepId
  {
    CrowdedIff(receipts, KeyOf, Step, index);
  }

  /** `idempotency_key_violations`: within a run, the key is a function of the step and tells steps apart. */
  method IdempotencyKeyViolations(receipts: seq<Receipt>) returns (found: seq<KeyViolation>)
    ensures KeyChangedAcrossAttempts in found
       <==> exists r, s :: r in receipts && s in receipts && r.runId == s.runId && r.stepId == s.stepId && r.key != s.key
    ensures KeySharedAcrossSteps in found
       <==> exists r, s :: r in receipts && s in receipts && r.runId == s.runId && r.key == s.key && r.stepId != s.stepId
    ensures |found| <= 2
  {
    var keysByStep := Group(receipts, StepOf, Key);
    var stepsByKey := Group(receipts, KeyOf, Step);
    CrowdedStepsIff(receipts, keysByStep);
    CrowdedKeysIff(receipts, stepsByKey);
    found := [];
    if Crowded(keysByStep) {
      found := found + [KeyChangedAcrossAttempts];
    }
    if Crowded(stepsByKey) {
      found := found + [KeySharedAcrossSteps];
    }
  }
}
