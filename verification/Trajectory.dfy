/** The trajectory the Governance Plane correlates (`SecurityTrajectory` and `correlate` in
    runtime_contracts/protocol/telemetry.py), and what its ruling does to a running mission. */
module Trajectory {
  import opened Containment

  /** What correlation reads of an event. `counts` are the counts its records_read side effects carry. */
  datatype Observation = Observation(
    eventType: string, capability: string, causalId: string, network: seq<string>, classifications: seq<string>,
    counts: seq<int>)

  const SENSITIVE: set<string> := {"pii", "phi", "pci", "secret", "confidential", "restricted"}
  const HARD: set<string> := {"PRIVILEGE_ESCALATION", "SANDBOX_VIOLATION"}

  datatype Limits = Limits(planned: set<string>, maxExternalRecords: int, maxFanout: int)

  // ---- what a trajectory shows ----

  function Sum(ns: seq<int>): int {
    if ns == [] then 0 else Sum(ns[..|ns| - 1]) + ns[|ns| - 1]
  }

  function TotalRead(events: seq<Observation>): int {
    if events == [] then 0 else TotalRead(events[..|events| - 1]) + Sum(events[|events| - 1].counts)
  }

  /** How many events a cause has. */
  function Children(events: seq<Observation>, cause: string): nat {
    if events == [] then 0
    else Children(events[..|events| - 1], cause) + if events[|events| - 1].causalId == cause then 1 else 0
  }

  ghost predicate IsFanout(events: seq<Observation>, n: nat) {
    && (forall c :: c != "" ==> Children(events, c) <= n)
    && (n == 0 || exists c :: c != "" && Children(events, c) == n)
  }

  ghost predicate FansOut(events: seq<Observation>, limit: int) {
    limit < 0 || exists c :: c != "" && Children(events, c) > limit
  }

  ghost predicate Diverges(events: seq<Observation>, planned: set<string>) {
    planned != {} && exists e :: e in events && e.capability != "" && e.capability !in planned
  }

  ghost predicate Breaches(events: seq<Observation>) {
    exists e :: e in events && e.eventType in HARD
  }

  /** Sensitive data was touched, an outside endpoint was reached, and more records were read than allowed, not
      necessarily by the same event. */
  ghost predicate Exfiltrates(events: seq<Observation>, limit: int) {
    && (exists e, c :: e in events && c in e.classifications && c in SENSITIVE)
    && (exists e :: e in events && e.network != [])
    && TotalRead(events) > limit
  }

  /** The ruling a trajectory deserves: exfiltration outranks a breach, which outranks a suspicion. */
  ghost function Ruling(events: seq<Observation>, limits: Limits): Disposition {
    if Exfiltrates(events, limits.maxExternalRecords) then Deny
    else if Breaches(events) then NoOverride
    else if Diverges(events, limits.planned) || FansOut(events, limits.maxFanout) then RequireReview
    else Allow
  }

  predicate Sensitive(classification: string) {
    classification == "pii" || classification == "phi" || classification == "pci" || classification == "secret"
    || classification == "confidential" || classification == "restricted"
  }

  ghost predicate SensitiveSeen(events: seq<Observation>) {
    exists e, c :: e in events && c in e.classifications && Sensitive(c)
  }

  ghost predicate HardSeen(events: seq<Observation>) {
    exists e :: e in events && (e.eventType == "PRIVILEGE_ESCALATION" || e.eventType == "SANDBOX_VIOLATION")
  }

  ghost predicate Exported(events: seq<Observation>, limit: int) {
    TotalRead(events) > limit && exists e :: e in events && e.network != []
  }

  ghost predicate Unplanned(events: seq<Observation>, planned: set<string>) {
    planned != {} && exists e :: e in events && e.capability != "" && e.capability !in planned
  }

  ghost predicate Crowded(events: seq<Observation>, limit: int) {
    exists c :: c != "" && Children(events, c) > limit
  }

  lemma SensitiveIff(c: string)
    ensures c in SENSITIVE <==> Sensitive(c)
  {}

  lemma HardIff(t: string)
    ensures t in HARD <==> t == "PRIVILEGE_ESCALATION" || t == "SANDBOX_VIOLATION"
  {}

  lemma SensitiveSeenIff(events: seq<Observation>)
    ensures SensitiveSeen(events) <==> exists e, c :: e in events && c in e.classifications && c in SENSITIVE
    ensures HardSeen(events) <==> Breaches(events)
  {
    forall c
      ensures c in SENSITIVE <==> Sensitive(c)
      ensures c in HARD <==> c == "PRIVILEGE_ESCALATION" || c == "SANDBOX_VIOLATION"
    {
      SensitiveIff(c);
      HardIff(c);
    }
    if e, c :| e in events && c in e.classifications && c in SENSITIVE {
      assert Sensitive(c);
    }
  }

  /** The ruling in plain terms: DENY when sensitive data, an endpoint and more records than the limit come together; else
      NO_OVERRIDE on an escalation or a sandbox violation; else REQUIRE_REVIEW when, a plan being given, something ran outside it,
      or a cause has more children than the limit; else ALLOW. */
  lemma {:induction false} RulingIs(events: seq<Observation>, limits: Limits)
    requires limits.maxFanout >= 0
    ensures Ruling(events, limits)
         == if SensitiveSeen(events) && Exported(events, limits.maxExternalRecords) then Deny
            else if HardSeen(events) then NoOverride
            else if Unplanned(events, limits.planned) || Crowded(events, limits.maxFanout) then RequireReview
            else Allow
  {
    SensitiveSeenIff(events);
    assert Exfiltrates(events, limits.maxExternalRecords) <==> SensitiveSeen(events) && Exported(events, limits.maxExternalRecords);
    assert Diverges(events, limits.planned) <==> Unplanned(events, limits.planned);
    assert FansOut(events, limits.maxFanout) <==> Crowded(events, limits.maxFanout);
  }

  function Rank(d: Disposition): nat {
    match d
    case Allow => 0
    case RequireReview => 1
    case NoOverride => 2
    case Deny => 3
  }

  /** The most severe of the reasons that fired; none means ALLOW. */
  function Worst(reasons: seq<Disposition>): (w: Disposition)
    ensures forall d :: d in reasons ==> Rank(d) <= Rank(w)
    ensures w in reasons || (reasons == [] && w == Allow)
  {
    if reasons == [] then Allow
    else
      var front, last := reasons[..|reasons| - 1], reasons[|reasons| - 1];
      assert reasons == front + [last];
      var w := Worst(front);
      if front == [] || Rank(last) > Rank(w) then last else w
  }

  class SecurityTrajectory {
    var events: seq<Observation>

    constructor ()
      ensures events == []
    {
      events := [];
    }

    method Add(event: Observation)
      modifies this
      ensures events == old(events) + [event]
    {
      events := events + [event];
    }

    method RecordsRead() returns (total: int)
      ensures total == TotalRead(events)
    {
      total := 0;
      for i := 0 to |events|
        invariant total == TotalRead(events[..i])
      {
        assert events[..i + 1][..i] == events[..i];
        var counts, before := events[i].counts, total;
        for j := 0 to |counts|
          invariant total == before + Sum(counts[..j])
        {
          assert counts[..j + 1][..j] == counts[..j];
          total := total + counts[j];
        }
        assert counts[..|counts|] == counts;
      }
      assert events[..|events|] == events;
    }

    /** The events counted under each cause. */
    method CountByCause() returns (byCause: map<string, nat>)
      ensures forall c :: c in byCause <==> c != "" && Children(events, c) > 0
      ensures forall c :: c in byCause ==> byCause[c] == Children(events, c)
    {
      byCause := map[];
      for i := 0 to |events|
        invariant forall c :: c in byCause <==> c != "" && Children(events[..i], c) > 0
        invariant forall c :: c in byCause ==> byCause[c] == Children(events[..i], c)
      {
        assert events[..i + 1][..i] == events[..i];
        var cause := events[i].causalId;
        if cause != "" {
          byCause := byCause[cause := (if cause in byCause then byCause[cause] else 0) + 1];
        }
      }
      assert events[..|events|] == events;
    }

    method Fanout() returns (n: nat)
      ensures IsFanout(events, n)
    {
      var byCause := CountByCause();
      var causes := byCause.Keys;
      n := 0;
      while causes != {}
        invariant causes <= byCause.Keys
        invariant forall c :: c in byCause.Keys - causes ==> byCause[c] <= n
        invariant n == 0 || exists c :: c in byCause && byCause[c] == n
        decreases |causes|
      {
        var c :| c in causes;
        if byCause[c] > n {
          n := byCause[c];
        }
        causes := causes - {c};
      }
    }

    method Correlate(limits: Limits) returns (disposition: Disposition)
      ensures disposition == Ruling(events, limits)
    {
      var types := Types(events);
      var diverged := if limits.planned != {} then Capabilities(events) - limits.planned else {};
      var sensitive := Classifications(events) * SENSITIVE;
      var external := Endpoints(events);
      var read := RecordsRead();
      var fanout := Fanout();
      SetsShow(events, limits.planned);
      FanoutOver(events, fanout, limits.maxFanout);

      disposition := Weigh("PRIVILEGE_ESCALATION" in types, "SANDBOX_VIOLATION" in types, diverged != {},
        sensitive != {} && external != {} && read > limits.maxExternalRecords, fanout > limits.maxFanout);
    }
  }

  /** The reasons in the order they are looked at, and the most severe of them. */
  method Weigh(escalated: bool, violated: bool, diverged: bool, exfiltrated: bool, fannedOut: bool)
    returns (disposition: Disposition)
    ensures disposition == if exfiltrated then Deny else if escalated || violated then NoOverride
                           else if diverged || fannedOut then RequireReview else Allow
  {
    var reasons := [];
    if escalated {
      reasons := reasons + [NoOverride];
    }
    if violated {
      reasons := reasons + [NoOverride];
    }
    if diverged {
      reasons := reasons + [RequireReview];
    }
    if exfiltrated {
      reasons := reasons + [Deny];
    }
    if fannedOut {
      reasons := reasons + [RequireReview];
    }
    assert (Deny in reasons <==> exfiltrated) && (NoOverride in reasons <==> escalated || violated);
    assert (RequireReview in reasons <==> diverged || fannedOut) && Allow !in reasons;
    disposition := Worst(reasons);
    assert reasons != [] ==> disposition in reasons;
  }

  function Types(events: seq<Observation>): set<string> {
    set e | e in events :: e.eventType
  }

  function Capabilities(events: seq<Observation>): set<string> {
    set e | e in events && e.capability != "" :: e.capability
  }

  function Classifications(events: seq<Observation>): set<string> {
    set e, c | e in events && c in e.classifications :: c
  }

  function Endpoints(events: seq<Observation>): set<string> {
    set e, n | e in events && n in e.network :: n
  }

  /** What the sets computed from the events say about the events. */
  lemma SetsShow(events: seq<Observation>, planned: set<string>)
    ensures Breaches(events) <==> "PRIVILEGE_ESCALATION" in Types(events) || "SANDBOX_VIOLATION" in Types(events)
    ensures planned != {} ==> (Diverges(events, planned) <==> Capabilities(events) - planned != {})
    ensures Classifications(events) * SENSITIVE != {} <==> exists e, c :: e in events && c in e.classifications && c in SENSITIVE
    ensures Endpoints(events) != {} <==> exists e :: e in events && e.network != []
  {
    EndpointsShow(events);
    ClassificationsShow(events);
    if c :| c in Capabilities(events) - planned {
      var e :| e in events && e.capability == c && c != "";
    }
    if e :| e in events && e.capability != "" && e.capability !in planned {
      assert e.capability in Capabilities(events) - planned;
    }
  }

  lemma EndpointsShow(events: seq<Observation>)
    ensures Endpoints(events) != {} <==> exists e :: e in events && e.network != []
  {
    if e :| e in events && e.network != [] {
      assert e.network[0] in e.network;
      assert e.network[0] in Endpoints(events);
    }
    if n :| n in Endpoints(events) {
      var e :| e in events && n in e.network;
    }
  }

  lemma ClassificationsShow(events: seq<Observation>)
    ensures Classifications(events) * SENSITIVE != {} <==> exists e, c :: e in events && c in e.classifications && c in SENSITIVE
  {
    if e, c :| e in events && c in e.classifications && c in SENSITIVE {
      assert c in Classifications(events) * SENSITIVE;
    }
    if c :| c in Classifications(events) * SENSITIVE {
      var e :| e in events && c in e.classifications;
    }
  }

  lemma FanoutOver(events: seq<Observation>, n: nat, limit: int)
    requires IsFanout(events, n)
    ensures n > limit <==> FansOut(events, limit)
  {}

  // ---- more evidence ----

  lemma {:induction false} MoreChildren(events: seq<Observation>, more: seq<Observation>, cause: string)
    ensures Children(events + more, cause) == Children(events, cause) + Children(more, cause)
  {
    if more == [] {
      assert events + more == events;
    } else {
      assert (events + more)[..|events + more| - 1] == events + more[..|more| - 1];
      MoreChildren(events, more[..|more| - 1], cause);
    }
  }

  lemma {:induction false} MoreRead(events: seq<Observation>, more: seq<Observation>)
    ensures TotalRead(events + more) == TotalRead(events) + TotalRead(more)
  {
    if more == [] {
      assert events + more == events;
    } else {
      assert (events + more)[..|events + more| - 1] == events + more[..|more| - 1];
      MoreRead(events, more[..|more| - 1]);
    }
  }

  /** More events never soften a ruling, unless the counts they carry take the total of records read down. */
  lemma {:induction false} MoreEvidenceRulesHarder(events: seq<Observation>, more: seq<Observation>, limits: Limits)
    requires TotalRead(more) >= 0
    ensures Rank(Ruling(events, limits)) <= Rank(Ruling(events + more, limits))
  {
    MoreRead(events, more);
    assert forall e :: e in events ==> e in events + more;
    if FansOut(events, limits.maxFanout) && limits.maxFanout >= 0 {
      var c :| c != "" && Children(events, c) > limits.maxFanout;
      MoreChildren(events, more, c);
    }
  }

  /** No trajectory's ruling is softened by these events. */
  ghost predicate NeverSoftens(more: seq<Observation>) {
    forall events, limits :: Rank(Ruling(events, limits)) <= Rank(Ruling(events + more, limits))
  }

  /** One sensitive record read and sent to a host, where none may be. */
  function OneRead(): Observation {
    Observation("DATA_MOVEMENT", "", "", ["host"], ["pii"], [1])
  }

  const NONE_MAY_LEAVE := Limits({}, 0, 50)

  lemma OneReadIsDenied()
    ensures TotalRead([OneRead()]) == 1 && Ruling([OneRead()], NONE_MAY_LEAVE) == Deny
  {
    assert [OneRead()][..0] == [] && [1][..0] == [];
    assert "pii" in OneRead().classifications && OneRead() in [OneRead()];
  }

  /** Events never soften a ruling exactly when the counts they carry do not take the total of records read down. */
  lemma NeverSoftensIff(more: seq<Observation>)
    ensures NeverSoftens(more) <==> TotalRead(more) >= 0
  {
    if TotalRead(more) >= 0 {
      forall events, limits
        ensures Rank(Ruling(events, limits)) <= Rank(Ruling(events + more, limits))
      {
        MoreEvidenceRulesHarder(events, more, limits);
      }
    } else {
      var events := [OneRead()];
      OneReadIsDenied();
      MoreRead(events, more);
      assert Rank(Ruling(events + more, NONE_MAY_LEAVE)) < Rank(Deny);
    }
  }

  // ---- the ruling applied ----

  /** A mission contained on a trajectory's ruling can be recovered exactly when the trajectory shows exfiltration. A
      breach alone bars recovery; a breach together with exfiltration is ruled DENY and does not. */
  lemma RecoverableIff(events: seq<Observation>, limits: Limits)
    ensures Step(Run([OnDisposition(Ruling(events, limits))]), Recover).1 <==> Exfiltrates(events, limits.maxExternalRecords)
    ensures Run([OnDisposition(Ruling(events, limits))]).state == Contained
       <==> Exfiltrates(events, limits.maxExternalRecords) || Breaches(events)
  {
    var calls := [OnDisposition(Ruling(events, limits))];
    assert calls[..0] == [];
  }
}
