/** The local credential broker (runtime_contracts/secrets_local/broker.py) and the gate it consults before minting
    (`authorize_request` in runtime_contracts/protocol/secrets.py). Instants are microseconds; every reading of the
    clock and of the secret store is an input. */
module Broker {
  import opened Wrappers
  import opened Digits
  import opened Authority
  import Sorting
  import Text

  datatype SecretRef = SecretRef(provider: string, namespace: string, path: string, key: string, version: string)

  datatype Requirement = Requirement(
    name: string, requiredScopes: seq<string>, secretRef: Option<SecretRef>, productionBrokerRequired: bool,
    maxTtl: Option<int>)

  datatype Ask = Ask(
    requestId: string, missionId: string, capabilityId: string, tenantId: string, authorityContextId: string,
    requirement: Requirement, requestedTtl: Option<int>)

  /** What identifies and dates an authority: the digest of a context, and the instant an expiry text stands for, if it
      can be read and carries a time zone. */
  datatype Reading = Reading(digest: Identify, instant: string -> Option<int>)

  // ---- the gate ----

  datatype DenyReason =
    | ProductionBrokerRequired
    | AuthorityExpired
    | AuthorityMismatch
    | TenantMismatch
    | InsufficientAuthority
    | TtlExceedsPolicy

  predicate Expired(r: Reading, expiresAt: string, now: int) {
    expiresAt != "" && (r.instant(expiresAt).None? || now >= r.instant(expiresAt).value)
  }

  function ChainRef(r: Reading, authority: Context): Result<string> {
    var digest :- r.digest(authority);
    Ok(authority.authorityId + "@" + digest)
  }

  /** The first reason to refuse, for a development broker. An authority without a digest raises instead. */
  function Authorize(r: Reading, ask: Ask, authority: Context, now: int): Result<Option<DenyReason>> {
    var req := ask.requirement;
    if req.productionBrokerRequired then Ok(Some(ProductionBrokerRequired))
    else if Expired(r, authority.expiresAt, now) then Ok(Some(AuthorityExpired))
    else
      var chainRef :- ChainRef(r, authority);
      var tenant := authority.principal.tenant;
      if ask.authorityContextId != authority.authorityId && ask.authorityContextId != chainRef then Ok(Some(AuthorityMismatch))
      else if ask.tenantId == "" && tenant == "" then Ok(Some(TenantMismatch))
      else if ask.tenantId != tenant then Ok(Some(TenantMismatch))
      else if req.secretRef.Some? && req.secretRef.value.namespace != "" && req.secretRef.value.namespace != ask.tenantId then
        Ok(Some(TenantMismatch))
      else if exists s :: s in req.requiredScopes && !Permits(authority, s) then Ok(Some(InsufficientAuthority))
      else if req.maxTtl.Some? && ask.requestedTtl.Some? && ask.requestedTtl.value > req.maxTtl.value then
        Ok(Some(TtlExceedsPolicy))
      else Ok(None)
  }

  /** What every grant rests on: a live authority that is the one named, is held in the asking tenant, and permits every
      scope; a secret of that tenant; a lifetime within policy; and no need of a production broker. */
  ghost predicate Justified(r: Reading, ask: Ask, authority: Context, now: int) {
    var req := ask.requirement;
    && !req.productionBrokerRequired
    && (authority.expiresAt == "" || (r.instant(authority.expiresAt).Some? && now < r.instant(authority.expiresAt).value))
    && ChainRef(r, authority).Ok?
    && ask.authorityContextId in {authority.authorityId, ChainRef(r, authority).value}
    && ask.tenantId == authority.principal.tenant != ""
    && (req.secretRef.Some? ==> req.secretRef.value.namespace in {"", authority.principal.tenant})
    && (forall s :: s in req.requiredScopes ==> Permits(authority, s))
    && (req.maxTtl.Some? && ask.requestedTtl.Some? ==> ask.requestedTtl.value <= req.maxTtl.value)
  }

  lemma AllowedIffJustified(r: Reading, ask: Ask, authority: Context, now: int)
    ensures Authorize(r, ask, authority, now) == Ok(None) <==> Justified(r, ask, authority, now)
  {}

  /** The gate as the broker uses it: the chain a grant is attributed to, if the request is allowed. What the broker keeps
      over a run does not depend on how the gate decides. */
  type Gate = (Ask, Context, int) -> Result<string>

  function GateOf(r: Reading): Gate {
    (ask, authority, now) => if Authorize(r, ask, authority, now) == Ok(None) then ChainRef(r, authority) else Refused
  }

  lemma GateAllowsIff(r: Reading, ask: Ask, authority: Context, now: int)
    ensures GateOf(r)(ask, authority, now).Ok? <==> Justified(r, ask, authority, now)
    ensures GateOf(r)(ask, authority, now).Ok? ==> GateOf(r)(ask, authority, now) == ChainRef(r, authority)
  {
    AllowedIffJustified(r, ask, authority, now);
  }

  // ---- grants ----

  datatype Grant = Grant(
    grantId: string, leaseId: string, principal: string, resource: string, scope: seq<string>, ttl: int,
    authorityRef: string, materialHash: string, requestId: string, credentialRef: Option<SecretRef>)

  datatype Active = Active(grant: Grant, ref: Option<SecretRef>, capabilityId: string, missionId: string, expires: int)

  /** What reading a secret came to: its bytes' hash, the store's own refusal, or any other failure. */
  datatype Material = Material(hash: string) | Unreadable | Fault

  const SECOND := 1000000

  /** A lifetime of zero counts as none given. */
  function Given(ttl: Option<int>, otherwise: int): int {
    if ttl.Some? && ttl.value != 0 then ttl.value else otherwise
  }

  function Lifetime(defaultTtl: int, ask: Ask): (ttl: int)
    ensures ask.requirement.maxTtl.Some? ==> ttl <= ask.requirement.maxTtl.value
    ensures ask.requirement.maxTtl.None? && ask.requestedTtl.None? ==> ttl == defaultTtl
  {
    var max := ask.requirement.maxTtl;
    var ttl := Given(ask.requestedTtl, Given(max, defaultTtl));
    if max.Some? && max.value < ttl then max.value else ttl
  }

  method TimeToLive(defaultTtl: int, ask: Ask) returns (ttl: int)
    ensures ttl == Lifetime(defaultTtl, ask)
  {
    ttl := Given(ask.requestedTtl, Given(ask.requirement.maxTtl, defaultTtl));
    if ask.requirement.maxTtl.Some? {
      ttl := if ask.requirement.maxTtl.value < ttl then ask.requirement.maxTtl.value else ttl;
    }
  }

  /** `f"{n:06d}"`. */
  function SixDigits(n: nat): (s: string)
    ensures AllDigits(s)
  {
    var digits := NatText(n);
    if |digits| < 6 then Zeros(6 - |digits|) + digits else digits
  }

  function GrantId(n: nat): string {
    "grant-" + SixDigits(n)
  }

  lemma SixDigitsValue(n: nat)
    ensures Value(SixDigits(n)) == n
  {
    ZerosOnTheLeft(NatText(n), if Length(n) < 6 then 6 - Length(n) else 0);
  }

  lemma GrantIdsDiffer(m: nat, n: nat)
    requires m != n
    ensures GrantId(m) != GrantId(n)
  {
    assert GrantId(m)[6..] == SixDigits(m) && GrantId(n)[6..] == SixDigits(n);
    SixDigitsValue(m);
    SixDigitsValue(n);
  }

  function Minted(defaultTtl: int, chainRef: string, n: nat, ask: Ask, authority: Context, now: int, hash: string): (a: Active)
    ensures a.grant.grantId == GrantId(n)
  {
    var req, ttl := ask.requirement, Lifetime(defaultTtl, ask);
    Active(
      Grant(GrantId(n), "lease-" + SixDigits(n), authority.principal.id, req.name, Listing(req.requiredScopes), ttl,
            chainRef, hash, ask.requestId, req.secretRef),
      req.secretRef, ask.capabilityId, ask.missionId, now + ttl * SECOND)
  }

  /** `tuple(sorted(scopes))`, repetitions kept. */
  function Listing(scopes: seq<string>): seq<string> {
    Sorting.Sort(scopes, Text.AtMost)
  }

  // ---- what each call does ----

  datatype State = State(active: map<string, Active>, issued: nat)

  datatype Call =
    | Issue(ask: Ask, authority: Context, checked: int, now: int, material: Material)
    | Redeem(grantId: string, capabilityId: string, missionId: string, at: int, secret: Material)
    | RevokeGrant(revoked: string)
    | RevokeMission(mission: string)

  datatype Outcome = Granted(grant: Active) | Redeemed(ref: SecretRef) | Denied | Done(count: nat)

  function Without(active: map<string, Active>, id: string): map<string, Active> {
    map k | k in active && k != id :: active[k]
  }

  function OfMission(active: map<string, Active>, mission: string): set<string> {
    set k | k in active && active[k].missionId == mission
  }

  /** The hash of the secret's bytes; none for a request without a secret or when the store refuses to read it. */
  function HashOf(ref: Option<SecretRef>, material: Material): Result<string> {
    if ref.None? || material.Unreadable? then Ok("")
    else if material.Fault? then Refused
    else Ok(material.hash)
  }

  /** What a broker is constructed with: its gate, and the lifetime of a grant when neither request nor policy gives one. */
  datatype Setup = Setup(gate: Gate, defaultTtl: int)

  function IssueStep(setup: Setup, s: State, ask: Ask, authority: Context, checked: int, now: int, material: Material)
    : (State, Outcome)
  {
    match setup.gate(ask, authority, checked)
    case Refused => (s, Denied)
    case Ok(chainRef) =>
      var bumped := s.(issued := s.issued + 1);
      match HashOf(ask.requirement.secretRef, material)
      case Refused => (bumped, Denied)
      case Ok(hash) =>
        var a := Minted(setup.defaultTtl, chainRef, bumped.issued, ask, authority, now, hash);
        (bumped.(active := s.active[a.grant.grantId := a]), Granted(a))
  }

  function RedeemStep(s: State, id: string, capabilityId: string, missionId: string, now: int, secret: Material)
    : (State, Outcome)
  {
    if id !in s.active then (s, Denied)
    else
      var a := s.active[id];
      if capabilityId != a.capabilityId || missionId != a.missionId then (s, Denied)
      else if now >= a.expires then (s.(active := Without(s.active, id)), Denied)
      else if a.ref.None? then (s, Denied)
      else (s, if secret.Material? then Redeemed(a.ref.value) else Denied)
  }

  function Step(setup: Setup, s: State, call: Call): (State, Outcome) {
    match call
    case Issue(ask, authority, checked, now, material) => IssueStep(setup, s, ask, authority, checked, now, material)
    case Redeem(id, capabilityId, missionId, at, secret) => RedeemStep(s, id, capabilityId, missionId, at, secret)
    case RevokeGrant(id) => (s.(active := Without(s.active, id)), Done(0))
    case RevokeMission(mission) =>
      var ids := OfMission(s.active, mission);
      (s.(active := s.active - ids), Done(|ids|))
  }

  class LocalCredentialBroker {
    const setup: Setup
    var active: map<string, Active>
    var n: nat

    function Snapshot(): State
      reads this
    {
      State(active, n)
    }

    constructor (setup: Setup)
      ensures this.setup == setup && Snapshot() == State(map[], 0)
    {
      this.setup, active, n := setup, map[], 0;
    }

    method Issue(ask: Ask, authority: Context, checked: int, now: int, material: Material) returns (outcome: Outcome)
      modifies this
      ensures (Snapshot(), outcome) == IssueStep(setup, old(Snapshot()), ask, authority, checked, now, material)
    {
      var allowed := setup.gate(ask, authority, checked);
      if allowed.Refused? {
        return Denied;
      }
      var ttl := TimeToLive(setup.defaultTtl, ask);
      n := n + 1;
      var hash := HashOf(ask.requirement.secretRef, material);
      if hash.Refused? {
        return Denied;
      }
      var grant := Grant(GrantId(n), "lease-" + SixDigits(n), authority.principal.id, ask.requirement.name,
                         Listing(ask.requirement.requiredScopes), ttl, allowed.value, hash.value, ask.requestId,
                         ask.requirement.secretRef);
      var a := Active(grant, ask.requirement.secretRef, ask.capabilityId, ask.missionId, now + ttl * SECOND);
      assert a == Minted(setup.defaultTtl, allowed.value, n, ask, authority, now, hash.value);
      active := active[grant.grantId := a];
      outcome := Granted(a);
    }

    method Redeem(id: string, capabilityId: string, missionId: string, now: int, secret: Material)
      returns (outcome: Outcome)
      modifies this
      ensures (Snapshot(), outcome) == RedeemStep(old(Snapshot()), id, capabilityId, missionId, now, secret)
    {
      if id !in active {
        return Denied;
      }
      var a := active[id];
      if capabilityId != a.capabilityId || missionId != a.missionId {
        return Denied;
      }
      if now >= a.expires {
        active := Without(active, id);
        return Denied;
      }
      if a.ref.None? {
        return Denied;
      }
      outcome := if secret.Material? then Redeemed(a.ref.value) else Denied;
    }

    method RevokeGrant(id: string)
      modifies this
      ensures (Snapshot(), Done(0)) == Step(setup, old(Snapshot()), Call.RevokeGrant(id))
    {
      active := Without(active, id);
    }

    method RevokeMission(mission: string) returns (count: nat)
      modifies this
      ensures (Snapshot(), Done(count)) == Step(setup, old(Snapshot()), Call.RevokeMission(mission))
    {
      var ids := OfMission(active, mission);
      var rest := ids;
      while rest != {}
        invariant rest <= ids && n == old(n)
        invariant active == old(active) - (ids - rest)
        decreases |rest|
      {
        var id :| id in rest;
        active := Without(active, id);
        rest := rest - {id};
      }
      assert ids - rest == ids;
      count := |ids|;
    }
  }

  // ---- every run ----

  /** A way of answering calls. What follows is shown of any that keeps the two laws below. */
  type Behaviour = (State, Call) -> (State, Outcome)

  function BehaviourOf(setup: Setup): Behaviour {
    (s, call) => Step(setup, s, call)
  }

  function After(step: Behaviour, calls: seq<Call>): State {
    if calls == [] then State(map[], 0) else step(After(step, calls[..|calls| - 1]), calls[|calls| - 1]).0
  }

  /** What call number i of a run came to. */
  function At(step: Behaviour, calls: seq<Call>, i: nat): Outcome
    requires i < |calls|
  {
    step(After(step, calls[..i]), calls[i]).1
  }

  /** Call number i minted this grant. */
  ghost predicate Mints(step: Behaviour, calls: seq<Call>, i: nat, a: Active) {
    i < |calls| && At(step, calls, i) == Granted(a)
  }

  /** A call that ends a grant: its revocation, that of its mission, or a redemption that finds it expired. */
  predicate Ends(call: Call, a: Active) {
    match call
    case Issue(_, _, _, _, _) => false
    case Redeem(id, capabilityId, missionId, at, _) =>
      id == a.grant.grantId && capabilityId == a.capabilityId && missionId == a.missionId && at >= a.expires
    case RevokeGrant(id) => id == a.grant.grantId
    case RevokeMission(mission) => mission == a.missionId
  }

  /** The counter never goes back, and a grant takes its next value. */
  predicate Counts(step: Behaviour, s: State, call: Call) {
    var (t, outcome) := step(s, call);
    && t.issued >= s.issued
    && (outcome.Granted? ==> t.issued == s.issued + 1 && outcome.grant.grant.grantId == GrantId(t.issued))
  }

  /** A grant minted is active; an active grant stays as it is unless the call ends it or mints another under its id; and
      nothing else becomes active. */
  predicate Keeps(step: Behaviour, s: State, call: Call, id: string) {
    var (t, outcome) := step(s, call);
    var minted := outcome.Granted? && outcome.grant.grant.grantId == id;
    if minted then id in t.active && t.active[id] == outcome.grant
    else if id in s.active && s.active[id].grant.grantId == id then
      (id in t.active <==> !Ends(call, s.active[id])) && (id in t.active ==> t.active[id] == s.active[id])
    else id in t.active ==> id in s.active && t.active[id] == s.active[id]
  }

  ghost predicate Lawful(step: Behaviour) {
    && (forall s, call {:trigger Counts(step, s, call)} :: Counts(step, s, call))
    && (forall s, call, id {:trigger Keeps(step, s, call, id)} :: Keeps(step, s, call, id))
  }

  lemma BrokerIsLawful(setup: Setup)
    ensures Lawful(BehaviourOf(setup))
  {
    var step := BehaviourOf(setup);
    forall s, call
      ensures Counts(step, s, call)
    {
      BrokerCounts(setup, s, call);
    }
    forall s, call, id
      ensures Keeps(step, s, call, id)
    {
      BrokerKeeps(setup, s, call, id);
    }
  }

  lemma BrokerCounts(setup: Setup, s: State, call: Call)
    ensures Counts(BehaviourOf(setup), s, call)
  {}

  lemma BrokerKeeps(setup: Setup, s: State, call: Call, id: string)
    ensures Keeps(BehaviourOf(setup), s, call, id)
  {}

  /** Minted by call number i and not ended since. */
  ghost predicate Standing(step: Behaviour, calls: seq<Call>, i: nat, a: Active) {
    Mints(step, calls, i, a) && forall k :: i < k < |calls| ==> !Ends(calls[k], a)
  }

  lemma {:induction false} IssuedGrows(step: Behaviour, calls: seq<Call>, i: nat)
    requires Lawful(step) && i <= |calls|
    ensures After(step, calls[..i]).issued <= After(step, calls).issued
    decreases |calls|
  {
    if i == |calls| {
      assert calls[..i] == calls;
    } else {
      var front := calls[..|calls| - 1];
      assert front[..i] == calls[..i];
      IssuedGrows(step, front, i);
      assert Counts(step, After(step, front), calls[|calls| - 1]);
    }
  }

  lemma MintedId(step: Behaviour, calls: seq<Call>, i: nat, a: Active)
    requires Lawful(step) && Mints(step, calls, i, a)
    ensures After(step, calls[..i + 1]).issued == After(step, calls[..i]).issued + 1
    ensures a.grant.grantId == GrantId(After(step, calls[..i]).issued + 1)
  {
    assert calls[..i + 1][..i] == calls[..i];
    assert Counts(step, After(step, calls[..i]), calls[i]);
  }

  lemma IssuedBetween(step: Behaviour, calls: seq<Call>, i: nat, a: Active, j: nat)
    requires Lawful(step) && Mints(step, calls, i, a) && i < j <= |calls|
    ensures After(step, calls[..i]).issued < After(step, calls[..j]).issued
  {
    MintedId(step, calls, i, a);
    assert calls[..j][..i + 1] == calls[..i + 1];
    IssuedGrows(step, calls[..j], i + 1);
  }

  /** No grant id is ever used twice. */
  lemma NeverReused(step: Behaviour, calls: seq<Call>, i: nat, a: Active, j: nat, b: Active)
    requires Lawful(step) && Mints(step, calls, i, a) && Mints(step, calls, j, b) && i < j
    ensures a.grant.grantId != b.grant.grantId
  {
    MintedId(step, calls, i, a);
    MintedId(step, calls, j, b);
    IssuedBetween(step, calls, i, a, j);
    var m, n := After(step, calls[..i]).issued, After(step, calls[..j]).issued;
    GrantIdsDiffer(m + 1, n + 1);
  }

  lemma StandingInFront(step: Behaviour, calls: seq<Call>, i: nat, a: Active)
    requires calls != [] && i < |calls| - 1
    ensures Standing(step, calls, i, a)
       <==> Standing(step, calls[..|calls| - 1], i, a) && !Ends(calls[|calls| - 1], a)
  {
    var front := calls[..|calls| - 1];
    assert front[..i] == calls[..i];
    assert forall k :: 0 <= k < |front| ==> front[k] == calls[k];
  }

  /** Every active grant was minted under its id and nothing has ended it since. */
  lemma {:induction false} ActiveStands(step: Behaviour, calls: seq<Call>, id: string) returns (i: nat)
    requires Lawful(step) && id in After(step, calls).active
    ensures Standing(step, calls, i, After(step, calls).active[id])
    ensures After(step, calls).active[id].grant.grantId == id
  {
    var n := |calls| - 1;
    var front, last := calls[..n], calls[n];
    var s, a := After(step, front), After(step, calls).active[id];
    assert Keeps(step, s, last, id);
    if Mints(step, calls, n, a) && a.grant.grantId == id {
      i := n;
    } else {
      i := ActiveStands(step, front, id);
      StandingInFront(step, calls, i, a);
    }
  }

  /** Every grant that was minted and not ended is active. */
  lemma {:induction false} StandingIsActive(step: Behaviour, calls: seq<Call>, i: nat, a: Active)
    requires Lawful(step) && Standing(step, calls, i, a)
    ensures a.grant.grantId in After(step, calls).active && After(step, calls).active[a.grant.grantId] == a
    decreases |calls|
  {
    var n, id := |calls| - 1, a.grant.grantId;
    assert Keeps(step, After(step, calls[..n]), calls[n], id);
    if i < n {
      StandingInFront(step, calls, i, a);
      StandingIsActive(step, calls[..n], i, a);
      if At(step, calls, n).Granted? {
        NeverReused(step, calls, i, a, n, At(step, calls, n).grant);
      }
    }
  }

  /** A grant that would serve this redemption: standing, bound to the same capability and mission, unexpired, and naming
      a secret. */
  ghost predicate Serves(step: Behaviour, before: seq<Call>, call: Call, j: nat, a: Active)
    requires call.Redeem?
  {
    && Standing(step, before, j, a) && a.grant.grantId == call.grantId
    && a.capabilityId == call.capabilityId && a.missionId == call.missionId
    && call.at < a.expires && a.ref.Some?
  }

  /** In every interleaving, a redemption succeeds exactly when its id was minted for the same mission and capability,
      nothing has revoked it or found it expired since, it has not expired, and the secret it names can be read. */
  lemma RedeemIff(setup: Setup, calls: seq<Call>, i: nat)
    requires i < |calls| && calls[i].Redeem?
    ensures At(BehaviourOf(setup), calls, i).Redeemed?
       <==> calls[i].secret.Material? && exists j, a :: Serves(BehaviourOf(setup), calls[..i], calls[i], j, a)
  {
    var step, before, id := BehaviourOf(setup), calls[..i], calls[i].grantId;
    BrokerIsLawful(setup);
    if At(step, calls, i).Redeemed? {
      var j := ActiveStands(step, before, id);
      assert Serves(step, before, calls[i], j, After(step, before).active[id]);
    }
    if j, a :| Serves(step, before, calls[i], j, a) {
      StandingIsActive(step, before, j, a);
    }
  }

  /** What every grant ever minted rests on: its authority, judged at the time, permits every scope it carries and is held
      in the asking tenant; it keeps the request's mission and capability, and lives no longer than policy allows. */
  lemma GrantsAreJustified(r: Reading, ttl: int, calls: seq<Call>, i: nat, a: Active)
    requires Mints(BehaviourOf(Setup(GateOf(r), ttl)), calls, i, a)
    ensures calls[i].Issue?
    ensures var q := calls[i];
      && Justified(r, q.ask, q.authority, q.checked)
      && a.missionId == q.ask.missionId && a.capabilityId == q.ask.capabilityId && a.ref == q.ask.requirement.secretRef
      && Ok(a.grant.authorityRef) == ChainRef(r, q.authority)
      && (forall s :: s in a.grant.scope ==> Permits(q.authority, s))
      && a.expires == q.now + Lifetime(ttl, q.ask) * SECOND
      && (q.ask.requirement.maxTtl.Some? ==> a.expires <= q.now + q.ask.requirement.maxTtl.value * SECOND)
  {
    var q := calls[i];
    GateAllowsIff(r, q.ask, q.authority, q.checked);
    ListingWithin(q.ask.requirement.requiredScopes);
  }

  /** What is written in a grant: the number it was minted under, whose it is and for what, the scopes asked for in order, and the
      hash of the secret, if there is one that could be read. */
  lemma GrantContents(r: Reading, ttl: int, calls: seq<Call>, i: nat, a: Active)
    requires Mints(BehaviourOf(Setup(GateOf(r), ttl)), calls, i, a)
    ensures calls[i].Issue?
    ensures var q, n, g := calls[i], After(BehaviourOf(Setup(GateOf(r), ttl)), calls[..i]).issued + 1, a.grant;
      && g.grantId == "grant-" + SixDigits(n) && g.leaseId == "lease-" + SixDigits(n)
      && g.principal == q.authority.principal.id && g.resource == q.ask.requirement.name && g.requestId == q.ask.requestId
      && multiset(g.scope) == multiset(q.ask.requirement.requiredScopes)
      && (forall j, k :: 0 <= j < k < |g.scope| ==> g.scope[j] == g.scope[k] || Text.Precedes(g.scope[j], g.scope[k]))
      && g.credentialRef == q.ask.requirement.secretRef
      && g.materialHash == (if q.ask.requirement.secretRef.Some? && q.material.Material? then q.material.hash else "")
      && (q.ask.requirement.secretRef.Some? ==> !q.material.Fault?)
  {
    ScopesSorted(calls[i].ask.requirement.requiredScopes);
  }

  lemma ScopesSorted(scopes: seq<string>)
    ensures multiset(Listing(scopes)) == multiset(scopes)
    ensures var s := Listing(scopes); forall j, k :: 0 <= j < k < |s| ==> s[j] == s[k] || Text.Precedes(s[j], s[k])
  {
    var s := Listing(scopes);
    Sorting.TextOrders();
    Sorting.SortSorted(scopes, Text.AtMost);
    forall j, k | 0 <= j < k < |s|
      ensures s[j] == s[k] || Text.Precedes(s[j], s[k])
    {
      Text.BeforeIff(s[j], s[k]);
    }
  }

  /** Six digits, or as many as the number has. */
  lemma SixDigitsAre(n: nat)
    ensures AllDigits(SixDigits(n)) && Value(SixDigits(n)) == n && |SixDigits(n)| == (if n < 1000000 then 6 else Length(n))
  {
    SixDigitsValue(n);
    assert Pow10(0) == 1 && Pow10(1) == 10 && Pow10(2) == 100 && Pow10(3) == 1000 && Pow10(4) == 10000;
    assert Pow10(5) == 100000 && Pow10(6) == 1000000;
    if n > 0 {
      LengthBounds(n);
      if n < 1000000 {
        LengthAtMost(n, 6);
      } else if Length(n) < 6 {
        Pow10Monotone(Length(n), 6);
      }
    }
  }

  /** The reasons in the order they are looked for. */
  lemma FirstReason(r: Reading, ask: Ask, authority: Context, now: int, chainRef: string)
    requires ChainRef(r, authority) == Ok(chainRef)
    ensures var req, tenant := ask.requirement, authority.principal.tenant;
      var expired := authority.expiresAt != "" && (r.instant(authority.expiresAt).None? || r.instant(authority.expiresAt).value <= now);
      var stranger := ask.authorityContextId != authority.authorityId && ask.authorityContextId != chainRef;
      var elsewhere := ask.tenantId != tenant || tenant == ""
                       || (req.secretRef.Some? && req.secretRef.value.namespace != "" && req.secretRef.value.namespace != tenant);
      var lacking := "*" !in authority.scope && exists s :: s in req.requiredScopes && s !in authority.scope;
      var tooLong := req.maxTtl.Some? && ask.requestedTtl.Some? && req.maxTtl.value < ask.requestedTtl.value;
      Authorize(r, ask, authority, now)
        == Ok(if req.productionBrokerRequired then Some(ProductionBrokerRequired)
              else if expired then Some(AuthorityExpired)
              else if stranger then Some(AuthorityMismatch)
              else if elsewhere then Some(TenantMismatch)
              else if lacking then Some(InsufficientAuthority)
              else if tooLong then Some(TtlExceedsPolicy)
              else None)
  {}

  /** A grant lives as long as was asked, or else as long as policy allows, or else the default; and never longer than was asked
      or allowed. Zero counts as not asked, and as no lifetime of its own in policy, which then allows none. */
  lemma GrantLifetime(r: Reading, ttl: int, calls: seq<Call>, i: nat, a: Active)
    requires Mints(BehaviourOf(Setup(GateOf(r), ttl)), calls, i, a)
    ensures calls[i].Issue?
    ensures var q, lifetime := calls[i], (a.expires - calls[i].now);
      var asked, most := q.ask.requestedTtl, q.ask.requirement.maxTtl;
      && (asked.Some? && asked.value != 0 ==> lifetime <= asked.value * 1000000)
      && (most.Some? ==> lifetime <= most.value * 1000000)
      && (asked.Some? && asked.value != 0 && (most.None? || asked.value <= most.value) ==> lifetime == asked.value * 1000000)
      && ((asked.None? || asked.value == 0) && most.Some? && most.value != 0 ==> lifetime == most.value * 1000000)
      && ((asked.None? || asked.value == 0) && most.None? ==> lifetime == ttl * 1000000)
      && a.grant.ttl * 1000000 == lifetime
  {
    GrantsAreJustified(r, ttl, calls, i, a);
  }

  lemma ListingWithin(scopes: seq<string>)
    ensures forall s :: s in Listing(scopes) <==> s in scopes
  {
    Sorting.SameElements(Listing(scopes), scopes);
  }

  /** A grant made to the leaf of a verified chain carries no scope that any authority up the chain lacks. */
  lemma {:induction false} GrantWithinChain(r: Reading, ttl: int, calls: seq<Call>, i: nat, a: Active, chain: seq<Context>, k: nat)
    requires Mints(BehaviourOf(Setup(GateOf(r), ttl)), calls, i, a) && Verified(r.digest, chain) && k < |chain|
    requires calls[i].Issue? && calls[i].authority == chain[|chain| - 1]
    ensures forall s :: s in a.grant.scope ==> Permits(chain[k], s)
  {
    GrantsAreJustified(r, ttl, calls, i, a);
    VerifiedOnlyNarrows(r.digest, chain, k, |chain| - 1);
  }
}
