/** Delegated authority (`AuthorityContext` and `verify_chain` in runtime_contracts/protocol/security.py): a child is
    derived only by narrowing, and records the digest of its parent. */
module Authority {
  import opened Wrappers
  import opened Text
  import opened Platform
  import opened Digits
  import opened Decimals
  import opened Canonical
  import opened Json
  import opened Forms

  datatype Principal = Principal(id: string, kind: string, tenant: string, roles: seq<string>, authLevel: string)

  /** A budget: a finite decimal. */
  type Amount = d: Decimal | d.Finite? witness Finite(false, 0, 0)

  datatype Context = Context(
    authorityId: string, principal: Principal, purpose: string, scope: seq<string>, constraints: seq<string>,
    maxCost: Option<Amount>, expiresAt: string, parentDigest: string, depth: int)

  const WILDCARD := "*"

  // ---- canonical form ----

  function AsSet(texts: seq<string>): set<string> {
    set t | t in texts
  }

  /** `sorted(set(texts))`. */
  function Listed(texts: seq<string>): (r: seq<string>) {
    Ascending(AsSet(texts))
  }

  /** A string, left out when empty. */
  function OptionalText(s: string): Value {
    if s == "" then Null else Str(s)
  }

  /** A set of strings, left out when empty. */
  function OptionalSet(texts: seq<string>): Value {
    if texts == [] then Null else List(TextValues(Listed(texts)))
  }

  /** A decimal is hashed as its decimal string. */
  function OptionalCost(cost: Option<Amount>): Value {
    match cost
    case None => Null
    case Some(d) => Dec(d)
  }

  const PRINCIPAL_NAMES: seq<string> := ["id", "kind", "tenant", "roles", "auth_level"]

  function PrincipalItems(p: Principal): (r: seq<Value>)
    ensures |r| == 5
  {
    [Str(p.id), Str(p.kind), OptionalText(p.tenant), OptionalSet(p.roles), OptionalText(p.authLevel)]
  }

  const NAMES: seq<string> := [
    "authority_id", "principal", "depth", "purpose", "scope", "constraints", "max_cost", "expires_at", "parent_digest"]

  function Items(a: Context): (r: seq<Value>)
    ensures |r| == 9
  {
    [Str(a.authorityId), FormOf(PRINCIPAL_NAMES, PrincipalItems(a.principal)), Int(a.depth), OptionalText(a.purpose),
     OptionalSet(a.scope), OptionalSet(a.constraints), OptionalCost(a.maxCost), OptionalText(a.expiresAt),
     OptionalText(a.parentDigest)]
  }

  function CanonicalForm(a: Context): Value {
    FormOf(NAMES, Items(a))
  }

  /** The canonical form as it is hashed. */
  function Identity(l: Runtime, a: Context): Result<Value> {
    Canonicalize(l, CanonicalForm(a))
  }

  /** `digest`: refused only for a budget that has no decimal string. */
  function DigestOf(l: Runtime, a: Context): Result<string> {
    ContentHash(l, CanonicalForm(a))
  }

  /** How parents are identified. The rules of delegation do not depend on how that is. */
  type Identify = Context -> Result<string>

  function ByContent(l: Runtime): Identify {
    a => DigestOf(l, a)
  }

  // ---- delegation ----

  predicate Permits(a: Context, permission: string) {
    WILDCARD in a.scope || permission in a.scope
  }

  predicate CoversScope(parent: Context, scope: seq<string>) {
    forall p :: p in scope ==> Permits(parent, p)
  }

  /** a > b as numbers. */
  predicate Exceeds(a: Amount, b: Amount) {
    var e := Min(a.exponent, b.exponent);
    Scaled(a, e) > Scaled(b, e)
  }

  predicate CostWithin(child: Option<Amount>, parent: Option<Amount>) {
    parent.Some? ==> child.Some? && !Exceeds(child.value, parent.value)
  }

  predicate ExpiryWithin(child: string, parent: string) {
    parent != "" ==> child != "" && !Before(parent, child)
  }

  datatype Request = Request(
    authorityId: string, scope: Option<seq<string>>, purpose: Option<string>, constraints: seq<string>,
    maxCost: Option<Amount>, expiresAt: Option<string>, principal: Option<Principal>)

  function Or<T>(given: Option<T>, inherited: T): T {
    if given.Some? then given.value else inherited
  }

  function Narrow(digest: Identify, parent: Context, q: Request): Result<Context> {
    var scope := Or(q.scope, parent.scope);
    var cost := if q.maxCost.None? then parent.maxCost else q.maxCost;
    var expiry := Or(q.expiresAt, parent.expiresAt);
    if !CoversScope(parent, scope) || !CostWithin(cost, parent.maxCost) || !ExpiryWithin(expiry, parent.expiresAt)
    then Refused
    else
      var parentDigest :- digest(parent);
      Ok(Context(q.authorityId, Or(q.principal, parent.principal), Or(q.purpose, parent.purpose), scope,
                 Listed(parent.constraints + q.constraints), cost, expiry, parentDigest, parent.depth + 1))
  }

  /** What a child is given: what the request names, and where it names nothing what the parent has; every constraint of both;
      the parent's digest and one more step of depth. */
  lemma NarrowGives(digest: Identify, parent: Context, q: Request)
    requires Narrow(digest, parent, q).Ok?
    ensures var child := Narrow(digest, parent, q).value;
      && child.authorityId == q.authorityId && child.depth == parent.depth + 1 && digest(parent) == Ok(child.parentDigest)
      && child.scope == (match q.scope case Some(s) => s case None => parent.scope)
      && child.purpose == (match q.purpose case Some(s) => s case None => parent.purpose)
      && child.principal == (match q.principal case Some(p) => p case None => parent.principal)
      && child.expiresAt == (match q.expiresAt case Some(t) => t case None => parent.expiresAt)
      && child.maxCost == (if q.maxCost.Some? then q.maxCost else parent.maxCost)
      && Increasing(child.constraints)
      && forall c :: c in child.constraints <==> c in parent.constraints || c in q.constraints
  {
    assert forall c :: c in AsSet(parent.constraints + q.constraints) <==> c in parent.constraints || c in q.constraints;
  }

  /** One link of a chain as `verify_chain` checks it. */
  ghost predicate Link(digest: Identify, parent: Context, child: Context) {
    && digest(parent) == Ok(child.parentDigest)
    && CoversScope(parent, child.scope)
    && (forall c :: c in parent.constraints ==> c in child.constraints)
    && CostWithin(child.maxCost, parent.maxCost)
    && ExpiryWithin(child.expiresAt, parent.expiresAt)
  }

  ghost predicate Verified(digest: Identify, chain: seq<Context>) {
    && chain != [] && chain[0].parentDigest == ""
    && forall i {:trigger chain[i]} :: 0 < i < |chain| ==> Link(digest, chain[i - 1], chain[i])
  }

  /** The checks of one link. */
  method CheckLink(digest: Identify, parent: Context, child: Context) returns (ok: bool)
    ensures ok <==> Link(digest, parent, child)
  {
    if digest(parent) != Ok(child.parentDigest) || !CoversScope(parent, child.scope) {
      return false;
    }
    ConstraintsIff(parent.constraints, child.constraints);
    ok := AsSet(parent.constraints) <= AsSet(child.constraints) && CostWithin(child.maxCost, parent.maxCost)
          && ExpiryWithin(child.expiresAt, parent.expiresAt);
  }

  lemma ConstraintsIff(a: seq<string>, b: seq<string>)
    ensures AsSet(a) <= AsSet(b) <==> forall c :: c in a ==> c in b
  {
    if AsSet(a) <= AsSet(b) {
      assert forall c :: c in a ==> c in AsSet(a);
    }
  }

  ghost predicate LinkedUpTo(digest: Identify, chain: seq<Context>, n: nat)
    requires n <= |chain|
  {
    n <= 1 || (LinkedUpTo(digest, chain, n - 1) && Link(digest, chain[n - 2], chain[n - 1]))
  }

  lemma {:induction false} LinkedMeans(digest: Identify, chain: seq<Context>, n: nat)
    requires n <= |chain|
    ensures LinkedUpTo(digest, chain, n)
       <==> forall k {:trigger chain[k]} :: 0 < k < n ==> Link(digest, chain[k - 1], chain[k])
  {
    if n > 1 {
      LinkedMeans(digest, chain, n - 1);
    }
  }

  lemma {:induction false} UnlinkedStays(digest: Identify, chain: seq<Context>, n: nat)
    requires n <= |chain| && !LinkedUpTo(digest, chain, n)
    ensures !LinkedUpTo(digest, chain, |chain|)
    decreases |chain| - n
  {
    if n < |chain| {
      UnlinkedStays(digest, chain, n + 1);
    }
  }

  /** `verify_chain`. */
  method VerifyChain(digest: Identify, chain: seq<Context>) returns (ok: bool)
    ensures ok <==> Verified(digest, chain)
  {
    if chain == [] || chain[0].parentDigest != "" {
      return false;
    }
    ok := true;
    var i := 1;
    while i < |chain| && ok
      invariant 1 <= i <= |chain|
      invariant ok <==> LinkedUpTo(digest, chain, i)
    {
      ok := CheckLink(digest, chain[i - 1], chain[i]);
      i := i + 1;
    }
    if !ok {
      UnlinkedStays(digest, chain, i);
    }
    LinkedMeans(digest, chain, |chain|);
  }

  // ---- narrowing is exactly what a verified link allows ----

  ghost predicate NarrowsTo(digest: Identify, parent: Context, child: Context) {
    exists q :: Narrow(digest, parent, q) == Ok(child)
  }

  /** A child can be derived by narrowing exactly when the link verifies, the depth counts up and the constraints are
      listed in order without repetition. */
  lemma {:induction false} NarrowsIff(digest: Identify, parent: Context, child: Context)
    ensures NarrowsTo(digest, parent, child)
       <==> Link(digest, parent, child) && child.depth == parent.depth + 1 && child.constraints == Listed(child.constraints)
  {
    if q :| Narrow(digest, parent, q) == Ok(child) {
      var all := parent.constraints + q.constraints;
      assert forall c :: c in child.constraints <==> c in AsSet(all);
      assert AsSet(child.constraints) == AsSet(all);
    }
    if Link(digest, parent, child) && child.depth == parent.depth + 1 && child.constraints == Listed(child.constraints) {
      var q := Request(child.authorityId, Some(child.scope), Some(child.purpose), child.constraints, child.maxCost,
                       Some(child.expiresAt), Some(child.principal));
      assert AsSet(parent.constraints + child.constraints) == AsSet(child.constraints);
      assert Narrow(digest, parent, q) == Ok(child);
    }
  }

  /** A chain built by narrowing a root that has no parent. */
  ghost predicate Delegated(digest: Identify, chain: seq<Context>) {
    && chain != [] && chain[0].parentDigest == ""
    && forall i {:trigger chain[i]} :: 0 < i < |chain| ==> NarrowsTo(digest, chain[i - 1], chain[i])
  }

  /** A delegated chain verifies; and a verified chain could have been delegated exactly when its depths count up and
      its constraints are listed in order, which `verify_chain` does not look at. */
  lemma DelegatedIff(digest: Identify, chain: seq<Context>)
    ensures Delegated(digest, chain)
       <==> Verified(digest, chain) && forall i {:trigger chain[i]} :: 0 < i < |chain| ==>
              chain[i].depth == chain[i - 1].depth + 1 && chain[i].constraints == Listed(chain[i].constraints)
  {
    forall i | 0 < i < |chain|
      ensures NarrowsTo(digest, chain[i - 1], chain[i])
         <==> Link(digest, chain[i - 1], chain[i]) && chain[i].depth == chain[i - 1].depth + 1
              && chain[i].constraints == Listed(chain[i].constraints)
    {
      NarrowsIff(digest, chain[i - 1], chain[i]);
    }
  }

  /** One link, in plain terms: the child records its parent's digest; what it may do its parent may do, or its parent may do
      anything; it drops no constraint; a limited parent gives no more than its budget, compared at any scale, and no later
      expiry, compared as text. */
  lemma LinkIff(digest: Identify, parent: Context, child: Context)
    ensures Link(digest, parent, child)
       <==> && digest(parent) == Ok(child.parentDigest)
            && ("*" in parent.scope || forall p :: p in child.scope ==> p in parent.scope)
            && (forall c :: c in parent.constraints ==> c in child.constraints)
            && (parent.maxCost.Some? ==> child.maxCost.Some? && NotAbove(child.maxCost.value, parent.maxCost.value))
            && (parent.expiresAt != "" ==> child.expiresAt != "" && !Precedes(parent.expiresAt, child.expiresAt))
  {
    BeforeIff(parent.expiresAt, child.expiresAt);
    if parent.maxCost.Some? && child.maxCost.Some? {
      NotAboveIff(child.maxCost.value, parent.maxCost.value);
    }
  }

  /** a <= b: at every scale at which both are whole, a is no more. */
  ghost predicate NotAbove(a: Amount, b: Amount) {
    forall e :: e <= a.exponent && e <= b.exponent ==> Scaled(a, e) <= Scaled(b, e)
  }

  lemma NotAboveIff(a: Amount, b: Amount)
    ensures NotAbove(a, b) <==> !Exceeds(a, b)
  {
    if !Exceeds(a, b) {
      forall e | e <= a.exponent && e <= b.exponent
        ensures Scaled(a, e) <= Scaled(b, e)
      {
        ScaledOrder(a, b, e);
      }
    }
  }

  // ---- what a verified chain guarantees ----

  /** At most as powerful: permits, may spend and lasts no more, and is bound by every constraint. */
  ghost predicate NoMoreThan(child: Context, parent: Context) {
    && (forall p :: Permits(child, p) ==> Permits(parent, p))
    && (forall c :: c in parent.constraints ==> c in child.constraints)
    && CostWithin(child.maxCost, parent.maxCost)
    && ExpiryWithin(child.expiresAt, parent.expiresAt)
  }

  lemma ScaledOrder(a: Amount, b: Amount, lower: int)
    requires lower <= Min(a.exponent, b.exponent)
    ensures Exceeds(a, b) <==> Scaled(a, lower) > Scaled(b, lower)
  {
    var e := Min(a.exponent, b.exponent);
    ScaledDeeper(a, e, e - lower);
    ScaledDeeper(b, e, e - lower);
    MulKeepsOrder(Scaled(a, e), Scaled(b, e), Pow10(e - lower));
  }

  lemma CostWithinTransitive(a: Option<Amount>, b: Option<Amount>, c: Option<Amount>)
    requires CostWithin(a, b) && CostWithin(b, c)
    ensures CostWithin(a, c)
  {
    if c.Some? {
      var lower := Min(a.value.exponent, Min(b.value.exponent, c.value.exponent));
      ScaledOrder(a.value, b.value, lower);
      ScaledOrder(b.value, c.value, lower);
      ScaledOrder(a.value, c.value, lower);
    }
  }

  lemma ExpiryWithinTransitive(a: string, b: string, c: string)
    requires ExpiryWithin(a, b) && ExpiryWithin(b, c)
    ensures ExpiryWithin(a, c)
  {
    if c != "" && Before(c, a) {
      BeforeTotal(a, b);
      if a != b {
        BeforeTransitive(c, a, b);
      }
    }
  }

  lemma NoMoreTransitive(a: Context, b: Context, c: Context)
    requires NoMoreThan(a, b) && NoMoreThan(b, c)
    ensures NoMoreThan(a, c)
  {
    CostWithinTransitive(a.maxCost, b.maxCost, c.maxCost);
    ExpiryWithinTransitive(a.expiresAt, b.expiresAt, c.expiresAt);
  }

  lemma NoMoreReflexive(a: Context)
    ensures NoMoreThan(a, a)
  {
    BeforeIrreflexive(a.expiresAt);
  }

  /** Authority only shrinks along a verified chain: every later link is at most as powerful as every earlier one. */
  lemma {:induction false} VerifiedOnlyNarrows(digest: Identify, chain: seq<Context>, i: nat, j: nat)
    requires Verified(digest, chain) && i <= j < |chain|
    ensures NoMoreThan(chain[j], chain[i])
    decreases j
  {
    if i == j {
      NoMoreReflexive(chain[i]);
    } else {
      VerifiedOnlyNarrows(digest, chain, i, j - 1);
      var parent, child := chain[j - 1], chain[j];
      assert Link(digest, parent, child);
      assert forall p :: Permits(child, p) ==> Permits(parent, p) by {
        assert WILDCARD in child.scope ==> Permits(parent, WILDCARD);
      }
      NoMoreTransitive(child, parent, chain[i]);
    }
  }

  // ---- identity ----

  lemma {:induction false} NamesTellApart()
    ensures |NAMES| == 9 && FieldNames(NAMES)
  {
    var codes := [811369, 618593, 353396, 487539, 357232, 746356, 552307, 681313, 880755];
    assert forall i :: 0 <= i < 9 ==> Ascii(NAMES[i]) && Code(NAMES[i]) == codes[i];
    ToldApart(NAMES, codes);
  }

  lemma {:induction false} PrincipalNamesTellApart()
    ensures |PRINCIPAL_NAMES| == 5 && FieldNames(PRINCIPAL_NAMES)
  {
    var codes := [158057, 289646, 423022, 356965, 680293];
    assert forall i :: 0 <= i < 5 ==> Code(PRINCIPAL_NAMES[i]) == codes[i];
  }

  lemma {:induction false} TextsAccepted(l: Runtime, texts: seq<string>)
    ensures CanonicalizeAll(l, TextValues(texts)) == Ok(TextValues(NfcAll(l, texts)))
  {
    ListForms(l, TextValues(texts));
    assert CanonicalizeAll(l, TextValues(texts)).value == TextValues(NfcAll(l, texts));
  }

  function NfcAll(l: Runtime, texts: seq<string>): (r: seq<string>)
    ensures |r| == |texts| && forall i :: 0 <= i < |r| ==> r[i] == Nfc(l, texts[i])
  {
    seq(|texts|, i requires 0 <= i < |texts| => Nfc(l, texts[i]))
  }

  lemma {:induction false} SetAccepted(l: Runtime, texts: seq<string>)
    ensures Canonicalize(l, OptionalSet(texts)).Ok?
  {
    ListedAccepted(l, Listed(texts));
  }

  lemma {:induction false} ListedAccepted(l: Runtime, texts: seq<string>)
    ensures Canonicalize(l, List(TextValues(texts))).Ok?
  {
    TextsAccepted(l, texts);
  }

  lemma PrincipalAccepted(l: Runtime, p: Principal)
    ensures Canonicalize(l, FormOf(PRINCIPAL_NAMES, PrincipalItems(p))).Ok?
  {
    PrincipalNamesTellApart();
    FormAccepted(l, PRINCIPAL_NAMES, PrincipalItems(p));
    SetAccepted(l, p.roles);
  }

  /** A context has a digest exactly when its budget, if it has one, has a decimal string. */
  lemma DigestIff(l: Runtime, a: Context)
    ensures DigestOf(l, a).Ok? <==> Identity(l, a).Ok?
    ensures Identity(l, a).Ok? <==> Canonicalize(l, OptionalCost(a.maxCost)).Ok?
  {
    NamesTellApart();
    var items := Items(a);
    FormAccepted(l, NAMES, items);
    assert (forall i :: 0 <= i < 9 ==> Canonicalize(l, items[i]).Ok?) <==> Canonicalize(l, items[6]).Ok? by {
      OthersAccepted(l, a);
    }
  }

  lemma OthersAccepted(l: Runtime, a: Context)
    ensures forall i :: 0 <= i < 9 && i != 6 ==> Canonicalize(l, Items(a)[i]).Ok?
  {
    PrincipalAccepted(l, a.principal);
    SetAccepted(l, a.scope);
    SetAccepted(l, a.constraints);
  }

  /** Contexts with the same digest have the same canonical form, and agree item by item. */
  lemma SameDigestSameItems(l: Runtime, a: Context, b: Context)
    requires DigestOf(l, a).Ok? && DigestOf(l, a) == DigestOf(l, b)
    ensures SameIdentity(l, a, b) && SameItems(l, Items(a), Items(b))
  {
    DigestIff(l, a);
    DigestIff(l, b);
    NamesTellApart();
    SameTextIffSameForm(l, CanonicalForm(a), CanonicalForm(b));
    SameFormIffSameItems(l, NAMES, Items(a), Items(b));
  }

  lemma SameOptionalText(l: Runtime, s: string, t: string)
    requires Canonicalize(l, OptionalText(s)) == Canonicalize(l, OptionalText(t))
    ensures l.nfc(s) == l.nfc(t) && (s == "" <==> t == "")
  {
    AsciiIsNormal(l, "");
  }

  lemma SameIdentitySameParent(l: Runtime, a: Context, b: Context)
    requires SameIdentity(l, a, b)
    ensures l.nfc(a.parentDigest) == l.nfc(b.parentDigest) && (a.parentDigest == "" <==> b.parentDigest == "")
  {
    NamesTellApart();
    SameFormIffSameItems(l, NAMES, Items(a), Items(b));
    assert Items(a)[8] == OptionalText(a.parentDigest) && Items(b)[8] == OptionalText(b.parentDigest);
    SameOptionalText(l, a.parentDigest, b.parentDigest);
  }

  /** What a digest must do for a leaf's digest to bind its chain: equal digests mean contexts that count as the same,
      and those record the same parent or both none. */
  ghost predicate Binding(digest: Identify, same: (Context, Context) -> bool) {
    && (forall x :: digest(x) != Ok(""))
    && (forall x, y :: digest(x).Ok? && digest(x) == digest(y) ==> same(x, y))
    && (forall x, y :: same(x, y) ==> (x.parentDigest == "" <==> y.parentDigest == ""))
    && (forall x, y :: same(x, y) ==> SameParent(digest, x, y))
  }

  ghost predicate SameParent(digest: Identify, x: Context, y: Context) {
    forall s, t :: digest(s) == Ok(x.parentDigest) && digest(t) == Ok(y.parentDigest) ==> digest(s) == digest(t)
  }

  ghost predicate AllSame(same: (Context, Context) -> bool, a: seq<Context>, b: seq<Context>) {
    |a| == |b| && forall i :: 0 <= i < |a| ==> same(a[i], b[i])
  }

  lemma ParentsBound(digest: Identify, same: (Context, Context) -> bool, a: seq<Context>, b: seq<Context>)
    requires Verified(digest, a) && Verified(digest, b) && Binding(digest, same)
    requires same(a[|a| - 1], b[|b| - 1])
    ensures |a| == 1 <==> |b| == 1
    ensures |a| > 1 ==> digest(a[|a| - 2]).Ok? && digest(a[|a| - 2]) == digest(b[|b| - 2])
  {
    LeafHasParent(digest, a);
    LeafHasParent(digest, b);
    if |a| > 1 {
      var x, y := a[|a| - 1], b[|b| - 1];
      assert Link(digest, a[|a| - 2], x) && Link(digest, b[|b| - 2], y) && SameParent(digest, x, y);
    }
  }

  lemma VerifiedFront(digest: Identify, chain: seq<Context>)
    requires Verified(digest, chain) && |chain| > 1
    ensures Verified(digest, chain[..|chain| - 1])
  {
    var front := chain[..|chain| - 1];
    assert forall i :: 0 <= i < |front| ==> front[i] == chain[i];
  }

  lemma {:induction false} LeafBinds(digest: Identify, same: (Context, Context) -> bool, a: seq<Context>, b: seq<Context>)
    requires Verified(digest, a) && Verified(digest, b) && Binding(digest, same)
    requires digest(a[|a| - 1]).Ok? && digest(a[|a| - 1]) == digest(b[|b| - 1])
    ensures AllSame(same, a, b)
    decreases |a|
  {
    assert same(a[|a| - 1], b[|b| - 1]);
    ParentsBound(digest, same, a, b);
    if |a| > 1 {
      VerifiedFront(digest, a);
      VerifiedFront(digest, b);
      LeafBinds(digest, same, a[..|a| - 1], b[..|b| - 1]);
    }
    AllSameExtend(same, a, b);
  }

  lemma AllSameExtend(same: (Context, Context) -> bool, a: seq<Context>, b: seq<Context>)
    requires a != [] && b != [] && same(a[|a| - 1], b[|b| - 1])
    requires AllSame(same, a[..|a| - 1], b[..|b| - 1])
    ensures AllSame(same, a, b)
  {
    var p, q := a[..|a| - 1], b[..|b| - 1];
    forall i | 0 <= i < |a|
      ensures same(a[i], b[i])
    {
      assert i < |p| ==> same(p[i], q[i]);
    }
  }

  /** In a verified chain only the root records no parent. */
  lemma LeafHasParent(digest: Identify, chain: seq<Context>)
    requires Verified(digest, chain) && forall x :: digest(x) != Ok("")
    ensures chain[|chain| - 1].parentDigest == "" <==> |chain| == 1
  {
    if |chain| > 1 {
      assert Link(digest, chain[|chain| - 2], chain[|chain| - 1]);
    }
  }

  lemma DigestShape(l: Runtime, a: Context)
    ensures DigestOf(l, a).Ok? ==> l.nfc(DigestOf(l, a).value) == DigestOf(l, a).value && DigestOf(l, a).value != ""
  {
    if DigestOf(l, a).Ok? {
      DigestIsNormal(l, CanonicalJson(l, CanonicalForm(a)).value);
    }
  }

  lemma ContentTells(l: Runtime)
    ensures forall x, y :: DigestOf(l, x).Ok? && DigestOf(l, x) == DigestOf(l, y) ==> SameIdentity(l, x, y)
  {
    forall x, y | DigestOf(l, x).Ok? && DigestOf(l, x) == DigestOf(l, y)
      ensures SameIdentity(l, x, y)
    {
      SameDigestSameItems(l, x, y);
    }
  }

  lemma ContentSameParent(l: Runtime, x: Context, y: Context)
    requires SameIdentity(l, x, y)
    ensures (x.parentDigest == "" <==> y.parentDigest == "") && SameParent(ByContent(l), x, y)
  {
    SameIdentitySameParent(l, x, y);
    forall s, t | DigestOf(l, s) == Ok(x.parentDigest) && DigestOf(l, t) == Ok(y.parentDigest)
      ensures DigestOf(l, s) == DigestOf(l, t)
    {
      DigestShape(l, s);
      DigestShape(l, t);
    }
  }

  lemma ContentBinds(l: Runtime)
    ensures Binding(ByContent(l), (x, y) => SameIdentity(l, x, y))
  {
    forall x
      ensures ByContent(l)(x) != Ok("")
    {
      DigestShape(l, x);
    }
    ContentTells(l);
    forall x, y | SameIdentity(l, x, y)
      ensures (x.parentDigest == "" <==> y.parentDigest == "") && SameParent(ByContent(l), x, y)
    {
      ContentSameParent(l, x, y);
    }
  }

  /** The same canonical form. */
  ghost predicate SameIdentity(l: Runtime, a: Context, b: Context) {
    Identity(l, a).Ok? && Identity(l, a) == Identity(l, b)
  }

  /** A leaf's digest binds the whole chain: two verified chains whose leaves have the same digest are equally long and
      have the same canonical form link by link. */
  lemma LeafBindsChain(l: Runtime, a: seq<Context>, b: seq<Context>)
    requires Verified(ByContent(l), a) && Verified(ByContent(l), b)
    requires DigestOf(l, a[|a| - 1]).Ok? && DigestOf(l, a[|a| - 1]) == DigestOf(l, b[|b| - 1])
    ensures |a| == |b| && forall i :: 0 <= i < |a| ==> SameIdentity(l, a[i], b[i])
  {
    ContentBinds(l);
    LeafBinds(ByContent(l), (x, y) => SameIdentity(l, x, y), a, b);
  }

  /** Sets are hashed as sets: contexts that differ only in the order or the repetition of their scopes, constraints and roles have
      one digest. */
  lemma {:induction false} SetsHashAlike(l: Runtime, a: Context, scope: seq<string>, constraints: seq<string>, roles: seq<string>)
    requires (forall p :: p in scope <==> p in a.scope) && (forall c :: c in constraints <==> c in a.constraints)
    requires forall r :: r in roles <==> r in a.principal.roles
    ensures DigestOf(l, a.(scope := scope, constraints := constraints, principal := a.principal.(roles := roles))) == DigestOf(l, a)
  {
    SameOptional(scope, a.scope);
    SameOptional(constraints, a.constraints);
    SameOptional(roles, a.principal.roles);
  }

  lemma SameOptional(s: seq<string>, t: seq<string>)
    requires forall x :: x in s <==> x in t
    ensures OptionalSet(s) == OptionalSet(t)
  {
    assert AsSet(s) == AsSet(t);
    assert s != [] ==> s[0] in t;
    assert t != [] ==> t[0] in s;
  }

  // ---- a digest binds what the context allows ----

  ghost predicate NormalTexts(l: Runtime, texts: seq<string>) {
    forall t :: t in texts ==> l.nfc(t) == t
  }

  lemma SameOptionalSet(l: Runtime, s: seq<string>, t: seq<string>)
    requires NormalTexts(l, s) && NormalTexts(l, t)
    requires Canonicalize(l, OptionalSet(s)) == Canonicalize(l, OptionalSet(t))
    ensures forall x :: x in s <==> x in t
  {
    ListedElements(s);
    ListedElements(t);
    if s != [] && t != [] {
      SameTexts(l, Listed(s), Listed(t));
    } else {
      OnlyEmptyLeftOut(l, s);
      OnlyEmptyLeftOut(l, t);
    }
  }

  lemma {:induction false} OnlyEmptyLeftOut(l: Runtime, s: seq<string>)
    ensures Canonicalize(l, OptionalSet(s)) == Ok(Null) <==> s == []
  {
    SetAccepted(l, s);
  }

  lemma ListedElements(s: seq<string>)
    ensures forall x :: x in Listed(s) <==> x in s
  {
    assert forall x :: x in AsSet(s) <==> x in s;
  }

  lemma {:induction false} SameTexts(l: Runtime, p: seq<string>, q: seq<string>)
    requires NormalTexts(l, p) && NormalTexts(l, q)
    requires Canonicalize(l, List(TextValues(p))) == Canonicalize(l, List(TextValues(q)))
    ensures p == q
  {
    NormalFixed(l, p);
    NormalFixed(l, q);
    SameTextValues(p, q);
  }

  lemma {:induction false} NormalFixed(l: Runtime, texts: seq<string>)
    requires NormalTexts(l, texts)
    ensures Canonicalize(l, List(TextValues(texts))) == Ok(List(TextValues(texts)))
  {
    TextsCanonical(l, texts);
    ListFixed(l, TextValues(texts));
  }

  lemma ListFixed(l: Runtime, items: seq<Value>)
    requires forall i :: 0 <= i < |items| ==> IsCanonical(l, items[i])
    ensures Canonicalize(l, List(items)) == Ok(List(items))
  {
    AllFixed(l, items);
  }

  lemma TextsCanonical(l: Runtime, texts: seq<string>)
    requires NormalTexts(l, texts)
    ensures forall i :: 0 <= i < |TextValues(texts)| ==> IsCanonical(l, TextValues(texts)[i])
  {
    assert forall i :: 0 <= i < |texts| ==> texts[i] in texts;
    assert forall i :: 0 <= i < |texts| ==> TextValues(texts)[i] == Str(texts[i]);
  }

  lemma SameTextValues(p: seq<string>, q: seq<string>)
    requires TextValues(p) == TextValues(q)
    ensures p == q
  {
    assert forall i :: 0 <= i < |p| ==> TextValues(p)[i] == Str(p[i]) && TextValues(q)[i] == Str(q[i]);
  }

  ghost predicate NormalContext(l: Runtime, a: Context) {
    NormalTexts(l, a.scope) && NormalTexts(l, a.constraints) && l.nfc(a.expiresAt) == a.expiresAt
  }

  /** With strings in normal form, equal digests mean equal power: the same permissions, constraints, expiry and depth,
      and budgets with the same decimal string. */
  lemma DigestBindsPower(l: Runtime, a: Context, b: Context)
    requires DigestOf(l, a).Ok? && DigestOf(l, a) == DigestOf(l, b)
    requires NormalContext(l, a) && NormalContext(l, b)
    ensures forall p :: Permits(a, p) <==> Permits(b, p)
    ensures forall c :: c in a.constraints <==> c in b.constraints
    ensures a.expiresAt == b.expiresAt && a.depth == b.depth
    ensures Canonicalize(l, OptionalCost(a.maxCost)) == Canonicalize(l, OptionalCost(b.maxCost))
  {
    SameDigestSameItems(l, a, b);
    SameItemsAt(l, a, b);
    SameOptionalSet(l, a.scope, b.scope);
    SameOptionalSet(l, a.constraints, b.constraints);
    SameOptionalText(l, a.expiresAt, b.expiresAt);
  }

  lemma {:induction false} SameItemsAt(l: Runtime, a: Context, b: Context)
    requires SameItems(l, Items(a), Items(b))
    ensures a.depth == b.depth
    ensures Canonicalize(l, OptionalSet(a.scope)) == Canonicalize(l, OptionalSet(b.scope))
    ensures Canonicalize(l, OptionalSet(a.constraints)) == Canonicalize(l, OptionalSet(b.constraints))
    ensures Canonicalize(l, OptionalCost(a.maxCost)) == Canonicalize(l, OptionalCost(b.maxCost))
    ensures Canonicalize(l, OptionalText(a.expiresAt)) == Canonicalize(l, OptionalText(b.expiresAt))
  {
    ItemPlaces(a);
    ItemPlaces(b);
    SamePlaces(l, Items(a), Items(b));
    SameDepth(l, a.depth, b.depth);
  }

  lemma ItemPlaces(a: Context)
    ensures var f := Items(a);
      && f[2] == Int(a.depth) && f[4] == OptionalSet(a.scope) && f[5] == OptionalSet(a.constraints)
      && f[6] == OptionalCost(a.maxCost) && f[7] == OptionalText(a.expiresAt)
  {}

  lemma SamePlaces(l: Runtime, f: seq<Value>, g: seq<Value>)
    requires |f| == |g| == 9 && SameItems(l, f, g)
    ensures Canonicalize(l, f[2]) == Canonicalize(l, g[2]) && Canonicalize(l, f[4]) == Canonicalize(l, g[4])
    ensures Canonicalize(l, f[5]) == Canonicalize(l, g[5]) && Canonicalize(l, f[6]) == Canonicalize(l, g[6])
    ensures Canonicalize(l, f[7]) == Canonicalize(l, g[7])
  {}

  lemma SameDepth(l: Runtime, m: int, n: int)
    requires Canonicalize(l, Int(m)) == Canonicalize(l, Int(n))
    ensures m == n
  {
    assert Canonicalize(l, Int(m)) == Ok(Int(m)) && Canonicalize(l, Int(n)) == Ok(Int(n));
  }
}
