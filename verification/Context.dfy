/** Identity of a context preview plan and of the view materialised from it (runtime_contracts/models/context.py). */
module Context {
  import opened Wrappers
  import opened Text
  import opened Platform
  import opened Canonical
  import opened Json
  import opened Forms
  import opened Sorting
  import opened Unique

  datatype Handle = Handle(
    artifactId: string, artifactType: string, version: string, contentHash: string, visibility: string,
    tenantId: Option<string>, authority: string, projections: seq<string>)

  datatype Item = Item(handle: Handle, necessity: string, projection: string, authorization: string, reason: string)

  datatype Plan = Plan(
    planId: string, items: seq<Item>, budgetTokens: Option<int>, estimatedTokens: int, omittedCount: int,
    schemaId: string, schemaVersion: string)

  datatype View = View(
    viewId: string, plan: Plan, versionPins: map<string, string>, materializedAt: Option<string>, schemaId: string,
    schemaVersion: string)

  // ---- canonical forms ----

  const HANDLE_NAMES: seq<string> := ["artifact_id", "artifact_type", "version", "artifact_content_hash", "tenancy", "authority", "projections"]
  const TENANCY_NAMES: seq<string> := ["visibility", "tenant_id"]
  const ITEM_NAMES: seq<string> := ["handle", "necessity", "projection", "authorization"]
  const PLAN_NAMES: seq<string> := ["schema_id", "schema_version", "items", "budget_tokens", "omitted_count"]
  const VIEW_NAMES: seq<string> := ["schema_id", "schema_version", "plan", "version_pins"]

  function OptionalText(s: Option<string>): Value {
    match s
    case None => Null
    case Some(t) => Str(t)
  }

  function TenancyItems(h: Handle): (r: seq<Value>)
    ensures |r| == 2
  {
    [Str(h.visibility), OptionalText(h.tenantId)]
  }

  function HandleItemsWith(h: Handle, tenancy: Value, projections: Value): (r: seq<Value>)
    ensures |r| == 7
  {
    [Str(h.artifactId), Str(h.artifactType), Str(h.version), Str(h.contentHash), tenancy,
     if h.authority == "" then Null else Str(h.authority), projections]
  }

  function HandleItems(h: Handle): (r: seq<Value>)
    ensures |r| == 7
  {
    HandleItemsWith(h, FormOf(TENANCY_NAMES, TenancyItems(h)), List(TextValues(Sort(h.projections, AtMost))))
  }

  function ItemParts(i: Item): (r: seq<Value>)
    ensures |r| == 4
  {
    [FormOf(HANDLE_NAMES, HandleItems(i.handle)), Str(i.necessity), Str(i.projection), Str(i.authorization)]
  }

  function ItemForm(i: Item): Value {
    FormOf(ITEM_NAMES, ItemParts(i))
  }

  datatype SortKey = SortKey(artifactId: string, projection: string, necessity: string)

  /** Tuples compare by their first difference. */
  predicate KeyAtMost(a: SortKey, b: SortKey) {
    if a.artifactId != b.artifactId then Before(a.artifactId, b.artifactId)
    else if a.projection != b.projection then Before(a.projection, b.projection)
    else AtMost(a.necessity, b.necessity)
  }

  function KeyOf(): Item -> SortKey {
    (i: Item) => SortKey(i.handle.artifactId, i.projection, i.necessity)
  }

  function ItemValues(items: seq<Item>): seq<Value> {
    Image(Deduplicated(items, KeyOf(), KeyAtMost), ItemForm)
  }

  function PlanPartsWith(p: Plan, items: Value): (r: seq<Value>)
    ensures |r| == 5
  {
    [Str(p.schemaId), Str(p.schemaVersion), items,
     if p.budgetTokens.Some? then Int(p.budgetTokens.value) else Null, Int(p.omittedCount)]
  }

  function PlanParts(p: Plan): (r: seq<Value>)
    ensures |r| == 5
  {
    PlanPartsWith(p, List(ItemValues(p.items)))
  }

  function PlanForm(p: Plan): Value {
    FormOf(PLAN_NAMES, PlanParts(p))
  }

  function ViewPartsWith(v: View, plan: Value, pins: Value): (r: seq<Value>)
    ensures |r| == 4
  {
    [Str(v.schemaId), Str(v.schemaVersion), plan, pins]
  }

  function ViewParts(v: View): (r: seq<Value>)
    ensures |r| == 4
  {
    ViewPartsWith(v, PlanForm(v.plan), Map(TextMembers(v.versionPins)))
  }

  function ViewForm(v: View): Value {
    FormOf(VIEW_NAMES, ViewParts(v))
  }

  function PlanHash(l: Runtime, p: Plan): Result<string> {
    ContentHash(l, PlanForm(p))
  }

  function ViewHash(l: Runtime, v: View): Result<string> {
    ContentHash(l, ViewForm(v))
  }

  /** Those of the ids whose pins differ. */
  function Diverging(ids: seq<string>, mine: map<string, string>, theirs: map<string, string>): seq<string> {
    if ids == [] then []
    else
      var last := ids[|ids| - 1];
      Diverging(ids[..|ids| - 1], mine, theirs) + if SamePin(mine, theirs, last) then [] else [last]
  }

  /** `divergence_from`: which pins moved. */
  method DivergenceFrom(mine: map<string, string>, theirs: map<string, string>) returns (r: seq<string>)
    ensures r == Diverging(Ascending(mine.Keys + theirs.Keys), mine, theirs)
  {
    r := DivergenceAmong(Ascending(mine.Keys + theirs.Keys), mine, theirs);
  }

  method DivergenceAmong(ids: seq<string>, mine: map<string, string>, theirs: map<string, string>)
    returns (r: seq<string>)
    ensures r == Diverging(ids, mine, theirs)
  {
    r := [];
    for i := 0 to |ids|
      invariant r == Diverging(ids[..i], mine, theirs)
    {
      assert ids[..i + 1][..i] == ids[..i];
      if !SamePin(mine, theirs, ids[i]) {
        r := r + [ids[i]];
      }
    }
    assert ids[..|ids|] == ids;
  }

  lemma {:induction false} DivergingAre(ids: seq<string>, mine: map<string, string>, theirs: map<string, string>)
    requires Increasing(ids)
    ensures Increasing(Diverging(ids, mine, theirs))
    ensures forall k :: k in Diverging(ids, mine, theirs) <==> k in ids && !SamePin(mine, theirs, k)
  {
    if ids != [] {
      var n := |ids| - 1;
      DivergingAre(ids[..n], mine, theirs);
      assert ids == ids[..n] + [ids[n]];
      assert forall k :: k in ids[..n] ==> Before(k, ids[n]);
    }
  }

  /** The divergence lists, in order and once each, the ids pinned differently on the two sides; it is empty exactly when
      the pins are the same. */
  lemma DivergenceIsExact(mine: map<string, string>, theirs: map<string, string>)
    ensures var r := Diverging(Ascending(mine.Keys + theirs.Keys), mine, theirs);
      && Increasing(r)
      && (forall k :: k in r <==> !SamePin(mine, theirs, k))
      && (r == [] <==> mine == theirs)
  {
    var ids := Ascending(mine.Keys + theirs.Keys);
    DivergingAre(ids, mine, theirs);
    SamePinsSameMaps(mine, theirs);
    var r := Diverging(ids, mine, theirs);
    forall k
      ensures k in r <==> !SamePin(mine, theirs, k)
    {
      assert k in ids <==> k in mine.Keys + theirs.Keys;
    }
    assert r != [] ==> r[0] in r;
  }

  lemma SamePinsSameMaps(mine: map<string, string>, theirs: map<string, string>)
    ensures (forall k :: SamePin(mine, theirs, k)) <==> mine == theirs
  {
    if forall k :: SamePin(mine, theirs, k) {
      forall k
        ensures k in mine <==> k in theirs
        ensures k in mine && k in theirs ==> mine[k] == theirs[k]
      {
        assert SamePin(mine, theirs, k);
      }
      assert mine.Keys == theirs.Keys;
    }
  }

  predicate SamePin(mine: map<string, string>, theirs: map<string, string>, k: string) {
    (k in mine <==> k in theirs) && (k in mine && k in theirs ==> mine[k] == theirs[k])
  }

  // ---- names ----

  lemma {:induction false} HandleNamesTellApart()
    ensures |HANDLE_NAMES| == 7 && FieldNames(HANDLE_NAMES)
  {
    var codes := [745833, 876912, 489071, 1401203, 488547, 614772, 749678];
    assert forall i :: 0 <= i < 7 ==> Ascii(HANDLE_NAMES[i]) && Code(HANDLE_NAMES[i]) == codes[i];
    ToldApart(HANDLE_NAMES, codes);
  }

  lemma TenancyNamesTellApart()
    ensures |TENANCY_NAMES| == 2 && FieldNames(TENANCY_NAMES)
  {
    var codes := [685684, 619625];
    assert forall i :: 0 <= i < 2 ==> Ascii(TENANCY_NAMES[i]) && Code(TENANCY_NAMES[i]) == codes[i];
    ToldApart(TENANCY_NAMES, codes);
  }

  lemma ItemNamesTellApart()
    ensures |ITEM_NAMES| == 4 && FieldNames(ITEM_NAMES)
  {
    var codes := [419948, 618100, 684143, 876911];
    assert forall i :: 0 <= i < 4 ==> Ascii(ITEM_NAMES[i]) && Code(ITEM_NAMES[i]) == codes[i];
    ToldApart(ITEM_NAMES, codes);
  }

  lemma PlanNamesTellApart()
    ensures |PLAN_NAMES| == 5 && FieldNames(PLAN_NAMES)
  {
    var codes := [619369, 947055, 354669, 877166, 880494];
    assert forall i :: 0 <= i < 5 ==> Ascii(PLAN_NAMES[i]) && Code(PLAN_NAMES[i]) == codes[i];
    ToldApart(PLAN_NAMES, codes);
  }

  lemma ViewNamesTellApart()
    ensures |VIEW_NAMES| == 4 && FieldNames(VIEW_NAMES)
  {
    var codes := [619369, 947055, 290913, 816750];
    assert forall i :: 0 <= i < 4 ==> Ascii(VIEW_NAMES[i]) && Code(VIEW_NAMES[i]) == codes[i];
    ToldApart(VIEW_NAMES, codes);
  }

  // ---- every plan and view has an identity ----

  lemma {:induction false} TextsAccepted(l: Runtime, texts: seq<string>)
    ensures Canonicalize(l, List(TextValues(texts))).Ok?
  {
    SameListIff(l, TextValues(texts), TextValues(texts));
  }

  lemma TenancyAccepted(l: Runtime, h: Handle)
    ensures Canonicalize(l, FormOf(TENANCY_NAMES, TenancyItems(h))).Ok?
  {
    TenancyNamesTellApart();
    FormAccepted(l, TENANCY_NAMES, TenancyItems(h));
  }

  lemma {:induction false} SevenAccepted(l: Runtime, h: Handle, tenancy: Value, projections: Value)
    requires Canonicalize(l, tenancy).Ok? && Canonicalize(l, projections).Ok?
    ensures forall i :: 0 <= i < 7 ==> Canonicalize(l, HandleItemsWith(h, tenancy, projections)[i]).Ok?
  {}

  lemma HandleAccepted(l: Runtime, h: Handle)
    ensures Canonicalize(l, FormOf(HANDLE_NAMES, HandleItems(h))).Ok?
  {
    TenancyAccepted(l, h);
    TextsAccepted(l, Sort(h.projections, AtMost));
    SevenAccepted(l, h, FormOf(TENANCY_NAMES, TenancyItems(h)), List(TextValues(Sort(h.projections, AtMost))));
    HandleNamesTellApart();
    FormAccepted(l, HANDLE_NAMES, HandleItems(h));
  }

  lemma ItemAccepted(l: Runtime, i: Item)
    ensures Canonicalize(l, ItemForm(i)).Ok?
  {
    HandleAccepted(l, i.handle);
    ItemNamesTellApart();
    FormAccepted(l, ITEM_NAMES, ItemParts(i));
  }

  lemma ImageAccepted(l: Runtime, kept: seq<Item>)
    ensures forall i :: 0 <= i < |kept| ==> Canonicalize(l, Image(kept, ItemForm)[i]).Ok?
  {
    forall i | 0 <= i < |kept|
      ensures Canonicalize(l, Image(kept, ItemForm)[i]).Ok?
    {
      ItemAccepted(l, kept[i]);
    }
  }

  lemma ItemsAccepted(l: Runtime, items: seq<Item>)
    ensures Canonicalize(l, List(ItemValues(items))).Ok?
  {
    ListAccepted(l, Deduplicated(items, KeyOf(), KeyAtMost));
  }

  lemma {:induction false} ListAccepted(l: Runtime, kept: seq<Item>)
    ensures Canonicalize(l, List(Image(kept, ItemForm))).Ok?
  {
    ImageAccepted(l, kept);
    SameListIff(l, Image(kept, ItemForm), Image(kept, ItemForm));
  }

  lemma {:induction false} PlanPartsAccepted(l: Runtime, p: Plan, items: Value)
    requires Canonicalize(l, items).Ok?
    ensures Canonicalize(l, FormOf(PLAN_NAMES, PlanPartsWith(p, items))).Ok?
  {
    PlanNamesTellApart();
    FormAccepted(l, PLAN_NAMES, PlanPartsWith(p, items));
  }

  lemma PlanAccepted(l: Runtime, p: Plan)
    ensures Canonicalize(l, PlanForm(p)).Ok?
  {
    ItemsAccepted(l, p.items);
    PlanPartsAccepted(l, p, List(ItemValues(p.items)));
  }

  lemma PinsAccepted(l: Runtime, pins: map<string, string>)
    ensures Canonicalize(l, Map(TextMembers(pins))).Ok?
  {
    CollectAcceptedIff(l, TextMembers(pins));
  }

  lemma ViewPartsAccepted(l: Runtime, v: View, plan: Value, pins: Value)
    requires Canonicalize(l, plan).Ok? && Canonicalize(l, pins).Ok?
    ensures Canonicalize(l, FormOf(VIEW_NAMES, ViewPartsWith(v, plan, pins))).Ok?
  {
    ViewNamesTellApart();
    FormAccepted(l, VIEW_NAMES, ViewPartsWith(v, plan, pins));
  }

  lemma ViewAccepted(l: Runtime, v: View)
    ensures Canonicalize(l, ViewForm(v)).Ok?
  {
    PlanAccepted(l, v.plan);
    PinsAccepted(l, v.versionPins);
    ViewPartsAccepted(l, v, PlanForm(v.plan), Map(TextMembers(v.versionPins)));
  }

  // ---- the key is an order, and the form tells keys apart ----

  lemma KeysOrdered()
    ensures TotalOrder(KeyAtMost)
  {
    forall a, b
      ensures KeyAtMost(a, b) || KeyAtMost(b, a)
      ensures KeyAtMost(a, b) && KeyAtMost(b, a) ==> a == b
    {
      OneWay(a.artifactId, b.artifactId);
      OneWay(a.projection, b.projection);
      OneWay(a.necessity, b.necessity);
    }
    forall a, b, c | KeyAtMost(a, b) && KeyAtMost(b, c)
      ensures KeyAtMost(a, c)
    {
      KeyTransitive(a, b, c);
    }
  }

  lemma OneWay(s: string, t: string)
    ensures Before(s, t) || Before(t, s) || s == t
    ensures !(Before(s, t) && Before(t, s)) && (s == t ==> !Before(s, t))
  {
    BeforeTotal(s, t);
    BeforeIrreflexive(s);
    if Before(s, t) {
      BeforeAsymmetric(s, t);
    }
  }

  lemma KeyTransitive(a: SortKey, b: SortKey, c: SortKey)
    requires KeyAtMost(a, b) && KeyAtMost(b, c)
    ensures KeyAtMost(a, c)
  {
    TextTransitive(a.artifactId, b.artifactId, c.artifactId);
    TextTransitive(a.projection, b.projection, c.projection);
    TextTransitive(a.necessity, b.necessity, c.necessity);
  }

  lemma TextTransitive(a: string, b: string, c: string)
    ensures Before(a, b) && Before(b, c) ==> Before(a, c) && a != c
  {
    if Before(a, b) && Before(b, c) {
      BeforeTransitive(a, b, c);
      BeforeIrreflexive(a);
    }
  }

  /** The items are hashed by artifact, then projection, then necessity, each compared as text. */
  lemma {:induction false} PlanItemsInOrder(items: seq<Item>)
    ensures var r := Deduplicated(items, KeyOf(), KeyAtMost);
      forall i, j :: 0 <= i < j < |r| ==>
        || Precedes(r[i].handle.artifactId, r[j].handle.artifactId)
        || (r[i].handle.artifactId == r[j].handle.artifactId
            && (Precedes(r[i].projection, r[j].projection)
                || (r[i].projection == r[j].projection && Precedes(r[i].necessity, r[j].necessity))))
  {
    KeysOrdered();
    UniqueSpec(items, KeyOf(), KeyAtMost);
    var r := Deduplicated(items, KeyOf(), KeyAtMost);
    forall i, j | 0 <= i < j < |r|
      ensures KeyAtMost(KeyOf()(r[i]), KeyOf()(r[j])) && KeyOf()(r[i]) != KeyOf()(r[j])
      ensures Before(r[i].handle.artifactId, r[j].handle.artifactId) <==> Precedes(r[i].handle.artifactId, r[j].handle.artifactId)
      ensures Before(r[i].projection, r[j].projection) <==> Precedes(r[i].projection, r[j].projection)
      ensures Before(r[i].necessity, r[j].necessity) <==> Precedes(r[i].necessity, r[j].necessity)
    {
      BeforeIff(r[i].handle.artifactId, r[j].handle.artifactId);
      BeforeIff(r[i].projection, r[j].projection);
      BeforeIff(r[i].necessity, r[j].necessity);
    }
  }

  /** The order a handle lists its projections in is not part of what is hashed. */
  lemma {:induction false} ProjectionOrderIrrelevant(i: Item, projections: seq<string>)
    requires multiset(projections) == multiset(i.handle.projections)
    ensures ItemForm(i.(handle := i.handle.(projections := projections))) == ItemForm(i)
  {
    TextOrders();
    SortSorted(projections, AtMost);
    SortSorted(i.handle.projections, AtMost);
    forall x, y | AtMost(x, y) && AtMost(y, x)
      ensures x == y
    {
      if x != y {
        BeforeAsymmetric(x, y);
      }
    }
    SortedUnique(Sort(projections, AtMost), Sort(i.handle.projections, AtMost), AtMost);
  }

  /** The canonical form of an item, as it is hashed. */
  function Identity(l: Runtime): Item -> Result<Value> {
    i => Canonicalize(l, ItemForm(i))
  }

  lemma SameIdentitySameParts(l: Runtime, x: Item, y: Item)
    requires Canonicalize(l, ItemForm(x)) == Canonicalize(l, ItemForm(y))
    ensures SameItems(l, ItemParts(x), ItemParts(y)) && SameItems(l, HandleItems(x.handle), HandleItems(y.handle))
  {
    ItemAccepted(l, x);
    ItemAccepted(l, y);
    ItemNamesTellApart();
    SameFormIffSameItems(l, ITEM_NAMES, ItemParts(x), ItemParts(y));
    assert ItemParts(x)[0] == FormOf(HANDLE_NAMES, HandleItems(x.handle));
    assert ItemParts(y)[0] == FormOf(HANDLE_NAMES, HandleItems(y.handle));
    HandleAccepted(l, x.handle);
    HandleAccepted(l, y.handle);
    HandleNamesTellApart();
    SameFormIffSameItems(l, HANDLE_NAMES, HandleItems(x.handle), HandleItems(y.handle));
  }

  /** The strings of the sort key are in normal form. */
  ghost predicate NormalKey(l: Runtime, i: Item) {
    l.nfc(i.handle.artifactId) == i.handle.artifactId && l.nfc(i.projection) == i.projection
    && l.nfc(i.necessity) == i.necessity
  }

  lemma {:induction false} IdentityGivesKey(l: Runtime, x: Item, y: Item)
    requires NormalKey(l, x) && NormalKey(l, y) && Canonicalize(l, ItemForm(x)) == Canonicalize(l, ItemForm(y))
    ensures KeyOf()(x) == KeyOf()(y)
  {
    SameIdentitySameParts(l, x, y);
    var p, q := ItemParts(x), ItemParts(y);
    assert p[1] == Str(x.necessity) && q[1] == Str(y.necessity) && p[2] == Str(x.projection) && q[2] == Str(y.projection);
    assert HandleItems(x.handle)[0] == Str(x.handle.artifactId) && HandleItems(y.handle)[0] == Str(y.handle.artifactId);
  }

  // ---- when plans are the same ----

  lemma SameKeptIff(l: Runtime, p: seq<Item>, q: seq<Item>)
    ensures Canonicalize(l, List(Image(p, ItemForm))) == Canonicalize(l, List(Image(q, ItemForm)))
       <==> Image(p, Identity(l)) == Image(q, Identity(l))
  {
    ImageAccepted(l, p);
    ImageAccepted(l, q);
    SameListIff(l, Image(p, ItemForm), Image(q, ItemForm));
    SameImagesIff(l, p, q);
  }

  lemma {:induction false} SameImagesIff(l: Runtime, p: seq<Item>, q: seq<Item>)
    ensures SameItems(l, Image(p, ItemForm), Image(q, ItemForm)) <==> Image(p, Identity(l)) == Image(q, Identity(l))
  {
    var x, y, f, g := Image(p, ItemForm), Image(q, ItemForm), Image(p, Identity(l)), Image(q, Identity(l));
    assert forall i :: 0 <= i < |p| ==> f[i] == Canonicalize(l, x[i]);
    assert forall i :: 0 <= i < |q| ==> g[i] == Canonicalize(l, y[i]);
    if SameItems(l, x, y) {
      assert forall i :: 0 <= i < |f| ==> f[i] == g[i];
    }
    if f == g {
      assert forall i :: 0 <= i < |x| ==> Canonicalize(l, x[i]) == f[i] == g[i];
    }
  }

  lemma SameItemListIff(l: Runtime, a: seq<Item>, b: seq<Item>)
    ensures Canonicalize(l, List(ItemValues(a))) == Canonicalize(l, List(ItemValues(b)))
       <==> FormsOf(a, KeyOf(), KeyAtMost, Identity(l)) == FormsOf(b, KeyOf(), KeyAtMost, Identity(l))
  {
    SameKeptIff(l, Deduplicated(a, KeyOf(), KeyAtMost), Deduplicated(b, KeyOf(), KeyAtMost));
  }

  /** What the identity of a plan is made of. */
  ghost predicate SameDecision(l: Runtime, a: Plan, b: Plan) {
    && FormsOf(a.items, KeyOf(), KeyAtMost, Identity(l)) == FormsOf(b.items, KeyOf(), KeyAtMost, Identity(l))
    && a.budgetTokens == b.budgetTokens && a.omittedCount == b.omittedCount
    && l.nfc(a.schemaId) == l.nfc(b.schemaId) && l.nfc(a.schemaVersion) == l.nfc(b.schemaVersion)
  }

  lemma {:induction false} PlanPartsIff(l: Runtime, a: Plan, b: Plan, u: Value, v: Value)
    ensures SameItems(l, PlanPartsWith(a, u), PlanPartsWith(b, v))
       <==> && Canonicalize(l, u) == Canonicalize(l, v)
            && a.budgetTokens == b.budgetTokens && a.omittedCount == b.omittedCount
            && l.nfc(a.schemaId) == l.nfc(b.schemaId) && l.nfc(a.schemaVersion) == l.nfc(b.schemaVersion)
  {
    SameFive(l, PlanPartsWith(a, u), PlanPartsWith(b, v));
  }

  lemma SamePlanPartsIff(l: Runtime, a: Plan, b: Plan)
    ensures SameItems(l, PlanParts(a), PlanParts(b)) <==> SameDecision(l, a, b)
  {
    SameItemListIff(l, a.items, b.items);
    PlanPartsIff(l, a, b, List(ItemValues(a.items)), List(ItemValues(b.items)));
  }

  lemma SamePlanFormIff(l: Runtime, a: Plan, b: Plan)
    ensures Canonicalize(l, PlanForm(a)) == Canonicalize(l, PlanForm(b)) <==> SameDecision(l, a, b)
  {
    PlanAccepted(l, a);
    PlanAccepted(l, b);
    PlanNamesTellApart();
    SameFormIffSameItems(l, PLAN_NAMES, PlanParts(a), PlanParts(b));
    SamePlanPartsIff(l, a, b);
  }

  lemma SameFive(l: Runtime, x: seq<Value>, y: seq<Value>)
    requires |x| == |y| == 5
    ensures SameItems(l, x, y)
       <==> && Canonicalize(l, x[0]) == Canonicalize(l, y[0]) && Canonicalize(l, x[1]) == Canonicalize(l, y[1])
            && Canonicalize(l, x[2]) == Canonicalize(l, y[2]) && Canonicalize(l, x[3]) == Canonicalize(l, y[3])
            && Canonicalize(l, x[4]) == Canonicalize(l, y[4])
  {
    assert SameItems(l, x, y) <==> forall i :: 0 <= i < 5 ==> Canonicalize(l, x[i]) == Canonicalize(l, y[i]);
  }

  /** Two plans have the same hash exactly when they reached the same decision. */
  lemma SamePlanIff(l: Runtime, a: Plan, b: Plan)
    ensures PlanHash(l, a).Ok? && (PlanHash(l, a) == PlanHash(l, b) <==> SameDecision(l, a, b))
  {
    PlanAccepted(l, a);
    PlanAccepted(l, b);
    SameTextIffSameForm(l, PlanForm(a), PlanForm(b));
    SamePlanFormIff(l, a, b);
  }

  /** The same plan with its items rearranged. */
  ghost predicate PlanOrderIrrelevant(l: Runtime, p: Plan) {
    forall items :: multiset(items) == multiset(p.items) ==> PlanHash(l, p.(items := items)) == PlanHash(l, p)
  }

  lemma RearrangedPlan(l: Runtime, p: Plan, items: seq<Item>)
    ensures PlanHash(l, p.(items := items)) == PlanHash(l, p)
       <==> FormsOf(items, KeyOf(), KeyAtMost, Identity(l)) == FormsOf(p.items, KeyOf(), KeyAtMost, Identity(l))
  {
    SamePlanIff(l, p.(items := items), p);
  }

  /** The order items were planned in is not part of the plan's hash exactly when items with the same artifact, projection
      and necessity are the same in every hashed respect. The key leaves out the authorization. */
  lemma {:induction false} PlanOrderIrrelevantIff(l: Runtime, p: Plan)
    ensures PlanOrderIrrelevant(l, p) <==> Consistent(p.items, KeyOf(), Identity(l))
  {
    KeysOrdered();
    OrderIrrelevantIff(p.items, KeyOf(), KeyAtMost, Identity(l));
    forall items
      ensures PlanHash(l, p.(items := items)) == PlanHash(l, p)
         <==> FormsOf(items, KeyOf(), KeyAtMost, Identity(l)) == FormsOf(p.items, KeyOf(), KeyAtMost, Identity(l))
    {
      RearrangedPlan(l, p, items);
    }
  }

  lemma AuthorizationShows(l: Runtime, x: Item, y: Item)
    requires Canonicalize(l, ItemForm(x)) == Canonicalize(l, ItemForm(y))
    ensures l.nfc(x.authorization) == l.nfc(y.authorization)
  {
    SameIdentitySameParts(l, x, y);
    assert ItemParts(x)[3] == Str(x.authorization) && ItemParts(y)[3] == Str(y.authorization);
  }

  /** Of two items under one key that are hashed differently, say one granted and one denied, the one that comes first is
      the one hashed. */
  lemma FirstUnderKeyShows(l: Runtime, p: Plan, x: Item, y: Item)
    requires KeyOf()(x) == KeyOf()(y) && Identity(l)(x) != Identity(l)(y)
    ensures PlanHash(l, p.(items := [x, y])) != PlanHash(l, p.(items := [y, x]))
  {
    KeysOrdered();
    HeadShows([x, y], [y, x], KeyOf(), KeyAtMost, Identity(l));
    SamePlanIff(l, p.(items := [x, y]), p.(items := [y, x]));
  }

  lemma AuthorizationOrderShows(l: Runtime, p: Plan, x: Item)
    requires x.authorization == "GRANTED"
    ensures var y := x.(authorization := "DENIED_TENANT");
      PlanHash(l, p.(items := [x, y])) != PlanHash(l, p.(items := [y, x]))
  {
    var y := x.(authorization := "DENIED_TENANT");
    assert Ascii(x.authorization) && Ascii(y.authorization) && |x.authorization| == 7 && |y.authorization| == 13;
    AsciiIsNormal(l, x.authorization);
    AsciiIsNormal(l, y.authorization);
    if Identity(l)(x) == Identity(l)(y) {
      AuthorizationShows(l, x, y);
    }
    FirstUnderKeyShows(l, p, x, y);
  }

  // ---- when views are the same ----

  /** Plans whose items can be told apart by their hashed form, and have nothing else to tell apart. */
  ghost predicate Regular(l: Runtime, p: Plan) {
    Consistent(p.items, KeyOf(), Identity(l)) && forall i :: i in p.items ==> NormalKey(l, i)
  }

  ghost predicate NormalPins(l: Runtime, pins: map<string, string>) {
    forall k :: k in pins ==> l.nfc(k) == k && l.nfc(pins[k]) == pins[k]
  }

  lemma SamePinsIff(l: Runtime, a: map<string, string>, b: map<string, string>)
    requires NormalPins(l, a) && NormalPins(l, b)
    ensures Canonicalize(l, Map(TextMembers(a))) == Canonicalize(l, Map(TextMembers(b))) <==> a == b
  {
    PinsAreCanonical(l, a);
    PinsAreCanonical(l, b);
    if TextMembers(a) == TextMembers(b) {
      SameListingSamePins(a, b);
    }
  }

  lemma SameListingSamePins(a: map<string, string>, b: map<string, string>)
    requires TextMembers(a) == TextMembers(b)
    ensures a == b
  {
    PinsListed(a);
    PinsListed(b);
    assert forall k :: Pin(a, k) == Pin(b, k);
    assert forall k :: k in a <==> Pin(a, k).Some?;
    assert forall k :: k in b <==> Pin(b, k).Some?;
    assert forall k :: k in a ==> Pin(a, k) == Some(Str(a[k]));
    assert forall k :: k in b ==> Pin(b, k) == Some(Str(b[k]));
  }

  function Pin(pins: map<string, string>, k: string): Option<Value> {
    if k in pins then Some(Str(pins[k])) else None
  }

  lemma PinsListed(pins: map<string, string>)
    ensures forall k :: Find(TextMembers(pins), k) == Pin(pins, k)
  {
    var values := TextItems(pins);
    ListingLists(values);
    forall k
      ensures Find(TextMembers(pins), k) == Pin(pins, k)
    {
      FindListed(Listing(values), values, k);
    }
  }

  lemma PinsAreCanonical(l: Runtime, pins: map<string, string>)
    requires NormalPins(l, pins)
    ensures Canonicalize(l, Map(TextMembers(pins))) == Ok(Map(TextMembers(pins)))
  {
    ListingCanonical(l, TextItems(pins));
  }

  /** A dict of strings in normal form lists canonically. */
  lemma ListingCanonical(l: Runtime, values: map<string, Value>)
    requires forall k :: k in values ==> l.nfc(k) == k && values[k].Str? && l.nfc(values[k].s) == values[k].s
    ensures Canonicalize(l, Map(Listing(values))) == Ok(Map(Listing(values)))
  {
    ListingMembers(l, values);
    ListingLists(values);
    CanonicalFixed(l, Map(Listing(values)));
  }

  lemma ListingMembers(l: Runtime, values: map<string, Value>)
    requires forall k :: k in values ==> l.nfc(k) == k && values[k].Str? && l.nfc(values[k].s) == values[k].s
    ensures forall i :: 0 <= i < |Listing(values)| ==> CanonicalMember(l, Listing(values)[i])
  {
    forall i | 0 <= i < |Listing(values)|
      ensures CanonicalMember(l, Listing(values)[i])
    {
      assert Listing(values)[i].key.name in values;
    }
  }

  /** What the identity of a view is made of. */
  ghost predicate SameWorkingSet(l: Runtime, a: View, b: View) {
    && SameDecision(l, a.plan, b.plan)
    && Canonicalize(l, Map(TextMembers(a.versionPins))) == Canonicalize(l, Map(TextMembers(b.versionPins)))
    && l.nfc(a.schemaId) == l.nfc(b.schemaId) && l.nfc(a.schemaVersion) == l.nfc(b.schemaVersion)
  }

  lemma ViewPartsIff(l: Runtime, a: View, b: View, p: Value, q: Value, u: Value, v: Value)
    ensures SameItems(l, ViewPartsWith(a, p, u), ViewPartsWith(b, q, v))
       <==> && Canonicalize(l, p) == Canonicalize(l, q) && Canonicalize(l, u) == Canonicalize(l, v)
            && l.nfc(a.schemaId) == l.nfc(b.schemaId) && l.nfc(a.schemaVersion) == l.nfc(b.schemaVersion)
  {
    SameFour(l, ViewPartsWith(a, p, u), ViewPartsWith(b, q, v));
  }

  lemma SameViewPartsIff(l: Runtime, a: View, b: View)
    ensures SameItems(l, ViewParts(a), ViewParts(b)) <==> SameWorkingSet(l, a, b)
  {
    SamePlanFormIff(l, a.plan, b.plan);
    ViewPartsIff(l, a, b, PlanForm(a.plan), PlanForm(b.plan),
                 Map(TextMembers(a.versionPins)), Map(TextMembers(b.versionPins)));
  }

  lemma SameViewFormIff(l: Runtime, a: View, b: View)
    ensures Canonicalize(l, ViewForm(a)) == Canonicalize(l, ViewForm(b)) <==> SameWorkingSet(l, a, b)
  {
    ViewAccepted(l, a);
    ViewAccepted(l, b);
    ViewNamesTellApart();
    SameFormIffSameItems(l, VIEW_NAMES, ViewParts(a), ViewParts(b));
    SameViewPartsIff(l, a, b);
  }

  lemma SameFour(l: Runtime, x: seq<Value>, y: seq<Value>)
    requires |x| == |y| == 4
    ensures SameItems(l, x, y)
       <==> && Canonicalize(l, x[0]) == Canonicalize(l, y[0]) && Canonicalize(l, x[1]) == Canonicalize(l, y[1])
            && Canonicalize(l, x[2]) == Canonicalize(l, y[2]) && Canonicalize(l, x[3]) == Canonicalize(l, y[3])
  {
    assert SameItems(l, x, y) <==> forall i :: 0 <= i < 4 ==> Canonicalize(l, x[i]) == Canonicalize(l, y[i]);
  }

  /** Two views have the same hash exactly when their plans reached the same decision and the pins and schemas are the same.
      Ids, estimates, reasons and times do not enter. */
  lemma SameViewIff(l: Runtime, a: View, b: View)
    ensures ViewHash(l, a).Ok? && (ViewHash(l, a) == ViewHash(l, b) <==> SameWorkingSet(l, a, b))
  {
    ViewAccepted(l, a);
    ViewAccepted(l, b);
    SameTextIffSameForm(l, ViewForm(a), ViewForm(b));
    SameViewFormIff(l, a, b);
  }

  /** Where no items collide and names are in normal form, that is: they agree on the set of items, the pins, the budget, the
      omitted count and the schemas. */
  lemma SameRegularViewIff(l: Runtime, a: View, b: View)
    requires Regular(l, a.plan) && Regular(l, b.plan) && NormalPins(l, a.versionPins) && NormalPins(l, b.versionPins)
    ensures ViewHash(l, a) == ViewHash(l, b)
       <==> && FormsWithin(a.plan.items, b.plan.items, Identity(l)) && FormsWithin(b.plan.items, a.plan.items, Identity(l))
            && a.versionPins == b.versionPins
            && a.plan.budgetTokens == b.plan.budgetTokens && a.plan.omittedCount == b.plan.omittedCount
            && l.nfc(a.plan.schemaId) == l.nfc(b.plan.schemaId)
            && l.nfc(a.plan.schemaVersion) == l.nfc(b.plan.schemaVersion)
            && l.nfc(a.schemaId) == l.nfc(b.schemaId) && l.nfc(a.schemaVersion) == l.nfc(b.schemaVersion)
  {
    SameViewIff(l, a, b);
    SamePinsIff(l, a.versionPins, b.versionPins);
    SameItemSetIff(l, a.plan, b.plan);
  }

  lemma {:induction false} SameItemSetIff(l: Runtime, a: Plan, b: Plan)
    requires Regular(l, a) && Regular(l, b)
    ensures FormsOf(a.items, KeyOf(), KeyAtMost, Identity(l)) == FormsOf(b.items, KeyOf(), KeyAtMost, Identity(l))
       <==> FormsWithin(a.items, b.items, Identity(l)) && FormsWithin(b.items, a.items, Identity(l))
  {
    KeysOrdered();
    forall x, y | x in a.items && y in b.items && Identity(l)(x) == Identity(l)(y)
      ensures KeyOf()(x) == KeyOf()(y)
    {
      IdentityGivesKey(l, x, y);
    }
    SameFormsIff(a.items, b.items, KeyOf(), KeyAtMost, Identity(l));
  }
}
