/** What reading a qa object accepts, in plain terms (`Rule.check`, `_coerce`, `freeze_json` and `from_json` in
    runtime_contracts/qa/base.py): every limit by its number, and every member accounted for. */
module StrictReading {
  import opened Wrappers
  import opened Text
  import opened Platform
  import opened Canonical
  import opened Json
  import opened Forms
  import opened FrozenJson
  import opened Sorting
  import opened Codec
  import opened Documents
  import opened RoundTrip
  import Construction

  // ---- text and numbers ----

  /** None of the control characters a text may not hold: those below 32 but for tab and the two line ends, and 127. */
  ghost predicate NoControl(s: string) {
    forall i :: 0 <= i < |s| ==> s[i] as int == 9 || s[i] as int == 10 || s[i] as int == 13 || (s[i] as int >= 32 && s[i] as int != 127)
  }

  lemma NoControlIff(s: string)
    ensures NoControl(s) <==> !HasControl(s)
  {
    if !HasControl(s) {
      forall i | 0 <= i < |s|
        ensures !IsControl(s[i])
      {}
    }
  }

  /** A text field takes up to 4096 characters, counted before normalising, without control characters. */
  lemma TextReadIff(env: Env, s: string)
    ensures Read(env, TextType, Str(s)) == if |s| <= 4096 && NoControl(s) then Ok(Words(env.l.nfc(s))) else Refused
  {
    NoControlIff(s);
  }

  /** A rule on a text counts the characters that are left after normalising, both bounds included. */
  lemma RuledTextReadIff(env: Env, rule: Rule, s: string)
    requires rule.maxJsonBytes.None?
    ensures Read(env, RuledType(TextType, rule), Str(s)).Ok?
       <==> && |s| <= 4096 && NoControl(s)
            && (rule.pattern.Some? ==> env.matches(rule.pattern.value, env.l.nfc(s)))
            && (rule.minLength.Some? ==> rule.minLength.value <= |env.l.nfc(s)|)
            && (rule.maxLength.Some? ==> |env.l.nfc(s)| <= rule.maxLength.value)
  {
    TextReadIff(env, s);
  }

  /** A rule on a number includes both its bounds; a boolean is not a number, nor a number a boolean. */
  lemma RuledNumberReadIff(env: Env, rule: Rule, v: Value)
    requires rule.maxJsonBytes.None?
    ensures Read(env, RuledType(IntType, rule), v).Ok?
       <==> && v.Int? && (rule.minimum.Some? ==> rule.minimum.value <= v.n) && (rule.maximum.Some? ==> v.n <= rule.maximum.value)
    ensures Read(env, BoolType, v) == if v.Bool? then Ok(Boolean(v.b)) else Refused
  {}

  // ---- the size of canonical text ----

  /** UTF-8 (RFC 3629, section 3) of one character. */
  function Utf8Of(c: char): seq<int> {
    var n := c as int;
    if n <= 0x7f then [n]
    else if n <= 0x7ff then [0xc0 + n / 64, 0x80 + n % 64]
    else if n <= 0xffff then [0xe0 + n / 4096, 0x80 + n / 64 % 64, 0x80 + n % 64]
    else [0xf0 + n / 262144, 0x80 + n / 4096 % 64, 0x80 + n / 64 % 64, 0x80 + n % 64]
  }

  function Utf8(s: string): seq<int> {
    if s == [] then [] else Utf8Of(s[0]) + Utf8(s[1..])
  }

  lemma {:induction false} Utf8LengthIs(s: string)
    ensures Utf8Length(s) == |Utf8(s)|
  {
    if s != [] {
      Utf8LengthIs(s[1..]);
    }
  }

  /** A byte limit is on the UTF-8 bytes of the canonical text, the limit included; null has no size. */
  lemma ByteLimitIff(env: Env, limit: int, d: Datum)
    ensures Obeys(env, Rule(None, None, None, None, None, Some(limit)), d)
       <==> d.Nil? || (CanonicalJson(env.l, Ident(env, d)).Ok? && |Utf8(CanonicalJson(env.l, Ident(env, d)).value)| <= limit)
  {
    if CanonicalJson(env.l, Ident(env, d)).Ok? {
      Utf8LengthIs(CanonicalJson(env.l, Ident(env, d)).value);
    }
  }

  // ---- the depth of JSON ----

  /** How deep a value is nested: one more than the deepest of its items; nothing inside is depth zero. */
  function Nesting(v: Value): nat
    decreases v
  {
    match v
    case List(items) => NestingOfItems(items)
    case Map(members) => NestingOfMembers(members)
    case _ => 0
  }

  function NestingOfItems(items: seq<Value>): nat
    decreases items
  {
    if items == [] then 0
    else
      var front, last := NestingOfItems(items[..|items| - 1]), 1 + Nesting(items[|items| - 1]);
      if front < last then last else front
  }

  function NestingOfMembers(members: seq<Member>): nat
    decreases members
  {
    if members == [] then 0
    else
      var front, last := NestingOfMembers(members[..|members| - 1]), NestingOfMember(members[|members| - 1]);
      if front < last then last else front
  }

  function NestingOfMember(m: Member): nat
    decreases m
  {
    1 + Nesting(m.item)
  }

  /** Frozen at one depth, a value is frozen the same at every depth at which it does not go below the twelfth level, and at no
      other. */
  lemma {:induction false} DepthIff(l: Runtime, v: Value, d: nat, e: nat)
    requires Freeze(l, v, d).Ok?
    ensures d + Nesting(v) <= 12
    ensures Freeze(l, v, e) == if e + Nesting(v) <= 12 then Freeze(l, v, d) else Refused
    decreases v
  {
    match v
    case Map(members) => MembersDepthIff(l, members, d, e);
    case List(items) => ItemsDepthIff(l, items, d, e);
    case _ =>
  }

  lemma {:induction false} ItemsDepthIff(l: Runtime, items: seq<Value>, d: nat, e: nat)
    requires FreezeItems(l, items, d).Ok? && d <= 12
    ensures d + NestingOfItems(items) <= 12
    ensures e <= 12 ==> FreezeItems(l, items, e) == if e + NestingOfItems(items) <= 12 then FreezeItems(l, items, d) else Refused
    decreases items
  {
    if items != [] {
      ItemsDepthIff(l, items[..|items| - 1], d, e);
      DepthIff(l, items[|items| - 1], d + 1, e + 1);
    }
  }

  lemma {:induction false} MembersDepthIff(l: Runtime, members: seq<Member>, d: nat, e: nat)
    requires FreezeMembers(l, members, d).Ok? && d <= 12
    ensures d + NestingOfMembers(members) <= 12
    ensures e <= 12 ==>
      FreezeMembers(l, members, e) == if e + NestingOfMembers(members) <= 12 then FreezeMembers(l, members, d) else Refused
    decreases members
  {
    if members != [] {
      MembersDepthIff(l, members[..|members| - 1], d, e);
      MemberDepthIff(l, members[|members| - 1], d, e);
    }
  }

  lemma {:induction false} MemberDepthIff(l: Runtime, m: Member, d: nat, e: nat)
    requires FreezeMember(l, m, d).Ok? && d <= 12
    ensures d + NestingOfMember(m) <= 12
    ensures e <= 12 ==> FreezeMember(l, m, e) == if e + NestingOfMember(m) <= 12 then FreezeMember(l, m, d) else Refused
    decreases m
  {
    DepthIff(l, m.item, d + 1, e + 1);
  }

  // ---- objects ----

  /** A custody object that names the field decides, else the object itself, else the default. */
  lemma CustodyDecides(env: Env, f: Field, members: seq<Member>, custody: seq<Member>)
    requires f.order.NoSet?
    ensures Find(members, "custody") == Some(Map(custody)) && Find(custody, f.name).Some? ==>
      ReadField(env, f, members) == Read(env, f.typ, Find(custody, f.name).value)
    ensures (Find(members, "custody") == Some(Map(custody)) ==> Find(custody, f.name).None?)
            && (Find(members, "custody").None? || Find(members, "custody").value == Map(custody) || Find(members, "custody").value == Null)
        ==> ReadField(env, f, members)
              == match Find(members, f.name)
                 case Some(v) => Read(env, f.typ, v)
                 case None => (match f.default case Some(d) => Ok(d) case None => Refused)
  {
    ReadFieldIs(env, f, members);
    ReadGivenIs(env, f, members);
    ReadGivenIs(env, f, custody);
  }

  /** The object is of a known class; a record names its schema and version; every member is a field or one of the four reserved
      names; custody, if given and not null, is an object of custody fields; every field can be read; and a stored hash, unless
      null, is that of what was read. */
  ghost predicate Legitimate(env: Env, name: string, members: seq<Member>) {
    && name in env.schemas
    && var fields, id := env.schemas[name].fields, env.schemas[name].id;
       && (id.Some? ==>
             && Find(members, "schema_id") == Some(Str(id.value.schemaId))
             && Find(members, "schema_version") == Some(Str(id.value.schemaVersion)))
       && (forall i :: 0 <= i < |members| ==> members[i].key.Name? && MemberKnown(fields, members[i].key.name))
       && (Find(members, "custody").Some? && !Find(members, "custody").value.Null? ==> HoldsCustody(fields, Find(members, "custody").value))
       && (forall i :: 0 <= i < |fields| ==> ReadField(env, fields[i], members).Ok?)
  }

  ghost predicate HoldsCustody(fields: seq<Field>, v: Value) {
    v.Map? && forall i :: 0 <= i < |v.members| ==>
      v.members[i].key.Name? && CustodyName(fields, v.members[i].key.name)
  }

  ghost predicate CustodyName(fields: seq<Field>, name: string) {
    exists f :: f in fields && f.custody && f.name == name
  }

  ghost predicate MemberKnown(fields: seq<Field>, name: string) {
    || (exists f :: f in fields && f.name == name)
    || name == "schema_id" || name == "schema_version" || name == "content_hash" || name == "custody"
  }

  lemma KnownIff(fields: seq<Field>, members: seq<Member>)
    ensures KnownKeys(members, FieldSet(fields) + RESERVED)
       <==> forall i :: 0 <= i < |members| ==> members[i].key.Name? && MemberKnown(fields, members[i].key.name)
  {
    forall name
      ensures name in FieldSet(fields) + RESERVED <==> MemberKnown(fields, name)
    {}
  }

  lemma CustodyKeysIff(fields: seq<Field>, custody: seq<Member>)
    ensures KnownKeys(custody, CustodySet(fields)) <==> HoldsCustody(fields, Map(custody))
  {
    forall name
      ensures name in CustodySet(fields) <==> CustodyName(fields, name)
    {}
  }

  lemma CustodyIff(schema: Schema, members: seq<Member>)
    ensures CustodyKnown(schema, members)
       <==> (Find(members, "custody").Some? && !Find(members, "custody").value.Null? ==>
              HoldsCustody(schema.fields, Find(members, "custody").value))
  {
    if Find(members, "custody").Some? && Find(members, "custody").value.Map? {
      CustodyKeysIff(schema.fields, Find(members, "custody").value.members);
    }
  }

  lemma {:induction false} FieldsReadIff(env: Env, fields: seq<Field>, members: seq<Member>)
    ensures ReadFields(env, fields, members).Ok? <==> forall i :: 0 <= i < |fields| ==> ReadField(env, fields[i], members).Ok?
    ensures ReadFields(env, fields, members).Ok? ==>
      forall i :: 0 <= i < |fields| ==> ReadField(env, fields[i], members) == Ok(ReadFields(env, fields, members).value[i])
    decreases |fields|
  {
    if fields != [] {
      var n := |fields| - 1;
      FieldsReadIff(env, fields[..n], members);
      assert forall i :: 0 <= i < n ==> fields[..n][i] == fields[i];
    }
  }

  /** Exactly when an object is accepted, and then as what. */
  lemma {:induction false} ObjectReadIff(env: Env, name: string, members: seq<Member>)
    ensures ReadObject(env, name, members).Ok? ==> Legitimate(env, name, members)
    ensures Legitimate(env, name, members) ==>
      && var values := FieldValues(env, name, members);
         var d, hash := Instance(name, values), Find(members, "content_hash");
         ReadObject(env, name, members)
           == if env.checked && env.schemas[name].id.Some? && hash.Some? && hash.value != Null
                 && (!hash.value.Str? || ContentHash(env.l, Ident(env, d)) != Ok(hash.value.s))
              then Refused else Ok(d)
  {
    if name in env.schemas {
      KnownIff(env.schemas[name].fields, members);
      CustodyIff(env.schemas[name], members);
      FieldsReadIff(env, env.schemas[name].fields, members);
      if Legitimate(env, name, members) {
        assert ReadFields(env, env.schemas[name].fields, members).value == FieldValues(env, name, members);
      }
    }
  }

  ghost function FieldValues(env: Env, name: string, members: seq<Member>): seq<Datum>
    requires Legitimate(env, name, members)
  {
    var fields := env.schemas[name].fields;
    seq(|fields|, i requires 0 <= i < |fields| => ReadField(env, fields[i], members).value)
  }

  // ---- set fields ----

  /** A set field comes out by strictly ascending key, whatever the order it was given in, and a key that occurs twice refuses it. */
  lemma {:induction false} SetFieldAscends(env: Env, key: SetKey, items: seq<Datum>)
    requires !key.NoSet?
    ensures Arrange(env, key, Items(items)).Ok?
       <==> && (forall i :: 0 <= i < |items| ==> KeyOf(env, key, items[i]).Some?)
            && forall i, j :: 0 <= i < j < |items| ==> KeyOf(env, key, items[i]) != KeyOf(env, key, items[j])
    ensures Arrange(env, key, Items(items)).Ok? ==>
      && Arrange(env, key, Items(items)).value.Items?
      && var out := Arrange(env, key, Items(items)).value.items;
         && multiset(out) == multiset(items)
         && (forall i :: 0 <= i < |out| ==> KeyOf(env, key, out[i]).Some?)
         && forall i, j :: 0 <= i < j < |out| ==> Precedes(KeyOf(env, key, out[i]).value, KeyOf(env, key, out[j]).value)
  {
    if KeysApart(env, key, items) {
      var out := Sort(items, ByKey(env, key));
      ByKeyOrders(env, key);
      SortSorted(items, ByKey(env, key));
      Construction.KeysApartPermute(env, key, items, out);
      forall i, j | 0 <= i < j < |out|
        ensures Precedes(KeyOf(env, key, out[i]).value, KeyOf(env, key, out[j]).value)
      {
        assert ByKey(env, key)(out[i], out[j]) && KeyText(env, key, out[i]) != KeyText(env, key, out[j]);
        BeforeIff(KeyText(env, key, out[i]), KeyText(env, key, out[j]));
      }
    }
  }
}
