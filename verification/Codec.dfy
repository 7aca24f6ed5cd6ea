/** The schema-driven codec of the qa contracts (runtime_contracts/qa/base.py): schemas as data, reading a value of a type
    from JSON, keeping one already constructed, and writing it in full or for identity. */
module Codec {
  import opened Wrappers
  import opened Text
  import opened Platform
  import opened Canonical
  import opened Json
  import opened Forms
  import opened FrozenJson
  import opened Sorting

  // ---- schemas ----

  datatype Rule = Rule(
    pattern: Option<string>, minLength: Option<int>, maxLength: Option<int>, minimum: Option<int>, maximum: Option<int>,
    maxJsonBytes: Option<int>)

  datatype Type =
    | JsonType
    | BoolType
    | IntType
    | TextType
    | EnumType(enum: string)
    | RefType(schema: string)
    | OptionalType(inner: Type)
    | SequenceType(elem: Type)
    | RuledType(base: Type, rule: Rule)

  /** How the items of a set field are ordered: by themselves, by one of their fields, or by their canonical text. */
  datatype SetKey = NoSet | Itself | Attribute(name: string) | AsJson

  datatype Field = Field(name: string, typ: Type, default: Option<Datum>, custody: bool, order: SetKey)

  /** A record carries a schema id and version; a nested value does not. */
  datatype Id = Id(schemaId: string, schemaVersion: string)

  datatype Schema = Schema(id: Option<Id>, fields: seq<Field>)

  /** A value held by a constructed object. `Tree` is JSON: frozen inside an object, raw on the way in. */
  datatype Datum =
    | Nil
    | Boolean(b: bool)
    | Integer(n: int)
    | Words(s: string)
    | Choice(enum: string, value: string)
    | Items(items: seq<Datum>)
    | Tree(v: Value)
    | Instance(schema: string, values: seq<Datum>)

  /** The schemas and enums in force, the regular expressions, kept abstract, and whether stored hashes are compared: the
      source always does; without it, what is left is the structure of a document. */
  datatype Env = Env(
    l: Runtime, schemas: map<string, Schema>, enums: map<string, set<string>>, matches: (string, string) -> bool,
    checked: bool)

  const DEFAULT_MAX_TEXT := 4096

  function Names(fields: seq<Field>): (r: seq<string>)
    ensures |r| == |fields| && forall i :: 0 <= i < |r| ==> r[i] == fields[i].name
  {
    seq(|fields|, i requires 0 <= i < |fields| => fields[i].name)
  }

  // ---- writing ----

  function Head(schema: Schema): seq<string> {
    if schema.id.Some? then ["schema_id", "schema_version"] else []
  }

  function HeadItems(schema: Schema): (r: seq<Value>)
    ensures |r| == |Head(schema)|
  {
    if schema.id.Some? then [Str(schema.id.value.schemaId), Str(schema.id.value.schemaVersion)] else []
  }

  /** `_encode` and `_identity` for identity: custody fields are left out. */
  function Ident(env: Env, d: Datum): Value
    decreases d
  {
    match d
    case Nil => Null
    case Boolean(b) => Bool(b)
    case Integer(n) => Int(n)
    case Words(s) => Str(s)
    case Choice(_, value) => Str(value)
    case Items(items) => List(seq(|items|, i requires 0 <= i < |items| => Ident(env, items[i])))
    case Tree(v) => v
    case Instance(name, values) =>
      if name !in env.schemas || |env.schemas[name].fields| != |values| then Alien
      else
        var schema := env.schemas[name];
        FormOf(Head(schema) + Names(schema.fields),
               HeadItems(schema) + seq(|values|, i requires 0 <= i < |values| =>
                 if schema.fields[i].custody then Null else Ident(env, values[i])))
  }

  /** The names of a record in full, hash and custody last. */
  function FullNames(schema: Schema): seq<string> {
    Head(schema) + Names(schema.fields) + (if schema.id.Some? then ["content_hash"] else []) + ["custody"]
  }

  function HashItem(env: Env, d: Datum): Value {
    match ContentHash(env.l, Ident(env, d))
    case Ok(hash) => Str(hash)
    case Refused => Alien
  }

  /** `_encode` and `_identity` in full: everything, with the content hash, and custody in an object of its own. */
  function Full(env: Env, d: Datum): Value
    decreases d
  {
    match d
    case Items(items) => List(seq(|items|, i requires 0 <= i < |items| => Full(env, items[i])))
    case Instance(name, values) =>
      if name !in env.schemas || |env.schemas[name].fields| != |values| then Alien
      else
        var schema := env.schemas[name];
        var parts := seq(|values|, i requires 0 <= i < |values| => Full(env, values[i]));
        FormOf(FullNames(schema), FullItems(schema, parts, HashItem(env, d)))
    case _ => Ident(env, d)
  }

  function Public(schema: Schema, parts: seq<Value>): (r: seq<Value>)
    requires |parts| == |schema.fields|
    ensures |r| == |parts|
  {
    seq(|parts|, i requires 0 <= i < |parts| => if schema.fields[i].custody then Null else parts[i])
  }

  function Held(schema: Schema, parts: seq<Value>): (r: seq<Value>)
    requires |parts| == |schema.fields|
    ensures |r| == |parts|
  {
    seq(|parts|, i requires 0 <= i < |parts| => if schema.fields[i].custody then parts[i] else Null)
  }

  /** The custody object, left out when it would be empty. */
  function CustodyItem(schema: Schema, parts: seq<Value>): Value
    requires |parts| == |schema.fields|
  {
    if forall i :: 0 <= i < |parts| ==> Held(schema, parts)[i].Null? then Null
    else FormOf(Names(schema.fields), Held(schema, parts))
  }

  function FullItems(schema: Schema, parts: seq<Value>, hash: Value): (r: seq<Value>)
    requires |parts| == |schema.fields|
    ensures |r| == |FullNames(schema)|
  {
    HeadItems(schema) + Public(schema, parts) + (if schema.id.Some? then [hash] else []) + [CustodyItem(schema, parts)]
  }

  /** `to_json`. */
  function ToJson(env: Env, d: Datum): Result<Value> {
    Canonicalize(env.l, Full(env, d))
  }

  // ---- rules ----

  function Utf8Length(s: string): nat {
    if s == [] then 0
    else
      var c := s[0] as int;
      (if c < 0x80 then 1 else if c < 0x800 then 2 else if c < 0x10000 then 3 else 4) + Utf8Length(s[1..])
  }

  predicate AtLeast(n: int, bound: Option<int>) {
    bound.Some? ==> n >= bound.value
  }

  predicate UpTo(n: int, bound: Option<int>) {
    bound.Some? ==> n <= bound.value
  }

  predicate TextObeys(env: Env, r: Rule, s: string) {
    (r.pattern.Some? ==> env.matches(r.pattern.value, s)) && UpTo(|s|, r.maxLength) && AtLeast(|s|, r.minLength)
  }

  predicate NumberObeys(r: Rule, n: int) {
    AtLeast(n, r.minimum) && UpTo(n, r.maximum)
  }

  /** `Rule.check`. */
  predicate Obeys(env: Env, r: Rule, d: Datum) {
    if d.Nil? then true
    else
      && (match d
          case Words(s) => TextObeys(env, r, s)
          case Choice(_, s) => TextObeys(env, r, s)
          case Integer(n) => NumberObeys(r, n)
          case Tree(Str(s)) => TextObeys(env, r, s)
          case Tree(Int(n)) => NumberObeys(r, n)
          case _ => true)
      && (r.maxJsonBytes.Some? ==> BytesWithin(env.l, Ident(env, d), r.maxJsonBytes.value))
  }

  predicate BytesWithin(l: Runtime, v: Value, bound: int) {
    CanonicalJson(l, v).Ok? && Utf8Length(CanonicalJson(l, v).value) <= bound
  }

  // ---- set fields ----

  function IndexOf(fields: seq<Field>, name: string): Option<nat> {
    if fields == [] then None
    else
      var n := |fields| - 1;
      if fields[n].name == name then Some(n) else IndexOf(fields[..n], name)
  }

  function TextKey(d: Datum): Option<string> {
    match d
    case Words(s) => Some(s)
    case Choice(_, value) => Some(value)
    case _ => None
  }

  /** `_set_key`, for keys that are strings. */
  function KeyOf(env: Env, key: SetKey, d: Datum): Option<string> {
    match key
    case NoSet => None
    case Itself => TextKey(d)
    case AsJson =>
      (match CanonicalJson(env.l, Ident(env, d))
       case Ok(text) => Some(text)
       case Refused => None)
    case Attribute(name) =>
      if !d.Instance? || d.schema !in env.schemas then None
      else
        match IndexOf(env.schemas[d.schema].fields, name)
        case None => None
        case Some(i) => if i < |d.values| then TextKey(d.values[i]) else None
  }

  function ByKey(env: Env, key: SetKey): (Datum, Datum) -> bool {
    (a, b) => AtMost(KeyText(env, key, a), KeyText(env, key, b))
  }

  function KeyText(env: Env, key: SetKey, d: Datum): string {
    match KeyOf(env, key, d)
    case None => ""
    case Some(text) => text
  }

  predicate KeysApart(env: Env, key: SetKey, items: seq<Datum>) {
    && (forall i :: 0 <= i < |items| ==> KeyOf(env, key, items[i]).Some?)
    && forall i, j :: 0 <= i < j < |items| ==> KeyText(env, key, items[i]) != KeyText(env, key, items[j])
  }

  /** A set field is sorted by its keys, and refuses one that occurs twice. */
  function Arrange(env: Env, key: SetKey, d: Datum): Result<Datum> {
    if key.NoSet? then Ok(d)
    else if !d.Items? || !KeysApart(env, key, d.items) then Refused
    else Ok(Items(Sort(d.items, ByKey(env, key))))
  }

  // ---- reading ----

  const RESERVED: set<string> := {"schema_id", "schema_version", "content_hash", "custody"}

  /** The place of the member a lookup finds. */
  function Place(members: seq<Member>, name: string): (r: Option<nat>)
    ensures r.Some? ==> r.value < |members| && members[r.value].key == Name(name)
    ensures Find(members, name) == if r.Some? then Some(members[r.value].item) else None
  {
    if members == [] then None
    else
      var n := |members| - 1;
      if members[n].key == Name(name) then Some(n) else Place(members[..n], name)
  }

  predicate KnownKeys(members: seq<Member>, known: set<string>) {
    forall i :: 0 <= i < |members| ==> members[i].key.Name? && members[i].key.name in known
  }

  function FieldSet(fields: seq<Field>): set<string> {
    set f | f in fields :: f.name
  }

  function CustodySet(fields: seq<Field>): set<string> {
    set f | f in fields && f.custody :: f.name
  }

  /** The custody object must be an object of custody fields; none at all, or null, is no custody. */
  predicate CustodyKnown(schema: Schema, members: seq<Member>) {
    match Find(members, "custody")
    case None => true
    case Some(Null) => true
    case Some(Map(custody)) => KnownKeys(custody, CustodySet(schema.fields))
    case Some(_) => false
  }

  predicate IdentityKnown(schema: Schema, members: seq<Member>) {
    schema.id.Some? ==>
      && Find(members, "schema_id") == Some(Str(schema.id.value.schemaId))
      && Find(members, "schema_version") == Some(Str(schema.id.value.schemaVersion))
  }

  /** The stored hash, when there is one, must be the recomputed one. */
  predicate HashKnown(env: Env, schema: Schema, members: seq<Member>, d: Datum) {
    env.checked && schema.id.Some? ==>
      match Find(members, "content_hash")
      case None => true
      case Some(Null) => true
      case Some(Str(stored)) => ContentHash(env.l, Ident(env, d)) == Ok(stored)
      case Some(_) => false
  }

  /** `_coerce` on a JSON value. */
  function Read(env: Env, t: Type, v: Value): Result<Datum>
    decreases v, t
  {
    match t
    case RuledType(base, rule) =>
      var out :- Read(env, base, v);
      if Obeys(env, rule, out) then Ok(out) else Refused
    case OptionalType(inner) => if v.Null? then Ok(Nil) else Read(env, inner, v)
    case JsonType => if v.Null? then Refused else var frozen :- Freeze(env.l, v, 0); Ok(Tree(frozen))
    case SequenceType(elem) => if !v.List? then Refused else var items :- ReadAll(env, elem, v.items); Ok(Items(items))
    case BoolType => if v.Bool? then Ok(Boolean(v.b)) else Refused
    case IntType => if v.Int? then Ok(Integer(v.n)) else Refused
    case TextType => if v.Str? then ReadText(env.l, v.s) else Refused
    case EnumType(name) =>
      if v.Str? && name in env.enums && v.s in env.enums[name] then Ok(Choice(name, v.s)) else Refused
    case RefType(name) => if v.Map? then ReadObject(env, name, v.members) else Refused
  }

  function ReadText(l: Runtime, s: string): Result<Datum> {
    if |s| > DEFAULT_MAX_TEXT then Refused
    else
      var text :- CleanText(l, s);
      Ok(Words(text))
  }

  function ReadAll(env: Env, elem: Type, items: seq<Value>): (r: Result<seq<Datum>>)
    ensures r.Ok? ==> |r.value| == |items|
    decreases items
  {
    if items == [] then Ok([])
    else
      var front :- ReadAll(env, elem, items[..|items| - 1]);
      var last :- Read(env, elem, items[|items| - 1]);
      Ok(front + [last])
  }

  /** `from_json` of a class, up to its cross-field validation. */
  function ReadObject(env: Env, name: string, members: seq<Member>): Result<Datum>
    decreases members, 3
  {
    if name !in env.schemas then Refused
    else
      var schema := env.schemas[name];
      if !IdentityKnown(schema, members) || !KnownKeys(members, FieldSet(schema.fields) + RESERVED)
         || !CustodyKnown(schema, members)
      then Refused
      else
        var values :- ReadFields(env, schema.fields, members);
        var d := Instance(name, values);
        if HashKnown(env, schema, members, d) then Ok(d) else Refused
  }

  function ReadFields(env: Env, fields: seq<Field>, members: seq<Member>): (r: Result<seq<Datum>>)
    ensures r.Ok? ==> |r.value| == |fields|
    decreases members, 2, |fields|
  {
    if fields == [] then Ok([])
    else
      var n := |fields| - 1;
      var front :- ReadFields(env, fields[..n], members);
      var last :- ReadField(env, fields[n], members);
      Ok(front + [last])
  }

  /** A field comes from the custody object if it is there, else from the object itself, else from its default. */
  function ReadField(env: Env, f: Field, members: seq<Member>): Result<Datum>
    decreases members, 1
  {
    var d :- match Place(members, "custody")
             case Some(j) =>
               if members[j].item.Map? && Find(members[j].item.members, f.name).Some? then ReadInside(env, f, members[j])
               else ReadGiven(env, f, members)
             case None => ReadGiven(env, f, members);
    Arrange(env, f.order, d)
  }

  function ReadInside(env: Env, f: Field, m: Member): Result<Datum>
    requires m.item.Map?
    decreases m
  {
    ReadGiven(env, f, m.item.members)
  }

  function ReadGiven(env: Env, f: Field, members: seq<Member>): Result<Datum>
    decreases members, 0
  {
    match Place(members, f.name)
    case Some(i) => ReadMember(env, f.typ, members[i])
    case None => if f.default.Some? then Ok(f.default.value) else Refused
  }

  function ReadMember(env: Env, t: Type, m: Member): Result<Datum>
    decreases m
  {
    Read(env, t, m.item)
  }
}
