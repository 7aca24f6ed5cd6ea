/** The canonical text of a value (`canonical_json`, `content_hash` in runtime_contracts/canonical.py) and a reader
    for the subset of JSON it emits (RFC 8259, sections 4 to 7). */
module Json {
  import opened Wrappers
  import opened Platform
  import opened Digits
  import opened Canonical

  // ---- printing ----

  function HexDigit(n: nat): char
    requires n < 16
  {
    if n < 10 then '0' + n as char else 'a' + (n - 10) as char
  }

  /** json.dumps leaves everything but the quote, the backslash and the characters below the space as it is. */
  function EscapeChar(c: char): (s: string)
    ensures s != []
  {
    if c == '\"' then ['\\', '\"']
    else if c == '\\' then ['\\', '\\']
    else if c as int == 8 then ['\\', 'b']
    else if c as int == 9 then ['\\', 't']
    else if c as int == 10 then ['\\', 'n']
    else if c as int == 12 then ['\\', 'f']
    else if c as int == 13 then ['\\', 'r']
    else if c as int < 32 then ['\\', 'u', '0', '0', HexDigit(c as int / 16), HexDigit(c as int % 16)]
    else [c]
  }

  function Escape(s: string): string {
    if s == [] then [] else EscapeChar(s[0]) + Escape(s[1..])
  }

  /** The string literal without its opening quote. */
  function QuoteTail(s: string): string {
    Escape(s) + "\""
  }

  function IntText(n: int): string {
    if n < 0 then "-" + NatText(-n) else NatText(n)
  }

  /** `json.dumps` with compact separators. A canonical mapping is already in key order, so sorting its keys again
      changes nothing; a value that is not JSON has no text. */
  function Print(v: Value): string
    decreases v
  {
    match v
    case Null => "null"
    case Bool(b) => if b then "true" else "false"
    case Int(n) => IntText(n)
    case Str(s) => "\"" + QuoteTail(s)
    case List(items) => if items == [] then "[]" else "[" + PrintItems(items)
    case Map(members) => if members == [] then "{}" else "{" + PrintMembers(members)
    case _ => []
  }

  /** Items with the closing bracket. */
  function PrintItems(items: seq<Value>): string
    requires items != []
    decreases items
  {
    Print(items[0]) + if |items| == 1 then "]" else "," + PrintItems(items[1..])
  }

  function PrintMembers(members: seq<Member>): string
    requires members != []
    decreases members
  {
    PrintMember(members[0]) + if |members| == 1 then "}" else "," + PrintMembers(members[1..])
  }

  function PrintMember(m: Member): string
    decreases m
  {
    match m.key
    case OtherKey => []
    case Name(name) => "\"" + (QuoteTail(name) + (":" + Print(m.item)))
  }

  function CanonicalJson(l: Runtime, v: Value): Result<string> {
    var c :- Canonicalize(l, v);
    Ok(Print(c))
  }

  function Digest(l: Runtime, text: string): string {
    HASH_PREFIX + l.sha256(text)
  }

  function ContentHash(l: Runtime, v: Value): Result<string> {
    var text :- CanonicalJson(l, v);
    Ok(Digest(l, text))
  }

  // ---- reading ----

  function HexValue(c: char): Option<nat> {
    if '0' <= c <= '9' then Some(c as int - '0' as int)
    else if 'a' <= c <= 'f' then Some(c as int - 'a' as int + 10)
    else None
  }

  /** One character of a string literal and what follows it. */
  function ReadChar(t: string): (r: Option<(char, string)>)
    ensures r.Some? ==> |r.value.1| < |t|
  {
    if t == [] || t[0] == '\"' || t[0] as int < 32 then None
    else if t[0] != '\\' then Some((t[0], t[1..]))
    else if |t| < 2 then None
    else
      match t[1]
      case '\"' => Some(('\"', t[2..]))
      case '\\' => Some(('\\', t[2..]))
      case 'b' => Some((8 as char, t[2..]))
      case 't' => Some((9 as char, t[2..]))
      case 'n' => Some((10 as char, t[2..]))
      case 'f' => Some((12 as char, t[2..]))
      case 'r' => Some((13 as char, t[2..]))
      case 'u' =>
        if |t| < 6 || t[2] != '0' || t[3] != '0' then None
        else
          var hi, lo := HexValue(t[4]), HexValue(t[5]);
          if hi.None? || lo.None? then None else Some(((16 * hi.value + lo.value) as char, t[6..]))
      case _ => None
  }

  /** A string literal after its opening quote. */
  function ReadString(t: string): (r: Option<(string, string)>)
    ensures r.Some? ==> |r.value.1| < |t|
    decreases |t|
  {
    if t == [] then None
    else if t[0] == '\"' then Some(([], t[1..]))
    else
      match ReadChar(t)
      case None => None
      case Some((c, rest)) =>
        match ReadString(rest)
        case None => None
        case Some((s, after)) => Some(([c] + s, after))
  }

  function ReadNat(t: string): (r: Option<(nat, string)>)
    ensures r.Some? ==> |r.value.1| < |t|
  {
    var n := Prefix(t);
    if n == 0 then None else Some((Digits.Value(t[..n]), t[n..]))
  }

  function ReadValue(t: string): (r: Option<(Value, string)>)
    ensures r.Some? ==> |r.value.1| < |t|
    decreases |t|, 2
  {
    if t == [] then None
    else if t[0] == '\"' then
      match ReadString(t[1..])
      case None => None
      case Some((s, rest)) => Some((Str(s), rest))
    else if t[0] == '[' then
      if |t| > 1 && t[1] == ']' then Some((List([]), t[2..]))
      else
        match ReadItems(t[1..])
        case None => None
        case Some((items, rest)) => Some((List(items), rest))
    else if t[0] == '{' then
      if |t| > 1 && t[1] == '}' then Some((Map([]), t[2..]))
      else
        match ReadMembers(t[1..])
        case None => None
        case Some((members, rest)) => Some((Map(members), rest))
    else if t[0] == '-' then
      match ReadNat(t[1..])
      case None => None
      case Some((n, rest)) => Some((Int(-(n as int)), rest))
    else if IsDigit(t[0]) then
      match ReadNat(t)
      case None => None
      case Some((n, rest)) => Some((Int(n), rest))
    else if "null" <= t then Some((Null, t[4..]))
    else if "true" <= t then Some((Bool(true), t[4..]))
    else if "false" <= t then Some((Bool(false), t[5..]))
    else None
  }

  function ReadItems(t: string): (r: Option<(seq<Value>, string)>)
    ensures r.Some? ==> |r.value.1| < |t|
    decreases |t|, 3
  {
    match ReadValue(t)
    case None => None
    case Some((v, rest)) =>
      if rest == [] then None
      else if rest[0] == ']' then Some(([v], rest[1..]))
      else if rest[0] == ',' then
        match ReadItems(rest[1..])
        case None => None
        case Some((vs, after)) => Some(([v] + vs, after))
      else None
  }

  function ReadMember(t: string): (r: Option<(Member, string)>)
    ensures r.Some? ==> |r.value.1| < |t|
    decreases |t|, 3
  {
    if t == [] || t[0] != '\"' then None
    else
      match ReadString(t[1..])
      case None => None
      case Some((name, rest)) =>
        if rest == [] || rest[0] != ':' then None
        else
          match ReadValue(rest[1..])
          case None => None
          case Some((v, after)) => Some((Member(Name(name), v), after))
  }

  function ReadMembers(t: string): (r: Option<(seq<Member>, string)>)
    ensures r.Some? ==> |r.value.1| < |t|
    decreases |t|, 4
  {
    match ReadMember(t)
    case None => None
    case Some((m, rest)) =>
      if rest == [] then None
      else if rest[0] == '}' then Some(([m], rest[1..]))
      else if rest[0] == ',' then
        match ReadMembers(rest[1..])
        case None => None
        case Some((ms, after)) => Some(([m] + ms, after))
      else None
  }

  /** A whole text. */
  function ParseJson(t: string): Option<Value> {
    match ReadValue(t)
    case None => None
    case Some((v, rest)) => if rest == [] then Some(v) else None
  }

  // ---- the reader inverts the printer ----

  /** Made of the JSON kinds only. */
  ghost predicate Plain(v: Value)
    decreases v
  {
    match v
    case Null => true
    case Bool(_) => true
    case Int(_) => true
    case Str(_) => true
    case List(items) => forall i :: 0 <= i < |items| ==> Plain(items[i])
    case Map(members) => forall i :: 0 <= i < |members| ==> PlainMember(members[i])
    case _ => false
  }

  ghost predicate PlainMember(m: Member)
    decreases m
  {
    m.key.Name? && Plain(m.item)
  }

  lemma ReadEscapedChar(c: char, rest: string)
    ensures ReadChar(EscapeChar(c) + rest) == Some((c, rest))
    ensures EscapeChar(c)[0] != '\"'
  {
    var e := EscapeChar(c);
    var t := e + rest;
    assert t[|e|..] == rest;
    if c as int < 32 && c as int !in {8, 9, 10, 12, 13} {
      var n := c as int;
      assert HexValue(HexDigit(n / 16)) == Some(n / 16) && HexValue(HexDigit(n % 16)) == Some(n % 16);
      assert t[..6] == e;
      assert t[4] == e[4] && t[5] == e[5];
    }
  }

  lemma {:induction false} ReadQuoted(s: string, rest: string)
    ensures ReadString(QuoteTail(s) + rest) == Some((s, rest))
  {
    var t := QuoteTail(s) + rest;
    if s == [] {
      assert t == "\"" + rest;
      assert t[1..] == rest;
    } else {
      var e, more := EscapeChar(s[0]), QuoteTail(s[1..]) + rest;
      assert t == e + more;
      ReadEscapedChar(s[0], more);
      assert t[0] == e[0];
      ReadQuoted(s[1..], rest);
      assert s == [s[0]] + s[1..];
    }
  }

  /** What may follow a printed value: a number must not run into more digits. */
  ghost predicate Stops(rest: string) {
    rest == [] || !IsDigit(rest[0])
  }

  lemma {:induction false} ReadInt(n: int, rest: string)
    requires Stops(rest)
    ensures ReadValue(IntText(n) + rest) == Some((Int(n), rest))
  {
    var digits := NatText(if n < 0 then -n else n);
    var t := digits + rest;
    PrefixStops(digits, rest);
    assert t[..|digits|] == digits && t[|digits|..] == rest && t[0] == digits[0];
    assert ReadNat(t) == Some((if n < 0 then -n else n, rest));
    if n < 0 {
      assert IntText(n) + rest == "-" + t;
      assert ("-" + t)[1..] == t;
    } else {
      assert IntText(n) + rest == t;
    }
  }

  lemma ReadWord(v: Value, rest: string)
    requires v.Null? || v.Bool?
    ensures ReadValue(Print(v) + rest) == Some((v, rest))
  {
    var word := Print(v);
    var t := word + rest;
    assert t[|word|..] == rest && t[..|word|] == word && t[0] == word[0];
  }

  lemma ReadOpened(tail: string)
    requires tail != []
    ensures tail[0] != ']' && ReadItems(tail).Some? ==>
      ReadValue("[" + tail) == Some((List(ReadItems(tail).value.0), ReadItems(tail).value.1))
    ensures tail[0] != '}' && ReadMembers(tail).Some? ==>
      ReadValue("{" + tail) == Some((Map(ReadMembers(tail).value.0), ReadMembers(tail).value.1))
    ensures tail[0] == ']' ==> ReadValue("[" + tail) == Some((List([]), tail[1..]))
    ensures tail[0] == '}' ==> ReadValue("{" + tail) == Some((Map([]), tail[1..]))
  {
    assert ("[" + tail)[1..] == tail && ("{" + tail)[1..] == tail;
    assert ("[" + tail)[2..] == tail[1..] && ("{" + tail)[2..] == tail[1..];
  }

  lemma ReadStr(s: string, rest: string)
    ensures ReadValue(Print(Str(s)) + rest) == Some((Str(s), rest))
  {
    var t := "\"" + (QuoteTail(s) + rest);
    assert Print(Str(s)) + rest == t && t[1..] == QuoteTail(s) + rest;
    ReadQuoted(s, rest);
  }

  lemma ReadList(items: seq<Value>, rest: string)
    requires items != [] ==> Plain(items[0]) && ReadItems(PrintItems(items) + rest) == Some((items, rest))
    ensures ReadValue(Print(List(items)) + rest) == Some((List(items), rest))
  {
    var tail := (if items == [] then "]" else PrintItems(items)) + rest;
    assert Print(List(items)) + rest == "[" + tail;
    ReadOpened(tail);
    if items == [] {
      assert tail[1..] == rest;
    } else {
      PrintStarts(items[0]);
      assert tail[0] == Print(items[0])[0];
    }
  }

  lemma ReadMap(members: seq<Member>, rest: string)
    requires members != [] ==> PlainMember(members[0]) && ReadMembers(PrintMembers(members) + rest) == Some((members, rest))
    ensures ReadValue(Print(Map(members)) + rest) == Some((Map(members), rest))
  {
    var tail := (if members == [] then "}" else PrintMembers(members)) + rest;
    assert Print(Map(members)) + rest == "{" + tail;
    ReadOpened(tail);
    if members == [] {
      assert tail[1..] == rest;
    } else {
      assert tail[0] == PrintMember(members[0])[0];
    }
  }

  lemma {:induction false} ReadPrinted(v: Value, rest: string)
    requires Plain(v) && Stops(rest)
    ensures ReadValue(Print(v) + rest) == Some((v, rest))
    decreases v, 0
  {
    if v.Int? {
      ReadInt(v.n, rest);
    } else if v.Str? {
      ReadStr(v.s, rest);
    } else if v.List? {
      if v.items != [] {
        ReadPrintedItems(v.items, rest);
      }
      ReadList(v.items, rest);
    } else if v.Map? {
      if v.members != [] {
        assert PlainMember(v.members[0]);
        ReadPrintedMembers(v.members, rest);
      }
      ReadMap(v.members, rest);
    } else {
      ReadWord(v, rest);
    }
  }

  lemma PrintStarts(v: Value)
    requires Plain(v)
    ensures Print(v) != [] && Print(v)[0] != ']' && Print(v)[0] != ','
  {}

  lemma {:induction false} ReadPrintedItems(items: seq<Value>, rest: string)
    requires items != [] && forall i :: 0 <= i < |items| ==> Plain(items[i])
    ensures ReadItems(PrintItems(items) + rest) == Some((items, rest))
    decreases items, 1
  {
    var head := Print(items[0]);
    if |items| == 1 {
      var more := "]" + rest;
      assert PrintItems(items) + rest == head + more;
      ReadPrinted(items[0], more);
      assert more[1..] == rest && items == [items[0]];
    } else {
      var more := "," + (PrintItems(items[1..]) + rest);
      assert PrintItems(items) + rest == head + more;
      ReadPrinted(items[0], more);
      assert more[1..] == PrintItems(items[1..]) + rest;
      ReadPrintedItems(items[1..], rest);
      assert items == [items[0]] + items[1..];
    }
  }

  lemma {:induction false} ReadPrintedMember(m: Member, rest: string)
    requires PlainMember(m) && Stops(rest)
    ensures ReadMember(PrintMember(m) + rest) == Some((m, rest))
    decreases m, 1
  {
    var value := Print(m.item) + rest;
    var after := ":" + value;
    var t := "\"" + (QuoteTail(m.key.name) + after);
    assert PrintMember(m) + rest == t && t[1..] == QuoteTail(m.key.name) + after && after[1..] == value;
    ReadQuoted(m.key.name, after);
    ReadPrinted(m.item, rest);
  }

  lemma {:induction false} ReadPrintedMembers(members: seq<Member>, rest: string)
    requires members != [] && forall i :: 0 <= i < |members| ==> PlainMember(members[i])
    ensures ReadMembers(PrintMembers(members) + rest) == Some((members, rest))
    decreases members, 1
  {
    var head := PrintMember(members[0]);
    assert PlainMember(members[0]);
    if |members| == 1 {
      var more := "}" + rest;
      assert PrintMembers(members) + rest == head + more;
      ReadPrintedMember(members[0], more);
      assert more[1..] == rest && members == [members[0]];
    } else {
      var more := "," + (PrintMembers(members[1..]) + rest);
      assert PrintMembers(members) + rest == head + more;
      ReadPrintedMember(members[0], more);
      assert more[1..] == PrintMembers(members[1..]) + rest;
      ReadPrintedMembers(members[1..], rest);
      assert members == [members[0]] + members[1..];
    }
  }

  lemma {:induction false} CanonicalIsPlain(l: Runtime, v: Value)
    requires IsCanonical(l, v)
    ensures Plain(v)
    decreases v
  {
    match v
    case List(items) =>
      forall i | 0 <= i < |items|
        ensures Plain(items[i])
      {
        CanonicalIsPlain(l, items[i]);
      }
    case Map(members) =>
      forall i | 0 <= i < |members|
        ensures PlainMember(members[i])
      {
        CanonicalMemberIsPlain(l, members[i]);
      }
    case _ =>
  }

  lemma {:induction false} CanonicalMemberIsPlain(l: Runtime, m: Member)
    requires CanonicalMember(l, m)
    ensures PlainMember(m)
    decreases m
  {
    CanonicalIsPlain(l, m.item);
  }

  /** Every JSON value is read back from its text, whole. */
  lemma ParsePrinted(v: Value)
    requires Plain(v)
    ensures ParseJson(Print(v)) == Some(v)
  {
    ReadPrinted(v, "");
    assert Print(v) + "" == Print(v);
  }

  /** The text of any accepted value parses back to its canonical form. */
  lemma CanonicalJsonRoundTrip(l: Runtime, v: Value)
    requires Canonicalize(l, v).Ok?
    ensures CanonicalJson(l, v).Ok?
    ensures ParseJson(CanonicalJson(l, v).value) == Some(Canonicalize(l, v).value)
  {
    CanonicalizeIsCanonical(l, v);
    CanonicalIsPlain(l, Canonicalize(l, v).value);
    ParsePrinted(Canonicalize(l, v).value);
  }

  /** Canonical text is unambiguous: two accepted values have the same bytes, and the same hash, exactly when they
      have the same canonical form. */
  lemma SameTextIffSameForm(l: Runtime, a: Value, b: Value)
    requires Canonicalize(l, a).Ok? && Canonicalize(l, b).Ok?
    ensures CanonicalJson(l, a) == CanonicalJson(l, b) <==> Canonicalize(l, a) == Canonicalize(l, b)
    ensures ContentHash(l, a) == ContentHash(l, b) <==> Canonicalize(l, a) == Canonicalize(l, b)
  {
    CanonicalJsonRoundTrip(l, a);
    CanonicalJsonRoundTrip(l, b);
    DigestInjective(l, CanonicalJson(l, a).value, CanonicalJson(l, b).value);
  }

  lemma DigestInjective(l: Runtime, a: string, b: string)
    ensures Digest(l, a) == Digest(l, b) <==> a == b
  {
    assert Digest(l, a)[5..] == l.sha256(a) && Digest(l, b)[5..] == l.sha256(b);
    HashSeparates(l, a, b);
  }

  /** A digest is plain text, never empty. */
  lemma DigestIsNormal(l: Runtime, text: string)
    ensures l.nfc(Digest(l, text)) == Digest(l, text) && Digest(l, text) != ""
  {
    HashIsNormal(l, text);
  }

  /** Hashing a value and hashing its canonical form give the same digest. */
  lemma HashOfCanonicalForm(l: Runtime, v: Value)
    requires Canonicalize(l, v).Ok?
    ensures ContentHash(l, Canonicalize(l, v).value) == ContentHash(l, v)
  {
    CanonicalizeIdempotent(l, v);
  }

  // ---- no raw control character is printed ----

  ghost predicate Printable(s: string) {
    forall i :: 0 <= i < |s| ==> s[i] as int >= 32
  }

  lemma {:induction false} EscapePrintable(s: string)
    ensures Printable(Escape(s))
  {
    if s != [] {
      EscapePrintable(s[1..]);
    }
  }

  lemma {:induction false} PrintPrintable(v: Value)
    ensures Printable(Print(v))
    decreases v, 0
  {
    match v
    case Str(s) => EscapePrintable(s);
    case List(items) => if items != [] { PrintItemsPrintable(items); }
    case Map(members) => if members != [] { PrintMembersPrintable(members); }
    case _ =>
  }

  lemma {:induction false} PrintItemsPrintable(items: seq<Value>)
    requires items != []
    ensures Printable(PrintItems(items))
    decreases items, 1
  {
    PrintPrintable(items[0]);
    if |items| > 1 {
      PrintItemsPrintable(items[1..]);
    }
  }

  lemma {:induction false} PrintMemberPrintable(m: Member)
    ensures Printable(PrintMember(m))
    decreases m, 1
  {
    if m.key.Name? {
      EscapePrintable(m.key.name);
      PrintPrintable(m.item);
    }
  }

  lemma {:induction false} PrintMembersPrintable(members: seq<Member>)
    requires members != []
    ensures Printable(PrintMembers(members))
    decreases members, 1
  {
    PrintMemberPrintable(members[0]);
    if |members| > 1 {
      PrintMembersPrintable(members[1..]);
    }
  }
}
