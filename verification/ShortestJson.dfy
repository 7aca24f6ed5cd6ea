/** The canonical text is the shortest JSON text of its value (`canonical_json` in runtime_contracts/canonical.py: compact
    separators, no escape that is not needed): no leading zero, no "-0", no long escape for a character that has a short one. */
module ShortestJson {
  import opened Wrappers
  import opened Platform
  import opened Digits
  import opened Canonical
  import opened Json

  /** What was read off `t` before `rest` is no shorter than the text, and is the text if it is as short. */
  ghost predicate NoShorter(text: string, t: string, rest: string) {
    && |text| + |rest| <= |t| && t[|t| - |rest|..] == rest
    && (|text| + |rest| == |t| ==> t == text + rest)
  }

  lemma Regroup<T>(a: seq<T>, b: seq<T>, c: seq<T>)
    ensures (a + b) + c == a + (b + c)
  {}

  lemma {:induction false} InTurn(a: string, b: string, t: string, mid: string, rest: string)
    requires NoShorter(a, t, mid) && NoShorter(b, mid, rest)
    ensures NoShorter(a + b, t, rest)
  {
    Regroup(a, b, rest);
    assert t[|t| - |rest|..] == t[|t| - |mid|..][|mid| - |rest|..];
  }

  lemma OneChar(c: char, t: string)
    requires t != [] && t[0] == c
    ensures NoShorter([c], t, t[1..])
  {
    assert t == [c] + t[1..];
  }

  // ---- digits ----

  lemma {:induction false} NatShortest(t: string)
    requires ReadNat(t).Some?
    ensures NoShorter(NatText(ReadNat(t).value.0), t, ReadNat(t).value.1)
  {
    var n := Prefix(t);
    NatTextShortest(t[..n]);
    assert t == t[..n] + t[n..];
  }

  lemma {:induction false} IntShortest(t: string)
    requires ReadNat(t).Some?
    ensures NoShorter(IntText(ReadNat(t).value.0), t, ReadNat(t).value.1)
    ensures NoShorter(IntText(-(ReadNat(t).value.0 as int)), "-" + t, ReadNat(t).value.1)
  {
    NatShortest(t);
    OneChar('-', "-" + t);
    assert ("-" + t)[1..] == t;
    InTurn("-", NatText(ReadNat(t).value.0), "-" + t, t, ReadNat(t).value.1);
  }

  // ---- strings ----

  lemma {:induction false} CharShortest(t: string)
    requires ReadChar(t).Some?
    ensures NoShorter(EscapeChar(ReadChar(t).value.0), t, ReadChar(t).value.1)
  {
    if t[0] != '\\' {
      OneChar(t[0], t);
    } else if t[1] != 'u' {
      assert t == t[..2] + t[2..] && t[..2] == ['\\', t[1]];
    } else {
      LongEscape(t);
    }
  }

  lemma {:induction false} LongEscape(t: string)
    requires ReadChar(t).Some? && |t| >= 6 && t[0] == '\\' && t[1] == 'u'
    ensures NoShorter(EscapeChar(ReadChar(t).value.0), t, ReadChar(t).value.1)
  {
    var hi, lo := HexValue(t[4]).value, HexValue(t[5]).value;
    var c := ReadChar(t).value.0;
    assert t == t[..6] + t[6..] && t[..6] == ['\\', 'u', '0', '0', t[4], t[5]];
    assert HexDigit(hi) == t[4] && HexDigit(lo) == t[5];
    assert c as int / 16 == hi && c as int % 16 == lo;
  }

  lemma {:induction false} StringShortest(t: string)
    requires ReadString(t).Some?
    ensures NoShorter(QuoteTail(ReadString(t).value.0), t, ReadString(t).value.1)
    decreases |t|
  {
    if t[0] == '\"' {
      OneChar('\"', t);
      assert QuoteTail([]) == "\"";
    } else {
      var (c, rest) := ReadChar(t).value;
      var (s, after) := ReadString(rest).value;
      CharShortest(t);
      StringShortest(rest);
      InTurn(EscapeChar(c), QuoteTail(s), t, rest, after);
      assert ([c] + s)[1..] == s;
      Regroup(EscapeChar(c), Escape(s), "\"");
    }
  }

  lemma {:induction false} QuotedShortest(t: string)
    requires t != [] && t[0] == '\"' && ReadString(t[1..]).Some?
    ensures NoShorter("\"" + QuoteTail(ReadString(t[1..]).value.0), t, ReadString(t[1..]).value.1)
  {
    OneChar('\"', t);
    StringShortest(t[1..]);
    InTurn("\"", QuoteTail(ReadString(t[1..]).value.0), t, t[1..], ReadString(t[1..]).value.1);
  }

  // ---- values ----

  lemma WordShortest(word: string, t: string)
    requires word <= t
    ensures NoShorter(word, t, t[|word|..])
  {
    assert t == word + t[|word|..];
  }

  lemma {:induction false} BracketShortest(open: char, inner: string, t: string, rest: string)
    requires t != [] && t[0] == open && NoShorter(inner, t[1..], rest)
    ensures NoShorter([open] + inner, t, rest)
  {
    OneChar(open, t);
    InTurn([open], inner, t, t[1..], rest);
  }

  lemma {:induction false} EmptyShortest(open: char, close: char, t: string)
    requires |t| > 1 && t[0] == open && t[1] == close
    ensures NoShorter([open, close], t, t[2..])
  {
    assert t == [open, close] + t[2..];
  }

  lemma {:induction false} ReadShortest(t: string)
    requires ReadValue(t).Some?
    ensures NoShorter(Print(ReadValue(t).value.0), t, ReadValue(t).value.1)
    decreases |t|, 2
  {
    if t[0] == '\"' {
      QuotedShortest(t);
    } else if t[0] == '[' {
      ListShortest(t);
    } else if t[0] == '{' {
      ObjectShortest(t);
    } else if t[0] == '-' {
      IntShortest(t[1..]);
      assert t == "-" + t[1..];
    } else if IsDigit(t[0]) {
      IntShortest(t);
    } else {
      WordShortest(Print(ReadValue(t).value.0), t);
    }
  }

  lemma {:induction false} ListShortest(t: string)
    requires ReadValue(t).Some? && t[0] == '['
    ensures NoShorter(Print(ReadValue(t).value.0), t, ReadValue(t).value.1)
    decreases |t|, 1
  {
    if |t| > 1 && t[1] == ']' {
      EmptyShortest('[', ']', t);
    } else {
      ItemsShortest(t[1..]);
      BracketShortest('[', PrintItems(ReadItems(t[1..]).value.0), t, ReadItems(t[1..]).value.1);
    }
  }

  lemma {:induction false} ObjectShortest(t: string)
    requires ReadValue(t).Some? && t[0] == '{'
    ensures NoShorter(Print(ReadValue(t).value.0), t, ReadValue(t).value.1)
    decreases |t|, 1
  {
    if |t| > 1 && t[1] == '}' {
      EmptyShortest('{', '}', t);
    } else {
      MembersShortest(t[1..]);
      BracketShortest('{', PrintMembers(ReadMembers(t[1..]).value.0), t, ReadMembers(t[1..]).value.1);
    }
  }

  lemma {:induction false} ItemsShortest(t: string)
    requires ReadItems(t).Some?
    ensures ReadItems(t).value.0 != []
    ensures NoShorter(PrintItems(ReadItems(t).value.0), t, ReadItems(t).value.1)
    decreases |t|, 3
  {
    var (v, rest) := ReadValue(t).value;
    ReadShortest(t);
    OneChar(rest[0], rest);
    if rest[0] == ']' {
      InTurn(Print(v), "]", t, rest, rest[1..]);
    } else {
      var (vs, after) := ReadItems(rest[1..]).value;
      ItemsShortest(rest[1..]);
      InTurn(",", PrintItems(vs), rest, rest[1..], after);
      InTurn(Print(v), "," + PrintItems(vs), t, rest, after);
      assert ([v] + vs)[1..] == vs;
    }
  }

  lemma {:induction false} MemberShortest(t: string)
    requires ReadMember(t).Some?
    ensures NoShorter(PrintMember(ReadMember(t).value.0), t, ReadMember(t).value.1)
    decreases |t|, 3
  {
    var (name, rest) := ReadString(t[1..]).value;
    var (v, after) := ReadValue(rest[1..]).value;
    QuotedShortest(t);
    OneChar(':', rest);
    ReadShortest(rest[1..]);
    InTurn(":", Print(v), rest, rest[1..], after);
    InTurn("\"" + QuoteTail(name), ":" + Print(v), t, rest, after);
    Regroup("\"", QuoteTail(name), ":" + Print(v));
  }

  lemma {:induction false} MembersShortest(t: string)
    requires ReadMembers(t).Some?
    ensures ReadMembers(t).value.0 != []
    ensures NoShorter(PrintMembers(ReadMembers(t).value.0), t, ReadMembers(t).value.1)
    decreases |t|, 4
  {
    var (m, rest) := ReadMember(t).value;
    MemberShortest(t);
    OneChar(rest[0], rest);
    if rest[0] == '}' {
      InTurn(PrintMember(m), "}", t, rest, rest[1..]);
    } else {
      var (ms, after) := ReadMembers(rest[1..]).value;
      MembersShortest(rest[1..]);
      InTurn(",", PrintMembers(ms), rest, rest[1..], after);
      InTurn(PrintMember(m), "," + PrintMembers(ms), t, rest, after);
      assert ([m] + ms)[1..] == ms;
    }
  }

  /** No text of a value is shorter than the printed one, and no other is as short. */
  lemma PrintShortest(t: string)
    requires ParseJson(t).Some?
    ensures |Print(ParseJson(t).value)| <= |t|
    ensures |Print(ParseJson(t).value)| == |t| ==> t == Print(ParseJson(t).value)
  {
    ReadShortest(t);
    assert Print(ParseJson(t).value) + [] == Print(ParseJson(t).value);
  }

  /** The canonical text of an accepted value is the one shortest text that is read as its canonical form. */
  lemma CanonicalJsonShortest(l: Runtime, v: Value, t: string)
    requires Canonicalize(l, v).Ok? && ParseJson(t) == Some(Canonicalize(l, v).value)
    ensures CanonicalJson(l, v).Ok? && |CanonicalJson(l, v).value| <= |t|
    ensures |CanonicalJson(l, v).value| == |t| ==> CanonicalJson(l, v) == Ok(t)
  {
    PrintShortest(t);
  }

  // ---- what the text looks like ----

  lemma CharsWritten()
    ensures EscapeChar('\"') == "\\\"" && EscapeChar('\\') == "\\\\" && EscapeChar('/') == "/" && EscapeChar(127 as char) == [127 as char]
    ensures EscapeChar(8 as char) == "\\b" && EscapeChar(9 as char) == "\\t" && EscapeChar(10 as char) == "\\n"
    ensures EscapeChar(12 as char) == "\\f" && EscapeChar(13 as char) == "\\r" && EscapeChar(31 as char) == "\\u001f"
  {}

  lemma WordsWritten()
    ensures Print(Null) == "null" && Print(Bool(true)) == "true" && Print(Bool(false)) == "false"
    ensures Print(Int(0)) == "0" && Print(Int(7)) == "7" && Print(Int(-10)) == "-10" && Print(Str("k")) == "\"k\""
  {
    assert NatText(0) == "0" && NatText(7) == "7" && NatText(1) == "1" && NatText(10) == NatText(1) + "0";
    assert "k"[1..] == "" && Escape("k") == "k";
  }

  lemma ListWritten(v: Value, w: Value)
    ensures Print(List([])) == "[]" && Print(List([v, w])) == "[" + (Print(v) + ("," + (Print(w) + "]")))
  {
    assert [v, w][1..] == [w];
    assert PrintItems([w]) == Print(w) + "]";
    assert PrintItems([v, w]) == Print(v) + ("," + PrintItems([w]));
  }

  lemma ObjectWritten(k: string, v: Value, m: string, w: Value)
    ensures Print(Map([])) == "{}"
    ensures Print(Map([Member(Name(k), v), Member(Name(m), w)]))
         == "{" + (Print(Str(k)) + (":" + (Print(v) + ("," + (Print(Str(m)) + (":" + (Print(w) + "}")))))))
  {
    var a, b := Member(Name(k), v), Member(Name(m), w);
    Regroup("\"", QuoteTail(k), ":" + Print(v));
    Regroup("\"", QuoteTail(m), ":" + Print(w));
    assert [a, b][1..] == [b];
    assert PrintMembers([b]) == PrintMember(b) + "}";
    assert PrintMembers([a, b]) == PrintMember(a) + ("," + PrintMembers([b]));
    assert PrintMember(a) == Print(Str(k)) + (":" + Print(v)) && PrintMember(b) == Print(Str(m)) + (":" + Print(w));
    Regroup(Print(Str(m)), ":" + Print(w), "}");
    Regroup(":", Print(w), "}");
    Regroup(Print(Str(k)), ":" + Print(v), "," + (PrintMember(b) + "}"));
    Regroup(":", Print(v), "," + (PrintMember(b) + "}"));
  }
}
