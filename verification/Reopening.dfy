/** What a store reopens with (`_load` after any number of sessions, runtime_contracts/store/file.py). */
module Reopening {
  import opened Wrappers
  import opened Platform
  import opened Decimals
  import opened Canonical
  import opened Json
  import opened Envelopes
  import opened EvidenceStore

  // ---- a log written in several sessions ----

  /** Empty, or ended by a line break. */
  ghost predicate Closed(text: string) {
    text == "" || text[|text| - 1] == '\n' || text[|text| - 1] == '\r'
  }

  lemma Regroup<T>(a: seq<T>, b: seq<T>, c: seq<T>)
    ensures (a + b) + c == a + (b + c)
  {}

  lemma {:induction false} LinesCut(text: string, first: string, end: char, rest: string)
    requires text == first + ([end] + rest) && forall i :: 0 <= i < |first| ==> first[i] != '\n' && first[i] != '\r'
    requires end == '\n' || end == '\r'
    ensures Lines(text) == [first] + Lines(rest)
  {
    FirstBreak(first, [end] + rest);
    assert text[..|first|] == first && text[|first| + 1..] == rest;
  }

  lemma CutGrows(base: string, first: string, end: char, rest: string, text: string)
    requires base == first + ([end] + rest)
    ensures base + text == first + ([end] + (rest + text))
  {
    Regroup(first, [end] + rest, text);
    Regroup([end], rest, text);
  }

  lemma CutAt<T>(s: seq<T>, n: nat)
    requires n < |s|
    ensures s == s[..n] + ([s[n]] + s[n + 1..])
  {}

  lemma {:induction false} CutBase(base: string) returns (first: string, end: char, rest: string)
    requires base != "" && Closed(base)
    ensures base == first + ([end] + rest) && Closed(rest) && (end == '\n' || end == '\r')
    ensures forall i :: 0 <= i < |first| ==> first[i] != '\n' && first[i] != '\r'
  {
    var n := LineLength(base);
    CutAt(base, n);
    first, end, rest := base[..n], base[n], base[n + 1..];
  }

  /** What follows a closed text starts a line of its own. */
  lemma {:induction false} LinesAfter(base: string, text: string)
    requires Closed(base)
    ensures Lines(base + text) == Lines(base) + Lines(text)
    decreases |base|
  {
    if base == "" {
      assert base + text == text;
    } else {
      var first, end, rest := CutBase(base);
      CutGrows(base, first, end, rest, text);
      LinesCut(base, first, end, rest);
      LinesCut(base + text, first, end, rest + text);
      LinesAfter(rest, text);
      Regroup([first], Lines(rest), Lines(text));
    }
  }

  function Both(a: Result<seq<Envelope>>, b: Result<seq<Envelope>>): Result<seq<Envelope>> {
    if a.Ok? && b.Ok? then Ok(a.value + b.value) else Refused
  }

  /** What one line adds. */
  function OfLine(read: string -> Result<Envelope>, line: string): Result<seq<Envelope>> {
    if Strip(line) == "" then Ok([])
    else
      var row :- read(Strip(line));
      Ok([row])
  }

  lemma {:induction false} LoadLast(read: string -> Result<Envelope>, lines: seq<string>, line: string)
    ensures LoadLines(read, lines + [line]) == Both(LoadLines(read, lines), OfLine(read, line))
  {
    assert (lines + [line])[..|lines|] == lines;
    NothingAdded(LoadLines(read, lines));
  }

  lemma NothingAdded(a: Result<seq<Envelope>>)
    ensures Both(a, Ok([])) == a
  {
    if a.Ok? {
      assert a.value + [] == a.value;
    }
  }

  lemma BothAssociates(a: Result<seq<Envelope>>, b: Result<seq<Envelope>>, c: Result<seq<Envelope>>)
    ensures Both(Both(a, b), c) == Both(a, Both(b, c))
  {
    if a.Ok? && b.Ok? && c.Ok? {
      assert (a.value + b.value) + c.value == a.value + (b.value + c.value);
    }
  }

  lemma LastOff<T>(a: seq<T>, b: seq<T>)
    requires b != []
    ensures b == b[..|b| - 1] + [b[|b| - 1]] && a + b == (a + b[..|b| - 1]) + [b[|b| - 1]]
  {}

  lemma {:induction false} LoadLinesAfter(read: string -> Result<Envelope>, a: seq<string>, b: seq<string>)
    ensures LoadLines(read, a + b) == Both(LoadLines(read, a), LoadLines(read, b))
    decreases |b|
  {
    if b == [] {
      assert a + b == a;
      NothingAdded(LoadLines(read, a));
    } else {
      var front, line := b[..|b| - 1], b[|b| - 1];
      LoadLinesAfter(read, a, front);
      LastOff(a, b);
      LoadLast(read, a + front, line);
      LoadLast(read, front, line);
      BothAssociates(LoadLines(read, a), LoadLines(read, front), OfLine(read, line));
    }
  }

  /** Rows written behind a closed log are read back behind what the log held. */
  lemma LoadAfter(l: Runtime, base: string, rows: seq<Envelope>)
    requires Closed(base) && AllWritable(l, rows)
    ensures Load(l, base + LogOf(l, rows)) == Both(Load(l, base), Ok(ReloadedAll(l, rows)))
  {
    LinesAfter(base, LogOf(l, rows));
    LoadLinesAfter(Reader(l), Lines(base), Lines(LogOf(l, rows)));
    LogRoundTrip(l, rows);
  }

  lemma {:induction false} JoinedCloses(lines: seq<string>)
    ensures Closed(Joined(lines))
  {
    if lines != [] {
      JoinedCloses(lines[1..]);
      var rest := Joined(lines[1..]);
      assert Joined(lines)[|Joined(lines)| - 1] == ("\n" + rest)[|rest|];
    }
  }

  /** Two sessions over one file: the rows of both, in order, each as it reloads. */
  lemma TwoSessions(l: Runtime, earlier: seq<Envelope>, later: seq<Envelope>)
    requires AllWritable(l, earlier) && AllWritable(l, later)
    ensures Load(l, LogOf(l, earlier) + LogOf(l, later)) == Ok(ReloadedAll(l, earlier) + ReloadedAll(l, later))
  {
    JoinedCloses(LinesOf(l, earlier));
    LoadAfter(l, LogOf(l, earlier), later);
    LogRoundTrip(l, earlier);
  }

  /** Rows that were read back are read back as they are the next time. */
  lemma ReloadedAllStable(l: Runtime, rows: seq<Envelope>)
    requires AllWritable(l, rows)
    ensures AllWritable(l, ReloadedAll(l, rows)) && ReloadedAll(l, ReloadedAll(l, rows)) == ReloadedAll(l, rows)
  {
    forall i | 0 <= i < |rows|
      ensures Writable(l, Reloaded(l, rows[i])) && Reloaded(l, Reloaded(l, rows[i])) == Reloaded(l, rows[i])
    {
      ReloadedIsStable(l, rows[i]);
      ReloadedConstructed(l, rows[i]);
    }
  }

  // ---- the durability promise ----

  /** Over a log that ends in a line break, whatever else happened: the file gives back what it held when the store was opened
      and every row whose append returned, each as it reloads. */
  lemma FileHoldsSaved(store: FileEvidenceStore)
    requires store.Valid() && Closed(store.base) && Load(store.l, store.base).Ok?
    ensures Load(store.l, store.log) == Ok(Load(store.l, store.base).value + ReloadedAll(store.l, store.saved))
  {
    LoadAfter(store.l, store.base, store.saved);
  }

  /** Every append since the store was opened has returned. */
  ghost predicate InStep(store: FileEvidenceStore)
    reads store
  {
    Load(store.l, store.base).Ok? && store.events == Load(store.l, store.base).value + store.saved
  }

  /** A store whose every append returned reopens with as many rows, and a reference answers with the row at the same place,
      unless normalising gives or takes a row that was appended that name. */
  lemma ReopenedIsSame(store: FileEvidenceStore, ref: string)
    requires store.Valid() && Closed(store.base) && InStep(store)
    requires forall i :: 0 <= i < |store.saved| ==> Steady(store.l, store.saved[i], ref) && Steady(store.l, store.saved[i], HashTail(ref))
    ensures Load(store.l, store.log).Ok? && |Load(store.l, store.log).value| == |store.events|
    ensures SamePlace(store.events, Load(store.l, store.log).value, Scan(store.events, ref), Scan(Load(store.l, store.log).value, ref))
  {
    FileHoldsSaved(store);
    var earlier, back := Load(store.l, store.base).value, ReloadedAll(store.l, store.saved);
    SteadyAlikeNamed(store.l, store.saved, ref);
    SteadyAlikeNamed(store.l, store.saved, HashTail(ref));
    AlikeNamedBehind(earlier, store.saved, back, ref);
    AlikeNamedBehind(earlier, store.saved, back, HashTail(ref));
    ScanSamePlace(earlier + store.saved, earlier + back, ref);
  }

  lemma AlikeNamedBehind(earlier: seq<Envelope>, a: seq<Envelope>, b: seq<Envelope>, name: string)
    requires AlikeNamed(a, b, name)
    ensures AlikeNamed(earlier + a, earlier + b, name)
  {}

  lemma ScanSamePlace(a: seq<Envelope>, b: seq<Envelope>, ref: string)
    requires AlikeNamed(a, b, ref) && AlikeNamed(a, b, HashTail(ref))
    ensures SamePlace(a, b, Scan(a, ref), Scan(b, ref))
  {
    FirstSamePlace(a, b, ref);
    FirstSamePlace(a, b, HashTail(ref));
  }

  // ---- a log that lost its last line break ----

  lemma {:induction false} OneLineAlone(text: string)
    requires forall i :: 0 <= i < |text| ==> text[i] != '\n' && text[i] != '\r'
    ensures LineLength(text) == |text|
  {
    if text != "" {
      OneLineAlone(text[1..]);
    }
  }

  /** The next row is glued to the last line. */
  lemma GluedLine(line: string, lines: seq<string>)
    requires lines != [] && OneLine(line) && OneLine(lines[0])
    ensures Lines(line + Joined(lines)) == [line + lines[0]] + Lines(Joined(lines[1..]))
  {
    var glued, rest := line + lines[0], Joined(lines[1..]);
    Regroup(line, lines[0], "\n" + rest);
    LinesCut(line + Joined(lines), glued, '\n', rest);
  }

  /** Two printed objects on one line are no JSON text. */
  lemma GluedIsNoRow(l: Runtime, e: Envelope, f: Envelope)
    requires Writable(l, e) && Writable(l, f)
    ensures ReadLine(l, LineOf(l, e) + LineOf(l, f)).Refused?
  {
    RowAccepted(l, e);
    LineIsOneLine(l, f);
    var v, rest := Canonicalize(l, ToJson(e)).value, LineOf(l, f);
    CanonicalizeIsCanonical(l, ToJson(e));
    CanonicalIsPlain(l, v);
    LineStarts(l, f);
    ReadPrinted(v, rest);
  }

  lemma LineStarts(l: Runtime, f: Envelope)
    requires Writable(l, f)
    ensures Stops(LineOf(l, f)) && LineOf(l, f) != ""
  {
    RowAccepted(l, f);
    RowCollected(l, f);
    MapEnds(Canonicalize(l, ToJson(f)).value.members);
  }

  lemma {:induction false} RefusedFirst(read: string -> Result<Envelope>, line: string, lines: seq<string>)
    requires OneLine(line) && read(line).Refused?
    ensures LoadLines(read, [line] + lines).Refused?
  {
    StripOneLine(line);
    LoadLinesAfter(read, [line], lines);
    assert [line][..0] == [];
  }

  /** A log whose last line break is lost still opens, but no longer once a row has been appended to it. */
  lemma LostBreakRefusesLog(l: Runtime, earlier: seq<Envelope>, last: Envelope, later: seq<Envelope>)
    requires AllWritable(l, earlier) && Writable(l, last) && AllWritable(l, later)
    ensures Load(l, LogOf(l, earlier) + (LineOf(l, last) + LogOf(l, later))).Ok? <==> later == []
  {
    var line, lines := LineOf(l, last), LinesOf(l, later);
    LineIsOneLine(l, last);
    JoinedCloses(LinesOf(l, earlier));
    LinesAfter(LogOf(l, earlier), line + Joined(lines));
    LoadLinesAfter(Reader(l), Lines(LogOf(l, earlier)), Lines(line + Joined(lines)));
    LogRoundTrip(l, earlier);
    if later == [] {
      OneLineAlone(line);
      assert line + Joined(lines) == line;
      LineRoundTrip(l, last);
      StripOneLine(line);
      assert [line][..0] == [];
    } else {
      LineIsOneLine(l, later[0]);
      GluedLine(line, lines);
      GluedIsNoRow(l, last, later[0]);
      assert OneLine(line + lines[0]);
      RefusedFirst(Reader(l), line + lines[0], Lines(Joined(lines[1..])));
    }
  }
}
