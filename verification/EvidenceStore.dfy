/** The append-only evidence store and its file log (runtime_contracts/store/file.py). The file is its text. */
module EvidenceStore {
  import opened Wrappers
  import opened Text
  import opened Platform
  import opened Decimals
  import opened Canonical
  import opened Json
  import opened Envelopes

  // ---- what the index must agree with: a linear scan ----

  /** The first row with this event id. */
  function FirstById(rows: seq<Envelope>, id: string): Option<Envelope> {
    if rows == [] then None
    else
      var earlier := FirstById(rows[..|rows| - 1], id);
      var last := rows[|rows| - 1];
      if earlier.Some? then earlier else if last.eventId == id then Some(last) else None
  }

  /** The first row with this content hash; the empty hash is no hash. */
  function FirstByHash(rows: seq<Envelope>, hash: string): Option<Envelope> {
    if rows == [] then None
    else
      var earlier := FirstByHash(rows[..|rows| - 1], hash);
      var last := rows[|rows| - 1];
      if earlier.Some? then earlier else if last.contentHash == hash && hash != "" then Some(last) else None
  }

  /** `ref.rsplit("#", 1)[-1]`: what follows the last hash sign. */
  function HashTail(ref: string): string {
    if '#' !in ref then ref
    else if ref[|ref| - 1] == '#' then []
    else HashTail(ref[..|ref| - 1]) + [ref[|ref| - 1]]
  }

  /** What a reference resolves to, read off the rows alone. */
  function Scan(rows: seq<Envelope>, ref: string): Option<Envelope> {
    var byId, byHash := FirstById(rows, ref), FirstByHash(rows, ref);
    if byId.Some? then byId
    else if byHash.Some? then byHash
    else if '#' in ref then FirstByHash(rows, HashTail(ref))
    else None
  }

  /** The part behind the last hash sign. */
  lemma {:induction false} HashTailIs(ref: string)
    ensures '#' !in HashTail(ref)
    ensures '#' !in ref ==> HashTail(ref) == ref
    ensures '#' in ref ==> |HashTail(ref)| < |ref| && ref == ref[..|ref| - |HashTail(ref)| - 1] + ("#" + HashTail(ref))
  {
    if '#' in ref && ref[|ref| - 1] != '#' {
      var front, last := ref[..|ref| - 1], ref[|ref| - 1];
      assert ref == front + [last];
      HashTailIs(front);
    }
  }

  /** The row an id or a hash finds is the first that has it. */
  lemma {:induction false} FirstIs(rows: seq<Envelope>, name: string, i: nat)
    requires i < |rows|
    ensures rows[i].eventId == name && (forall j :: 0 <= j < i ==> rows[j].eventId != name) ==> FirstById(rows, name) == Some(rows[i])
    ensures name != "" && rows[i].contentHash == name && (forall j :: 0 <= j < i ==> rows[j].contentHash != name) ==>
      FirstByHash(rows, name) == Some(rows[i])
    decreases |rows|
  {
    var n := |rows| - 1;
    if i < n {
      FirstIs(rows[..n], name, i);
    } else {
      NoneIs(rows[..n], name);
    }
  }

  lemma {:induction false} NoneIs(rows: seq<Envelope>, name: string)
    ensures FirstById(rows, name).None? <==> forall e :: e in rows ==> e.eventId != name
    ensures FirstByHash(rows, name).None? <==> name == "" || forall e :: e in rows ==> e.contentHash != name
  {
    if rows != [] {
      var front, last := rows[..|rows| - 1], rows[|rows| - 1];
      assert rows == front + [last];
      NoneIs(front, name);
    }
  }

  /** A reference is an event id before it is a hash, and a hash before it is a pinned reference, whose hash stands behind its
      last hash sign. */
  lemma ScanOrder(rows: seq<Envelope>, ref: string)
    ensures (exists e :: e in rows && e.eventId == ref) ==> Scan(rows, ref) == FirstById(rows, ref)
    ensures (forall e :: e in rows ==> e.eventId != ref) && ref != "" && (exists e :: e in rows && e.contentHash == ref) ==>
      Scan(rows, ref) == FirstByHash(rows, ref)
    ensures (forall e :: e in rows ==> e.eventId != ref && e.contentHash != ref) ==>
      Scan(rows, ref) == if '#' in ref then FirstByHash(rows, HashTail(ref)) else None
  {
    NoneIs(rows, ref);
  }

  /** Rows known by then: all of them for the empty time, else those with a time not after it. */
  predicate KnownBy(e: Envelope, asOf: string) {
    asOf == "" || (e.knownAt != "" && AtMost(e.knownAt, asOf))
  }

  predicate KnownAfter(e: Envelope, since: string) {
    since == "" || (e.knownAt != "" && Before(since, e.knownAt))
  }

  function SnapshotOf(rows: seq<Envelope>, asOf: string): seq<Envelope> {
    if rows == [] then []
    else
      var last := rows[|rows| - 1];
      SnapshotOf(rows[..|rows| - 1], asOf) + if KnownBy(last, asOf) then [last] else []
  }

  function ChangesOf(rows: seq<Envelope>, since: string): seq<Envelope> {
    if rows == [] then []
    else
      var last := rows[|rows| - 1];
      ChangesOf(rows[..|rows| - 1], since) + if KnownAfter(last, since) then [last] else []
  }

  function Dated(rows: seq<Envelope>): seq<Envelope> {
    if rows == [] then []
    else
      var last := rows[|rows| - 1];
      Dated(rows[..|rows| - 1]) + if last.knownAt != "" then [last] else []
  }

  /** At any time, what was known by then and what changed after it make up the dated rows, each exactly once. A row
      without a time is in neither. */
  lemma {:induction false} SnapshotAndChanges(rows: seq<Envelope>, t: string)
    requires t != ""
    ensures multiset(SnapshotOf(rows, t)) + multiset(ChangesOf(rows, t)) == multiset(Dated(rows))
  {
    if rows != [] {
      var last := rows[|rows| - 1];
      SnapshotAndChanges(rows[..|rows| - 1], t);
      BeforeTotal(last.knownAt, t);
      if Before(t, last.knownAt) {
        BeforeAsymmetric(t, last.knownAt);
      }
    }
  }

  /** A row is in the snapshot of a time when it was known by then, at that very time included; and it has changed since when it
      became known later. Without a time both are all the rows. */
  lemma {:induction false} SnapshotIff(rows: seq<Envelope>, t: string, e: Envelope)
    ensures e in SnapshotOf(rows, t) <==> e in rows && (t == "" || (e.knownAt != "" && !Precedes(t, e.knownAt)))
    ensures e in ChangesOf(rows, t) <==> e in rows && (t == "" || (e.knownAt != "" && Precedes(t, e.knownAt)))
  {
    if rows != [] {
      var front, last := rows[..|rows| - 1], rows[|rows| - 1];
      assert rows == front + [last];
      SnapshotIff(front, t, e);
      BeforeIff(t, last.knownAt);
      BeforeTotal(t, last.knownAt);
      if Before(t, last.knownAt) {
        BeforeAsymmetric(t, last.knownAt);
      }
    }
  }

  lemma {:induction false} DatedShorter(rows: seq<Envelope>)
    ensures |Dated(rows)| <= |rows|
  {
    if rows != [] {
      DatedShorter(rows[..|rows| - 1]);
    }
  }

  predicate AllDated(rows: seq<Envelope>) {
    forall i :: 0 <= i < |rows| ==> rows[i].knownAt != ""
  }

  lemma {:induction false} AllDatedIff(rows: seq<Envelope>)
    ensures |Dated(rows)| == |rows| <==> AllDated(rows)
    ensures AllDated(rows) ==> Dated(rows) == rows
  {
    if rows != [] {
      var front, last := rows[..|rows| - 1], rows[|rows| - 1];
      AllDatedIff(front);
      DatedShorter(front);
      assert rows == front + [last];
    }
  }

  /** At a time that is given they partition all the rows exactly when every row is dated. */
  lemma PartitionIffDated(rows: seq<Envelope>, t: string)
    requires t != ""
    ensures multiset(SnapshotOf(rows, t)) + multiset(ChangesOf(rows, t)) == multiset(rows) <==> AllDated(rows)
  {
    SnapshotAndChanges(rows, t);
    AllDatedIff(rows);
    if multiset(Dated(rows)) == multiset(rows) {
      assert |multiset(Dated(rows))| == |multiset(rows)|;
    }
  }

  // ---- the log ----

  /** Iterating over a text file: lines end at a line feed or a carriage return. */
  function Lines(text: string): seq<string> {
    var n := LineLength(text);
    if n == |text| then (if text == [] then [] else [text])
    else [text[..n]] + Lines(text[n + 1..])
  }

  function LineLength(text: string): (n: nat)
    ensures n <= |text| && forall i :: 0 <= i < n ==> text[i] != '\n' && text[i] != '\r'
    ensures n < |text| ==> text[n] == '\n' || text[n] == '\r'
  {
    if text == [] || text[0] == '\n' || text[0] == '\r' then 0 else 1 + LineLength(text[1..])
  }

  /** `_load`, line by line: blank lines are skipped, a line that is not a row is an error. */
  function LoadLines(read: string -> Result<Envelope>, lines: seq<string>): Result<seq<Envelope>> {
    if lines == [] then Ok([])
    else
      var front :- LoadLines(read, lines[..|lines| - 1]);
      var line := Strip(lines[|lines| - 1]);
      if line == "" then Ok(front)
      else
        var row :- read(line);
        Ok(front + [row])
  }

  function Reader(l: Runtime): string -> Result<Envelope> {
    line => ReadLine(l, line)
  }

  function Load(l: Runtime, log: string): Result<seq<Envelope>> {
    LoadLines(Reader(l), Lines(log))
  }

  /** A row that could be written. */
  predicate Writable(l: Runtime, e: Envelope) {
    Constructed(e) && Canonicalize(l, Map(e.payload)).Ok?
  }

  predicate AllWritable(l: Runtime, rows: seq<Envelope>) {
    forall i :: 0 <= i < |rows| ==> Writable(l, rows[i])
  }

  function LineOf(l: Runtime, e: Envelope): string
    requires Writable(l, e)
  {
    RowAccepted(l, e);
    Line(l, e).value
  }

  function LinesOf(l: Runtime, rows: seq<Envelope>): (r: seq<string>)
    requires AllWritable(l, rows)
    ensures |r| == |rows| && forall i :: 0 <= i < |r| ==> r[i] == LineOf(l, rows[i])
  {
    seq(|rows|, i requires 0 <= i < |rows| => LineOf(l, rows[i]))
  }

  /** Lines as they are written, each with its line feed. */
  function Joined(lines: seq<string>): string {
    if lines == [] then [] else lines[0] + ("\n" + Joined(lines[1..]))
  }

  /** The file after a run of rows was written. */
  function LogOf(l: Runtime, rows: seq<Envelope>): string
    requires AllWritable(l, rows)
  {
    Joined(LinesOf(l, rows))
  }

  function ReloadedAll(l: Runtime, rows: seq<Envelope>): (r: seq<Envelope>)
    requires AllWritable(l, rows)
    ensures |r| == |rows| && forall i :: 0 <= i < |r| ==> r[i] == Reloaded(l, rows[i])
  {
    seq(|rows|, i requires 0 <= i < |rows| => Reloaded(l, rows[i]))
  }

  /** No line break and no space at either end. */
  ghost predicate OneLine(line: string) {
    && line != "" && (forall i :: 0 <= i < |line| ==> line[i] != '\n' && line[i] != '\r')
    && !IsSpace(line[0]) && !IsSpace(line[|line| - 1])
  }

  /** A written row is one line, and stripping leaves it alone. */
  lemma {:induction false} LineIsOneLine(l: Runtime, e: Envelope)
    requires Writable(l, e)
    ensures OneLine(LineOf(l, e))
  {
    RowAccepted(l, e);
    var members := Canonicalize(l, ToJson(e)).value.members;
    RowCollected(l, e);
    PrintPrintable(Map(members));
    MapEnds(members);
  }

  lemma StripOneLine(line: string)
    requires OneLine(line)
    ensures Strip(line) == line
  {
    assert StripLeft(line) == line && StripRight(line) == line;
  }

  lemma MapEnds(members: seq<Member>)
    requires members != []
    ensures var text := Print(Map(members)); |text| >= 2 && text[0] == '{' && text[|text| - 1] == '}'
  {
    MembersEnd(members);
  }

  lemma {:induction false} MembersEnd(members: seq<Member>)
    requires members != []
    ensures var text := PrintMembers(members); text != [] && text[|text| - 1] == '}'
  {
    if |members| > 1 {
      MembersEnd(members[1..]);
    }
  }

  lemma {:induction false} FirstBreak(a: string, b: string)
    requires forall i :: 0 <= i < |a| ==> a[i] != '\n' && a[i] != '\r'
    requires b != [] && (b[0] == '\n' || b[0] == '\r')
    ensures LineLength(a + b) == |a|
  {
    if a == [] {
      assert a + b == b;
    } else {
      FirstBreak(a[1..], b);
      assert (a + b)[1..] == a[1..] + b;
    }
  }

  /** Splitting what was joined gives back the lines. */
  lemma {:induction false} LinesOfJoined(lines: seq<string>)
    requires forall i :: 0 <= i < |lines| ==> OneLine(lines[i])
    ensures Lines(Joined(lines)) == lines
  {
    if lines != [] {
      var a, b := lines[0], "\n" + Joined(lines[1..]);
      FirstBreak(a, b);
      assert (a + b)[..|a|] == a && (a + b)[|a| + 1..] == Joined(lines[1..]);
      LinesOfJoined(lines[1..]);
    }
  }

  lemma {:induction false} LoadLinesGives(read: string -> Result<Envelope>, lines: seq<string>, rows: seq<Envelope>)
    requires |lines| == |rows|
    requires forall i :: 0 <= i < |lines| ==> OneLine(lines[i]) && read(lines[i]) == Ok(rows[i])
    ensures LoadLines(read, lines) == Ok(rows)
  {
    if lines != [] {
      var n := |lines| - 1;
      LoadLinesGives(read, lines[..n], rows[..n]);
      StripOneLine(lines[n]);
      assert rows == rows[..n] + [rows[n]];
    }
  }

  /** A prefix that is refused refuses the whole. */
  lemma {:induction false} RefusedLine(read: string -> Result<Envelope>, lines: seq<string>, n: nat)
    requires n <= |lines| && LoadLines(read, lines[..n]).Refused?
    ensures LoadLines(read, lines).Refused?
    decreases |lines|
  {
    if n == |lines| {
      assert lines[..n] == lines;
    } else {
      var front := lines[..|lines| - 1];
      assert front[..n] == lines[..n];
      RefusedLine(read, front, n);
    }
  }

  /** Reopening the log gives back every row written, in order, each as it reloads. */
  lemma LogRoundTrip(l: Runtime, rows: seq<Envelope>)
    requires AllWritable(l, rows)
    ensures Load(l, LogOf(l, rows)) == Ok(ReloadedAll(l, rows))
  {
    var lines, back := LinesOf(l, rows), ReloadedAll(l, rows);
    forall i | 0 <= i < |rows|
      ensures OneLine(lines[i]) && ReadLine(l, lines[i]) == Ok(back[i])
    {
      LineIsOneLine(l, rows[i]);
      LineRoundTrip(l, rows[i]);
    }
    LinesOfJoined(lines);
    LoadLinesGives(Reader(l), lines, back);
  }

  // ---- references after a reload ----

  /** The two strings a reference can name are in normal form already. */
  predicate NormalNames(l: Runtime, e: Envelope) {
    l.nfc(e.eventId) == e.eventId && l.nfc(e.contentHash) == e.contentHash
  }

  /** The row goes by this name, as id or as hash, after a reload exactly if it did before. */
  ghost predicate Steady(l: Runtime, e: Envelope, name: string) {
    (e.eventId == name <==> l.nfc(e.eventId) == name) && (e.contentHash == name <==> l.nfc(e.contentHash) == name)
  }

  lemma ReloadedNames(l: Runtime, e: Envelope)
    requires Writable(l, e)
    ensures Reloaded(l, e).eventId == l.nfc(e.eventId) && Reloaded(l, e).contentHash == l.nfc(e.contentHash)
  {
    var cells := Cells(Reloaded(l, e));
    assert cells[0] == Nfc(l, Cells(e)[0]) && cells[13] == Nfc(l, Cells(e)[13]);
  }

  /** Rows of which those at the same places go by this name. */
  ghost predicate AlikeNamed(a: seq<Envelope>, b: seq<Envelope>, name: string) {
    |a| == |b| && forall i :: 0 <= i < |a| ==>
      (a[i].eventId == name <==> b[i].eventId == name) && (a[i].contentHash == name <==> b[i].contentHash == name)
  }

  /** Both searches find nothing, or the rows at one place. */
  ghost predicate SamePlace(a: seq<Envelope>, b: seq<Envelope>, inA: Option<Envelope>, inB: Option<Envelope>)
    requires |a| == |b|
  {
    || (inA.None? && inB.None?)
    || exists i :: 0 <= i < |a| && inA == Some(a[i]) && inB == Some(b[i])
  }

  lemma {:induction false} FirstSamePlace(a: seq<Envelope>, b: seq<Envelope>, name: string)
    requires AlikeNamed(a, b, name)
    ensures SamePlace(a, b, FirstById(a, name), FirstById(b, name))
    ensures SamePlace(a, b, FirstByHash(a, name), FirstByHash(b, name))
  {
    if a != [] {
      var n := |a| - 1;
      var x, y := a[..n], b[..n];
      FirstSamePlace(x, y, name);
      assert forall i :: 0 <= i < n ==> x[i] == a[i] && y[i] == b[i];
    }
  }

  lemma {:induction false} SteadyAlikeNamed(l: Runtime, rows: seq<Envelope>, name: string)
    requires AllWritable(l, rows) && forall i :: 0 <= i < |rows| ==> Steady(l, rows[i], name)
    ensures AlikeNamed(rows, ReloadedAll(l, rows), name)
  {
    forall i | 0 <= i < |rows|
      ensures rows[i].eventId == name <==> ReloadedAll(l, rows)[i].eventId == name
      ensures rows[i].contentHash == name <==> ReloadedAll(l, rows)[i].contentHash == name
    {
      assert Steady(l, rows[i], name);
      ReloadedNames(l, rows[i]);
    }
  }

  /** A reference answers with the row at the same place after a reload, unless normalising gives or takes a row that name. */
  lemma ScanAfterReload(l: Runtime, rows: seq<Envelope>, ref: string)
    requires AllWritable(l, rows)
    requires forall i :: 0 <= i < |rows| ==> Steady(l, rows[i], ref) && Steady(l, rows[i], HashTail(ref))
    ensures SamePlace(rows, ReloadedAll(l, rows), Scan(rows, ref), Scan(ReloadedAll(l, rows), ref))
  {
    SteadyAlikeNamed(l, rows, ref);
    SteadyAlikeNamed(l, rows, HashTail(ref));
    FirstSamePlace(rows, ReloadedAll(l, rows), ref);
    FirstSamePlace(rows, ReloadedAll(l, rows), HashTail(ref));
  }

  /** Both lookups answer for this name with the row at the same place after a reload. */
  ghost predicate LookupsKept(l: Runtime, rows: seq<Envelope>, name: string)
    requires AllWritable(l, rows)
  {
    && SamePlace(rows, ReloadedAll(l, rows), FirstById(rows, name), FirstById(ReloadedAll(l, rows), name))
    && SamePlace(rows, ReloadedAll(l, rows), FirstByHash(rows, name), FirstByHash(ReloadedAll(l, rows), name))
  }

  /** A name that is not in normal form finds nothing among reloaded rows. */
  lemma {:induction false} NothingByOddName(l: Runtime, rows: seq<Envelope>, name: string)
    requires l.nfc(name) != name && forall i :: 0 <= i < |rows| ==> l.nfc(rows[i].eventId) == rows[i].eventId && l.nfc(rows[i].contentHash) == rows[i].contentHash
    ensures FirstById(rows, name).None? && FirstByHash(rows, name).None?
  {
    if rows != [] {
      NothingByOddName(l, rows[..|rows| - 1], name);
    }
  }

  lemma {:induction false} FoundByOwnName(rows: seq<Envelope>, i: nat)
    requires i < |rows|
    ensures FirstById(rows, rows[i].eventId).Some? && (rows[i].contentHash != "" ==> FirstByHash(rows, rows[i].contentHash).Some?)
  {
    var n := |rows| - 1;
    if i < n {
      FoundByOwnName(rows[..n], i);
    }
  }

  lemma {:induction false} OddNameIsLost(l: Runtime, rows: seq<Envelope>, i: nat)
    requires AllWritable(l, rows) && i < |rows| && !NormalNames(l, rows[i])
    ensures exists name :: !LookupsKept(l, rows, name)
  {
    var back, id, hash := ReloadedAll(l, rows), rows[i].eventId, rows[i].contentHash;
    forall k | 0 <= k < |back|
      ensures l.nfc(back[k].eventId) == back[k].eventId && l.nfc(back[k].contentHash) == back[k].contentHash
    {
      ReloadedNames(l, rows[k]);
      assert Nfc(l, rows[k].eventId) == back[k].eventId && Nfc(l, rows[k].contentHash) == back[k].contentHash;
    }
    FoundByOwnName(rows, i);
    assert Nfc(l, "") == "";
    if l.nfc(id) != id {
      NothingByOddName(l, back, id);
      assert !LookupsKept(l, rows, id);
    } else {
      NothingByOddName(l, back, hash);
      assert !LookupsKept(l, rows, hash);
    }
  }

  /** Every name keeps finding what it found exactly when all ids and hashes of the rows are in normal form. */
  lemma {:induction false} NamesSurviveIff(l: Runtime, rows: seq<Envelope>)
    requires AllWritable(l, rows)
    ensures (forall name :: LookupsKept(l, rows, name)) <==> forall i :: 0 <= i < |rows| ==> NormalNames(l, rows[i])
  {
    if forall i :: 0 <= i < |rows| ==> NormalNames(l, rows[i]) {
      forall name
        ensures LookupsKept(l, rows, name)
      {
        SteadyAlikeNamed(l, rows, name);
        FirstSamePlace(rows, ReloadedAll(l, rows), name);
      }
    }
    if i :| 0 <= i < |rows| && !NormalNames(l, rows[i]) {
      OddNameIsLost(l, rows, i);
    }
  }

  // ---- the store ----

  function Get(index: map<string, Envelope>, key: string): Option<Envelope> {
    if key in index then Some(index[key]) else None
  }

  /** `setdefault`. */
  function SetDefault(index: map<string, Envelope>, key: string, e: Envelope): map<string, Envelope> {
    if key in index then index else index[key := e]
  }

  function Stamped(e: Envelope, now: string): Envelope {
    if e.knownAt != "" then e else e.(knownAt := now)
  }

  lemma {:induction false} LogOfAppend(l: Runtime, rows: seq<Envelope>, e: Envelope)
    requires AllWritable(l, rows) && Writable(l, e)
    ensures AllWritable(l, rows + [e]) && LogOf(l, rows + [e]) == LogOf(l, rows) + (LineOf(l, e) + "\n")
  {
    JoinedAppend(LinesOf(l, rows), LineOf(l, e));
    assert LinesOf(l, rows + [e]) == LinesOf(l, rows) + [LineOf(l, e)];
  }

  lemma {:induction false} JoinedAppend(lines: seq<string>, line: string)
    ensures Joined(lines + [line]) == Joined(lines) + (line + "\n")
  {
    if lines == [] {
      assert [line][1..] == [] && Joined([]) == [];
      assert [] + (line + "\n") == line + "\n" == line + ("\n" + []);
    } else {
      JoinedAppend(lines[1..], line);
      assert (lines + [line])[1..] == lines[1..] + [line];
      assert lines[0] + ("\n" + (Joined(lines[1..]) + (line + "\n")))
          == (lines[0] + ("\n" + Joined(lines[1..]))) + (line + "\n");
    }
  }

  lemma WritableIffLine(l: Runtime, e: Envelope)
    requires Constructed(e)
    ensures Line(l, e).Ok? <==> Writable(l, e)
    ensures Line(l, e).Ok? ==> Line(l, e).value == LineOf(l, e)
  {
    RowAccepted(l, e);
  }

  /** Writing a line keeps the file in step with the rows saved. */
  lemma LogGrows(l: Runtime, base: string, rows: seq<Envelope>, e: Envelope)
    requires AllWritable(l, rows) && Writable(l, e)
    ensures AllWritable(l, rows + [e])
    ensures (base + LogOf(l, rows)) + (LineOf(l, e) + "\n") == base + LogOf(l, rows + [e])
  {
    LogOfAppend(l, rows, e);
    var a, b := LogOf(l, rows), LineOf(l, e) + "\n";
    assert (base + a) + b == base + (a + b);
  }

  /** A row known only later leaves an earlier snapshot as it was. */
  lemma LaterRowLeavesSnapshot(rows: seq<Envelope>, e: Envelope, t: string)
    requires t != "" && Before(t, e.knownAt)
    ensures SnapshotOf(rows + [e], t) == SnapshotOf(rows, t)
    ensures ChangesOf(rows + [e], t) == ChangesOf(rows, t) + [e]
  {
    assert (rows + [e])[..|rows|] == rows;
    BeforeAsymmetric(t, e.knownAt);
  }

  /** The row is one that verified, with a payload put in its place. */
  ghost predicate Tampered(l: Runtime, genuine: Envelope, row: Envelope) {
    && genuine.payload != [] && VerifyPayload(l, genuine) == Ok(true)
    && row.payload != [] && Canonicalize(l, Map(row.payload)).Ok? && row == genuine.(payload := row.payload)
  }

  class FileEvidenceStore {
    const l: Runtime
    var events: seq<Envelope>
    var byEventId: map<string, Envelope>
    var byHash: map<string, Envelope>
    var log: string
    ghost const base: string
    ghost var saved: seq<Envelope>

    /** Both indexes agree with a first-match scan of the rows, and the file holds what it was opened with followed by
        a line for every row saved since. */
    ghost predicate Valid()
      reads this
    {
      && (forall k :: Get(byEventId, k) == FirstById(events, k))
      && (forall k :: Get(byHash, k) == FirstByHash(events, k))
      && Logged()
    }

    ghost predicate Logged()
      reads `log, `saved
    {
      AllWritable(l, saved) && log == base + LogOf(l, saved)
    }

    /** A store over a log that holds this text, none of it read yet. */
    constructor (l: Runtime, log: string)
      ensures Valid() && this.l == l && events == [] && saved == [] && base == log && this.log == log
    {
      this.l, events, byEventId, byHash, this.log, base, saved := l, [], map[], map[], log, log, [];
    }

    /** Opening a log: every line that is not blank is read and indexed, and a line that is no row refuses the log. */
    static method Open(l: Runtime, log: string) returns (r: Result<FileEvidenceStore>)
      ensures r.Ok? <==> Load(l, log).Ok?
      ensures r.Ok? ==> fresh(r.value) && r.value.Valid() && r.value.l == l && r.value.events == Load(l, log).value
      ensures r.Ok? ==> r.value.saved == [] && r.value.base == log && r.value.log == log
    {
      var store := new FileEvidenceStore(l, log);
      var ok := store.LoadAll(Lines(log));
      return if ok then Ok(store) else Refused;
    }

    /** `_load`: every line in turn, up to the first that is no row. */
    method LoadAll(lines: seq<string>) returns (ok: bool)
      requires Valid() && events == []
      modifies `events, `byEventId, `byHash
      ensures Valid() && (ok <==> LoadLines(Reader(l), lines).Ok?)
      ensures ok ==> events == LoadLines(Reader(l), lines).value
    {
      for i := 0 to |lines|
        invariant Valid() && LoadLines(Reader(l), lines[..i]) == Ok(events)
      {
        assert lines[..i + 1][..i] == lines[..i];
        ok := LoadLine(lines[i]);
        if !ok {
          RefusedLine(Reader(l), lines, i + 1);
          return;
        }
      }
      assert lines[..|lines|] == lines;
      ok := true;
    }

    /** One line of the log: a blank one is skipped, a row is indexed. */
    method LoadLine(text: string) returns (ok: bool)
      requires Valid()
      modifies `events, `byEventId, `byHash
      ensures Valid()
      ensures ok <==> Strip(text) == "" || ReadLine(l, Strip(text)).Ok?
      ensures events == if ok && Strip(text) != "" then old(events) + [ReadLine(l, Strip(text)).value] else old(events)
    {
      var line := Strip(text);
      if line == "" {
        return true;
      }
      var row := ReadLine(l, line);
      if row.Refused? {
        return false;
      }
      Index(row.value);
      ok := true;
    }

    method Index(e: Envelope)
      requires Valid()
      modifies `events, `byEventId, `byHash
      ensures Valid() && events == old(events) + [e]
    {
      ghost var before := events;
      events := events + [e];
      assert events[..|events| - 1] == before;
      byEventId := SetDefault(byEventId, e.eventId, e);
      if e.contentHash != "" {
        byHash := SetDefault(byHash, e.contentHash, e);
      }
    }

    /** Index, then write: a row that cannot be written is refused, but only after it has been indexed. */
    method Append(e: Envelope, now: string) returns (r: Result<string>)
      requires Valid() && Constructed(e)
      modifies this
      ensures Valid() && events == old(events) + [Stamped(e, now)]
      ensures events[|events| - 1] == e.(knownAt := if e.knownAt == "" then now else e.knownAt)
      ensures r == if Writable(l, Stamped(e, now)) then Ok(e.eventId) else Refused
      ensures saved == if r.Ok? then old(saved) + [Stamped(e, now)] else old(saved)
    {
      var row := Stamped(e, now);
      Index(row);
      var ok := Persist(row);
      return if ok then Ok(row.eventId) else Refused;
    }

    /** One more line at the end of the file, if the row can be written. */
    method Persist(row: Envelope) returns (ok: bool)
      requires Logged() && Constructed(row)
      modifies `log, `saved
      ensures Logged() && (ok <==> Writable(l, row))
      ensures saved == if ok then old(saved) + [row] else old(saved)
      ensures log == if ok then old(log) + (LineOf(l, row) + "\n") else old(log)
    {
      WritableIffLine(l, row);
      var line := Line(l, row);
      if line.Refused? {
        return false;
      }
      LogGrows(l, base, saved, row);
      log := log + (line.value + "\n");
      saved := saved + [row];
      ok := true;
    }

    /** By event id, else by hash, else by the hash that ends a pinned reference: always what a scan would find. */
    method Resolve(ref: string) returns (found: Option<Envelope>)
      requires Valid()
      ensures found == Scan(events, ref)
    {
      if ref in byEventId {
        assert Get(byEventId, ref) == FirstById(events, ref);
        return Some(byEventId[ref]);
      }
      assert Get(byEventId, ref) == FirstById(events, ref) && Get(byHash, ref) == FirstByHash(events, ref);
      if ref in byHash {
        return Some(byHash[ref]);
      }
      if '#' in ref {
        var tail := HashTail(ref);
        assert Get(byHash, tail) == FirstByHash(events, tail);
        return Get(byHash, tail);
      }
      found := None;
    }

    method Snapshot(asOf: string) returns (rows: seq<Envelope>)
      ensures rows == SnapshotOf(events, asOf)
    {
      rows := [];
      for i := 0 to |events|
        invariant rows == SnapshotOf(events[..i], asOf)
      {
        assert events[..i + 1][..i] == events[..i];
        if KnownBy(events[i], asOf) {
          rows := rows + [events[i]];
        }
      }
      assert events[..|events|] == events;
    }

    method Changes(since: string) returns (rows: seq<Envelope>)
      ensures rows == ChangesOf(events, since)
    {
      rows := [];
      for i := 0 to |events|
        invariant rows == ChangesOf(events[..i], since)
      {
        assert events[..i + 1][..i] == events[..i];
        if KnownAfter(events[i], since) {
          rows := rows + [events[i]];
        }
      }
      assert events[..|events|] == events;
    }

    method Verify(ref: string) returns (ok: Result<bool>)
      requires Valid()
      ensures ok == if Scan(events, ref).Some? then VerifyPayload(l, Scan(events, ref).value) else Ok(false)
      ensures forall genuine :: Scan(events, ref).Some? && Tampered(l, genuine, Scan(events, ref).value) ==>
        ok == Ok(Canonicalize(l, Map(Scan(events, ref).value.payload)) == Canonicalize(l, Map(genuine.payload)))
    {
      var found := Resolve(ref);
      forall genuine | found.Some? && Tampered(l, genuine, found.value)
        ensures VerifyPayload(l, found.value)
             == Ok(Canonicalize(l, Map(found.value.payload)) == Canonicalize(l, Map(genuine.payload)))
      {
        TamperingShows(l, genuine, found.value.payload);
      }
      return if found.Some? then VerifyPayload(l, found.value) else Ok(false);
    }
  }
}
