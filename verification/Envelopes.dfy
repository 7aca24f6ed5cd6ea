/** The persisted row (`EvidenceEnvelope` in runtime_contracts/store/envelope.py): its JSON form, and what reading
    that form back gives. */
module Envelopes {
  import opened Wrappers
  import opened Text
  import opened Platform
  import opened Canonical
  import opened Forms
  import opened Json

  datatype Envelope = Envelope(
    eventId: string, eventType: string, family: string, tenantId: string, artifactId: string, missionId: string,
    traceId: string, parentEventId: string, causationId: string, correlationId: string, contractVersion: string,
    eventTime: string, knownAt: string, contentHash: string, payloadRef: string, payload: seq<Member>)

  const COLUMNS: seq<string> := [
    "event_id", "event_type", "family", "tenant_id", "artifact_id", "mission_id", "trace_id", "parent_event_id",
    "causation_id", "correlation_id", "contract_version", "event_time", "known_at", "content_hash", "payload_ref"]

  const PAYLOAD := "payload"

  /** A row's JSON members: each column under its name. */
  function Zip(names: seq<string>, cells: seq<string>): (r: seq<Member>)
    requires |names| == |cells|
    ensures |r| == |names| && forall i :: 0 <= i < |r| ==> r[i] == Member(Name(names[i]), Str(cells[i]))
  {
    seq(|names|, i requires 0 <= i < |names| => Member(Name(names[i]), Str(cells[i])))
  }

  /** The string columns, in the order of COLUMNS. */
  function Cells(e: Envelope): (c: seq<string>)
    ensures |c| == 15
  {
    [e.eventId, e.eventType, e.family, e.tenantId, e.artifactId, e.missionId, e.traceId, e.parentEventId,
     e.causationId, e.correlationId, e.contractVersion, e.eventTime, e.knownAt, e.contentHash, e.payloadRef]
  }

  function FromCells(c: seq<string>, payload: seq<Member>): (e: Envelope)
    requires |c| == 15
    ensures Cells(e) == c && e.payload == payload
  {
    Envelope(c[0], c[1], c[2], c[3], c[4], c[5], c[6], c[7], c[8], c[9], c[10], c[11], c[12], c[13], c[14], payload)
  }

  /** Content addressing is filled in from the payload where it was not supplied. */
  function Construct(l: Runtime, e: Envelope): Result<Envelope> {
    var hash :- if e.contentHash != "" then Ok(e.contentHash)
                else if e.payload != [] then ContentHash(l, Map(e.payload))
                else Ok("");
    Ok(e.(contentHash := hash,
          payloadRef := if e.payloadRef != "" then e.payloadRef else hash,
          eventId := if e.eventId != "" then e.eventId else hash))
  }

  /** What construction leaves: a row with a payload has a hash, and the other two fall back on it. */
  predicate Constructed(e: Envelope) {
    && (e.contentHash == "" ==> e.payload == [])
    && (e.payloadRef == "" ==> e.contentHash == "")
    && (e.eventId == "" ==> e.contentHash == "")
  }

  lemma ConstructGives(l: Runtime, e: Envelope)
    ensures Construct(l, e).Ok? ==> Constructed(Construct(l, e).value)
    ensures Constructed(e) ==> Construct(l, e) == Ok(e)
  {
    if e.contentHash == "" && e.payload != [] && ContentHash(l, Map(e.payload)).Ok? {
      assert ContentHash(l, Map(e.payload)).value[0] == HASH_PREFIX[0];
    }
  }

  /** The tamper check. A payload that cannot be hashed is refused. */
  function VerifyPayload(l: Runtime, e: Envelope): Result<bool> {
    if e.payload == [] then Ok(true)
    else
      var hash :- ContentHash(l, Map(e.payload));
      Ok(e.contentHash == hash)
  }

  /** Tampering shows: put another payload in a row that verified, and it verifies exactly when both payloads have one canonical
      form. */
  lemma TamperingShows(l: Runtime, e: Envelope, payload: seq<Member>)
    requires e.payload != [] && VerifyPayload(l, e) == Ok(true) && payload != [] && Canonicalize(l, Map(payload)).Ok?
    ensures VerifyPayload(l, e.(payload := payload)) == Ok(Canonicalize(l, Map(payload)) == Canonicalize(l, Map(e.payload)))
  {
    SameTextIffSameForm(l, Map(payload), Map(e.payload));
  }

  /** Two rows that verify and carry one hash hold the same, up to canonical form. */
  lemma SameHashSamePayload(l: Runtime, e: Envelope, f: Envelope)
    requires e.payload != [] && f.payload != [] && e.contentHash == f.contentHash
    requires VerifyPayload(l, e) == Ok(true) && VerifyPayload(l, f) == Ok(true)
    ensures Canonicalize(l, Map(e.payload)) == Canonicalize(l, Map(f.payload))
  {
    SameTextIffSameForm(l, Map(e.payload), Map(f.payload));
  }

  /** A row whose hash construction filled in verifies, and its other references fall back on that hash. */
  lemma FilledInVerifies(l: Runtime, e: Envelope)
    requires e.contentHash == "" && Construct(l, e).Ok?
    ensures var c := Construct(l, e).value;
      && VerifyPayload(l, c) == Ok(true) && c.payload == e.payload && (e.payload == [] <==> c.contentHash == "")
      && c.payloadRef == (if e.payloadRef == "" then c.contentHash else e.payloadRef)
      && c.eventId == (if e.eventId == "" then c.contentHash else e.eventId)
  {
    if e.payload != [] {
      DigestIsNormal(l, CanonicalJson(l, Map(e.payload)).value);
    }
  }

  // ---- JSON ----

  function ToJson(e: Envelope): Value {
    Map(Zip(COLUMNS, Cells(e)) + [Member(Name(PAYLOAD), Map(e.payload))])
  }

  /** Which column says what. */
  lemma RowSays(e: Envelope)
    ensures ToJson(e).members[..8] == [
      Member(Name("event_id"), Str(e.eventId)), Member(Name("event_type"), Str(e.eventType)), Member(Name("family"), Str(e.family)),
      Member(Name("tenant_id"), Str(e.tenantId)), Member(Name("artifact_id"), Str(e.artifactId)),
      Member(Name("mission_id"), Str(e.missionId)), Member(Name("trace_id"), Str(e.traceId)),
      Member(Name("parent_event_id"), Str(e.parentEventId))]
    ensures ToJson(e).members[8..] == [
      Member(Name("causation_id"), Str(e.causationId)), Member(Name("correlation_id"), Str(e.correlationId)),
      Member(Name("contract_version"), Str(e.contractVersion)), Member(Name("event_time"), Str(e.eventTime)),
      Member(Name("known_at"), Str(e.knownAt)), Member(Name("content_hash"), Str(e.contentHash)),
      Member(Name("payload_ref"), Str(e.payloadRef)), Member(Name("payload"), Map(e.payload))]
  {
    var zipped := Zip(COLUMNS, Cells(e));
    assert forall i :: 0 <= i < 15 ==> zipped[i] == Member(Name(COLUMNS[i]), Str(Cells(e)[i]));
  }

  function Column(members: seq<Member>, name: string): Result<string> {
    match Find(members, name)
    case None => Ok(if name == "family" then "mission_events" else "")
    case Some(Str(s)) => Ok(s)
    case Some(_) => Refused
  }

  function Columns(members: seq<Member>, n: nat): (r: Result<seq<string>>)
    requires n <= 15
    ensures r.Ok? ==> |r.value| == n
  {
    if n == 0 then Ok([])
    else
      var front :- Columns(members, n - 1);
      var cell :- Column(members, COLUMNS[n - 1]);
      Ok(front + [cell])
  }

  /** `from_json`: unknown members are ignored, the event id and type are required. */
  function FromJson(l: Runtime, v: Value): Result<Envelope> {
    if !v.Map? || Find(v.members, "event_id").None? || Find(v.members, "event_type").None? then Refused
    else
      var cells :- Columns(v.members, 15);
      match Find(v.members, PAYLOAD)
      case None => Construct(l, FromCells(cells, []))
      case Some(Map(payload)) => Construct(l, FromCells(cells, payload))
      case Some(_) => Refused
  }

  lemma {:induction false} MissingColumns(members: seq<Member>, id: string, eventType: string, n: nat)
    requires n <= 15 && Find(members, "event_id") == Some(Str(id)) && Find(members, "event_type") == Some(Str(eventType))
    requires forall i :: 2 <= i < 15 ==> Find(members, COLUMNS[i]).None?
    ensures Columns(members, n) == Ok(BareCells(id, eventType)[..n])
  {
    if n > 0 {
      MissingColumns(members, id, eventType, n - 1);
      assert BareCells(id, eventType)[..n] == BareCells(id, eventType)[..n - 1] + [BareCells(id, eventType)[n - 1]];
      FamilyIsThird(n - 1);
    }
  }

  lemma FamilyIsThird(i: nat)
    requires i < 15
    ensures COLUMNS[i] == "family" <==> i == 2
  {
    ColumnsDistinct();
    assert COLUMNS[2] == "family";
  }

  function BareCells(id: string, eventType: string): (c: seq<string>)
    ensures |c| == 15
  {
    [id, eventType, "mission_events"] + seq(12, i => "")
  }

  /** A row that gives nothing but its id and type is a mission event without a payload, every other column empty. */
  lemma {:induction false} BareRow(l: Runtime, members: seq<Member>, id: string, eventType: string)
    requires Find(members, "event_id") == Some(Str(id)) && Find(members, "event_type") == Some(Str(eventType))
    requires (forall i :: 2 <= i < 15 ==> Find(members, COLUMNS[i]).None?) && Find(members, "payload").None?
    ensures FromJson(l, Map(members))
         == Ok(Envelope(id, eventType, "mission_events", "", "", "", "", "", "", "", "", "", "", "", "", []))
  {
    MissingColumns(members, id, eventType, 15);
    var cells := BareCells(id, eventType);
    assert cells[..15] == cells;
  }

  // ---- the round trip ----

  /** The row as it comes back: field strings normalised, payload in canonical form. */
  function Reloaded(l: Runtime, e: Envelope): Envelope
    requires Canonicalize(l, Map(e.payload)).Ok?
  {
    FromCells(seq(15, i requires 0 <= i < 15 => Nfc(l, Cells(e)[i])), Canonicalize(l, Map(e.payload)).value.members)
  }

  lemma ColumnCodes()
    ensures |COLUMNS| == 15
    ensures var codes := [550249, 681328, 419436, 619625, 745833, 683369, 554089, 1011817, 811881, 942953, 1074031, 681325, 551777, 811891, 749669];
      forall i :: 0 <= i < 15 ==> Code(COLUMNS[i]) == codes[i]
  {}

  lemma {:induction false} ColumnsDistinct()
    ensures forall i, j :: 0 <= i < j < 15 ==> COLUMNS[i] != COLUMNS[j]
    ensures forall i :: 0 <= i < 15 ==> COLUMNS[i] != PAYLOAD
  {
    ColumnCodes();
    assert Code(PAYLOAD) == 487521;
  }

  lemma {:induction false} ColumnsAscii()
    ensures forall i :: 0 <= i < 15 ==> Ascii(COLUMNS[i])
    ensures Ascii(PAYLOAD)
  {}

  lemma RowKeys(l: Runtime, e: Envelope)
    ensures var row := ToJson(e).members;
      && |row| == 16 && KeysDistinct(l, row)
      && (forall i :: 0 <= i < 15 ==> row[i] == Member(Name(COLUMNS[i]), Str(Cells(e)[i])))
      && row[15] == Member(Name(PAYLOAD), Map(e.payload))
      && forall i :: 0 <= i < 16 ==> row[i].key.Name? && l.nfc(row[i].key.name) == row[i].key.name
  {
    ColumnsDistinct();
    ColumnsAscii();
    var row := ToJson(e).members;
    assert forall i :: 0 <= i < 15 ==> row[i] == Zip(COLUMNS, Cells(e))[i];
    forall i | 0 <= i < 15
      ensures l.nfc(COLUMNS[i]) == COLUMNS[i]
    {
      AsciiIsNormal(l, COLUMNS[i]);
    }
    AsciiIsNormal(l, PAYLOAD);
  }

  lemma RowColumn(l: Runtime, e: Envelope, i: nat)
    requires Canonicalize(l, Map(e.payload)).Ok? && i < 15
    ensures Canonicalize(l, ToJson(e)).Ok?
    ensures Find(Canonicalize(l, ToJson(e)).value.members, COLUMNS[i]) == Some(Str(Nfc(l, Cells(e)[i])))
  {
    var row := ToJson(e).members;
    RowKeys(l, e);
    RowAccepted(l, e);
    assert ReduceMember(l, row[i]) == Ok(Str(Nfc(l, Cells(e)[i])));
    FindReduced(l, row, i);
  }

  lemma RowPayload(l: Runtime, e: Envelope)
    requires Canonicalize(l, Map(e.payload)).Ok?
    ensures Canonicalize(l, ToJson(e)).Ok?
    ensures Find(Canonicalize(l, ToJson(e)).value.members, PAYLOAD) == Some(Canonicalize(l, Map(e.payload)).value)
  {
    var row := ToJson(e).members;
    RowKeys(l, e);
    RowAccepted(l, e);
    assert ReduceMember(l, row[15]) == Canonicalize(l, Map(e.payload));
    FindReduced(l, row, 15);
  }

  /** What the canonical form of a row holds under each key. */
  lemma RowCollected(l: Runtime, e: Envelope)
    requires Canonicalize(l, Map(e.payload)).Ok?
    ensures Canonicalize(l, ToJson(e)).Ok?
    ensures var members := Canonicalize(l, ToJson(e)).value.members;
      && (forall i :: 0 <= i < 15 ==> Find(members, COLUMNS[i]) == Some(Str(Nfc(l, Cells(e)[i]))))
      && Find(members, PAYLOAD) == Some(Canonicalize(l, Map(e.payload)).value)
  {
    RowPayload(l, e);
    forall i | 0 <= i < 15
      ensures Find(Canonicalize(l, ToJson(e)).value.members, COLUMNS[i]) == Some(Str(Nfc(l, Cells(e)[i])))
    {
      RowColumn(l, e, i);
    }
  }

  lemma RowAccepted(l: Runtime, e: Envelope)
    ensures Canonicalize(l, ToJson(e)).Ok? <==> Canonicalize(l, Map(e.payload)).Ok?
  {
    var row := ToJson(e).members;
    RowKeys(l, e);
    CollectAcceptedIff(l, row);
    AcceptedIff(l, Map(e.payload));
  }

  lemma {:induction false} ColumnsRead(members: seq<Member>, cells: seq<string>, n: nat)
    requires n <= 15 == |cells|
    requires forall i :: 0 <= i < 15 ==> Find(members, COLUMNS[i]) == Some(Str(cells[i]))
    ensures Columns(members, n) == Ok(cells[..n])
  {
    if n > 0 {
      ColumnsRead(members, cells, n - 1);
      assert Find(members, COLUMNS[n - 1]) == Some(Str(cells[n - 1]));
      assert cells[..n] == cells[..n - 1] + [cells[n - 1]];
    }
  }

  /** The line a row is written as. */
  function Line(l: Runtime, e: Envelope): Result<string> {
    CanonicalJson(l, ToJson(e))
  }

  function ReadLine(l: Runtime, line: string): Result<Envelope> {
    match ParseJson(line)
    case None => Refused
    case Some(v) => FromJson(l, v)
  }

  lemma ReloadedConstructed(l: Runtime, e: Envelope)
    requires Constructed(e) && Canonicalize(l, Map(e.payload)).Ok?
    ensures Constructed(Reloaded(l, e))
  {
    var cells := Cells(Reloaded(l, e));
    assert cells[0] == Nfc(l, e.eventId) && cells[13] == Nfc(l, e.contentHash) && cells[14] == Nfc(l, e.payloadRef);
    if e.payload == [] {
      assert Collect(l, []) == Ok(map[]);
      assert Listing(map[]) == [];
    }
  }

  lemma {:induction false} FromRow(l: Runtime, v: Value, cells: seq<string>, payload: seq<Member>)
    requires v.Map? && |cells| == 15
    requires forall i :: 0 <= i < 15 ==> Find(v.members, COLUMNS[i]) == Some(Str(cells[i]))
    requires Find(v.members, PAYLOAD) == Some(Map(payload))
    ensures FromJson(l, v) == Construct(l, FromCells(cells, payload))
  {
    ColumnsRead(v.members, cells, 15);
    assert cells[..15] == cells;
    assert Find(v.members, COLUMNS[0]).Some? && Find(v.members, COLUMNS[1]).Some?;
  }

  lemma ReloadedIsConstructed(l: Runtime, e: Envelope)
    requires Constructed(e) && Canonicalize(l, Map(e.payload)).Ok?
    ensures Construct(l, FromCells(Cells(Reloaded(l, e)), Reloaded(l, e).payload)) == Ok(Reloaded(l, e))
  {
    ReloadedConstructed(l, e);
    ConstructGives(l, Reloaded(l, e));
    assert FromCells(Cells(Reloaded(l, e)), Reloaded(l, e).payload) == Reloaded(l, e);
  }

  /** Writing a row and reading the line back gives the row with its strings normalised and its payload canonical. */
  lemma {:induction false} LineRoundTrip(l: Runtime, e: Envelope)
    requires Constructed(e) && Canonicalize(l, Map(e.payload)).Ok?
    ensures Line(l, e).Ok? && ReadLine(l, Line(l, e).value) == Ok(Reloaded(l, e))
  {
    RowCollected(l, e);
    CanonicalJsonRoundTrip(l, ToJson(e));
    FromRow(l, Canonicalize(l, ToJson(e)).value, Cells(Reloaded(l, e)), Reloaded(l, e).payload);
    ReloadedIsConstructed(l, e);
  }

  /** Reloading is done once and for all: a reloaded row reloads as itself. */
  lemma ReloadedIsStable(l: Runtime, e: Envelope)
    requires Canonicalize(l, Map(e.payload)).Ok?
    ensures var r := Reloaded(l, e);
      Canonicalize(l, Map(r.payload)).Ok? && Reloaded(l, r) == r
  {
    var r := Reloaded(l, e);
    CanonicalizeIdempotent(l, Map(e.payload));
    assert Cells(Reloaded(l, r)) == Cells(r);
  }

  /** No row that verified before fails after. */
  lemma ReloadKeepsVerification(l: Runtime, e: Envelope)
    requires Canonicalize(l, Map(e.payload)).Ok? && VerifyPayload(l, e) == Ok(true)
    ensures VerifyPayload(l, Reloaded(l, e)) == Ok(true)
  {
    var r := Reloaded(l, e);
    assert Cells(r)[13] == Nfc(l, Cells(e)[13]);
    if e.payload == [] {
      assert Collect(l, []) == Ok(map[]);
      assert Listing(map[]) == [];
    } else {
      HashOfCanonicalForm(l, Map(e.payload));
      DigestIsNormal(l, CanonicalJson(l, Map(e.payload)).value);
      assert l.nfc(e.contentHash) == e.contentHash;
    }
  }
}
