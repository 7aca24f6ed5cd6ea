# Runtime contracts, verified

A Dafny model of the decision logic and the state machines of the `runtime_contracts` package, with proofs of what they
promise. `dafny verify dfyconfig.toml` checks all of it.

Every identity in the package rests on canonical text, so the project is built from there:

- **Values and text.** `Decimals`, `Canonical`, `Json`, `Forms`: decimal strings, the normal form over JSON-like trees, the
  printer, a parser that inverts it and the printed text as the shortest one (`ShortestJson`), the documented table of decimal
  strings (`DecimalTable`), records with fixed names. `Unique`, `Seal`, `Context`, `Intents`,
  `IntentIdentity`: what the hashes of plans, views, seals and intents tell apart and what they do not.
- **Orders.** `CausalOrder` and `SecurityStream`: two topological sorts against one greedy specification. `GatePlan` and
  `PlanRunner`: the three-colour search over lanes and gates, and the runs it decides about.
- **Histories.** `Lifecycle` and `Ledger`: a program, permission re-derived per event, strict and lenient replay, submission.
- **Schemas.** `Codec` and its companions: field types as data, reading, writing, construction, the round trip; `StrictReading`
  says what is accepted. `Inventory`,
  `Evolution`, `Weights`, `EvolvedSets`, `EvolvedReading`, `Additive`: the additive-only rule and what becomes of stored
  documents, over any chain of versions.
- **Machines.** `Envelopes`, `EvidenceStore`, `Reopening`, `Containment`, `Trajectory`, `Broker`: the evidence log, containment
  and the credential broker, over every run of calls.
- **Authority, verdicts, spending.** `Authority`, `Decisions`, `Manifest`, `Acquisition`, `IntentRestore`, `IntentRoundTrip`.

Exceptions are a `Result` whose refusal carries no message. The hash is an injective function on text and NFC a normalising
function that fixes ASCII text and introduces no control character (`Platform`); both are parameters. Clocks, grant answers,
provider answers and stored secrets are inputs. Files are their text.

## Where the code and a natural reading part

Each of these is stated by a lemma, with the exact condition under which the reading holds.

- `decimal_string` can return "-0", which it would then turn into "0" (`Decimals.FixedPointIff`).
- Two keys that collide after NFC make the order of a mapping show (`Canonical.ItemOrderIrrelevantIff`).
- The documentation of `causal_order` notwithstanding, a parent outside the set is no error
  (`CausalOrder.DanglingParentsAreIgnored`).
- A string may be accepted and, longer after normalising, refused the next time (`Construction.ConstructAgain`).
- Null members of JSON objects vanish on writing (`RoundTrip.LosslessIff`).
- A row whose id or hash is not in normal form cannot be found by it after a reload (`EvidenceStore.NamesSurviveIff`).
- The inventory lets an optional field with a default other than null through, and with it stored hashes break, also those of
  records that embed the value (`Additive.DocumentAcceptedIff`, `EmbeddedDefault.StoredHashBreaks`).
- `can_transition` is wrong for a program that starts in a terminal state (`Ledger.CanTransitionIff`).
- The plan's sort key leaves authorization out, so the order of items can show (`Context.PlanOrderIrrelevantIff`).
- Repeated evidence changes a seal (`Seal.SameSealIff`).
- Combining after an empty stage can replace the decision that governed (`Decisions.StagesAgreeIff`).
- Negative record counts can soften a ruling (`Trajectory.NeverSoftensIff`).
- A ruling to contain is refused after the first containment; a breach together with exfiltration is ruled DENY, whose
  containment can be recovered (`Containment.DenyContainsIff`, `Trajectory.RecoverableIff`).
- The store indexes a row before it writes it, and a log without its last line break is spoilt by the next append
  (`EvidenceStore.FileEvidenceStore.Append`, `Reopening.LostBreakRefusesLog`).
- The acquisition gate compares each quote with the whole budget (`Acquisition.StaysWithinIff`), and reports a missing purpose
  as a budget stop (`Acquisition.HeldIsReportedAsBudget`).
- An intent given a sealed state without being sealable is written and never read back, and an unknown stored state is read as
  a draft (`IntentRoundTrip.RestoreIsBack`, `IntentRestore.Restore`).

## Model

| member | source | states |
|---|---|---|
| Decimals.OutputShape | runtime_contracts/canonical.py:104-133 | a number is refused only when it is not finite or overflows the context, and every text returned has the canonical shape, so the closing shape check never fires |
| Decimals.SameNumberSameText | runtime_contracts/canonical.py:85-133 | the text depends on the number alone, whatever its spelling, for every pair of spellings |
| Decimals.SameTextIffSameNumber | runtime_contracts/canonical.py:85-133 | within 28 significant digits two numbers have the same text if and only if they are equal |
| Decimals.FittingTextIsExact | runtime_contracts/canonical.py:128-133 | within 28 digits the text reads back as exactly the number |
| Decimals.RoundingError | runtime_contracts/canonical.py:128 | beyond that the text is within half a unit of the last place kept, a tie going to the even neighbour |
| Decimals.TextIsRounded | runtime_contracts/canonical.py:124-133 | the text reads back as the rounded number |
| Decimals.FixedPointIff | runtime_contracts/canonical.py:85-133 | the output is a fixed point exactly when the input is not a negative number that underflows to zero |
| Decimals.NegativeZeroExample | runtime_contracts/canonical.py:128-133 | such an input: minus ten to the power -2000000 gives "-0", which then gives "0" |
| Decimals.ContextIs | runtime_contracts/canonical.py:128 | a number in lowest terms is kept exactly when it has at most 28 digits, none below the 1000026th place, and is refused exactly when it then reaches ten to the millionth |
| Decimals.ExponentIs | runtime_contracts/canonical.py:85-101 | an exponent is read as its digits, negative only behind a minus |
| Decimals.PointedExponent | runtime_contracts/canonical.py:85-101 | a number with fraction and exponent is read as its digits, scaled by both |
| DecimalTable.EmptyFractionDropped | runtime_contracts/canonical.py:91 | "1.0" is "1", for every whole number |
| DecimalTable.TrailingZeroDropped | runtime_contracts/canonical.py:92 | "1.500" is "1.50" is "1.5", for every fraction |
| DecimalTable.NoNegativeZero | runtime_contracts/canonical.py:93 | "-0" is "0", however many zeros |
| DecimalTable.NoNegativeZeroPoint | runtime_contracts/canonical.py:94 | "-0.0" is "0", however many zeros |
| DecimalTable.ExponentExpanded | runtime_contracts/canonical.py:95 | "1e-3" is "0.001" |
| DecimalTable.PlusDropped | runtime_contracts/canonical.py:96 | "+1" is "1", for every whole number |
| DecimalTable.LeadingZeroDropped | runtime_contracts/canonical.py:97 | "007" is "07" is "7", for every whole number |
| DecimalTable.EmptyPartRefused | runtime_contracts/canonical.py:98 | "1." is refused, and any number with an empty integer or fraction part |
| Canonical.Reduce | runtime_contracts/canonical.py:136-182 | the recursion with its dict filled in a loop computes the functional normal form, refusals included |
| Canonical.CanonicalizeIdempotent | runtime_contracts/canonical.py:136-182 | the canonical form of any accepted value canonicalises to itself |
| Canonical.FixedIffCanonical | runtime_contracts/canonical.py:136-182 | a value is unchanged by canonicalisation exactly when it has the described normal form: sorted distinct NFC keys, no null items, NFC strings |
| Canonical.LastItemWins | runtime_contracts/canonical.py:161-171 | under each normalised key the last item that is not null is the one kept |
| Canonical.ItemOrderIrrelevantIff | runtime_contracts/canonical.py:161-171 | the order of a mapping's items does not matter exactly when items that are not null and whose keys normalise alike have the same value |
| Canonical.CollidingKeysOrderShows | runtime_contracts/canonical.py:169 | a mapping for which it matters: two different keys that normalise alike, with different values |
| Canonical.ItemOrderIrrelevant | runtime_contracts/canonical.py:161-171 | with keys distinct after normalisation, mappings with the same items, with or without null ones, have the same form |
| Json.CanonicalJsonRoundTrip | runtime_contracts/canonical.py:185-194 | the text printed for any accepted value parses back to exactly its canonical form: escapes, sorted keys, integers |
| Json.SameTextIffSameForm | runtime_contracts/canonical.py:185-200 | two accepted values have the same bytes, and the same hash, exactly when they have the same canonical form |
| Json.HashOfCanonicalForm | runtime_contracts/canonical.py:197-200 | hashing a value and hashing its canonical form give the same digest |
| Text.BeforeIff | runtime_contracts/canonical.py:171 | keys are sorted by the first character in which they differ, a prefix before what it begins |
| ShortestJson.PrintShortest | runtime_contracts/canonical.py:185-194 | no text that is read as a value is shorter than the printed one, and no other is as short: no leading zero, no "-0", no long escape, no space |
| ShortestJson.CanonicalJsonShortest | runtime_contracts/canonical.py:185-194 | the canonical text is the one shortest text of the canonical form |
| ShortestJson.WordsWritten | runtime_contracts/canonical.py:185-194 | null, the booleans, numbers and a word, as they are written |
| ShortestJson.CharsWritten | runtime_contracts/canonical.py:185-194 | the characters that are escaped and those beside them, as they are written |
| ShortestJson.ListWritten | runtime_contracts/canonical.py:185-194 | a list is its items between brackets with commas and nothing else |
| ShortestJson.ObjectWritten | runtime_contracts/canonical.py:185-194 | an object is its members between braces, a colon in each, with commas and nothing else |
| Unique.Deduplicate | runtime_contracts/canonical.py:203-214 | the loop with `setdefault` and the final sort computes the functional sort-and-deduplicate |
| Unique.UniqueSpec | runtime_contracts/canonical.py:203-214 | the result is in strictly increasing key order, holds every key, and under each the first item that has it |
| Unique.KeptIffEarliest | runtime_contracts/canonical.py:203-214 | under each key it is the earliest item that is kept, and no other |
| Unique.OrderIrrelevantIff | runtime_contracts/canonical.py:203-214 | what is hashed does not depend on the order of the items exactly when items under one key have one form |
| Unique.OrderAndRepetitionIrrelevant | runtime_contracts/canonical.py:203-214 | with consistent items neither order nor repetition shows |
| CausalOrder.CausalOrder | runtime_contracts/models/investigation.py:231-260 | returns exactly when ids are distinct and the parent relation inside the set is acyclic; the result is a permutation with each event behind its parents in the set, and of two events the lower sequence first, or on a tie the id that precedes, unless the other had to wait for a parent |
| CausalOrder.GreedyIff | runtime_contracts/models/investigation.py:246-257 | the greedy order, which at each place puts out the least event that is ready, is that order and no other |
| CausalOrder.AcyclicIffOrderable | runtime_contracts/models/investigation.py:238-260 | the parent relation is acyclic exactly when the events can be put each behind its parents |
| CausalOrder.GreedyUnique | runtime_contracts/models/investigation.py:246-257 | there is at most one greedy order, and it does not depend on the order of arrival |
| CausalOrder.ArrivalOrderIrrelevant | runtime_contracts/models/investigation.py:231-260 | whether a history is accepted does not depend on the order of arrival either |
| CausalOrder.ParentsFirst | runtime_contracts/models/investigation.py:231-260 | in the order every event follows each of its parents in the set |
| CausalOrder.DanglingParentsAreIgnored | runtime_contracts/models/investigation.py:245 | for every history, leaving the parents outside the set out of each event gives the same constraints and the same order |
| CausalOrder.DanglingParentIsAccepted | runtime_contracts/models/investigation.py:245 | an event naming only a parent outside the set is a history that is accepted |
| CausalOrder.NoParentsMeansSorted | runtime_contracts/models/investigation.py:246-257 | when no event names a parent in the set, sequences never fall, and ids rise where they are equal |
| SecurityStream.CausalOrderEvents | runtime_contracts/protocol/telemetry.py:171-203 | the second implementation, with a list sorted again at each turn: each event behind its parent if that is in the stream, lower sequence first, on a tie the event id that precedes, unless the other had to wait for its parent; refused exactly on repeated ids or a cycle |
| SecurityStream.AgreesWithCausalOrder | runtime_contracts/protocol/telemetry.py:171-203 | on single-parent streams the two implementations agree, whatever order each received |
| GatePlan.GuardLanes | runtime_contracts/qa/plan.py:72-85 | accepts exactly the plans whose lane positions are distinct and refs unique |
| GatePlan.Search.Visit | runtime_contracts/qa/plan.py:107-122 | three-colour search from one node: it finishes the node and all it leads to, or reports a cycle |
| GatePlan.GuardGates | runtime_contracts/qa/plan.py:88-122 | accepts exactly when every gate names known refs and lane order with gates is acyclic |
| GatePlan.Validate | runtime_contracts/qa/plan.py:145-151 | the plan is accepted exactly when lanes and gates are |
| PlanRunner.NeighboursSuffice | runtime_contracts/qa/plan.py:91-106 | edges between lane neighbours have a cycle exactly when the whole lane order with the gates has one |
| PlanRunner.NeverStuck | runtime_contracts/qa/plan.py:88-122 | on an accepted plan a runner that honours lanes, gates and max_parallel can always move while items remain |
| PlanRunner.StoppedMeansComplete | runtime_contracts/qa/plan.py:88-122 | every run of an accepted plan that has come to a stop has finished every item |
| PlanRunner.RunLength | runtime_contracts/qa/plan.py:88-122 | no run is longer than two steps an item |
| PlanRunner.OneItemPerLane | runtime_contracts/qa/plan.py:91-97 | in every run two items of one lane never run at the same time |
| PlanRunner.RunHonours | runtime_contracts/qa/plan.py:88-106 | in every state of every run, what a gate on a started item names is done, and so is every earlier item of its lane; no more than max_parallel items run |
| PlanRunner.AcceptedIffOrderable | runtime_contracts/qa/plan.py:88-122 | the gate check accepts exactly the plans whose items can be put in an order, each behind the earlier ones of its lane and behind all its gate names |
| PlanRunner.AcceptedIffFinishable | runtime_contracts/qa/plan.py:72-122 | the gate check is exact: with well-formed lanes and known refs it accepts a plan if and only if some run finishes every item |
| Lifecycle.Validate | runtime_contracts/models/mission.py:196-246 | the checks of a program, loop by loop, accept exactly the programs described |
| Lifecycle.RefusedIff | runtime_contracts/models/mission.py:196-292 | a program is refused exactly for one of the listed faults of a transition or of the whole |
| Lifecycle.PermittedMeans | runtime_contracts/models/investigation.py:112-157 | a permitted event is a declared move out of a non-terminal state, with an outcome exactly when it ends the inquiry, and then the declared one |
| Lifecycle.PermittedIff | runtime_contracts/models/investigation.py:112-157 | with distinct state ids an event is permitted exactly when it pins the program, leaks nothing and makes a declared transition |
| Lifecycle.LeakIff | runtime_contracts/models/investigation.py:99-110 | a public event leaks exactly when a reference is one of the five private kinds or stands under one |
| Ledger.ReplayStates | runtime_contracts/models/investigation.py:263-295 | the loop computes the walk over the events in sequence order, or refuses |
| Ledger.ReplayLedger | runtime_contracts/models/ledger.py:133-220 | the loop computes the books of strict and of lenient replay |
| Ledger.OrderedIs | runtime_contracts/models/ledger.py:145 | events are taken by ascending sequence, those of one sequence in the order they arrived |
| Ledger.ResultReflectsHistory | runtime_contracts/models/ledger.py:192-220 | the active assignment is the actor the last ownership change of the history names, none without one; there is one entry for each verification of the history, in order, with its sequence, transition, verdict and verifier; the state is where the last event leads |
| Ledger.EntersIff | runtime_contracts/models/ledger.py:166-203 | the next event enters the history exactly when it repeats no sequence, is permitted and leaves the state the history has led to |
| Ledger.MismatchesAreStrangers | runtime_contracts/models/ledger.py:171-178 | the mismatches are, in order, the first events of their sequence that were made for another program |
| Ledger.HistoryAscends | runtime_contracts/models/ledger.py:145-203 | a history is in strictly ascending sequence |
| Ledger.StrictIffConsistent | runtime_contracts/models/ledger.py:133-220 | strict replay succeeds exactly when lenient replay sets nothing aside, and then with the same result |
| Ledger.StrictIffWalk | runtime_contracts/models/ledger.py:133-220 | strict replay succeeds exactly when `replay_states` does, and ends in the same state |
| Ledger.EveryInputPosted | runtime_contracts/models/ledger.py:151-205 | each event ends up in exactly one of history, invalid and mismatches |
| Ledger.HistoryIsFaithful | runtime_contracts/models/ledger.py:133-220 | strictly replaying the history of a lenient replay gives the same state, outcome, assignment and verifications |
| Ledger.ArrivalOrderIrrelevant | runtime_contracts/models/ledger.py:133-220 | strict replay does not depend on the order the events arrive in |
| Ledger.TerminalGuardIsRedundant | runtime_contracts/models/ledger.py:175-200 | after a terminal state nothing is accepted, and re-deriving permission alone would refuse it |
| Ledger.OutcomeIsDeclared | runtime_contracts/models/ledger.py:205-220 | a terminal result carries the outcome its last transition declares, a non-terminal one none |
| Ledger.CanTransitionIff | runtime_contracts/models/ledger.py:110-112 | `can_transition` tells whether the inquiry can move, for every history, exactly when the initial state is not terminal |
| Ledger.TerminalStartExample | runtime_contracts/models/ledger.py:110-112 | a valid program that starts in a terminal state, for which it is wrong before any event |
| Ledger.FirstPermittedIsKept | runtime_contracts/models/ledger.py:63-93 | over any run of submissions an id holds the hash of the first permitted event delivered under it; nothing later changes it |
| Ledger.RetryOrConflict | runtime_contracts/models/ledger.py:63-93 | at any later point a retry is absorbed and a rewrite is a conflict |
| FrozenJson.FreezeGivesFrozen | runtime_contracts/qa/base.py:222-245 | what freezing returns is frozen: bounded depth, normalised strings, ordered distinct keys |
| FrozenJson.FrozenFixed | runtime_contracts/qa/base.py:222-245 | freezing again changes nothing |
| FrozenJson.SurvivesIff | runtime_contracts/qa/base.py:222-245 | frozen JSON survives being written exactly when no object in it has a null member |
| FrozenJson.LastMemberFrozen | runtime_contracts/qa/base.py:236-243 | under each key, once clean, the last member is the one frozen |
| FrozenJson.OnlyMembersFrozen | runtime_contracts/qa/base.py:236-243 | nothing is frozen under any other key |
| StrictReading.DepthIff | runtime_contracts/qa/base.py:222-245 | a value is frozen, and always the same, at exactly the depths at which it does not go below the twelfth level |
| StrictReading.TextReadIff | runtime_contracts/qa/base.py:300-309 | a text field takes up to 4096 characters without control characters, and holds them normalised |
| StrictReading.RuledTextReadIff | runtime_contracts/qa/base.py:123-132 | a rule on a text counts the characters after normalising, both bounds included |
| StrictReading.RuledNumberReadIff | runtime_contracts/qa/base.py:133-137 | a rule on a number includes both bounds; a boolean is no number and a number no boolean |
| StrictReading.ByteLimitIff | runtime_contracts/qa/base.py:138-139 | a byte limit is on the UTF-8 bytes of the canonical text, the limit included; null has no size |
| StrictReading.CustodyDecides | runtime_contracts/qa/base.py:402-410 | a custody object that names a field decides it, else the object, else the default |
| StrictReading.ObjectReadIff | runtime_contracts/qa/base.py:388-462 | exactly when an object is accepted, and as what: schema identity, no unknown member, custody of custody fields only, every field readable, the stored hash right |
| StrictReading.SetFieldAscends | runtime_contracts/qa/base.py:360-367 | a set field comes out by strictly ascending key and is refused exactly when a key is missing or occurs twice |
| RoundTrip.WrittenReadsBack | runtime_contracts/qa/base.py:270-323 | a value of any type, written in full and read, is itself without null members, or is refused exactly when a string has outgrown its limit by normalisation |
| RoundTrip.JsonRoundTrip | runtime_contracts/qa/base.py:385-412 | for every schema and formed record `from_json(to_json(x))` has the same hash and is x without null JSON members, or is refused exactly when a string has outgrown its limit |
| RoundTrip.LosslessIff | runtime_contracts/qa/base.py:436-500 | the round trip loses nothing exactly when no JSON object in the record has a null member |
| Construction.ReadIsFormed | runtime_contracts/qa/base.py:270-323 | whatever is read is of its type, within its rules and in set order |
| Construction.KeepFormed | runtime_contracts/qa/base.py:270-323 | coercing a value already formed keeps it, or refuses it exactly when a string is too long |
| Construction.ConstructAgain | runtime_contracts/qa/base.py:356-371 | constructing an object from its own fields gives the same object, or a refusal exactly when normalising has outgrown a length limit |
| Construction.NormalisingMayOutgrow | runtime_contracts/qa/base.py:257-262 | a string accepted once and refused the second time, because the length is checked before normalising |
| Construction.SetFieldPermutes | runtime_contracts/qa/base.py:358-367 | the items of a set field, in any order, construct the same field or are refused alike |
| SetOrder.ConstructPermuted | runtime_contracts/qa/base.py:356-371 | so does the whole object |
| SetOrder.DocumentReordered | runtime_contracts/qa/base.py:389-412 | a document listing a set field's items in another order reads as the same object, or is refused alike |
| Inventory.BreakingChanges | runtime_contracts/qa/inventory.py:86-127 | finds nothing exactly when the new inventory only adds: nothing removed, retyped, moved, newly required; enums only grow; protocols and versions equal |
| Inventory.OnlyAddsIff | runtime_contracts/qa/inventory.py:86-127 | only adding means: of an old field at most that it was required has changed; no enum member, protocol or version is lost or changed; what was added is optional |
| Inventory.OnlyAddsTransitive | runtime_contracts/qa/inventory.py:86-127 | only adding is transitive |
| Inventory.ChainOnlyAdds | runtime_contracts/qa/inventory.py:86-127 | over any chain of inventories the last only adds to the first |
| Evolution.LiftIdentityIff | runtime_contracts/qa/base.py:464-500 | the canonical identity of a value stays the same under a change exactly when nowhere in it a field was added that is neither custody nor null by default; otherwise it holds more than before, however sets are then ordered |
| EvolvedSets.LiftTells | runtime_contracts/qa/base.py:338-344 | two values of a type hashed alike under the new schemas were hashed alike under the old ones, so no set gains a repetition |
| EvolvedSets.ArrangedAgain | runtime_contracts/qa/base.py:388-421 | a set ordered by canonical text is arranged again by the new texts, as the same set |
| EvolvedSets.SameInstancesIff | runtime_contracts/qa/base.py:484-493 | objects of one schema are hashed alike exactly when all their fields but custody are |
| EvolvedReading.ReadEvolves | runtime_contracts/qa/base.py:270-323 | what the old schemas read, at any type, the new ones read as the same value with the added fields at their defaults, or refuse: exactly when an object in it that carries its hash shows the change, or a value with it exceeds a limit on its canonical bytes |
| EvolvedReading.FormedQuiet | runtime_contracts/qa/base.py:270-323 | in a value of a type that reaches no schema with such a field nothing shows |
| Additive.ExtendsIff | runtime_contracts/qa/inventory.py:96-118 | what documents need of a change is what the inventory checks together with what it does not list: set orders, old defaults, and that an added set is in order by default |
| Additive.DocumentAcceptedIff | runtime_contracts/qa/base.py:437-462 | under such a change, with any number of fields added anywhere and any formed defaults, an accepted document is still accepted exactly when no object in it carrying its hash shows the change and no value in it exceeds its limit |
| Additive.StructureSurvives | runtime_contracts/qa/base.py:388-421 | stored hashes aside, and with no byte limit on what shows the change, every accepted document is still accepted, whatever the defaults |
| Additive.DocumentsSurvive | runtime_contracts/qa/inventory.py:86-127 | when every added field is null by default or custody, every document survives with its hashes and the same canonical bytes |
| Additive.CheckedChange | runtime_contracts/qa/inventory.py:86-127 | when the check finds nothing between the inventories of two versions, reading a document of the old one by the new one is settled, and succeeds when no added field shows |
| Additive.DocumentsSurviveHistory | runtime_contracts/qa/inventory.py:86-127 | along any chain of versions that each pass the check, adding fields that are null by default or custody, a document any version accepts is accepted by every later one, with the same canonical bytes and hash |
| EmbeddedDefault.StoredHashBreaks | runtime_contracts/qa/base.py:457-462 | a change between whose inventories the check finds nothing, and a document the old schemas accept and the new ones refuse |
| EmbeddedDefault.OldDocumentExists | runtime_contracts/qa/base.py:464-500 | there is such a document |
| Intents.Unsealable | runtime_contracts/models/intent.py:537-546 | collects exactly the open dimensions that block sealing |
| Intents.Seal | runtime_contracts/models/intent.py:548-563 | succeeds exactly when none does, and changes only the state |
| Intents.SameAssertionsSameHash | runtime_contracts/models/intent.py:594-646 | confidence, evidence, spans, producers, state, times and unasked cosmetic dimensions are not part of identity |
| IntentIdentity.SameHashIff | runtime_contracts/models/intent.py:594-646 | two intents have the same hash exactly when they make the same request, part by part, up to Unicode normal form and canonical values |
| IntentIdentity.SameFieldsIff | runtime_contracts/models/intent.py:600 | fields whose names stay apart when normalised are the same exactly when they assert the same values by the same authors under the same names |
| IntentIdentity.OpenOrderIrrelevantIff | runtime_contracts/models/intent.py:624-628 | the order of open dimensions does not matter exactly when those listed under one name are open for one reason |
| IntentIdentity.OpenShowsIff | runtime_contracts/models/intent.py:606-628 | one more open dimension changes the hash unless nobody asked for it and it would change no result |
| Intents.StateChangesArtifactOnly | runtime_contracts/models/intent.py:648-686 | sealing or a later transition changes the artifact digest and never the intent hash |
| IntentRestore.Restore | runtime_contracts/models/intent.py:800-910 | restoring from a payload computes the described result, refusals included |
| IntentRestore.EmptyParts | runtime_contracts/models/intent.py:800-911 | what an empty field, reading, open dimension, member or amendment is restored as |
| IntentRestore.EmptyPayload | runtime_contracts/models/intent.py:800-911 | an empty payload is an empty draft |
| IntentRestore.RestoredIsSound | runtime_contracts/models/intent.py:873-909 | whatever the payload, what is restored is whole, sealable unless a draft, and has the recorded hash |
| IntentRestore.SameRecordedHashSameRequest | runtime_contracts/models/intent.py:902-909 | payloads that carry the same hash restore to the same request |
| IntentRoundTrip.RestoreIsBack | runtime_contracts/models/intent.py:688-704 | a stored intent restores exactly when it is a draft or sealable, with the same hash, and with each confidence "-0" as "0" |
| IntentRoundTrip.AgainIsSameIff | runtime_contracts/models/intent.py:688-704 | it restores to the very same object exactly when no confidence is "-0" |
| Envelopes.LineRoundTrip | runtime_contracts/store/envelope.py:117-124 | writing a row and reading its line gives the row with strings normalised and payload canonical |
| Envelopes.ReloadedIsStable | runtime_contracts/store/envelope.py:117-124 | a reloaded row reloads as itself |
| Envelopes.ReloadKeepsVerification | runtime_contracts/store/envelope.py:109-112 | no row that verified before fails after |
| Envelopes.TamperingShows | runtime_contracts/store/envelope.py:109-111 | with another payload put in its place, a row that verified verifies exactly when both payloads have one canonical form |
| Envelopes.SameHashSamePayload | runtime_contracts/store/envelope.py:109-111 | two rows that verify and carry one hash hold the same payload up to canonical form |
| Envelopes.FilledInVerifies | runtime_contracts/store/envelope.py:77-84 | a row whose hash construction filled in verifies, and its other references fall back on that hash |
| Envelopes.BareRow | runtime_contracts/store/envelope.py:122-124 | a row that gives only its id and type is a mission event with every other column empty |
| Envelopes.RowSays | runtime_contracts/store/envelope.py:118-119 | which column of the written row says what |
| EvidenceStore.FileEvidenceStore.constructor | runtime_contracts/store/file.py:117-120 | a store over a log, nothing read yet |
| EvidenceStore.FileEvidenceStore.Open | runtime_contracts/store/file.py:117-129 | opening succeeds exactly when every line that is not blank is a row, and holds those rows in order |
| EvidenceStore.FileEvidenceStore.Append | runtime_contracts/store/file.py:63-67 | the row is indexed, then written; a row that cannot be written is refused but stays indexed; the file holds exactly the rows written |
| EvidenceStore.FileEvidenceStore.Resolve | runtime_contracts/store/file.py:69-77 | after any run of appends the indexes answer what a first-match scan of the rows would |
| EvidenceStore.FirstIs | runtime_contracts/store/file.py:69-77 | an id or a hash finds the first row that has it |
| EvidenceStore.ScanOrder | runtime_contracts/store/file.py:69-77 | a reference is an id before it is a hash, and a hash before it is a pinned reference |
| EvidenceStore.HashTailIs | runtime_contracts/store/file.py:75 | of a pinned reference, what stands behind the last hash sign |
| EvidenceStore.FileEvidenceStore.Verify | runtime_contracts/store/file.py:99-101 | the tamper check on what the reference finds, false when it finds nothing; and for a row whose payload was replaced, true exactly when the canonical form is the same |
| EvidenceStore.FileEvidenceStore.Snapshot | runtime_contracts/store/file.py:79-82 | the rows known by a time, in order |
| EvidenceStore.FileEvidenceStore.Changes | runtime_contracts/store/file.py:84-87 | the rows known only after it, in order |
| EvidenceStore.SnapshotIff | runtime_contracts/store/file.py:79-87 | a row is in the snapshot of a time when it was known by then, that very time included, and has changed since when it became known later |
| EvidenceStore.SnapshotAndChanges | runtime_contracts/store/file.py:79-87 | at a non-empty time snapshot and changes together are the dated rows, each once |
| EvidenceStore.PartitionIffDated | runtime_contracts/store/file.py:79-87 | at a time that is given, snapshot and changes together are all the rows exactly when every row is dated |
| EvidenceStore.LaterRowLeavesSnapshot | runtime_contracts/store/file.py:79-87 | a row known only later leaves an earlier snapshot as it was |
| EvidenceStore.LogRoundTrip | runtime_contracts/store/file.py:122-134 | the file written for any rows loads as those rows, each as it reloads |
| EvidenceStore.ScanAfterReload | runtime_contracts/store/file.py:69-77 | a reference finds the row at the same place after a reload, unless normalising gives or takes a row that name |
| EvidenceStore.NamesSurviveIff | runtime_contracts/store/file.py:69-77 | every name keeps finding what it found, by id and by hash, exactly when all ids and hashes are in normal form |
| Reopening.LoadAfter | runtime_contracts/store/file.py:122-134 | rows written behind any log that ends in a line break load behind what it held |
| Reopening.TwoSessions | runtime_contracts/store/file.py:122-134 | two sessions over one file load as the rows of both |
| Reopening.ReloadedAllStable | runtime_contracts/store/file.py:122-134 | rows read back are read back as they are the next time |
| Reopening.FileHoldsSaved | runtime_contracts/store/file.py:122-134 | whatever appends were refused, the file loads as what it held when opened and every row whose append returned |
| Reopening.ReopenedIsSame | runtime_contracts/store/file.py:117-134 | a store whose every append returned reopens with as many rows, and a reference finds the row at the same place, unless normalising gives or takes an appended row that name |
| Reopening.LostBreakRefusesLog | runtime_contracts/store/file.py:131-134 | a log that lost its last line break opens exactly as long as nothing has been appended to it |
| Authority.VerifyChain | runtime_contracts/protocol/security.py:263-281 | accepts exactly the chains with a parentless root in which each link narrows its parent and names its digest |
| Authority.LinkIff | runtime_contracts/protocol/security.py:263-281 | what one link must satisfy, budgets compared as numbers at every scale and expiries as text |
| Authority.NarrowGives | runtime_contracts/protocol/security.py:195-222 | a child is given what the request names, else what its parent has, with the constraints of both |
| Authority.NarrowsIff | runtime_contracts/protocol/security.py:198-223 | a child can be derived by `narrow` exactly when its link verifies, its depth counts up and its constraints are listed in order |
| Authority.DelegatedIff | runtime_contracts/protocol/security.py:198-281 | a chain built by `narrow` from a parentless root verifies, and a verified chain could have been built so exactly when depths count up and constraints are in order |
| Authority.VerifiedOnlyNarrows | runtime_contracts/protocol/security.py:263-281 | in a verified chain every later link permits, costs and lasts no more and is at least as constrained as every earlier one |
| Authority.LeafBindsChain | runtime_contracts/protocol/security.py:182-190 | two verified chains with the same leaf digest are equally long and equal in canonical form link by link |
| Authority.DigestBindsPower | runtime_contracts/protocol/security.py:165-190 | with strings in normal form equal digests mean equal permissions, constraints, expiry, depth and budget |
| Authority.SetsHashAlike | runtime_contracts/protocol/security.py:160-177 | order and repetition of scopes, constraints and roles do not enter the digest |
| Decisions.CombineInStages | runtime_contracts/protocol/security.py:100-113 | combining in stages, the first not empty, gives the same decision, obligations and evidence |
| Decisions.StagesAgreeIff | runtime_contracts/protocol/security.py:100-113 | exactly when staging changes nothing: a non-empty first stage, an empty second, a second that does not allow, or one governed by a decision as empty as the stand-in |
| Decisions.MostSevereGoverns | runtime_contracts/protocol/security.py:38-60 | DENY governs before REQUIRE_REVIEW before STRONGER_AUTH before ISOLATION before ATTESTATION before ALLOW |
| Decisions.FirstGoverns | runtime_contracts/protocol/security.py:100-110 | the first decision with that verdict governs, with all obligations and all evidence, sorted |
| Broker.LocalCredentialBroker.Issue | runtime_contracts/secrets_local/broker.py:66-99 | the new table of active grants and the counter, or a refusal that changes neither, for any default lifetime |
| Broker.LocalCredentialBroker.Redeem | runtime_contracts/secrets_local/broker.py:101-112 | the answer and the new table, an expired grant being dropped |
| Broker.LocalCredentialBroker.RevokeMission | runtime_contracts/secrets_local/broker.py:122-127 | drops exactly the mission's grants and counts them |
| Broker.AllowedIffJustified | runtime_contracts/protocol/secrets.py:296-342 | a request is allowed exactly when every condition of the gate holds |
| Broker.NeverReused | runtime_contracts/secrets_local/broker.py:66-99 | in every interleaving no grant id is used twice |
| Broker.RedeemIff | runtime_contracts/secrets_local/broker.py:101-112 | in every interleaving a redemption succeeds exactly when its id was minted for the same mission and capability, nothing has ended it since, it has not expired, and the secret can be read |
| Broker.GrantsAreJustified | runtime_contracts/secrets_local/broker.py:66-99 | every grant ever minted rests on an authority that permits its scopes and is held in the asking tenant, and lasts no longer than declared |
| Broker.GrantLifetime | runtime_contracts/secrets_local/broker.py:73-77 | a grant lives as long as asked, else as policy allows, else the default, and never longer than asked or allowed |
| Broker.GrantContents | runtime_contracts/secrets_local/broker.py:78-99 | what is written in a grant: its number, whose it is and for what, the scopes asked for in order, the hash of the secret |
| Broker.SixDigitsAre | runtime_contracts/secrets_local/broker.py:78-92 | grants are numbered with six digits, or as many as the number has |
| Broker.FirstReason | runtime_contracts/protocol/secrets.py:296-342 | the reasons to refuse, in the order they are looked for |
| Broker.GrantWithinChain | runtime_contracts/protocol/security.py:263-281 | a grant to the leaf of a verified chain carries no scope that any authority up the chain lacks |
| Containment.Controller.OnDisposition | runtime_contracts/protocol/telemetry.py:363-373 | the new state, history and override bar, a refused call included |
| Containment.Controller.Recover | runtime_contracts/protocol/telemetry.py:385-389 | likewise |
| Containment.EveryRunCoheres | runtime_contracts/protocol/telemetry.py:348-389 | in every run, refused calls included, history is a stutter-free trail from RUNNING to the current state, CONTAINING is never at rest, and at most one containment and one recovery occur |
| Containment.BarredIff | runtime_contracts/protocol/telemetry.py:363-373 | the bar is up exactly when NO_OVERRIDE was ever ruled, even in a refused call |
| Containment.BarredIsFrozen | runtime_contracts/protocol/telemetry.py:348-389 | from then on state and history never change |
| Containment.DenyContainsIff | runtime_contracts/protocol/telemetry.py:363-373 | a ruling to contain is accepted exactly before the first containment |
| Containment.RecoveredIsFinal | runtime_contracts/protocol/telemetry.py:335-389 | after recovery no sequence of calls changes state or history |
| Containment.RefusedChangesNothing | runtime_contracts/protocol/telemetry.py:354-389 | a refused call leaves state and history as they were |
| Containment.ReviewResolved | runtime_contracts/protocol/telemetry.py:375-383 | a pending review is resolved to RUNNING when approved and to CONTAINED when not; with none pending the call is refused |
| Containment.ReviewParksIff | runtime_contracts/protocol/telemetry.py:363-367 | a ruling to review parks a machine not yet contained and is refused by one that was |
| Containment.RecoverIff | runtime_contracts/protocol/telemetry.py:385-389 | recovery is accepted exactly in a contained or recovered machine that was never ruled NO_OVERRIDE |
| Trajectory.SecurityTrajectory.Correlate | runtime_contracts/protocol/telemetry.py:279-319 | the loop over the reasons gives the most severe ruling that the events support |
| Trajectory.RulingIs | runtime_contracts/protocol/telemetry.py:270-314 | the ruling in plain terms, each limit exceeded and not just reached |
| Trajectory.NeverSoftensIff | runtime_contracts/protocol/telemetry.py:279-319 | further events never soften a ruling exactly when their counts do not take the total of records read down |
| Trajectory.RecoverableIff | runtime_contracts/protocol/telemetry.py:279-389 | a mission contained on a ruling can be recovered exactly when the trajectory shows exfiltration; a breach alone bars it |
| Seal.QuantizeMonotone | runtime_contracts/protocol/seal.py:45-66 | quantising floats is monotone |
| Seal.QuantizeError | runtime_contracts/protocol/seal.py:45-66 | it moves a number by at most half a billionth, and by exactly half only onto an even one |
| Seal.NinthPlace | runtime_contracts/protocol/seal.py:48-55 | what is sealed has nine places and at most 28 digits and is within half a billionth, a tie going to the even one |
| Seal.QuantizeIdempotent | runtime_contracts/protocol/seal.py:45-66 | it is idempotent |
| Seal.SealAlikeIff | runtime_contracts/protocol/seal.py:45-66 | two floats seal alike exactly when they are the same number of billionths |
| Seal.SameSetIff | runtime_contracts/protocol/seal.py:77-81 | two collections are hashed alike exactly when they hold the same canonical forms, each as often |
| Seal.SealableIff | runtime_contracts/protocol/seal.py:84-107 | an intent can be sealed exactly when all its parts have a canonical form |
| Seal.PutReplaces | runtime_contracts/protocol/seal.py:60-61 | a dict entry replaces the one with its key and nothing else |
| Seal.SameSealIff | runtime_contracts/protocol/seal.py:84-107 | two seals are equal exactly when schemas, meaning, evidence and open points agree, the last two in any order but each as often |
| Seal.DiscoveryOrderIrrelevant | runtime_contracts/protocol/seal.py:77-96 | permuting evidence or open points never changes the seal |
| Seal.RepeatedEvidenceShows | runtime_contracts/protocol/seal.py:77-81 | stating a piece of evidence twice does |
| Seal.NoiseAndOrderIrrelevant | runtime_contracts/protocol/seal.py:45-96 | noise below the ninth place anywhere, together with another order of discovery, never changes the seal |
| Context.SamePlanIff | runtime_contracts/models/context.py:110-127 | two plan hashes agree exactly when the kept items, budget, omitted count and schemas do |
| Context.PlanItemsInOrder | runtime_contracts/models/context.py:62-64 | items are hashed by artifact, then projection, then necessity |
| Context.ProjectionOrderIrrelevant | runtime_contracts/models/handle.py:87 | the order a handle lists its projections in does not enter |
| Context.PlanOrderIrrelevantIff | runtime_contracts/models/context.py:62-64 | the order of items is not part of a plan's hash exactly when items under one sort key are hashed alike |
| Context.AuthorizationOrderShows | runtime_contracts/models/context.py:62-64 | a plan for which it is: one item granted and denied, since the sort key leaves authorization out |
| Context.SameViewIff | runtime_contracts/models/context.py:164-177 | two views have the same hash exactly when their plans reached the same decision and pins and schemas are the same; ids, estimates and times are free |
| Context.SameRegularViewIff | runtime_contracts/models/context.py:164-177 | where no items collide and names are in normal form, that is agreement on item sets, pins, budget, omitted count and schemas |
| Context.DivergenceFrom | runtime_contracts/models/context.py:179-187 | the loop computes the functional divergence |
| Context.DivergenceIsExact | runtime_contracts/models/context.py:179-187 | the divergence lists, in order and once each, the ids pinned differently; it is empty exactly when the pins are equal |
| Manifest.CoverageViolations | runtime_contracts/qa/integrity.py:71-83 | lists nothing exactly when every declared assertion was executed or skipped, once, and nothing else was |
| Manifest.BalancedIff | runtime_contracts/qa/integrity.py:71-110 | the accounting, assertion by assertion: declared ones are executed or skipped and not both, nothing else is, exactly those executed have results, under the pinned set |
| Manifest.PassIsEarned | runtime_contracts/qa/manifest.py:99-117 | accepts a PASS exactly when it is earned |
| Manifest.Validate | runtime_contracts/qa/manifest.py:83-179 | the guards accept exactly the consistent manifests |
| Manifest.RefusedIff | runtime_contracts/qa/manifest.py:83-179 | what a manifest is refused for, fault by fault |
| Manifest.BrokenAccountingIff | runtime_contracts/qa/manifest.py:83-97 | broken accounting is recorded exactly with the reason ASSERTION_INTEGRITY, and then as INCONCLUSIVE |
| Manifest.VerifyAgainstSpec | runtime_contracts/qa/conformance.py:48-76 | accepts exactly the manifests that fit the spec |
| Manifest.PassIff | runtime_contracts/qa/conformance.py:62-76 | a PASS that verifies against its spec is exactly one deterministic PASS per frozen assertion with the frozen executor, expected hash and set hash, nothing skipped and every fault recovered |
| Manifest.IdempotencyKeyViolations | runtime_contracts/qa/integrity.py:245-262 | lists nothing exactly when within each run the key is a function of the step and tells steps apart |
| Acquisition.RegisteredIsFound | runtime_contracts/protocol/intelligence_registry.py:38-43 | the provider registered is the one found under its id, the others as before |
| Acquisition.MatchSorted | runtime_contracts/protocol/intelligence_registry.py:51-56 | candidates are the entitled providers of the capability, cheapest estimate first |
| Acquisition.MatchStable | runtime_contracts/protocol/intelligence_registry.py:45-50 | candidates of one estimate are called in the order they are registered in |
| Acquisition.MatchOrderIrrelevantIff | runtime_contracts/protocol/intelligence_registry.py:51-56 | the order of registration does not matter exactly when no two candidates are estimated alike |
| Acquisition.AcquireIff | runtime_contracts/protocol/intelligence_registry.py:59-75 | the gate opens exactly when entitled, with a purpose stated where one is needed, within the budget and with enough value; only then can the budget be what closed it |
| Acquisition.Climb | runtime_contracts/protocol/intelligence_registry.py:92-115 | calls the candidates in order up to a success, a final failure or the gate, and what is spent is the sum of the calls made |
| Acquisition.GoesOnIff | runtime_contracts/protocol/intelligence_registry.py:20-23 | the next provider is called after an answer without evidence for one of six reasons, or for none |
| Acquisition.GatedAcquire | runtime_contracts/protocol/intelligence_registry.py:78-117 | the result, the ledger row and the calls made |
| Acquisition.ClimbIsSettled | runtime_contracts/protocol/intelligence_registry.py:92-115 | which providers are called is settled: none is skipped or called out of turn |
| Acquisition.HeldMeansUnaffordable | runtime_contracts/protocol/intelligence_registry.py:92-103 | a stop at the gate leaves only unaffordable providers, or nothing was called for want of purpose or value |
| Acquisition.HeldIsReportedAsBudget | runtime_contracts/protocol/intelligence_registry.py:102-103 | either way it is reported as BUDGET_EXCEEDED |
| Acquisition.FoundIsCheapest | runtime_contracts/protocol/intelligence_registry.py:92-115 | every cheaper provider was called before and failed in a way that allows another try |
| Acquisition.StaysWithinIff | runtime_contracts/protocol/intelligence_registry.py:59-117 | honest providers keep every run within the budget, whatever they answer, exactly when the quotes affordable each on its own sum to no more |
| Acquisition.TwoQuotesOverspend | runtime_contracts/protocol/intelligence_registry.py:70-72 | two quotes of the whole budget are enough to overspend it |

## Left out

- Strings are sequences of characters without lone surrogates, which the source refuses.
- Decimal texts with non-ASCII digits, which Python's Decimal accepts and the model refuses; the special values by name.
- Parsing of JSON text: only what the package prints is read back; a log edited by hand into other spellings is not read.
- Infinite and not-a-number budgets and floats: seals start from the decimal text of a float.
- Limits of recursion depth other than the one of frozen JSON.
- The heap of `causal_order` is the list of its entries in the order it would pop them.
- Content hashes of programs, events and intents handed between modules are fields, not recomputed.
- `is_compatible_with`, capability validation and the semantic hash of a program: one branch each.
- `scan` of the evidence store, a filter over the same rows.
- Real files, partial writes, permissions, clocks and their text form.
- Envelope columns that are not strings: a row holding one is refused where the source keeps it untyped.
- The cross-field `validate` of qa records other than plan and manifest; reading an object stops at its fields, rules and hash.
- Regular expressions of rules: an arbitrary predicate on text.
- Set keys that are not strings; foreign dataclasses in records.
- Defaults of fields are taken as construction would leave them, not coerced again.
- Keyword construction from mixed lists of objects and JSON: values are given per field, as objects or as JSON.
- Additive.StructureSurvives: supposes no limit in canonical bytes on what shows the change; DocumentAcceptedIff says what such a limit does.
- `breaking_changes` goes through dicts in key order, and a protocol is its description: neither matters to whether anything is found.
- Token parsing of `records_read`: the counts are given.
- Renewal of leases and destruction of secret material.
- Lifecycle.PermittedIff: supposes distinct state ids, which a program does not check.
- IntentIdentity.SameFieldsIff: supposes that no two dimension names become one by normalising; of those that do, the source keeps the last in the order of insertion, the model the last in key order.
- `str` of a list or dict in a stored intent, which restoring refuses here.
- Proposals, derivations and refusals around an intent: records without an algorithm.
- Adapter and provider protocols, adversarial screening, golden generators, schema export, geospatial and decision-provider code.
