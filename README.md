# Robot record resolution and history reconstruction, in Dafny

This project models the core of brain-bot-factory, a small Jira-backed service
for a robot production line. A robot is identified on the floor by the RIN
printed in its QR code. The service maps that RIN to the robot's id (such as
`JAG-0007`), picks the production routing that applies to the robot from the
Master Routing Record, and rebuilds the robot's event history from the comments
on its Jira issue. A separate command-line validator checks a Master Routing
Record document before it is uploaded.

The Jira documents are JSON, modelled by the `Json` datatype (`json.dfy`). Python's
`dict.get`, truthiness and `str()` are functions on it. Every exception the code
can raise is an `Error` constructor inside a `Result` (`outcome.dfy`). Text is
`seq<char>`. Python's string operations are written out in `text.dfy`:
`str.isspace`, `strip`, `split`, `join`, `replace` and the leniency of `int()`.
The sort the code calls (`list.sort` with a key, stable, optionally reversed) is
specified once as a stable insertion sort in `stablesort.dfy`. Its proved
properties are that it sorts, permutes, and keeps equal keys in order. Tuple and
string comparison are in `order.dfy`.

One module per source file:

- `Parse` (`jira_tools/utils/parse.py`): `parse_semver` and `parse_robot_pid`.
  Python's `$` also matches before a final newline, and the model keeps that
  corner exactly.
- `Adf` (`jira_tools/adf.py`):
  - building a comment body, and flattening an Atlassian Document Format tree
    to text;
  - the recursive `text_from_node` and its `buf` loop are methods proved against
    a function;
  - the `while "\n\n\n" in out` loop is proved equal to a one-pass squeeze;
  - a tree of dicts with hashable types, string texts and list contents
    flattens without raising, whatever its node types are;
  - round trip: a comment posted with `build_adf_comment_body(t)` reads back as
    exactly `t` when `t` has no edge whitespace and no triple newline.
- `Routing` (`jira_tools/services/routing.py`): `get_master_routing` and
  `get_routing_for`. The chosen routing covers the robot, has the highest
  version among the covering routings, and is the earliest of equal versions.
  A robot id without four final digits fails first. With a well-formed id and
  a catalog whose entries are all dicts with a string (or absent)
  effectivity, the lookup fails exactly when no routing covers the robot.
- `Events` (`jira_tools/services/events.py`): the heading and field patterns,
  stated and proved exactly, line by line. Also the fixed eight-field event
  schema, and the history:
  - sorted by timestamp;
  - a permutation of the built events;
  - stable among equal timestamps.
- `RobotLookup` and `AccessRobot` (`jira_tools/services/robot_lookup.py`,
  `jira_tools/services/access_robot.py`): RIN to robot id, with each error path.
- `Validator`, `ValidatorOps` and `ValidatorFacts` (`utilities/mroute_validator.py`):
  - the validator's patterns and checks, and the order of its error list;
  - when a record or a document is valid, as if-and-only-if lemmas;
  - which record `applicable_record` chooses.
- `Agreement`: the validator and the service choose their routing record with
  separate code. On a document the validator accepts, the lemmas prove both
  pick the same record.

Behaviour of the code that the model keeps, though a reader might not expect it:

- `applicable_record` calls `parse_effectivity` on every well-formed effectivity,
  covering or not. So with `--robot-id`, one record whose start is after its end
  makes `validate_document` raise. The errors already collected are lost
  (`ValidatorFacts.InvertedEffectivityEscapes`).
- `get_routing_for` compares tuples from `parse_semver(str(version))`, so
  `"1.10.0"` ranks above `"1.9.0"`. Any version that is not `X.Y.Z` ranks
  `(0, 0, 0)`.
- `validate_operations` accepts `True` as sequence 1, because a Python `bool`
  is an `int`.
- Sequence numbers may repeat across the whole list. A repeat is reported twice:
  once as a duplicate and once as not increasing
  (`ValidatorOps.DuplicateReported`).
- An event's `eventType` field line, when present, overrides the heading's token.
- `parse_robot_pid` reads the last four digits of any longer run of digits, so
  `JAG-12345` gives 2345 (`Parse.ParseRobotPidExamples`). It also accepts one
  final newline after the digits.
- `get_routing_for` skips only a string effectivity that does not match. A
  non-string effectivity raises TypeError, and a non-dict entry raises
  AttributeError, even when another entry covers the robot
  (`Routing.CandidatesError`).

## Model

| member | source | states |
|---|---|---|
| Parse.ParseSemver | jira_tools/utils/parse.py:7-18 | the three parts are never negative |
| Parse.ParseSemverFallback | jira_tools/utils/parse.py:15-17 | every input that is not `a.b.c` of digit runs, nor that followed by one newline, gives (0, 0, 0) |
| Parse.SemverCoreExactly | jira_tools/utils/parse.py:5 | the version pattern matches exactly the strings `a.b.c` of three non-empty digit runs |
| Parse.ParseSemverOf | jira_tools/utils/parse.py:5-18 | `a.b.c`, with or without one final newline, parses to the three decimal values |
| Parse.SemverCoreNewline | jira_tools/utils/parse.py:5 | the core pattern rejects a version followed by a newline, so only `$` lets that newline through |
| Parse.ParseSemverExample | jira_tools/utils/parse.py:7-18 | "01.2.3" gives (1, 2, 3): the leading zero is dropped |
| Parse.ParseSemverEmpty | jira_tools/utils/parse.py:7-18 | the empty string gives (0, 0, 0) |
| Parse.ParseRobotPid | jira_tools/utils/parse.py:20-29 | succeeds iff the id ends in four digits (or in four digits and one newline); the value is the decimal value of the four digits before the end, or before the final newline, in 0..9999; otherwise the ValueError naming the id |
| Parse.ParseRobotPidExamples | jira_tools/utils/parse.py:20-29 | "JAG-0007" gives 7, "JAG-12345" gives 2345, "JAG-07" fails |
| Adf.ContentItems | jira_tools/adf.py:43 | `content or []` iterates the list, nothing for a falsy value, and raises for any other truthy value |
| Adf.AllOk | jira_tools/adf.py:43-44 | a loop stopping at the first exception: all values in order, or the first error with every earlier step successful |
| Adf.JoinStr | jira_tools/adf.py:45 | `"".join` succeeds iff every piece is a string, and then is their concatenation; otherwise TypeError |
| Adf.ReplaceTriples | jira_tools/adf.py:59 | one `replace` pass never lengthens the text, and shortens it when a triple newline is present |
| Adf.SqueezeReplace | jira_tools/adf.py:58-59 | a `replace` pass does not change the squeezed text (the loop's invariant) |
| Adf.SqueezeNoTriple | jira_tools/adf.py:58 | the squeezed text has no triple newline (the loop's exit condition) |
| Adf.SqueezeRun | jira_tools/adf.py:58-59 | a run of k newlines between other characters becomes min(k, 2) newlines |
| Adf.NodeTextsPrefixErr | jira_tools/adf.py:43-44 | once a child raises, the later children do not matter |
| Adf.TextFromNode | jira_tools/adf.py:35-50 | the recursive `text_from_node` with its `buf` loop returns what `NodeText` specifies |
| Adf.BlockTexts | jira_tools/adf.py:52-53 | the block loop collects each block's text in order, or the first exception |
| Adf.CollapseNewlines | jira_tools/adf.py:57-59 | the `while` loop ends with the squeezed text, which holds no triple newline |
| Adf.AdfToText | jira_tools/adf.py:21-60 | `adf_to_text` as written returns what `AdfText` specifies |
| Adf.BlockFailureFails | jira_tools/adf.py:52-55 | one block whose text raises makes the whole flattening raise |
| Adf.AdfTextClean | jira_tools/adf.py:57-60 | every flattened text has no edge whitespace and no triple newline |
| Adf.ParagraphText | jira_tools/adf.py:47-49 | a paragraph's text ends with exactly one added newline unless it already ends with one |
| Adf.LineNodeText | jira_tools/adf.py:42-50 | a `paragraph` or `heading` node's text is its children's texts joined, with a newline added only when that text lacks one, so it always ends in a newline |
| Adf.WellFormedNodeText | jira_tools/adf.py:25-50 | a node whose dicts, hashable types, string texts and list contents are well formed flattens to a string, whatever its type names: unrecognised types never raise |
| Adf.WellFormedContentTexts | jira_tools/adf.py:42-45 | the children of well-formed content all flatten, and their join succeeds |
| Adf.WellFormedDocFlattens | jira_tools/adf.py:25-60 | `adf_to_text` never raises on a doc whose content is well formed |
| Adf.BuildThenFlatten | jira_tools/adf.py:4-60 | flattening the body built for `t` gives `t` back iff `t` has no edge whitespace and no triple newline |
| Adf.TwoParagraphs | jira_tools/adf.py:52-60 | two one-line paragraphs flatten to the lines joined by one newline |
| Adf.DescriptionExample | tests/test_jira_client.py:69-70 | the two-line description of the test issue flattens to the expected text |
| Adf.ParseAdfComment | jira_tools/adf.py:62-76 | AttributeError for a non-dict comment or author; the flattening's error; otherwise the metadata and the flattened body text |
| Adf.ParseAdfDescription | jira_tools/adf.py:78-83 | "" for falsy fields, AttributeError for non-dict fields, else the flattened `fields.description` |
| Adf.PostedCommentReadBack | jira_tools/adf.py:4-76 | a comment posted with `build_adf_comment_body(t)` parses, with text `t` iff `t` is clean, and absent metadata reads as None |
| Adf.TestCommentExample | tests/test_jira_client.py:88-94 | "testComment1" posted and read back is "testComment1" |
| Adf.TestDescriptionExample | tests/test_jira_client.py:69-70 | `parse_adf_description` of the test issue gives its two lines |
| Routing.MasterRouting | jira_tools/services/routing.py:9-15 | succeeds iff the attachment holds a non-empty `masterRoutingRecord` list, returning it; otherwise the ValueError, or AttributeError for a truthy non-dict |
| Routing.Effectivity | jira_tools/services/routing.py:7 | a matched range has two values in 0..9999 |
| Routing.EffectivityOf | jira_tools/services/routing.py:7 | `dddd-dddd`, with or without a final newline, matches with the two decimal values |
| Routing.EffectivityShape | jira_tools/services/routing.py:7 | every matched effectivity has that shape |
| Routing.Covering | jira_tools/services/routing.py:37-45 | every collected entry covers the number and comes from the catalog |
| Routing.RoutingFor | jira_tools/services/routing.py:17-53 | a pid without four final digits fails before any entry is read |
| Routing.GetRoutingFor | jira_tools/services/routing.py:17-53 | the loop, the emptiness check and the sort return what `RoutingFor` specifies |
| Routing.CandidatesOk | jira_tools/services/routing.py:37-42 | the loop raises iff some entry is not a dict or has a non-string effectivity |
| Routing.CandidatesValue | jira_tools/services/routing.py:37-45 | otherwise it collects exactly the covering entries, in order, each with its version rank |
| Routing.CandidatesError | jira_tools/services/routing.py:37-42 | the error is the first unreadable entry's: AttributeError for a non-dict, TypeError for a non-string effectivity |
| Routing.CoveringHas | jira_tools/services/routing.py:37-45 | every covering entry is collected |
| Routing.ChosenFromCovering | jira_tools/services/routing.py:50-53 | the result is the first collected entry of the highest rank |
| Routing.HeadOfTagged | jira_tools/services/routing.py:50-53 | the head of the descending stable sort is the first entry of the highest rank |
| Routing.RoutingForMaximal | jira_tools/services/routing.py:17-53 | the chosen routing covers the robot and no covering routing has a higher version |
| Routing.RoutingForEarliest | jira_tools/services/routing.py:50-53 | the chosen routing sits in the catalog after no covering routing of the same version |
| Routing.RoutingForOutcome | jira_tools/services/routing.py:31-48 | with a readable catalog, success iff some routing covers the robot, else the LookupError; an unreadable entry raises AttributeError or TypeError |
| Routing.NonStringVersionRanksZero | jira_tools/services/routing.py:44-45 | a missing or non-string version ranks (0, 0, 0) |
| Routing.ZeroVersion | jira_tools/services/routing.py:44 | the default version "0.0.0" ranks (0, 0, 0) |
| Routing.NoDotNoVersion | jira_tools/utils/parse.py:5 | text without a dot is not a version |
| Routing.PickOfTwo | jira_tools/services/routing.py:17-53 | of two readable routings, the second of higher version, the second is chosen iff it covers the robot |
| Routing.OverlappingRangesExample | jira_tools/services/routing.py:17-53 | 1.0.0 over 0001-0200 and 2.0.0 over 0050-0100: robot 75 gets 2.0.0, robot 150 gets 1.0.0 |
| Routing.WorkedEntries | jira_tools/services/routing.py:38-45 | the example entries' ranks and which robots they cover |
| Events.WithField | jira_tools/services/events.py:47-51 | setting one field changes that field and no other |
| Events.Position | jira_tools/services/events.py:13-22 | every field has a place in the schema list |
| Events.SchemaComplete | jira_tools/services/events.py:13-22 | the schema lists every field exactly once |
| Events.Entries | jira_tools/services/events.py:13-22 | an event reads as eight keys in schema order, `operatorComment` last |
| Events.HeadingTokenExactly | jira_tools/services/events.py:6 | a line is a heading with token T iff it is whitespace, 1 to 6 '#', whitespace, T of `[A-Z_]+`, whitespace |
| Events.PartsOfHeading | jira_tools/services/events.py:6 | a recognised heading line has those parts |
| Events.HeadingOfParts | jira_tools/services/events.py:6 | those parts make a heading line with that token |
| Events.FieldEntryExactly | jira_tools/services/events.py:8-11 | a line is a field with key K and value V iff it is whitespace, a bullet, whitespace, K (`[A-Za-z]\w*`), whitespace, ':', and a rest that strips to V |
| Events.PartsOfField | jira_tools/services/events.py:8-11 | a recognised field line has those parts |
| Events.FieldOfParts | jira_tools/services/events.py:8-11 | those parts make a field line with that key and value |
| Events.FirstHeadingMeaning | jira_tools/services/events.py:37-40 | the search finds a token iff some line is a heading, and it is the first heading line's |
| Events.ParseFields | jira_tools/services/events.py:42-44 | the `finditer` loop fills the dict `FieldMap` specifies |
| Events.CollectLastWins | jira_tools/services/events.py:43-44 | a key is present iff some entry gives it, and its value is from the last entry giving it |
| Events.CollectHas | jira_tools/services/events.py:43-44 | a key is collected iff some entry gives it |
| Events.CollectLast | jira_tools/services/events.py:43-44 | a collected key holds the value of the last entry giving it |
| Events.FieldMapLastWins | jira_tools/services/events.py:42-44 | a key is parsed iff some field line gives it, with the last such line's value |
| Events.MakeEvent | jira_tools/services/events.py:46-51 | each schema field is the parsed value when given, else the heading token for `eventType`, else None |
| Events.BuildEvent | jira_tools/services/events.py:46-51 | the build loop makes the event `MakeEvent` specifies |
| Events.Built | jira_tools/services/events.py:31-52 | at most one event per comment |
| Events.GetEventHistoryFor | jira_tools/services/events.py:24-57 | the comment loop and sort return what `EventHistory` specifies |
| Events.EventOfExists | jira_tools/services/events.py:33-39 | a comment yields an event iff its normalised text is non-empty and has a heading line |
| Events.EventOfLinesFields | jira_tools/services/events.py:40-51 | the event's type is the `eventType` field if given, else the first heading's token; every other field is the parsed value or None |
| Events.HistorySorted | jira_tools/services/events.py:56 | the history is ordered by timestamp string |
| Events.HistoryPermutation | jira_tools/services/events.py:56 | the history holds exactly the built events |
| Events.HistoryStable | jira_tools/services/events.py:56 | events with equal timestamps keep their comment order |
| Events.NoTimestampFirst | jira_tools/services/events.py:56 | events without a timestamp come before all others |
| Events.BareHeading | jira_tools/services/events.py:6 | a heading needs no surrounding whitespace |
| Events.BareField | jira_tools/services/events.py:8-11 | a field line needs no leading whitespace and no space before the colon |
| Events.NotFieldLine | jira_tools/services/events.py:8-11 | a line starting with neither whitespace nor a bullet is not a field line |
| Events.HeadingLineToken | jira_tools/services/events.py:6-11 | `## TOKEN` is a heading and not a field line |
| Events.StampLineEntry | jira_tools/services/events.py:8-11 | `- timestamp: S` is the field timestamp with value S |
| Events.EventTextNormal | jira_tools/services/events.py:33 | an event comment is unchanged by the normalisation |
| Events.EventTextEvent | jira_tools/services/events.py:31-52 | a heading plus a timestamp line yields that type and timestamp, other fields None |
| Events.StampOnlyEvent | jira_tools/services/events.py:46-51 | with only a timestamp parsed, every other field but the type is None |
| Events.CompleteHistory | tests/test_jira_client.py:83-84 | a record holding one OPERATION_COMPLETE comment has a history starting with that event type |
| RobotLookup.Rin | jira_tools/services/robot_lookup.py:14-16 | succeeds iff the payload has a truthy `rin`; else AttributeError for a truthy non-dict payload, or the missing-RIN error |
| RobotLookup.LookupRobotPid | jira_tools/services/robot_lookup.py:4-25 | payload errors first, then the non-empty-record error, then success iff the RIN is a key, with `str()` of its value |
| RobotLookup.PayloadFirst | jira_tools/services/robot_lookup.py:14-18 | a bad payload fails the same way whatever the record holds |
| RobotLookup.LookupAfterInsert | jira_tools/services/robot_lookup.py:21-25 | a RIN added to the record looks up to its id |
| RobotLookup.LookupExample | tests/test_jira_client.py:80-81 | the test robot's RIN maps to JAG-0666 |
| AccessRobot.LookupRobot | jira_tools/services/access_robot.py:5-22 | the same lookup over the first JSON attachment: success iff the RIN is a non-empty string key of a non-empty record |
| AccessRobot.LookupRobotExample | jira_tools/services/access_robot.py:5-10 | RIN BC033W000008NH maps to JAG-0007 |
| Text.Strip | jira_tools/adf.py:60 | `strip()` leaves the middle of the text between two all-whitespace edges, with no whitespace at either end |
| Text.PyInt | utilities/mroute_validator.py:152 | `int()` reads a non-empty run of digits as its decimal value |
| StableSort.SortSorted | jira_tools/services/routing.py:51 | the sort orders by its key |
| StableSort.SortStable | jira_tools/services/events.py:56 | the sort keeps equal keys in their original order |
| StableSort.SortHead | jira_tools/services/routing.py:51-53 | after a descending sort the head has the greatest key and is the first element with that key |
| PyOrder.TripleGreaterStrictTotal | jira_tools/services/routing.py:51 | tuple comparison of version triples is a strict total order |
| PyOrder.LexLessStrictTotal | jira_tools/services/events.py:56 | string comparison of timestamps is a strict total order |
| Validator.ParseEffectivity | utilities/mroute_validator.py:41-48 | succeeds iff the pattern matches and start <= end, with the two values; a mismatch and an inverted range raise distinct errors |
| Validator.ExtractRobotSeq | utilities/mroute_validator.py:50-54 | the number is in 0..9999; failure is the robot-id error |
| Validator.SemverTuple | utilities/mroute_validator.py:150-155 | anything that does not split into three `int()`-readable parts gives (0, 0, 0) |
| Validator.NameOkStrip | utilities/mroute_validator.py:78 | `name.strip()` is empty iff the name is all whitespace |
| Validator.CheckFields | utilities/mroute_validator.py:77-87 | the name, standard-work and operation-id checks append what `FieldIssues` specifies |
| Validator.ValidateOperations | utilities/mroute_validator.py:56-89 | the loop over operations returns what `RunOps` specifies |
| Validator.ValidateRecord | utilities/mroute_validator.py:94-95 | a non-object record gets exactly one error |
| Validator.ValidateTopLevel | utilities/mroute_validator.py:135-148 | no error iff the document is an object with an `N.N` schema version and a non-empty record list; only top-level errors |
| Validator.ApplicableRecord | utilities/mroute_validator.py:157-177 | a malformed robot id fails before any record is read |
| Validator.GetApplicableRecord | utilities/mroute_validator.py:157-177 | the loop and sort return what `ApplicableRecord` specifies |
| Validator.ValidateDocument | utilities/mroute_validator.py:179-192 | the record loop and the coverage check return what `DocumentReport` specifies |
| ValidatorOps.SeqIssues | utilities/mroute_validator.py:66-75 | sequence errors point at the operation being checked |
| ValidatorOps.StepIssues | utilities/mroute_validator.py:60-87 | each operation's errors point at that operation |
| ValidatorOps.RunOpsMemory | utilities/mroute_validator.py:58-75 | `last_seq` is 0 or the largest valid sequence so far; `seen_seq` holds every valid sequence so far, and only numbers in 1..last_seq |
| ValidatorOps.NoSeqIssuesIff | utilities/mroute_validator.py:66-75 | no sequence error iff every object operation has a valid sequence greater than all earlier ones |
| ValidatorOps.AboveAllIffAboveLast | utilities/mroute_validator.py:72-75 | exceeding `last_seq` is the same as exceeding every earlier valid sequence |
| ValidatorOps.DuplicateReported | utilities/mroute_validator.py:70-73 | a repeated sequence is reported both as a duplicate and as not increasing |
| ValidatorOps.IssueKept | utilities/mroute_validator.py:56-89 | errors are only appended, never removed |
| ValidatorOps.RunOpsLocations | utilities/mroute_validator.py:60-61 | every error names an operation between 1 and the count |
| ValidatorOps.IssuesOfOperation | utilities/mroute_validator.py:60-87 | the errors naming operation i are exactly those its turn of the loop appended |
| ValidatorOps.NonObjectOperation | utilities/mroute_validator.py:62-64 | a non-object operation gets exactly one error and no field errors |
| ValidatorOps.AbsentOperationId | utilities/mroute_validator.py:85-87 | a missing operation id is never reported |
| ValidatorOps.StepOnlySeqIssues | utilities/mroute_validator.py:77-87 | an operation gets no field error iff it is an object with a non-blank name, an http(s) standard-work URL and a string or absent id |
| ValidatorOps.OnlySeqIssuesIff | utilities/mroute_validator.py:56-89 | the only errors are sequence errors iff every operation is well formed |
| ValidatorOps.OpsValidIff | utilities/mroute_validator.py:56-89 | no error iff the sequences strictly increase and every operation is well formed |
| ValidatorFacts.ParseEffectivityOf | utilities/mroute_validator.py:41-48 | `dddd-dddd` reads as its two numbers when ordered, and raises as inverted otherwise |
| ValidatorFacts.ParseEffectivityShape | utilities/mroute_validator.py:41-48 | every accepted effectivity has that shape |
| ValidatorFacts.ParseEffectivityExamples | utilities/mroute_validator.py:41-48 | "0001-0200" gives (1, 200); "0200-0100" is inverted; "1-2" is malformed |
| ValidatorFacts.ExtractRobotSeqOf | utilities/mroute_validator.py:50-54 | letters, '-', four digits give the digits' value |
| ValidatorFacts.ExtractRobotSeqShape | utilities/mroute_validator.py:50-54 | every accepted robot id has that shape |
| ValidatorFacts.ExtractRobotSeqExamples | utilities/mroute_validator.py:50-54 | "JAG-0007" gives 7; "JAG-12345" and "0007" are refused |
| ValidatorFacts.RobotIdPidAgree | utilities/mroute_validator.py:50-54 | on every id the validator accepts, the service's `parse_robot_pid` reads the same number |
| ValidatorFacts.PyIntDigits | utilities/mroute_validator.py:152 | `int()` reads digits, with or without a trailing newline |
| ValidatorFacts.SemverTupleOf | utilities/mroute_validator.py:150-155 | `a.b.c` gives the three decimal values |
| ValidatorFacts.SemverTupleAgrees | utilities/mroute_validator.py:150-155 | on every version the validator accepts, `semver_tuple` equals the service's `parse_semver` |
| ValidatorFacts.SemverTupleZero | utilities/mroute_validator.py:170 | the stand-in "0.0.0" ranks (0, 0, 0) |
| ValidatorFacts.SemverTupleTwoParts | utilities/mroute_validator.py:150-155 | "1.2" ranks (0, 0, 0) |
| ValidatorFacts.AppRankNonString | utilities/mroute_validator.py:170-171 | a missing or non-string version ranks (0, 0, 0) |
| ValidatorFacts.SchemaVersionOf | utilities/mroute_validator.py:26 | `N.N` is a schema version |
| ValidatorFacts.SemverIsNotSchemaVersion | utilities/mroute_validator.py:26 | a three-part version is not a schema version |
| ValidatorFacts.EmailOf | utilities/mroute_validator.py:28 | a local part, '@' and a dotted domain make an address |
| ValidatorFacts.NoAtNoEmail | utilities/mroute_validator.py:28 | text without '@' is not an address |
| ValidatorFacts.RecordValidIff | utilities/mroute_validator.py:91-133 | a record gets no error iff it passes every field check |
| ValidatorFacts.RecordIssuesLocated | utilities/mroute_validator.py:91-133 | every record error names that record or one of its operations |
| ValidatorFacts.AbsentOptionalFields | utilities/mroute_validator.py:116-131 | absent optional fields are never reported |
| ValidatorFacts.AppCandidatesOk | utilities/mroute_validator.py:164-171 | the loop raises iff some record is not a dict or has an inverted well-formed effectivity |
| ValidatorFacts.AppCandidatesError | utilities/mroute_validator.py:164-171 | the error is AttributeError, or the inverted range when all records are dicts |
| ValidatorFacts.AppCandidatesValue | utilities/mroute_validator.py:164-171 | otherwise it collects exactly the covering records, in order, with their ranks |
| ValidatorFacts.AppHeadOfTagged | utilities/mroute_validator.py:174-177 | the head of the descending stable sort is the first record of the highest rank |
| ValidatorFacts.ApplicableOutcome | utilities/mroute_validator.py:162-177 | with readable records, None iff no record covers the robot; otherwise it raises |
| ValidatorFacts.ApplicableChosen | utilities/mroute_validator.py:169-177 | the chosen record covers the robot, has the highest version, and is the earliest of that version |
| ValidatorFacts.ChosenTruthy | utilities/mroute_validator.py:189 | a chosen record is never falsy, so `not chosen` means none applied |
| ValidatorFacts.DocumentNotObject | utilities/mroute_validator.py:179-192 | a non-object document gets exactly one error and no choice |
| ValidatorFacts.RecordsIssuesEmpty | utilities/mroute_validator.py:184-185 | the record loop adds no error iff every record passes |
| ValidatorFacts.RecordsIssuesWellFormed | utilities/mroute_validator.py:184-185 | the record loop adds no error iff every record is well formed |
| ValidatorFacts.DocumentValidIff | utilities/mroute_validator.py:179-192 | no error iff the top level is valid, every record is well formed and, with a robot id, some record applies |
| ValidatorFacts.RecordsIssuesOrdered | utilities/mroute_validator.py:184-185 | record errors come in record order |
| ValidatorFacts.DocumentOrder | utilities/mroute_validator.py:179-192 | errors are top-level first, then by record in order, then at most one coverage error, last |
| ValidatorFacts.InvertedEffectivityEscapes | utilities/mroute_validator.py:168 | with a robot id, one inverted effectivity among object records makes validation raise |
| Agreement.RankAgrees | utilities/mroute_validator.py:170-171 | a well-formed record ranks the same under `semver_tuple` and `parse_semver(str(...))` |
| Agreement.CandidatesAgree | utilities/mroute_validator.py:164-171 | on well-formed records both loops succeed and collect the same candidates |
| Agreement.ChoiceAgrees | utilities/mroute_validator.py:157-177 | for a valid robot id, `applicable_record` returns the routing `get_routing_for` returns, and None exactly when it finds none |
| Agreement.ValidDocumentRoutes | utilities/mroute_validator.py:179-192 | a document valid for a robot names the routing the service gives that robot |

## Left out

- Jira access is left out: HTTP, credentials, the Flask app and the Jira client.
  The documents they fetch are parameters: the attachment, the comments, the
  robot record.
- `delete_last_comment` and the other client calls are not part of this model.
- The validator's `main` and `show_json_parse_error` are left out: file reading,
  JSON parsing, printing and exit codes are I/O. The validity decision behind
  the exit code is the empty error list (`ValidatorFacts.DocumentValidIff`).
- `is_http_url` (`urlparse`) is a parameter `isHttpUrl` of the validator's
  functions.
- Validator.ValidateRecord: the issue messages are abstracted. Each message is
  a constructor carrying the location it names, not its formatted text.
- Validator.NameOkStrip: `not name.strip()` is modelled as "all whitespace";
  the lemma proves the two equivalent.
- JSON floats are left out. `Json` has only integers, so `1.0` as a sequence
  number cannot be expressed.
- `\d` and `\w` are taken as ASCII. Python also matches other Unicode digits and
  letters.
- `str()` of a list or object gives a placeholder text. It starts with the same
  bracket, but it is not Python's exact rendering.
- Events.FieldEntryExactly: the event patterns are applied line by line. A
  `\s*` that runs across a line break in `re.MULTILINE` mode is not modelled.
- Events.HeadingTokenExactly, Events.FirstHeadingMeaning, Events.EventOfExists:
  the heading search is line-based too. `#\s*` can span a line break in Python,
  so "#\nFOO" is an event there and not in the model.
- Events.Built: comment text is the already-parsed `ParsedComment` text. The
  `c.get("body")` fallback is unreachable for those comments, and is left out.
