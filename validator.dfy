/** utilities/mroute_validator.py: the offline validator of a master routing
    record document, and its own choice of the routing that applies to a
    robot.  Reading the file, decoding JSON, printing and exit codes are not
    modelled; `is_http_url` (a wrapper around a URL parser) is a parameter. */
module Validator {
  import opened Outcome
  import opened Text
  import opened Json
  import opened StableSort
  import opened PyOrder
  import opened Parse
  import opened Routing

  /** One entry of the error list.  The source builds a message string for
      each; here each kind of message is a constructor carrying the location
      it names (a 1-based operation index, a 0-based record index). */
  datatype Issue =
    | OpNotObject(op: nat)
    | SeqInvalid(op: nat)
    | SeqDuplicate(op: nat, value: int)
    | SeqNotIncreasing(op: nat, prev: int, got: int)
    | NameInvalid(op: nat)
    | StandardWorkInvalid(op: nat)
    | OperationIdInvalid(op: nat)
    | RecordNotObject(record: nat)
    | VersionInvalid(record: nat)
    | EffectivityNotString(record: nat)
    | EffectivityInvalid(record: nat, cause: Error)
    | OperationsInvalid(record: nat)
    | EcoInvalid(record: nat)
    | ReleasedAtInvalid(record: nat)
    | ReleasedByInvalid(record: nat)
    | NotesInvalid(record: nat)
    | TopNotObject
    | SchemaVersionInvalid
    | RoutingListInvalid
    | NotCovered(robotId: string)
  {
    predicate IsSeqIssue()
    {
      SeqInvalid? || SeqDuplicate? || SeqNotIncreasing?
    }

    /** Issues `validate_operations` reports, located by operation. */
    predicate IsOpIssue()
    {
      OpNotObject? || IsSeqIssue() || NameInvalid? || StandardWorkInvalid? || OperationIdInvalid?
    }

    /** Issues `validate_record` reports about the record itself. */
    predicate IsRecordIssue()
    {
      || RecordNotObject? || VersionInvalid? || EffectivityNotString? || EffectivityInvalid?
      || OperationsInvalid? || EcoInvalid? || ReleasedAtInvalid? || ReleasedByInvalid? || NotesInvalid?
    }
  }

  // ---- the module's patterns ----

  /** SEMVER_RE is the parser's version pattern, `[0-9]+\.[0-9]+\.[0-9]+`, anchored. */
  predicate IsSemver(s: string)
  {
    EndAnchored(s, SemverCore).Some?
  }

  /** `[0-9]+\.[0-9]+` over a whole string that holds no newline. */
  function SchemaCore(s: string): Option<(string, string)>
  {
    var g := Split(s, '.');
    if |g| == 2 && g[0] != [] && g[1] != [] && AllDigits(g[0]) && AllDigits(g[1])
    then Some((g[0], g[1]))
    else None
  }

  /** SCHEMAVER_RE, anchored at both ends. */
  predicate IsSchemaVersion(s: string)
  {
    EndAnchored(s, SchemaCore).Some?
  }

  /** No '@' and no whitespace: the class `[^@\s]`. */
  predicate EmailChars(t: string)
  {
    forall i :: 0 <= i < |t| ==> t[i] != '@' && !IsSpace(t[i])
  }

  /** `[^@\s]+\.[^@\s]+`: a dot with at least one character on each side. */
  predicate DottedDomain(d: string)
  {
    EmailChars(d) && exists k :: 0 < k < |d| - 1 && d[k] == '.'
  }

  /** `[^@\s]+@[^@\s]+\.[^@\s]+` over a whole string: exactly one '@', with
      a non-empty local part before it and a dotted domain after it. */
  function EmailCore(s: string): Option<(string, string)>
  {
    var g := Split(s, '@');
    if |g| == 2 && g[0] != [] && EmailChars(g[0]) && DottedDomain(g[1]) then Some((g[0], g[1])) else None
  }

  /** EMAIL_RE, anchored at both ends. */
  predicate IsEmail(s: string)
  {
    EndAnchored(s, EmailCore).Some?
  }

  predicate AllLetters(s: string)
  {
    forall i :: 0 <= i < |s| ==> IsAsciiLetter(s[i])
  }

  /** `[A-Za-z]+-([0-9]{4})` over a whole string that holds no newline. */
  function RobotIdCore(s: string): Option<int>
  {
    if |s| >= 6 && AllLetters(s[..|s| - 5]) && s[|s| - 5] == '-' && FourDigitString(s[|s| - 4..])
    then Some(DecimalValue(s[|s| - 4..]))
    else None
  }

  // ---- the pure helpers ----

  /** `parse_effectivity`: the (start, end) of a `dddd-dddd` string whose
      start is not after its end; a ValueError otherwise. */
  function ParseEffectivity(eff: string): (r: Result<(int, int)>)
    ensures r.Ok? <==> Effectivity(eff).Some? && Effectivity(eff).value.0 <= Effectivity(eff).value.1
    ensures r.Ok? ==> r.value == Effectivity(eff).value
    ensures Effectivity(eff).None? ==> r == Err(EffectivityMalformed(eff))
    ensures r.Err? && Effectivity(eff).Some? ==> r == Err(EffectivityInverted(Effectivity(eff).value.0, Effectivity(eff).value.1))
  {
    match Effectivity(eff)
    case None => Err(EffectivityMalformed(eff))
    case Some(range) => if range.0 > range.1 then Err(EffectivityInverted(range.0, range.1)) else Ok(range)
  }

  /** `extract_robot_seq`: the four-digit number at the end of a robot id
      shaped letters, '-', four digits; a ValueError otherwise. */
  function ExtractRobotSeq(robotId: string): (r: Result<int>)
    ensures r.Ok? ==> 0 <= r.value <= 9999
    ensures r.Err? ==> r.error == RobotIdMalformed
  {
    match EndAnchored(robotId, RobotIdCore)
    case None => Err(RobotIdMalformed)
    case Some(n) => Ok(n)
  }

  /** `semver_tuple`: the three dot-separated parts read with `int()`, and
      (0, 0, 0) when there are not exactly three or one does not read. */
  function SemverTuple(v: string): (r: Triple)
    ensures var g := Split(v, '.');
      !(|g| == 3 && PyInt(g[0]).Some? && PyInt(g[1]).Some? && PyInt(g[2]).Some?) ==> r == (0, 0, 0)
  {
    var g := Split(v, '.');
    if |g| == 3 && PyInt(g[0]).Some? && PyInt(g[1]).Some? && PyInt(g[2]).Some?
    then (PyInt(g[0]).value, PyInt(g[1]).value, PyInt(g[2]).value)
    else (0, 0, 0)
  }

  // ---- validate_operations ----

  /** `isinstance(seq, int)`: booleans are integers in Python. */
  function SeqValue(j: Json): Option<int>
  {
    match j
    case JInt(i) => Some(i)
    case JBool(b) => Some(if b then 1 else 0)
    case _ => None
  }

  /** The sequence number of an operation object. */
  function SeqOf(op: Json): Option<int>
  {
    if op.JObj? then SeqValue(Get(op, "sequence")) else None
  }

  /** A sequence number the loop accepts and remembers: an integer >= 1. */
  predicate ValidSeq(op: Json)
  {
    SeqOf(op).Some? && SeqOf(op).value >= 1
  }

  /** The loop's variables: `errs`, `last_seq` and `seen_seq`. */
  datatype OpsState = OpsState(errs: seq<Issue>, last: int, seen: set<int>)

  /** The sequence checks for operation `i` whose sequence value is `sq`. */
  function SeqStep(st: OpsState, i: nat, sq: Option<int>): OpsState
  {
    match sq
    case None => st.(errs := st.errs + [SeqInvalid(i)])
    case Some(v) =>
      if v < 1 then st.(errs := st.errs + [SeqInvalid(i)])
      else
        var dup := if v in st.seen then [SeqDuplicate(i, v)] else [];
        var inc := if v <= st.last then [SeqNotIncreasing(i, st.last, v)] else [];
        OpsState(st.errs + dup + inc, if v > st.last then v else st.last, st.seen + {v})
  }

  /** `name.strip()` is non-empty: the name is a string that is not all
      whitespace (see `NameOkStrip`). */
  predicate NameOk(name: Json)
  {
    name.JStr? && !AllSpace(name.s)
  }

  /** Stripping leaves something exactly when the text is not all whitespace. */
  lemma NameOkStrip(s: string)
    ensures Strip(s) != [] <==> !AllSpace(s)
  {
    if AllSpace(s) {
      StripAllSpace(s);
    } else {
      var i, j :| 0 <= i <= j <= |s| && Strip(s) == s[i..j] && AllSpace(s[..i]) && AllSpace(s[j..]);
      if i == j {
        var k :| 0 <= k < |s| && !IsSpace(s[k]);
        if k < i { assert s[..i][k] == s[k]; } else { assert s[j..][k - j] == s[k]; }
      }
    }
  }

  predicate StandardWorkOk(sw: Json, isHttpUrl: string -> bool)
  {
    sw.JStr? && isHttpUrl(sw.s)
  }

  /** An optional string: absent, null or a string. */
  predicate OptionalString(j: Json)
  {
    j.JNull? || j.JStr?
  }

  /** The name, standard-work and operation-id checks of operation `i`. */
  function FieldIssues(i: nat, op: Json, isHttpUrl: string -> bool): seq<Issue>
    requires op.JObj?
  {
    (if NameOk(Get(op, "operationName")) then [] else [NameInvalid(i)])
    + (if StandardWorkOk(Get(op, "standardWork"), isHttpUrl) then [] else [StandardWorkInvalid(i)])
    + (if OptionalString(Get(op, "operationId")) then [] else [OperationIdInvalid(i)])
  }

  /** One turn of the loop, for operation number `i` (1-based). */
  function StepOp(st: OpsState, i: nat, op: Json, isHttpUrl: string -> bool): OpsState
  {
    if !op.JObj? then st.(errs := st.errs + [OpNotObject(i)])
    else
      var s := SeqStep(st, i, SeqOf(op));
      s.(errs := s.errs + FieldIssues(i, op, isHttpUrl))
  }

  /** The loop's variables after the given operations. */
  function RunOps(ops: seq<Json>, isHttpUrl: string -> bool): OpsState
  {
    if ops == [] then OpsState([], 0, {})
    else StepOp(RunOps(ops[..|ops| - 1], isHttpUrl), |ops|, ops[|ops| - 1], isHttpUrl)
  }

  /** The three field checks at the end of the loop body, each appending
      its error when it fails. */
  method CheckFields(loc: nat, op: Json, isHttpUrl: string -> bool) returns (errs: seq<Issue>)
    requires op.JObj?
    ensures errs == FieldIssues(loc, op, isHttpUrl)
  {
    errs := [];
    if !NameOk(Get(op, "operationName")) {
      errs := errs + [NameInvalid(loc)];
    }
    if !StandardWorkOk(Get(op, "standardWork"), isHttpUrl) {
      errs := errs + [StandardWorkInvalid(loc)];
    }
    if !OptionalString(Get(op, "operationId")) {
      errs := errs + [OperationIdInvalid(loc)];
    }
  }

  /** `validate_operations` as the code runs it. */
  method ValidateOperations(ops: seq<Json>, isHttpUrl: string -> bool) returns (errs: seq<Issue>)
    ensures errs == RunOps(ops, isHttpUrl).errs
  {
    errs := [];
    var lastSeq := 0;
    var seenSeq: set<int> := {};
    for i := 0 to |ops|
      invariant RunOps(ops[..i], isHttpUrl).errs == errs
      invariant RunOps(ops[..i], isHttpUrl).last == lastSeq
      invariant RunOps(ops[..i], isHttpUrl).seen == seenSeq
    {
      assert ops[..i + 1][..i] == ops[..i];
      var op := ops[i];
      var loc := i + 1;
      if !op.JObj? {
        errs := errs + [OpNotObject(loc)];
        continue;
      }
      ghost var before := OpsState(errs, lastSeq, seenSeq);
      var sq := SeqValue(Get(op, "sequence"));
      if sq.None? || sq.value < 1 {
        errs := errs + [SeqInvalid(loc)];
      } else {
        var v := sq.value;
        if v in seenSeq {
          errs := errs + [SeqDuplicate(loc, v)];
        }
        if v <= lastSeq {
          errs := errs + [SeqNotIncreasing(loc, lastSeq, v)];
        }
        seenSeq := seenSeq + {v};
        lastSeq := if v > lastSeq then v else lastSeq;
      }
      assert OpsState(errs, lastSeq, seenSeq) == SeqStep(before, loc, SeqOf(op));
      var fieldIssues := CheckFields(loc, op, isHttpUrl);
      errs := errs + fieldIssues;
      assert RunOps(ops[..i + 1], isHttpUrl) == StepOp(before, loc, op, isHttpUrl);
    }
    assert ops[..|ops|] == ops;
  }

  // ---- validate_record and validate_top_level ----

  function VersionIssues(rec: Json, idx: nat): seq<Issue>
    requires rec.JObj?
  {
    var version := Get(rec, "version");
    if version.JStr? && IsSemver(version.s) then [] else [VersionInvalid(idx)]
  }

  function EffectivityIssues(rec: Json, idx: nat): seq<Issue>
    requires rec.JObj?
  {
    var eff := Get(rec, "effectivity");
    if !eff.JStr? then [EffectivityNotString(idx)]
    else match ParseEffectivity(eff.s)
      case Ok(_) => []
      case Err(e) => [EffectivityInvalid(idx, e)]
  }

  function OperationsIssues(rec: Json, idx: nat, isHttpUrl: string -> bool): seq<Issue>
    requires rec.JObj?
  {
    var ops := Get(rec, "operations");
    if !ops.JArr? || ops.items == [] then [OperationsInvalid(idx)]
    else RunOps(ops.items, isHttpUrl).errs
  }

  function OptionalIssues(rec: Json, idx: nat): seq<Issue>
    requires rec.JObj?
  {
    var releasedBy := Get(rec, "releasedBy");
    (if OptionalString(Get(rec, "eco")) then [] else [EcoInvalid(idx)])
    + (if OptionalString(Get(rec, "releasedAt")) then [] else [ReleasedAtInvalid(idx)])
    + (if releasedBy.JNull? || (releasedBy.JStr? && IsEmail(releasedBy.s)) then [] else [ReleasedByInvalid(idx)])
    + (if OptionalString(Get(rec, "notes")) then [] else [NotesInvalid(idx)])
  }

  /** `validate_record`: a record that is not an object gets that one error;
      an object is checked field by field, in this order. */
  function ValidateRecord(rec: Json, idx: nat, isHttpUrl: string -> bool): (r: seq<Issue>)
    ensures !rec.JObj? ==> r == [RecordNotObject(idx)]
  {
    if !rec.JObj? then [RecordNotObject(idx)]
    else VersionIssues(rec, idx) + EffectivityIssues(rec, idx) + OperationsIssues(rec, idx, isHttpUrl) + OptionalIssues(rec, idx)
  }

  /** A non-empty list: the shape `masterRoutingRecord` must have. */
  predicate NonEmptyList(j: Json)
  {
    j.JArr? && j.items != []
  }

  /** `validate_top_level`: a non-object document gets that one error;
      otherwise the schema version must read `N.N` and the record list must
      be a non-empty list. */
  function ValidateTopLevel(doc: Json): (r: seq<Issue>)
    ensures !doc.JObj? ==> r == [TopNotObject]
    ensures r == [] <==> (doc.JObj? && Get(doc, "schemaVersion").JStr? && IsSchemaVersion(Get(doc, "schemaVersion").s)
                          && NonEmptyList(Get(doc, "masterRoutingRecord")))
    ensures forall k :: 0 <= k < |r| ==> r[k] in {TopNotObject, SchemaVersionInvalid, RoutingListInvalid}
  {
    if !doc.JObj? then [TopNotObject]
    else
      var sv := Get(doc, "schemaVersion");
      (if sv.JStr? && IsSchemaVersion(sv.s) then [] else [SchemaVersionInvalid])
      + (if NonEmptyList(Get(doc, "masterRoutingRecord")) then [] else [RoutingListInvalid])
  }

  // ---- applicable_record ----

  /** The rank `applicable_record` gives a record: `semver_tuple` of its
      version when that is a string, of "0.0.0" otherwise. */
  function AppRank(rec: Json): Triple
    requires rec.JObj?
  {
    var v := Get(rec, "version");
    SemverTuple(if v.JStr? then v.s else "0.0.0")
  }

  /** The record can be passed by the loop without raising: a dict, and not
      one whose well-formed effectivity starts after it ends. */
  predicate AppReadable(rec: Json)
  {
    && rec.JObj?
    && var eff := GetOr(rec, "effectivity", JStr(""));
       !(eff.JStr? && Effectivity(eff.s).Some? && Effectivity(eff.s).value.0 > Effectivity(eff.s).value.1)
  }

  /** The `candidates` list the loop builds, or the exception it raises.
      An effectivity that is not a string or not `dddd-dddd` skips the
      record; an inverted one raises, whether or not it would cover. */
  function AppCandidates(records: seq<Json>, n: int): Result<seq<(Triple, Json)>>
  {
    if records == [] then Ok([])
    else
      var init :- AppCandidates(records[..|records| - 1], n);
      var rec := records[|records| - 1];
      if !rec.JObj? then Err(AttributeError)
      else
        var eff := GetOr(rec, "effectivity", JStr(""));
        if !eff.JStr? || Effectivity(eff.s).None? then Ok(init)
        else
          var range :- ParseEffectivity(eff.s);
          if range.0 <= n <= range.1 then Ok(init + [(AppRank(rec), rec)]) else Ok(init)
  }

  /** `applicable_record`: the robot id's number first, then the covering
      records, then the one with the highest version; None when none covers. */
  function ApplicableRecord(records: seq<Json>, robotId: string): (r: Result<Option<Json>>)
    ensures ExtractRobotSeq(robotId).Err? ==> r == Err(RobotIdMalformed)
  {
    var n :- ExtractRobotSeq(robotId);
    var cands :- AppCandidates(records, n);
    if cands == [] then Ok(None)
    else
      var sorted := Sort(cands, VersionKey, TripleGreater);
      assert |sorted| == |multiset(sorted)| == |cands|;
      Ok(Some(sorted[0].1))
  }

  lemma {:induction false} AppCandidatesPrefixErr(records: seq<Json>, n: int, i: nat)
    requires i <= |records| && AppCandidates(records[..i], n).Err?
    ensures AppCandidates(records, n) == AppCandidates(records[..i], n)
    decreases |records| - i
  {
    if i == |records| {
      assert records[..i] == records;
    } else {
      assert records[..i + 1][..i] == records[..i];
      AppCandidatesPrefixErr(records, n, i + 1);
    }
  }

  /** `applicable_record` as the code runs it: a loop appending to
      `candidates`, the in-place descending sort, then its first entry. */
  method GetApplicableRecord(records: seq<Json>, robotId: string) returns (r: Result<Option<Json>>)
    ensures r == ApplicableRecord(records, robotId)
  {
    var seqNo := ExtractRobotSeq(robotId);
    if seqNo.Err? {
      return Err(seqNo.error);
    }
    var n := seqNo.value;
    var candidates: seq<(Triple, Json)> := [];
    for i := 0 to |records|
      invariant AppCandidates(records[..i], n) == Ok(candidates)
    {
      var rec := records[i];
      assert records[..i + 1][..i] == records[..i];
      if !rec.JObj? {
        AppCandidatesPrefixErr(records, n, i + 1);
        return Err(AttributeError);
      }
      var eff := GetOr(rec, "effectivity", JStr(""));
      if !eff.JStr? || Effectivity(eff.s).None? {
        continue;
      }
      var range := ParseEffectivity(eff.s);
      if range.Err? {
        AppCandidatesPrefixErr(records, n, i + 1);
        return Err(range.error);
      }
      var (a, b) := range.value;
      if a <= n <= b {
        candidates := candidates + [(AppRank(rec), rec)];
      }
    }
    assert records[..|records|] == records;
    if candidates == [] {
      return Ok(None);
    }
    candidates := Sort(candidates, VersionKey, TripleGreater);
    assert |candidates| == |multiset(candidates)|;
    return Ok(Some(candidates[0].1));
  }

  // ---- validate_document ----

  /** The per-record errors, record by record in index order. */
  function RecordsIssues(records: seq<Json>, isHttpUrl: string -> bool): seq<Issue>
  {
    if records == [] then []
    else RecordsIssues(records[..|records| - 1], isHttpUrl) + ValidateRecord(records[|records| - 1], |records| - 1, isHttpUrl)
  }

  lemma RecordsIssuesSnoc(records: seq<Json>, idx: nat, isHttpUrl: string -> bool)
    requires idx < |records|
    ensures RecordsIssues(records[..idx + 1], isHttpUrl)
         == RecordsIssues(records[..idx], isHttpUrl) + ValidateRecord(records[idx], idx, isHttpUrl)
  {
    assert records[..idx + 1][..idx] == records[..idx];
  }

  lemma AppendAssoc<T>(a: seq<T>, b: seq<T>, c: seq<T>)
    ensures a + b + c == a + (b + c)
  {
  }

  /** The record list, when the document is an object holding a list. */
  function RecordList(doc: Json): Json
  {
    if doc.JObj? then Get(doc, "masterRoutingRecord") else JNull
  }

  /** `validate_document` with `robot_id` as a string ("" when not given):
      the error list and the chosen record, or the exception raised while
      choosing. */
  function DocumentReport(doc: Json, robotId: string, isHttpUrl: string -> bool): Result<(seq<Issue>, Option<Json>)>
  {
    var top := ValidateTopLevel(doc);
    var mrr := RecordList(doc);
    if !mrr.JArr? then Ok((top, None))
    else
      var errs := top + RecordsIssues(mrr.items, isHttpUrl);
      if robotId == [] then Ok((errs, None))
      else
        var chosen :- ApplicableRecord(mrr.items, robotId);
        if chosen.Some? && Truthy(chosen.value) then Ok((errs, chosen))
        else Ok((errs + [NotCovered(robotId)], chosen))
  }

  /** `validate_document` as the code runs it. */
  method ValidateDocument(doc: Json, robotId: string, isHttpUrl: string -> bool) returns (r: Result<(seq<Issue>, Option<Json>)>)
    ensures r == DocumentReport(doc, robotId, isHttpUrl)
  {
    var errs := ValidateTopLevel(doc);
    var chosen: Option<Json> := None;
    var mrr := RecordList(doc);
    if mrr.JArr? {
      var records := mrr.items;
      var top := errs;
      for idx := 0 to |records|
        invariant errs == top + RecordsIssues(records[..idx], isHttpUrl)
      {
        RecordsIssuesSnoc(records, idx, isHttpUrl);
        AppendAssoc(top, RecordsIssues(records[..idx], isHttpUrl), ValidateRecord(records[idx], idx, isHttpUrl));
        errs := errs + ValidateRecord(records[idx], idx, isHttpUrl);
      }
      assert records[..|records|] == records;
      if robotId != [] {
        var picked := GetApplicableRecord(records, robotId);
        if picked.Err? {
          return Err(picked.error);
        }
        chosen := picked.value;
        if !(chosen.Some? && Truthy(chosen.value)) {
          errs := errs + [NotCovered(robotId)];
        }
      }
    }
    return Ok((errs, chosen));
  }
}
