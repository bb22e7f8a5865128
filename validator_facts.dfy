/** What the validator in utilities/mroute_validator.py promises: the
    patterns it accepts, when a record and a document pass, which record it
    chooses for a robot, and the order of its error list. */
module ValidatorFacts {
  import opened Outcome
  import opened Text
  import opened Json
  import opened StableSort
  import opened PyOrder
  import opened Parse
  import opened Routing
  import opened Validator
  import opened ValidatorOps

  // ---- parse_effectivity ----

  /** `dddd-dddd` (with the final newline `$` allows) reads as its two
      numbers when the first is not larger, and is refused as inverted
      otherwise. */
  lemma ParseEffectivityOf(x: string, y: string, newline: bool)
    requires FourDigitString(x) && FourDigitString(y)
    ensures var a, b := DecimalValue(x), DecimalValue(y);
      ParseEffectivity(x + "-" + y + (if newline then "\n" else ""))
        == if a <= b then Ok((a, b)) else Err(EffectivityInverted(a, b))
  {
    EffectivityOf(x, y, newline);
  }

  /** Whatever `parse_effectivity` accepts has that shape. */
  lemma ParseEffectivityShape(eff: string)
    requires ParseEffectivity(eff).Ok?
    ensures exists x, y :: (&& FourDigitString(x) && FourDigitString(y)
      && (eff == x + "-" + y || eff == x + "-" + y + "\n")
      && DecimalValue(x) <= DecimalValue(y)
      && ParseEffectivity(eff) == Ok((DecimalValue(x), DecimalValue(y))))
  {
    EffectivityShape(eff);
    var x, y :| FourDigitString(x) && FourDigitString(y) && (eff == x + "-" + y || eff == x + "-" + y + "\n");
    if eff == x + "-" + y {
      EffectivityOf(x, y, false);
      assert x + "-" + y + "" == eff;
    } else {
      EffectivityOf(x, y, true);
    }
  }

  /** "0200-0100" is refused as inverted, "1-2" as malformed. */
  lemma ParseEffectivityExamples()
    ensures ParseEffectivity("0001-0200") == Ok((1, 200))
    ensures ParseEffectivity("0200-0100") == Err(EffectivityInverted(200, 100))
    ensures ParseEffectivity("1-2") == Err(EffectivityMalformed("1-2"))
  {
    OlderRange();
    FourDigits("0200");
    FourDigits("0100");
    EffectivityOf("0200", "0100", false);
    assert "0200" + "-" + "0100" + "" == "0200-0100";
  }

  // ---- extract_robot_seq ----

  /** Letters, '-', four digits (and the final newline `$` allows) give the
      four digits' value. */
  lemma ExtractRobotSeqOf(p: string, d: string, newline: bool)
    requires p != [] && AllLetters(p) && FourDigitString(d)
    ensures ExtractRobotSeq(p + "-" + d + (if newline then "\n" else "")) == Ok(DecimalValue(d))
  {
    var s := p + "-" + d;
    assert s[..|s| - 5] == p && s[|s| - 5] == '-' && s[|s| - 4..] == d;
    if newline {
      var t := s + "\n";
      assert t[..|t| - 1] == s;
      assert !FourDigitString(t[|t| - 4..]) by { assert t[|t| - 4..][3] == '\n'; }
    } else {
      assert s + "" == s;
    }
  }

  /** Whatever `extract_robot_seq` accepts has that shape. */
  lemma ExtractRobotSeqShape(id: string)
    requires ExtractRobotSeq(id).Ok?
    ensures exists p, d :: (&& p != [] && AllLetters(p) && FourDigitString(d)
      && (id == p + "-" + d || id == p + "-" + d + "\n")
      && ExtractRobotSeq(id).value == DecimalValue(d))
  {
    var s := if RobotIdCore(id).Some? then id else id[..|id| - 1];
    var p, d := s[..|s| - 5], s[|s| - 4..];
    assert s == p + "-" + d;
    if s != id {
      assert id == s + "\n";
    }
  }

  /** "JAG-0007" gives 7; "JAG-12345" and "0007" are refused. */
  lemma ExtractRobotSeqExamples()
    ensures ExtractRobotSeq("JAG-0007") == Ok(7)
    ensures ExtractRobotSeq("JAG-12345").Err?
    ensures ExtractRobotSeq("0007").Err?
  {
    FourDigits("0007");
    ExtractRobotSeqOf("JAG", "0007", false);
    assert "JAG" + "-" + "0007" + "" == "JAG-0007";
    assert !AllLetters("JAG-12345"[..4]) by { assert "JAG-12345"[..4][3] == '-'; }
  }

  /** On a robot id the validator accepts, the service's pid parser reads
      the same number. */
  lemma RobotIdPidAgree(id: string)
    requires ExtractRobotSeq(id).Ok?
    ensures ParseRobotPid(id) == ExtractRobotSeq(id)
  {
    ExtractRobotSeqShape(id);
    var p, d :| p != [] && AllLetters(p) && FourDigitString(d)
      && (id == p + "-" + d || id == p + "-" + d + "\n") && ExtractRobotSeq(id).value == DecimalValue(d);
    var s := p + "-" + d;
    assert s[|s| - 4..] == d;
    if id != s {
      assert id[..|id| - 1] == s;
      assert !EndsInFourDigits(id) by { assert id[|id| - 4..][3] == '\n'; }
    }
  }

  // ---- semver_tuple ----

  /** `strip()` drops one trailing newline from a run of digits. */
  lemma StripNewline(c: string)
    requires c != [] && AllDigits(c)
    ensures Strip(c + "\n") == c
  {
    assert AllSpace("\n") && AllSpace("");
    StripPadded("", c, "\n");
    assert "" + c + "\n" == c + "\n";
  }

  lemma PyIntNewline(c: string)
    requires c != [] && AllDigits(c)
    ensures PyInt(c + "\n") == Some(DecimalValue(c))
  {
    StripNewline(c);
    var t := Strip(c + "\n");
    assert t == c;
    assert !(t[0] == '-' || t[0] == '+');
    assert Grouped(c);
    DropNoUnderscores(c);
  }

  /** `int()` reads a run of digits, also with a trailing newline. */
  lemma PyIntDigits(c: string, newline: bool)
    requires c != [] && AllDigits(c)
    ensures PyInt(c + (if newline then "\n" else "")) == Some(DecimalValue(c))
  {
    var s := c + (if newline then "\n" else "");
    if newline {
      assert s == c + "\n";
      PyIntNewline(c);
    } else {
      assert s == c;
    }
  }

  /** `semver_tuple` of `a.b.c` is the three decimal values. */
  lemma SemverTupleOf(a: string, b: string, c: string, newline: bool)
    requires IsVersionCore(a, b, c)
    ensures SemverTuple(a + "." + b + "." + c + (if newline then "\n" else ""))
         == (DecimalValue(a), DecimalValue(b), DecimalValue(c))
  {
    var s := a + "." + b + "." + c;
    VersionParts(a, b, c);
    if newline {
      SplitAppend(s, '\n', '.');
      assert Split(s + "\n", '.') == [a, b, c + "\n"];
      PyIntDigits(c, true);
    } else {
      assert s + "" == s;
    }
  }

  /** On every version SEMVER_RE accepts, `semver_tuple` agrees with the
      service's `parse_semver`. */
  lemma SemverTupleAgrees(v: string)
    requires IsSemver(v)
    ensures SemverTuple(v) == ParseSemver(v)
  {
    var w := if SemverCore(v).Some? then v else v[..|v| - 1];
    SemverCoreExactly(w);
    var a, b, c :| IsVersionCore(a, b, c) && w == a + "." + b + "." + c;
    var newline := w != v;
    if newline {
      assert v == w + "\n";
    }
    SemverTupleOf(a, b, c, newline);
    ParseSemverOf(a, b, c, newline);
  }

  /** "0.0.0", the stand-in for a missing version, ranks (0, 0, 0). */
  lemma SemverTupleZero()
    ensures SemverTuple("0.0.0") == (0, 0, 0)
  {
    var z := "0";
    assert Split("0.0.0", '.') == [z, z, z] by {
      assert IsVersionCore(z, z, z);
      VersionParts(z, z, z);
      assert z + "." + z + "." + z == "0.0.0";
    }
    assert PyInt(z) == Some(0) by {
      assert AllDigits(z) && z != [];
      assert DecimalValue(z) == 0 by { assert z[..0] == []; }
    }
  }

  /** Two parts are not a version: "1.2" ranks (0, 0, 0). */
  lemma SemverTupleTwoParts()
    ensures SemverTuple("1.2") == (0, 0, 0)
  {
    SplitNoSep("2", '.');
    SplitPrefix("1", "2", '.');
    assert "1" + ['.'] + "2" == "1.2";
  }

  /** A record whose version is missing or not a string ranks (0, 0, 0). */
  lemma AppRankNonString(rec: Json)
    requires rec.JObj? && !Get(rec, "version").JStr?
    ensures AppRank(rec) == (0, 0, 0)
  {
    SemverTupleZero();
  }

  // ---- the other patterns ----

  /** `N.N` is a schema version, also with a final newline. */
  lemma SchemaVersionOf(a: string, b: string, newline: bool)
    requires a != [] && b != [] && AllDigits(a) && AllDigits(b)
    ensures IsSchemaVersion(a + "." + b + (if newline then "\n" else ""))
  {
    var s := a + "." + b;
    assert forall i :: 0 <= i < |a| ==> a[i] != '.';
    assert forall i :: 0 <= i < |b| ==> b[i] != '.';
    SplitNoSep(b, '.');
    SplitPrefix(a, b, '.');
    assert Split(s, '.') == [a, b];
    if newline {
      var t := s + "\n";
      assert t[..|t| - 1] == s;
    } else {
      assert s + "" == s;
    }
  }

  /** A three-part version is not a schema version. */
  lemma SemverIsNotSchemaVersion(a: string, b: string, c: string)
    requires IsVersionCore(a, b, c)
    ensures !IsSchemaVersion(a + "." + b + "." + c)
  {
    VersionParts(a, b, c);
  }

  /** A non-empty local part, '@' and a dotted domain make an address. */
  lemma EmailOf(local: string, domain: string)
    requires local != [] && EmailChars(local) && DottedDomain(domain)
    ensures IsEmail(local + "@" + domain)
  {
    assert forall i :: 0 <= i < |local| ==> local[i] != '@';
    assert forall i :: 0 <= i < |domain| ==> domain[i] != '@';
    SplitNoSep(domain, '@');
    SplitPrefix(local, domain, '@');
    assert local + ['@'] + domain == local + "@" + domain;
  }

  /** Text without '@' is not an address. */
  lemma NoAtNoEmail(s: string)
    requires '@' !in s
    ensures !IsEmail(s)
  {
    SplitNoSep(s, '@');
    if EndsWithNewline(s) {
      var t := s[..|s| - 1];
      assert forall i :: 0 <= i < |t| ==> t[i] == s[i];
      SplitNoSep(t, '@');
    }
  }

  // ---- validate_record ----

  /** A record that passes every check of `validate_record`. */
  predicate RecordWellFormed(rec: Json, isHttpUrl: string -> bool)
  {
    && rec.JObj?
    && Get(rec, "version").JStr? && IsSemver(Get(rec, "version").s)
    && Get(rec, "effectivity").JStr? && ParseEffectivity(Get(rec, "effectivity").s).Ok?
    && NonEmptyList(Get(rec, "operations")) && OpsWellFormed(Get(rec, "operations").items, isHttpUrl)
    && OptionalString(Get(rec, "eco"))
    && OptionalString(Get(rec, "releasedAt"))
    && (Get(rec, "releasedBy").JNull? || (Get(rec, "releasedBy").JStr? && IsEmail(Get(rec, "releasedBy").s)))
    && OptionalString(Get(rec, "notes"))
  }

  /** `validate_record` returns no error exactly when the record is well formed. */
  lemma RecordValidIff(rec: Json, idx: nat, isHttpUrl: string -> bool)
    ensures ValidateRecord(rec, idx, isHttpUrl) == [] <==> RecordWellFormed(rec, isHttpUrl)
  {
    if rec.JObj? {
      var ops := Get(rec, "operations");
      if NonEmptyList(ops) {
        OpsValidIff(ops.items, isHttpUrl);
      }
    }
  }

  /** Every issue is located by operation, or names record `idx`. */
  predicate LocatedAt(errs: seq<Issue>, idx: nat)
  {
    forall k :: 0 <= k < |errs| ==> errs[k].IsOpIssue() || (errs[k].IsRecordIssue() && errs[k].record == idx)
  }

  lemma LocatedConcat(a: seq<Issue>, b: seq<Issue>, idx: nat)
    requires LocatedAt(a, idx) && LocatedAt(b, idx)
    ensures LocatedAt(a + b, idx)
  {
    forall k | |a| <= k < |a + b| ensures (a + b)[k] == b[k - |a|] { }
  }

  lemma OperationsIssuesLocated(rec: Json, idx: nat, isHttpUrl: string -> bool)
    requires rec.JObj?
    ensures LocatedAt(OperationsIssues(rec, idx, isHttpUrl), idx)
  {
    var ops := Get(rec, "operations");
    if NonEmptyList(ops) {
      RunOpsLocations(ops.items, isHttpUrl);
      assert OperationsIssues(rec, idx, isHttpUrl) == RunOps(ops.items, isHttpUrl).errs;
    } else {
      assert OperationsIssues(rec, idx, isHttpUrl) == [OperationsInvalid(idx)];
    }
  }

  lemma OptionalIssuesLocated(rec: Json, idx: nat)
    requires rec.JObj?
    ensures LocatedAt(OptionalIssues(rec, idx), idx)
  {
    var releasedBy := Get(rec, "releasedBy");
    var e1 := if OptionalString(Get(rec, "eco")) then [] else [EcoInvalid(idx)];
    var e2 := if OptionalString(Get(rec, "releasedAt")) then [] else [ReleasedAtInvalid(idx)];
    var e3 := if releasedBy.JNull? || (releasedBy.JStr? && IsEmail(releasedBy.s)) then [] else [ReleasedByInvalid(idx)];
    var e4 := if OptionalString(Get(rec, "notes")) then [] else [NotesInvalid(idx)];
    assert OptionalIssues(rec, idx) == e1 + e2 + e3 + e4;
    LocatedConcat(e1, e2, idx);
    LocatedConcat(e1 + e2, e3, idx);
    LocatedConcat(e1 + e2 + e3, e4, idx);
  }

  /** Every error of a record is about that record, or about one of its
      operations. */
  lemma RecordIssuesLocated(rec: Json, idx: nat, isHttpUrl: string -> bool)
    ensures var r := ValidateRecord(rec, idx, isHttpUrl);
      forall k :: 0 <= k < |r| ==> r[k].IsOpIssue() || (r[k].IsRecordIssue() && r[k].record == idx)
  {
    if rec.JObj? {
      var a := VersionIssues(rec, idx) + EffectivityIssues(rec, idx);
      var b := OperationsIssues(rec, idx, isHttpUrl);
      var c := OptionalIssues(rec, idx);
      assert LocatedAt(a, idx);
      OperationsIssuesLocated(rec, idx, isHttpUrl);
      OptionalIssuesLocated(rec, idx);
      LocatedConcat(a, b, idx);
      LocatedConcat(a + b, c, idx);
    }
  }

  /** Issues for optional fields come only from `OptionalIssues`. */
  predicate IsOptionalIssue(e: Issue)
  {
    e.EcoInvalid? || e.ReleasedAtInvalid? || e.ReleasedByInvalid? || e.NotesInvalid?
  }

  lemma FrontIssuesNotOptional(rec: Json, idx: nat, isHttpUrl: string -> bool)
    requires rec.JObj?
    ensures forall e :: e in VersionIssues(rec, idx) + EffectivityIssues(rec, idx) + OperationsIssues(rec, idx, isHttpUrl)
                        ==> !IsOptionalIssue(e)
  {
    var a := VersionIssues(rec, idx) + EffectivityIssues(rec, idx);
    var b := OperationsIssues(rec, idx, isHttpUrl);
    assert forall e :: e in a ==> !IsOptionalIssue(e);
    OperationsIssuesNotOptional(rec, idx, isHttpUrl);
    assert forall e :: e in a + b ==> e in a || e in b;
  }

  lemma OperationsIssuesNotOptional(rec: Json, idx: nat, isHttpUrl: string -> bool)
    requires rec.JObj?
    ensures forall e :: e in OperationsIssues(rec, idx, isHttpUrl) ==> !IsOptionalIssue(e)
  {
    var ops := Get(rec, "operations");
    var b := OperationsIssues(rec, idx, isHttpUrl);
    if NonEmptyList(ops) {
      RunOpsLocations(ops.items, isHttpUrl);
      assert b == RunOps(ops.items, isHttpUrl).errs;
      forall e | e in b ensures e.IsOpIssue() {
        var k :| 0 <= k < |b| && b[k] == e;
      }
    } else {
      assert b == [OperationsInvalid(idx)];
    }
  }

  /** Optional fields that are absent never produce an error. */
  lemma AbsentOptionalFields(rec: Json, idx: nat, isHttpUrl: string -> bool)
    requires rec.JObj?
    ensures var r := ValidateRecord(rec, idx, isHttpUrl);
      && ("eco" !in rec.fields ==> EcoInvalid(idx) !in r)
      && ("releasedAt" !in rec.fields ==> ReleasedAtInvalid(idx) !in r)
      && ("releasedBy" !in rec.fields ==> ReleasedByInvalid(idx) !in r)
      && ("notes" !in rec.fields ==> NotesInvalid(idx) !in r)
  {
    var front := VersionIssues(rec, idx) + EffectivityIssues(rec, idx) + OperationsIssues(rec, idx, isHttpUrl);
    var opt := OptionalIssues(rec, idx);
    assert ValidateRecord(rec, idx, isHttpUrl) == front + opt;
    FrontIssuesNotOptional(rec, idx, isHttpUrl);
    AbsentOptionalNotReported(rec, idx);
    assert forall e :: e in front + opt ==> e in front || e in opt;
  }

  lemma AbsentOptionalNotReported(rec: Json, idx: nat)
    requires rec.JObj?
    ensures var r := OptionalIssues(rec, idx);
      && ("eco" !in rec.fields ==> EcoInvalid(idx) !in r)
      && ("releasedAt" !in rec.fields ==> ReleasedAtInvalid(idx) !in r)
      && ("releasedBy" !in rec.fields ==> ReleasedByInvalid(idx) !in r)
      && ("notes" !in rec.fields ==> NotesInvalid(idx) !in r)
  {
  }

  // ---- applicable_record ----

  /** Each covering record paired with the rank `applicable_record` gives it. */
  function AppTagged(es: seq<Json>): (r: seq<(Triple, Json)>)
    requires forall k :: 0 <= k < |es| ==> es[k].JObj?
    ensures |r| == |es|
    ensures forall k :: 0 <= k < |es| ==> r[k] == (AppRank(es[k]), es[k])
  {
    seq(|es|, k requires 0 <= k < |es| => (AppRank(es[k]), es[k]))
  }

  /** The loop raises exactly when some record is not a dict or has an
      inverted well-formed effectivity. */
  lemma {:induction false} AppCandidatesOk(records: seq<Json>, n: int)
    ensures AppCandidates(records, n).Ok? <==> forall i :: 0 <= i < |records| ==> AppReadable(records[i])
  {
    if records != [] {
      var init := records[..|records| - 1];
      AppCandidatesOk(init, n);
      AppCandidatesStepOk(records, n);
      AppReadableSnoc(records, init);
    }
  }

  lemma AppCandidatesStepOk(records: seq<Json>, n: int)
    requires records != []
    ensures AppCandidates(records, n).Ok? <==>
      AppCandidates(records[..|records| - 1], n).Ok? && AppReadable(records[|records| - 1])
  {
  }

  lemma AppReadableSnoc(records: seq<Json>, init: seq<Json>)
    requires records != [] && init == records[..|records| - 1]
    ensures (forall i :: 0 <= i < |records| ==> AppReadable(records[i])) <==>
      (forall j :: 0 <= j < |init| ==> AppReadable(init[j])) && AppReadable(records[|records| - 1])
  {
    forall j | 0 <= j < |init| ensures init[j] == records[j] { }
  }

  /** The raised error: AttributeError for a non-dict, the inverted range
      otherwise. */
  lemma {:induction false} AppCandidatesError(records: seq<Json>, n: int)
    requires AppCandidates(records, n).Err?
    ensures var e := AppCandidates(records, n).error;
      e == AttributeError || e.EffectivityInverted?
    ensures (forall i :: 0 <= i < |records| ==> records[i].JObj?) ==> AppCandidates(records, n).error.EffectivityInverted?
  {
    var init := records[..|records| - 1];
    assert forall j :: 0 <= j < |init| ==> init[j] == records[j];
    if AppCandidates(init, n).Err? {
      AppCandidatesError(init, n);
    }
  }

  /** Otherwise it collects the covering records, in order, with their ranks. */
  lemma {:induction false} AppCandidatesValue(records: seq<Json>, n: int)
    requires AppCandidates(records, n).Ok?
    ensures AppCandidates(records, n).value == AppTagged(Covering(records, n))
  {
    if records != [] {
      var init := records[..|records| - 1];
      var rec := records[|records| - 1];
      AppCandidatesValue(init, n);
      var cov := Covering(init, n);
      if Covers(rec, n) {
        assert AppTagged(cov + [rec]) == AppTagged(cov) + [(AppRank(rec), rec)];
      }
    }
  }

  /** With a valid robot id and records the loop can pass, the result is
      None exactly when no record has a well-formed effectivity covering the
      id's number; otherwise the loop raises. */
  lemma ApplicableOutcome(records: seq<Json>, robotId: string)
    requires ExtractRobotSeq(robotId).Ok?
    ensures var n := ExtractRobotSeq(robotId).value;
      (forall i :: 0 <= i < |records| ==> AppReadable(records[i])) ==>
        && ApplicableRecord(records, robotId).Ok?
        && (ApplicableRecord(records, robotId).value.None? <==> forall i :: 0 <= i < |records| ==> !Covers(records[i], n))
    ensures (exists i :: 0 <= i < |records| && !AppReadable(records[i])) ==>
      && ApplicableRecord(records, robotId).Err?
      && (ApplicableRecord(records, robotId).error == AttributeError || ApplicableRecord(records, robotId).error.EffectivityInverted?)
  {
    var n := ExtractRobotSeq(robotId).value;
    AppCandidatesOk(records, n);
    if AppCandidates(records, n).Ok? {
      AppCandidatesValue(records, n);
      if exists i :: 0 <= i < |records| && Covers(records[i], n) {
        var i :| 0 <= i < |records| && Covers(records[i], n);
        CoveringHas(records, n, i);
      }
    } else {
      AppCandidatesError(records, n);
    }
  }

  /** The chosen record is the first of the covering records with the
      highest rank. */
  lemma ChosenFromAppCovering(records: seq<Json>, robotId: string) returns (k: nat)
    requires ApplicableRecord(records, robotId).Ok? && ApplicableRecord(records, robotId).value.Some?
    ensures var cov := Covering(records, ExtractRobotSeq(robotId).value);
      var c := ApplicableRecord(records, robotId).value.value;
      && k < |cov| && cov[k] == c
      && (forall m :: 0 <= m < |cov| ==> !TripleGreater(AppRank(cov[m]), AppRank(c)))
      && (forall m :: 0 <= m < k ==> AppRank(cov[m]) != AppRank(c))
  {
    var n := ExtractRobotSeq(robotId).value;
    AppCandidatesValue(records, n);
    k := AppHeadOfTagged(Covering(records, n));
  }

  /** The head of the descending sort of tagged records is the first record
      of the highest rank. */
  lemma AppHeadOfTagged(cov: seq<Json>) returns (k: nat)
    requires cov != [] && forall m :: 0 <= m < |cov| ==> cov[m].JObj?
    ensures k < |cov| && cov[k] == Sort(AppTagged(cov), VersionKey, TripleGreater)[0].1
    ensures forall m :: 0 <= m < |cov| ==> !TripleGreater(AppRank(cov[m]), AppRank(cov[k]))
    ensures forall m :: 0 <= m < k ==> AppRank(cov[m]) != AppRank(cov[k])
  {
    var cands := AppTagged(cov);
    TripleGreaterStrictTotal();
    SortHead(cands, VersionKey, TripleGreater);
    var h := Sort(cands, VersionKey, TripleGreater)[0];
    k :| 0 <= k < |cands| && cands[k] == h && forall j :: 0 <= j < k ==> VersionKey(cands[j]) != VersionKey(h);
    forall m | 0 <= m < |cov| ensures !TripleGreater(AppRank(cov[m]), AppRank(cov[k])) {
      assert !TripleGreater(VersionKey(cands[m]), VersionKey(h));
    }
    forall m | 0 <= m < k ensures AppRank(cov[m]) != AppRank(cov[k]) {
      assert VersionKey(cands[m]) != VersionKey(h);
    }
  }

  /** The chosen record covers the robot's number, no covering record has a
      higher version, and every covering record before it in the list has a
      different version: ties go to the earliest record. */
  lemma ApplicableChosen(records: seq<Json>, robotId: string)
    requires ApplicableRecord(records, robotId).Ok? && ApplicableRecord(records, robotId).value.Some?
    ensures var n := ExtractRobotSeq(robotId).value;
      var c := ApplicableRecord(records, robotId).value.value;
      && Covers(c, n)
      && (forall j :: 0 <= j < |records| && Covers(records[j], n) ==> !TripleGreater(AppRank(records[j]), AppRank(c)))
      && exists i :: (0 <= i < |records| && records[i] == c
           && forall j :: 0 <= j < i && Covers(records[j], n) ==> AppRank(records[j]) != AppRank(c))
  {
    var n := ExtractRobotSeq(robotId).value;
    var c := ApplicableRecord(records, robotId).value.value;
    var k := ChosenFromAppCovering(records, robotId);
    var cov := Covering(records, n);
    forall j | 0 <= j < |records| && Covers(records[j], n)
      ensures !TripleGreater(AppRank(records[j]), AppRank(c))
    {
      CoveringHas(records, n, j);
      var m :| 0 <= m < |cov| && cov[m] == records[j];
    }
    var i := CoveringEarlier(records, n, k);
    forall j | 0 <= j < i && Covers(records[j], n)
      ensures AppRank(records[j]) != AppRank(c)
    {
      var m :| 0 <= m < k && cov[m] == records[j];
    }
  }

  /** A chosen record is never empty, so `not chosen` means nothing applied. */
  lemma ChosenTruthy(records: seq<Json>, robotId: string)
    requires ApplicableRecord(records, robotId).Ok? && ApplicableRecord(records, robotId).value.Some?
    ensures Truthy(ApplicableRecord(records, robotId).value.value)
  {
    var c := ApplicableRecord(records, robotId).value.value;
    ApplicableChosen(records, robotId);
    assert "effectivity" in c.fields;
  }

  // ---- validate_document ----

  /** A document that is not an object gets that one error and no choice. */
  lemma DocumentNotObject(doc: Json, robotId: string, isHttpUrl: string -> bool)
    requires !doc.JObj?
    ensures DocumentReport(doc, robotId, isHttpUrl) == Ok(([TopNotObject], None))
  {
  }

  /** Every record passes `validate_record`, stated record by record from
      the back so that each step looks at one record. */
  predicate AllRecordsClean(records: seq<Json>, isHttpUrl: string -> bool)
  {
    records == []
    || (AllRecordsClean(records[..|records| - 1], isHttpUrl)
        && ValidateRecord(records[|records| - 1], |records| - 1, isHttpUrl) == [])
  }

  lemma {:induction false} RecordsIssuesEmpty(records: seq<Json>, isHttpUrl: string -> bool)
    ensures RecordsIssues(records, isHttpUrl) == [] <==> AllRecordsClean(records, isHttpUrl)
  {
    if records != [] {
      RecordsIssuesEmpty(records[..|records| - 1], isHttpUrl);
    }
  }

  /** `p` holds of every element. */
  predicate AllOf<T>(s: seq<T>, p: T -> bool)
  {
    forall k :: 0 <= k < |s| ==> p(s[k])
  }

  lemma AllOfSnoc<T>(s: seq<T>, p: T -> bool)
    requires s != []
    ensures AllOf(s, p) <==> AllOf(s[..|s| - 1], p) && p(s[|s| - 1])
  {
    var init := s[..|s| - 1];
    assert forall k :: 0 <= k < |init| ==> init[k] == s[k];
  }

  /** Every record is well formed. */
  predicate AllRecordsWellFormed(records: seq<Json>, isHttpUrl: string -> bool)
  {
    AllOf(records, rec => RecordWellFormed(rec, isHttpUrl))
  }

  lemma RecordsIssuesWellFormed(records: seq<Json>, isHttpUrl: string -> bool)
    ensures RecordsIssues(records, isHttpUrl) == [] <==> AllRecordsWellFormed(records, isHttpUrl)
  {
    RecordsIssuesEmpty(records, isHttpUrl);
    CleanIsWellFormed(records, isHttpUrl);
  }

  lemma {:induction false} CleanIsWellFormed(records: seq<Json>, isHttpUrl: string -> bool)
    ensures AllRecordsClean(records, isHttpUrl) <==> AllRecordsWellFormed(records, isHttpUrl)
  {
    if records != [] {
      var idx := |records| - 1;
      CleanIsWellFormed(records[..idx], isHttpUrl);
      RecordValidIff(records[idx], idx, isHttpUrl);
      AllOfSnoc(records, rec => RecordWellFormed(rec, isHttpUrl));
    }
  }

  /** The document is valid (an empty error list) exactly when the top level
      is well formed, every record is well formed and, when a robot id is
      given, some record applies to it. */
  lemma DocumentValidIff(doc: Json, robotId: string, isHttpUrl: string -> bool)
    requires DocumentReport(doc, robotId, isHttpUrl).Ok?
    ensures var report := DocumentReport(doc, robotId, isHttpUrl).value;
      report.0 == [] <==>
        && ValidateTopLevel(doc) == []
        && RecordList(doc).JArr?
        && AllRecordsWellFormed(RecordList(doc).items, isHttpUrl)
        && (robotId != [] ==> report.1.Some?)
  {
    var top := ValidateTopLevel(doc);
    var mrr := RecordList(doc);
    var report := DocumentReport(doc, robotId, isHttpUrl).value;
    if mrr.JArr? {
      var records := mrr.items;
      var recs := RecordsIssues(records, isHttpUrl);
      RecordsIssuesWellFormed(records, isHttpUrl);
      var covered := robotId == [] || (report.1.Some? && Truthy(report.1.value));
      if robotId != [] && report.1.Some? {
        assert report.1 == ApplicableRecord(records, robotId).value;
        ChosenTruthy(records, robotId);
      }
      assert report.0 == top + recs + (if covered then [] else [NotCovered(robotId)]);
    }
  }

  /** Issues located by operation or by a record below `bound`, with the
      record indices never decreasing. */
  predicate RecordOrdered(errs: seq<Issue>, bound: nat)
  {
    && (forall k :: 0 <= k < |errs| ==> errs[k].IsOpIssue() || (errs[k].IsRecordIssue() && errs[k].record < bound))
    && (forall p, q :: 0 <= p < q < |errs| && errs[p].IsRecordIssue() && errs[q].IsRecordIssue() ==>
          errs[p].record <= errs[q].record)
  }

  lemma RecordOrderedSnoc(a: seq<Issue>, b: seq<Issue>, idx: nat)
    requires RecordOrdered(a, idx) && LocatedAt(b, idx)
    ensures RecordOrdered(a + b, idx + 1)
  {
    var e := a + b;
    forall k | |a| <= k < |e| ensures e[k] == b[k - |a|] { }
  }

  /** The per-record errors come record by record, in index order. */
  lemma {:induction false} RecordsIssuesOrdered(records: seq<Json>, isHttpUrl: string -> bool)
    ensures RecordOrdered(RecordsIssues(records, isHttpUrl), |records|)
  {
    if records != [] {
      var idx := |records| - 1;
      var init := records[..idx];
      RecordsIssuesOrdered(init, isHttpUrl);
      RecordIssuesLocated(records[idx], idx, isHttpUrl);
      RecordOrderedSnoc(RecordsIssues(init, isHttpUrl), ValidateRecord(records[idx], idx, isHttpUrl), idx);
    }
  }

  /** The shape of the error list: `top` first, then issues located by
      operation or by record in index order, then at most one coverage
      error, last. */
  predicate ReportOrder(errs: seq<Issue>, top: seq<Issue>, robotId: string)
  {
    && |top| <= |errs| && errs[..|top|] == top
    && (forall k :: |top| <= k < |errs| ==>
          errs[k].IsOpIssue() || errs[k].IsRecordIssue() || (k == |errs| - 1 && errs[k] == NotCovered(robotId)))
    && (forall p, q :: |top| <= p < q < |errs| && errs[p].IsRecordIssue() && errs[q].IsRecordIssue() ==>
          errs[p].record <= errs[q].record)
  }

  lemma ReportOrderOf(top: seq<Issue>, recs: seq<Issue>, bound: nat, robotId: string, covered: bool)
    requires RecordOrdered(recs, bound)
    ensures ReportOrder(top + recs + (if covered then [] else [NotCovered(robotId)]), top, robotId)
  {
    var errs := top + recs + (if covered then [] else [NotCovered(robotId)]);
    assert errs[..|top|] == top;
    forall k | |top| <= k < |top| + |recs| ensures errs[k] == recs[k - |top|] { }
  }

  /** The error list is the top-level errors, then the per-record errors
      (located by operation, or by record in index order), then at most one
      coverage error, last. */
  lemma DocumentOrder(doc: Json, robotId: string, isHttpUrl: string -> bool)
    requires DocumentReport(doc, robotId, isHttpUrl).Ok?
    ensures ReportOrder(DocumentReport(doc, robotId, isHttpUrl).value.0, ValidateTopLevel(doc), robotId)
  {
    var top := ValidateTopLevel(doc);
    var mrr := RecordList(doc);
    if mrr.JArr? {
      var recs := RecordsIssues(mrr.items, isHttpUrl);
      RecordsIssuesOrdered(mrr.items, isHttpUrl);
      var report := DocumentReport(doc, robotId, isHttpUrl).value;
      var covered := robotId == [] || (report.1.Some? && Truthy(report.1.value));
      ReportOrderOf(top, recs, |mrr.items|, robotId, covered);
      assert top + recs + [] == top + recs;
    } else {
      ReportOrderOf(top, [], 0, robotId, true);
      assert top + [] + [] == top;
    }
  }

  /** With a robot id, an inverted effectivity in a list of objects makes
      the whole validation raise, losing the errors already collected. */
  lemma InvertedEffectivityEscapes(doc: Json, robotId: string, isHttpUrl: string -> bool)
    requires RecordList(doc).JArr? && ExtractRobotSeq(robotId).Ok? && robotId != []
    requires forall k :: 0 <= k < |RecordList(doc).items| ==> RecordList(doc).items[k].JObj?
    requires exists k :: 0 <= k < |RecordList(doc).items| && !AppReadable(RecordList(doc).items[k])
    ensures DocumentReport(doc, robotId, isHttpUrl).Err?
    ensures DocumentReport(doc, robotId, isHttpUrl).error.EffectivityInverted?
  {
    var records := RecordList(doc).items;
    var n := ExtractRobotSeq(robotId).value;
    AppCandidatesOk(records, n);
    AppCandidatesError(records, n);
  }
}
