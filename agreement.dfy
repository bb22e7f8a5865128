/** The validator (utilities/mroute_validator.py) and the service
    (jira_tools/services/routing.py) choose a routing record each, by separate
    code.  On a document the validator accepts, the two choices agree. */
module Agreement {
  import opened Outcome
  import opened Json
  import opened StableSort
  import opened PyOrder
  import opened Parse
  import opened Routing
  import opened Validator
  import opened ValidatorFacts

  /** A well-formed record ranks the same for both: its version is a string
      SEMVER_RE accepts, and `semver_tuple` and `parse_semver` read it alike. */
  lemma RankAgrees(rec: Json, isHttpUrl: string -> bool)
    requires RecordWellFormed(rec, isHttpUrl)
    ensures AppRank(rec) == VersionRank(rec)
  {
    SemverTupleAgrees(Get(rec, "version").s);
  }

  /** On well-formed records neither loop raises, and both collect the same
      covering records with the same ranks. */
  lemma {:induction false} CandidatesAgree(records: seq<Json>, n: int, isHttpUrl: string -> bool)
    requires AllRecordsWellFormed(records, isHttpUrl)
    ensures AppCandidates(records, n).Ok?
    ensures AppCandidates(records, n) == Candidates(records, n)
  {
    if records != [] {
      var idx := |records| - 1;
      var rec := records[idx];
      AllOfSnoc(records, r => RecordWellFormed(r, isHttpUrl));
      CandidatesAgree(records[..idx], n, isHttpUrl);
      RankAgrees(rec, isHttpUrl);
      assert GetOr(rec, "effectivity", JStr("")) == Get(rec, "effectivity");
    }
  }

  /** For a valid robot id over well-formed records, `applicable_record`
      returns the record `get_routing_for` returns, and None exactly where
      `get_routing_for` finds no covering record. */
  lemma ChoiceAgrees(records: seq<Json>, robotId: string, isHttpUrl: string -> bool)
    requires ExtractRobotSeq(robotId).Ok? && AllRecordsWellFormed(records, isHttpUrl)
    ensures ApplicableRecord(records, robotId).Ok?
    ensures RoutingFor(robotId, records).Ok? ==> ApplicableRecord(records, robotId).value == Some(RoutingFor(robotId, records).value)
    ensures RoutingFor(robotId, records).Err? ==>
      && ApplicableRecord(records, robotId).value == None
      && RoutingFor(robotId, records).error == NoRoutingCovers(robotId)
  {
    RobotIdPidAgree(robotId);
    CandidatesAgree(records, ExtractRobotSeq(robotId).value, isHttpUrl);
  }

  /** A document that passes validation for a robot names the record the
      service routes that robot with. */
  lemma ValidDocumentRoutes(doc: Json, robotId: string, isHttpUrl: string -> bool)
    requires robotId != []
    requires DocumentReport(doc, robotId, isHttpUrl).Ok? && DocumentReport(doc, robotId, isHttpUrl).value.0 == []
    ensures RecordList(doc).JArr?
    ensures var chosen := DocumentReport(doc, robotId, isHttpUrl).value.1;
      chosen.Some? && RoutingFor(robotId, RecordList(doc).items) == Ok(chosen.value)
  {
    DocumentValidIff(doc, robotId, isHttpUrl);
    var records := RecordList(doc).items;
    assert ExtractRobotSeq(robotId).Ok?;
    ChoiceAgrees(records, robotId, isHttpUrl);
  }
}
