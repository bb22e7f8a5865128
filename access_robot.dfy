/** jira_tools/services/access_robot.py: the same RIN lookup as
    robot_lookup.py, reached through the first JSON attachment of a given
    issue instead of the configured client.  The record is passed in. */
module AccessRobot {
  import opened Outcome
  import opened Json
  import RobotLookup

  /** `lookup_robot(payload, mrr_issue_key=...)` with the record read from that
      issue's first JSON attachment. */
  function LookupRobot(payload: Json, record: Json): (r: Result<string>)
    ensures r.Ok? <==> payload.JObj? && "rin" in payload.fields && payload.fields["rin"].JStr?
                       && payload.fields["rin"].s != [] && record.JObj? && payload.fields["rin"].s in record.fields
    ensures r.Ok? ==> r.value == PyStr(record.fields[payload.fields["rin"].s])
    ensures !(payload.JObj? && "rin" in payload.fields && Truthy(payload.fields["rin"])) ==>
      r.Err? && r.error in {RinMissing, AttributeError}
  {
    RobotLookup.LookupRobotPid(payload, record)
  }

  /** The docstring's example: RIN BC033W000008NH maps to JAG-0007. */
  lemma LookupRobotExample(record: Json)
    requires record.JObj? && "BC033W000008NH" in record.fields
    requires record.fields["BC033W000008NH"] == JStr("JAG-0007")
    ensures LookupRobot(JObj(map["rin" := JStr("BC033W000008NH")]), record) == Ok("JAG-0007")
  {
  }
}
