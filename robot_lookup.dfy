/** jira_tools/services/robot_lookup.py: from the RIN in a QR payload to the
    robot's production id, through the Master Robot Record, a flat JSON object
    mapping RINs to production ids.  The record is passed in rather than read
    from the Master Robot issue's first attachment. */
module RobotLookup {
  import opened Outcome
  import opened Json

  /** `rin = (payload or {}).get("rin")` and the check that it is not empty. */
  function Rin(payload: Json): (r: Result<Json>)
    ensures r.Ok? <==> payload.JObj? && "rin" in payload.fields && Truthy(payload.fields["rin"])
    ensures r.Ok? ==> r.value == payload.fields["rin"]
    ensures r.Err? ==> r.error == (if Truthy(payload) && !payload.JObj? then AttributeError else RinMissing)
  {
    if !Truthy(payload) then Err(RinMissing)
    else if !payload.JObj? then Err(AttributeError)
    else
      var rin := Get(payload, "rin");
      if !Truthy(rin) then Err(RinMissing) else Ok(rin)
  }

  /** The record must be a non-empty object. */
  predicate ValidRecord(record: Json)
  {
    record.JObj? && record.fields != map[]
  }

  /** `lookup_robot_pid(payload, client)` with the record the client would fetch. */
  function LookupRobotPid(payload: Json, record: Json): (r: Result<string>)
    // the payload is checked before the record is looked at
    ensures Rin(payload).Err? ==> r == Err(Rin(payload).error)
    ensures Rin(payload).Ok? && !ValidRecord(record) ==> r == Err(RobotRecordInvalid)
    // success exactly when the RIN is a string key of the record
    ensures r.Ok? <==>
      Rin(payload).Ok? && Rin(payload).value.JStr? && record.JObj? && Rin(payload).value.s in record.fields
    ensures r.Ok? ==> r.value == PyStr(record.fields[Rin(payload).value.s])
    // a list or dict RIN cannot be hashed; any other RIN that is not a key is not found
    ensures Rin(payload).Ok? && ValidRecord(record) && r.Err? ==>
      r.error == (if Hashable(Rin(payload).value) then RinNotFound else TypeError)
  {
    var rin :- Rin(payload);
    if !ValidRecord(record) then Err(RobotRecordInvalid)
    else if !Hashable(rin) then Err(TypeError)
    else if rin.JStr? && rin.s in record.fields then Ok(PyStr(record.fields[rin.s]))
    else Err(RinNotFound)
  }

  /** A bad payload fails the same way whatever the record holds, so the
      record need not be fetched. */
  lemma PayloadFirst(payload: Json, a: Json, b: Json)
    requires Rin(payload).Err?
    ensures LookupRobotPid(payload, a) == LookupRobotPid(payload, b)
    ensures LookupRobotPid(payload, a).error in {RinMissing, AttributeError}
  {
  }

  /** Adding a RIN to the record makes the lookup return its id, whatever the
      record held before. */
  lemma LookupAfterInsert(rin: string, pid: string, fields: map<string, Json>)
    requires rin != []
    ensures LookupRobotPid(JObj(map["rin" := JStr(rin)]), JObj(fields[rin := JStr(pid)])) == Ok(pid)
  {
    assert rin in fields[rin := JStr(pid)];
  }

  /** The integration test's robot: its RIN maps to JAG-0666. */
  lemma LookupExample()
    ensures LookupRobotPid(JObj(map["rin" := JStr("BC033W000667DJ")]),
                           JObj(map["BC033W000667DJ" := JStr("JAG-0666")])) == Ok("JAG-0666")
  {
    LookupAfterInsert("BC033W000667DJ", "JAG-0666", map[]);
    assert map[]["BC033W000667DJ" := JStr("JAG-0666")] == map["BC033W000667DJ" := JStr("JAG-0666")];
  }
}
