/** Failure-compatible results and the exceptions the modelled Python code raises.
    A Python `raise` (or an exception escaping a builtin) is an `Err`; a return is an `Ok`. */
module Outcome {

  datatype Option<+T> = None | Some(value: T)

  /** Why a call failed: one constructor per distinct raise site of the core,
      plus the builtin exceptions that malformed JSON input provokes. */
  datatype Error =
    // builtins
    | AttributeError                        // `.get` called on something that is not a dict
    | TypeError                             // regex on a non-string, join of a non-string, iterating a
                                            // non-iterable, hashing a list or dict
    // jira_tools/utils/parse.py
    | PidWithoutFourDigits(pid: string)     // ValueError: robotPid must end with 4 digits
    // jira_tools/services/routing.py
    | RoutingRecordMissing                  // ValueError: non-empty 'masterRoutingRecord' array required
    | NoRoutingCovers(pid: string)          // LookupError: no routing covers the robot
    // jira_tools/services/robot_lookup.py and access_robot.py
    | RinMissing                            // ValueError: QR payload must include 'rin'
    | RobotRecordInvalid                    // ValueError: attachment must be a non-empty JSON object
    | RinNotFound                           // ValueError: RIN not found in Master Robot Record
    // utilities/mroute_validator.py
    | EffectivityMalformed(eff: string)     // ValueError: must match ####-####
    | EffectivityInverted(start: int, end: int) // ValueError: start greater than end
    | RobotIdMalformed                      // ValueError: robotId must be like PREFIX-0001

  datatype Result<+T> = Ok(value: T) | Err(error: Error) {
    predicate IsFailure() { Err? }

    function PropagateFailure<U>(): Result<U>
      requires Err?
    {
      Err(error)
    }

    function Extract(): T
      requires Ok?
    {
      value
    }
  }
}
