/** What `validate_operations` (utilities/mroute_validator.py) reports about a
    list of operations: where each issue points, when sequence issues appear,
    and when the list passes. */
module ValidatorOps {
  import opened Outcome
  import opened Text
  import opened Json
  import opened Validator

  // ---- one turn of the loop ----

  /** The issues the sequence checks add for operation `i`. */
  function SeqIssues(st: OpsState, i: nat, sq: Option<int>): (r: seq<Issue>)
    ensures forall k :: 0 <= k < |r| ==> r[k].IsSeqIssue() && r[k].op == i
  {
    match sq
    case None => [SeqInvalid(i)]
    case Some(v) =>
      if v < 1 then [SeqInvalid(i)]
      else (if v in st.seen then [SeqDuplicate(i, v)] else []) + (if v <= st.last then [SeqNotIncreasing(i, st.last, v)] else [])
  }

  /** The issues one turn of the loop adds for operation `i`. */
  function StepIssues(st: OpsState, i: nat, op: Json, isHttpUrl: string -> bool): (r: seq<Issue>)
    ensures forall k :: 0 <= k < |r| ==> r[k].IsOpIssue() && r[k].op == i
  {
    if !op.JObj? then [OpNotObject(i)]
    else SeqIssues(st, i, SeqOf(op)) + FieldIssues(i, op, isHttpUrl)
  }

  /** One turn appends its issues, remembers a valid sequence number and
      raises `last_seq` to it. */
  lemma StepOpShape(st: OpsState, i: nat, op: Json, isHttpUrl: string -> bool)
    ensures StepOp(st, i, op, isHttpUrl).errs == st.errs + StepIssues(st, i, op, isHttpUrl)
    ensures StepOp(st, i, op, isHttpUrl).seen == st.seen + (if ValidSeq(op) then {SeqOf(op).value} else {})
    ensures StepOp(st, i, op, isHttpUrl).last
         == (if ValidSeq(op) && SeqOf(op).value > st.last then SeqOf(op).value else st.last)
  {
    if op.JObj? {
      var sq := SeqOf(op);
      if sq.Some? && sq.value >= 1 {
        var v := sq.value;
        var dup := if v in st.seen then [SeqDuplicate(i, v)] else [];
        var inc := if v <= st.last then [SeqNotIncreasing(i, st.last, v)] else [];
        assert st.errs + dup + inc + FieldIssues(i, op, isHttpUrl) == st.errs + (dup + inc + FieldIssues(i, op, isHttpUrl));
      }
    }
  }

  lemma RunOpsSnoc(ops: seq<Json>, isHttpUrl: string -> bool)
    requires ops != []
    ensures var init := ops[..|ops| - 1];
      RunOps(ops, isHttpUrl).errs == RunOps(init, isHttpUrl).errs + StepIssues(RunOps(init, isHttpUrl), |ops|, ops[|ops| - 1], isHttpUrl)
  {
    var init := ops[..|ops| - 1];
    StepOpShape(RunOps(init, isHttpUrl), |ops|, ops[|ops| - 1], isHttpUrl);
  }

  // ---- the loop's memory ----

  /** Every valid sequence number met so far is in `seen_seq`; nothing in it
      exceeds `last_seq`; and `last_seq` is 0 or one of those numbers. */
  lemma {:induction false} RunOpsMemory(ops: seq<Json>, isHttpUrl: string -> bool)
    ensures var st := RunOps(ops, isHttpUrl);
      && st.last >= 0
      && (forall v :: v in st.seen ==> 1 <= v <= st.last)
      && (forall k :: 0 <= k < |ops| && ValidSeq(ops[k]) ==> SeqOf(ops[k]).value in st.seen)
      && (st.last == 0 || exists k :: 0 <= k < |ops| && ValidSeq(ops[k]) && SeqOf(ops[k]).value == st.last)
  {
    if ops != [] {
      var init := ops[..|ops| - 1];
      var op := ops[|ops| - 1];
      RunOpsMemory(init, isHttpUrl);
      var st0 := RunOps(init, isHttpUrl);
      var st := RunOps(ops, isHttpUrl);
      StepOpShape(st0, |ops|, op, isHttpUrl);
      forall k | 0 <= k < |ops| && ValidSeq(ops[k]) ensures SeqOf(ops[k]).value in st.seen {
        if k < |init| { assert ops[k] == init[k]; }
      }
      if st.last != 0 && st.last == st0.last {
        var k :| 0 <= k < |init| && ValidSeq(init[k]) && SeqOf(init[k]).value == st0.last;
        assert ops[k] == init[k];
      }
    }
  }

  // ---- sequence issues ----

  /** The sequence numbers of the operation objects are integers >= 1, each
      larger than every one before it. */
  predicate SeqsIncreasing(ops: seq<Json>)
  {
    && (forall k :: 0 <= k < |ops| && ops[k].JObj? ==> ValidSeq(ops[k]))
    && (forall j, k :: 0 <= j < k < |ops| && ValidSeq(ops[j]) && ValidSeq(ops[k]) ==>
          SeqOf(ops[j]).value < SeqOf(ops[k]).value)
  }

  predicate NoSeqIssues(errs: seq<Issue>)
  {
    forall k :: 0 <= k < |errs| ==> !errs[k].IsSeqIssue()
  }

  lemma NoSeqIssuesConcat(a: seq<Issue>, b: seq<Issue>)
    ensures NoSeqIssues(a + b) <==> NoSeqIssues(a) && NoSeqIssues(b)
  {
    if NoSeqIssues(a) && NoSeqIssues(b) {
      forall k | 0 <= k < |a + b| ensures !(a + b)[k].IsSeqIssue() {
        if k >= |a| { assert (a + b)[k] == b[k - |a|]; }
      }
    }
    if NoSeqIssues(a + b) {
      forall k | 0 <= k < |b| ensures !b[k].IsSeqIssue() { assert (a + b)[|a| + k] == b[k]; }
      forall k | 0 <= k < |a| ensures !a[k].IsSeqIssue() { assert (a + b)[k] == a[k]; }
    }
  }

  /** Adding an operation keeps the order increasing exactly when it is not an
      object, or its number is valid and above every earlier valid number. */
  lemma SeqsIncreasingSnoc(ops: seq<Json>)
    requires ops != []
    ensures var init := ops[..|ops| - 1];
      var op := ops[|ops| - 1];
      SeqsIncreasing(ops) <==>
        && SeqsIncreasing(init)
        && (op.JObj? ==> ValidSeq(op))
        && (ValidSeq(op) ==> forall j :: 0 <= j < |init| && ValidSeq(init[j]) ==> SeqOf(init[j]).value < SeqOf(op).value)
  {
    var init := ops[..|ops| - 1];
    var op := ops[|ops| - 1];
    assert forall k :: 0 <= k < |init| ==> init[k] == ops[k];
    if SeqsIncreasing(ops) {
      assert ValidSeq(op) ==> forall j :: 0 <= j < |init| && ValidSeq(init[j]) ==> SeqOf(init[j]).value < SeqOf(op).value by {
        if ValidSeq(op) {
          forall j | 0 <= j < |init| && ValidSeq(init[j]) ensures SeqOf(init[j]).value < SeqOf(op).value {
            assert ValidSeq(ops[j]) && ValidSeq(ops[|ops| - 1]);
          }
        }
      }
    }
  }

  /** The step's sequence issues are absent exactly when the number is valid
      and above `last_seq`: a seen number never is. */
  lemma SeqIssuesEmpty(st: OpsState, i: nat, sq: Option<int>)
    requires forall v :: v in st.seen ==> v <= st.last
    ensures SeqIssues(st, i, sq) == [] <==> sq.Some? && sq.value >= 1 && sq.value > st.last
  {
  }

  lemma StepNoSeqIssues(st: OpsState, i: nat, op: Json, isHttpUrl: string -> bool)
    requires forall v :: v in st.seen ==> v <= st.last
    ensures NoSeqIssues(StepIssues(st, i, op, isHttpUrl)) <==> (op.JObj? ==> ValidSeq(op) && SeqOf(op).value > st.last)
  {
    if op.JObj? {
      var s := SeqIssues(st, i, SeqOf(op));
      var f := FieldIssues(i, op, isHttpUrl);
      NoSeqIssuesConcat(s, f);
      SeqIssuesEmpty(st, i, SeqOf(op));
      assert NoSeqIssues(s) <==> s == [] by {
        if s != [] { assert s[0].IsSeqIssue(); }
      }
    }
  }

  /** `validate_operations` reports no sequence issue exactly when the
      operation objects' sequence numbers are integers >= 1 in strictly
      increasing order. */
  lemma {:induction false} NoSeqIssuesIff(ops: seq<Json>, isHttpUrl: string -> bool)
    ensures NoSeqIssues(RunOps(ops, isHttpUrl).errs) <==> SeqsIncreasing(ops)
  {
    if ops != [] {
      var init := ops[..|ops| - 1];
      var op := ops[|ops| - 1];
      var st0 := RunOps(init, isHttpUrl);
      NoSeqIssuesIff(init, isHttpUrl);
      RunOpsMemory(init, isHttpUrl);
      RunOpsSnoc(ops, isHttpUrl);
      NoSeqIssuesConcat(st0.errs, StepIssues(st0, |ops|, op, isHttpUrl));
      StepNoSeqIssues(st0, |ops|, op, isHttpUrl);
      SeqsIncreasingSnoc(ops);
      if SeqsIncreasing(init) && ValidSeq(op) {
        AboveAllIffAboveLast(init, isHttpUrl, SeqOf(op).value);
      }
    }
  }

  /** For a valid number, being above `last_seq` is being above every
      earlier valid number. */
  lemma AboveAllIffAboveLast(init: seq<Json>, isHttpUrl: string -> bool, v: int)
    requires v >= 1
    ensures (forall j :: 0 <= j < |init| && ValidSeq(init[j]) ==> SeqOf(init[j]).value < v)
        <==> v > RunOps(init, isHttpUrl).last
  {
    RunOpsMemory(init, isHttpUrl);
    var last := RunOps(init, isHttpUrl).last;
    if v <= last && last != 0 {
      var k :| 0 <= k < |init| && ValidSeq(init[k]) && SeqOf(init[k]).value == last;
    }
  }

  /** The turn of an operation whose number was seen before reports it twice. */
  lemma RepeatInTurn(st0: OpsState, i: nat, op: Json, isHttpUrl: string -> bool, v: int)
    requires op.JObj? && SeqOf(op) == Some(v) && v >= 1 && v in st0.seen && v <= st0.last
    ensures SeqDuplicate(i, v) in StepIssues(st0, i, op, isHttpUrl)
    ensures SeqNotIncreasing(i, st0.last, v) in StepIssues(st0, i, op, isHttpUrl)
  {
    assert SeqIssues(st0, i, Some(v)) == [SeqDuplicate(i, v), SeqNotIncreasing(i, st0.last, v)];
  }

  /** A sequence number repeated from an earlier operation is reported both
      as a duplicate and as not strictly increasing. */
  lemma DuplicateReported(ops: seq<Json>, isHttpUrl: string -> bool, j: nat, i: nat)
    requires j < i < |ops|
    requires ValidSeq(ops[j]) && SeqOf(ops[i]) == SeqOf(ops[j])
    ensures var v := SeqOf(ops[i]).value;
      && SeqDuplicate(i + 1, v) in RunOps(ops, isHttpUrl).errs
      && SeqNotIncreasing(i + 1, RunOps(ops[..i], isHttpUrl).last, v) in RunOps(ops, isHttpUrl).errs
  {
    var v := SeqOf(ops[i]).value;
    var pre := ops[..i];
    var st0 := RunOps(pre, isHttpUrl);
    RunOpsMemory(pre, isHttpUrl);
    assert pre[j] == ops[j];
    RepeatInTurn(st0, i + 1, ops[i], isHttpUrl, v);
    var upto := ops[..i + 1];
    assert upto[..i] == pre;
    RunOpsSnoc(upto, isHttpUrl);
    IssueKept(ops, isHttpUrl, i + 1, SeqDuplicate(i + 1, v));
    IssueKept(ops, isHttpUrl, i + 1, SeqNotIncreasing(i + 1, st0.last, v));
  }

  /** An issue found by the first i turns stays in the final list. */
  lemma {:induction false} IssueKept(ops: seq<Json>, isHttpUrl: string -> bool, i: nat, e: Issue)
    requires i <= |ops| && e in RunOps(ops[..i], isHttpUrl).errs
    ensures e in RunOps(ops, isHttpUrl).errs
  {
    if i == |ops| {
      assert ops[..i] == ops;
    } else {
      var init := ops[..|ops| - 1];
      assert init[..i] == ops[..i];
      IssueKept(init, isHttpUrl, i, e);
      RunOpsSnoc(ops, isHttpUrl);
    }
  }

  // ---- where each issue points ----

  /** Every issue names an operation, by its 1-based position in the list. */
  lemma {:induction false} RunOpsLocations(ops: seq<Json>, isHttpUrl: string -> bool)
    ensures var errs := RunOps(ops, isHttpUrl).errs;
      forall k :: 0 <= k < |errs| ==> errs[k].IsOpIssue() && 1 <= errs[k].op <= |ops|
  {
    if ops != [] {
      var init := ops[..|ops| - 1];
      RunOpsLocations(init, isHttpUrl);
      RunOpsSnoc(ops, isHttpUrl);
      var a := RunOps(init, isHttpUrl).errs;
      var b := StepIssues(RunOps(init, isHttpUrl), |ops|, ops[|ops| - 1], isHttpUrl);
      forall k | |a| <= k < |a + b| ensures (a + b)[k] == b[k - |a|] { }
    }
  }

  /** The issues that point at operation `i`, in order. */
  function IssuesAt(errs: seq<Issue>, i: nat): seq<Issue>
  {
    if errs == [] then []
    else
      var e := errs[|errs| - 1];
      IssuesAt(errs[..|errs| - 1], i) + (if e.IsOpIssue() && e.op == i then [e] else [])
  }

  lemma {:induction false} IssuesAtConcat(a: seq<Issue>, b: seq<Issue>, i: nat)
    ensures IssuesAt(a + b, i) == IssuesAt(a, i) + IssuesAt(b, i)
  {
    if b != [] {
      var c := b[..|b| - 1];
      IssuesAtConcat(a, c, i);
      assert (a + b)[..|a + b| - 1] == a + c;
    } else {
      assert a + b == a;
    }
  }

  lemma {:induction false} IssuesAtAll(errs: seq<Issue>, i: nat)
    requires forall k :: 0 <= k < |errs| ==> errs[k].IsOpIssue() && errs[k].op == i
    ensures IssuesAt(errs, i) == errs
  {
    if errs != [] {
      IssuesAtAll(errs[..|errs| - 1], i);
    }
  }

  lemma {:induction false} IssuesAtNone(errs: seq<Issue>, i: nat)
    requires forall k :: 0 <= k < |errs| ==> errs[k].IsOpIssue() && errs[k].op != i
    ensures IssuesAt(errs, i) == []
  {
    if errs != [] {
      IssuesAtNone(errs[..|errs| - 1], i);
    }
  }

  lemma {:induction false} IssuesAtHas(errs: seq<Issue>, i: nat, e: Issue)
    requires e in errs && e.IsOpIssue() && e.op == i
    ensures e in IssuesAt(errs, i)
  {
    var init := errs[..|errs| - 1];
    if e != errs[|errs| - 1] {
      assert e in init by {
        var k :| 0 <= k < |errs| && errs[k] == e;
        assert init[k] == e;
      }
      IssuesAtHas(init, i, e);
    }
  }

  /** The issues pointing at the last operation are those of its own turn. */
  lemma IssuesOfLastOperation(ops: seq<Json>, isHttpUrl: string -> bool)
    requires ops != []
    ensures var init := ops[..|ops| - 1];
      IssuesAt(RunOps(ops, isHttpUrl).errs, |ops|) == StepIssues(RunOps(init, isHttpUrl), |ops|, ops[|ops| - 1], isHttpUrl)
  {
    var init := ops[..|ops| - 1];
    var st0 := RunOps(init, isHttpUrl);
    var b := StepIssues(st0, |ops|, ops[|ops| - 1], isHttpUrl);
    RunOpsSnoc(ops, isHttpUrl);
    IssuesAtConcat(st0.errs, b, |ops|);
    RunOpsLocations(init, isHttpUrl);
    IssuesAtNone(st0.errs, |ops|);
    IssuesAtAll(b, |ops|);
  }

  /** Later turns add nothing that points at an earlier operation. */
  lemma IssuesAtEarlier(ops: seq<Json>, isHttpUrl: string -> bool, i: nat)
    requires i < |ops| - 1
    ensures IssuesAt(RunOps(ops, isHttpUrl).errs, i + 1) == IssuesAt(RunOps(ops[..|ops| - 1], isHttpUrl).errs, i + 1)
  {
    var init := ops[..|ops| - 1];
    var st0 := RunOps(init, isHttpUrl);
    var b := StepIssues(st0, |ops|, ops[|ops| - 1], isHttpUrl);
    RunOpsSnoc(ops, isHttpUrl);
    IssuesAtConcat(st0.errs, b, i + 1);
    IssuesAtNone(b, i + 1);
  }

  /** The issues pointing at operation i + 1 are exactly those its own turn
      of the loop added. */
  lemma {:induction false} IssuesOfOperation(ops: seq<Json>, isHttpUrl: string -> bool, i: nat)
    requires i < |ops|
    ensures IssuesAt(RunOps(ops, isHttpUrl).errs, i + 1)
         == StepIssues(RunOps(ops[..i], isHttpUrl), i + 1, ops[i], isHttpUrl)
  {
    if i == |ops| - 1 {
      IssuesOfLastOperation(ops, isHttpUrl);
    } else {
      var init := ops[..|ops| - 1];
      IssuesAtEarlier(ops, isHttpUrl, i);
      IssuesOfOperation(init, isHttpUrl, i);
      assert init[..i] == ops[..i];
    }
  }

  /** A non-object operation contributes exactly one issue. */
  lemma NonObjectOperation(ops: seq<Json>, isHttpUrl: string -> bool, i: nat)
    requires i < |ops| && !ops[i].JObj?
    ensures IssuesAt(RunOps(ops, isHttpUrl).errs, i + 1) == [OpNotObject(i + 1)]
  {
    IssuesOfOperation(ops, isHttpUrl, i);
  }

  /** An operation without "operationId" is never reported for it. */
  lemma AbsentOperationId(ops: seq<Json>, isHttpUrl: string -> bool, i: nat)
    requires i < |ops| && ops[i].JObj? && "operationId" !in ops[i].fields
    ensures OperationIdInvalid(i + 1) !in RunOps(ops, isHttpUrl).errs
  {
    var errs := RunOps(ops, isHttpUrl).errs;
    IssuesOfOperation(ops, isHttpUrl, i);
    var st0 := RunOps(ops[..i], isHttpUrl);
    assert OperationIdInvalid(i + 1) !in SeqIssues(st0, i + 1, SeqOf(ops[i]));
    assert OperationIdInvalid(i + 1) !in FieldIssues(i + 1, ops[i], isHttpUrl);
    if OperationIdInvalid(i + 1) in errs {
      IssuesAtHas(errs, i + 1, OperationIdInvalid(i + 1));
    }
  }

  // ---- when the list passes ----

  /** One operation that passes every check but the sequence order. */
  predicate OpWellFormed(op: Json, isHttpUrl: string -> bool)
  {
    && op.JObj?
    && NameOk(Get(op, "operationName"))
    && StandardWorkOk(Get(op, "standardWork"), isHttpUrl)
    && OptionalString(Get(op, "operationId"))
  }

  predicate OnlySeqIssues(errs: seq<Issue>)
  {
    forall k :: 0 <= k < |errs| ==> errs[k].IsSeqIssue()
  }

  lemma OnlySeqIssuesConcat(a: seq<Issue>, b: seq<Issue>)
    ensures OnlySeqIssues(a + b) <==> OnlySeqIssues(a) && OnlySeqIssues(b)
  {
    if OnlySeqIssues(a) && OnlySeqIssues(b) {
      forall k | 0 <= k < |a + b| ensures (a + b)[k].IsSeqIssue() {
        if k >= |a| { assert (a + b)[k] == b[k - |a|]; }
      }
    }
    if OnlySeqIssues(a + b) {
      forall k | 0 <= k < |b| ensures b[k].IsSeqIssue() { assert (a + b)[|a| + k] == b[k]; }
      forall k | 0 <= k < |a| ensures a[k].IsSeqIssue() { assert (a + b)[k] == a[k]; }
    }
  }

  lemma StepOnlySeqIssues(st: OpsState, i: nat, op: Json, isHttpUrl: string -> bool)
    ensures OnlySeqIssues(StepIssues(st, i, op, isHttpUrl)) <==> OpWellFormed(op, isHttpUrl)
  {
    if op.JObj? {
      var s := SeqIssues(st, i, SeqOf(op));
      var f := FieldIssues(i, op, isHttpUrl);
      OnlySeqIssuesConcat(s, f);
      assert OnlySeqIssues(f) <==> f == [] by {
        if f != [] { assert !f[0].IsSeqIssue(); }
      }
    } else {
      assert !StepIssues(st, i, op, isHttpUrl)[0].IsSeqIssue();
    }
  }

  /** Apart from the sequence checks, every issue comes from an operation
      that is not an object or has a bad field. */
  lemma {:induction false} OnlySeqIssuesIff(ops: seq<Json>, isHttpUrl: string -> bool)
    ensures OnlySeqIssues(RunOps(ops, isHttpUrl).errs) <==> forall k :: 0 <= k < |ops| ==> OpWellFormed(ops[k], isHttpUrl)
  {
    if ops != [] {
      var init := ops[..|ops| - 1];
      var st0 := RunOps(init, isHttpUrl);
      OnlySeqIssuesIff(init, isHttpUrl);
      RunOpsSnoc(ops, isHttpUrl);
      OnlySeqIssuesConcat(st0.errs, StepIssues(st0, |ops|, ops[|ops| - 1], isHttpUrl));
      StepOnlySeqIssues(st0, |ops|, ops[|ops| - 1], isHttpUrl);
      assert forall k :: 0 <= k < |init| ==> init[k] == ops[k];
    }
  }

  /** Every operation is a well-formed object and the sequence numbers
      increase strictly. */
  predicate OpsWellFormed(ops: seq<Json>, isHttpUrl: string -> bool)
  {
    (forall k :: 0 <= k < |ops| ==> OpWellFormed(ops[k], isHttpUrl)) && SeqsIncreasing(ops)
  }

  /** `validate_operations` returns no issue exactly when the list is well formed. */
  lemma OpsValidIff(ops: seq<Json>, isHttpUrl: string -> bool)
    ensures RunOps(ops, isHttpUrl).errs == [] <==> OpsWellFormed(ops, isHttpUrl)
  {
    var errs := RunOps(ops, isHttpUrl).errs;
    NoSeqIssuesIff(ops, isHttpUrl);
    OnlySeqIssuesIff(ops, isHttpUrl);
    if errs != [] && OnlySeqIssues(errs) {
      assert errs[0].IsSeqIssue();
    }
  }
}
