/** jira_tools/utils/parse.py: the semantic-version parser and the extractor of
    the trailing four-digit production sequence number. */
module Parse {
  import opened Outcome
  import opened Text
  import opened PyOrder

  /** Three non-empty runs of digits joined by dots. */
  predicate IsVersionCore(a: string, b: string, c: string)
  {
    a != [] && b != [] && c != [] && AllDigits(a) && AllDigits(b) && AllDigits(c)
  }

  /** `(\d+)\.(\d+)\.(\d+)` over a whole string that holds no newline. */
  function SemverCore(s: string): Option<Triple>
  {
    var g := Split(s, '.');
    if |g| == 3 && IsVersionCore(g[0], g[1], g[2])
    then Some((DecimalValue(g[0]), DecimalValue(g[1]), DecimalValue(g[2])))
    else None
  }

  /** `parse_semver`: the (major, minor, patch) integers of an `X.Y.Z` string,
      and (0, 0, 0) for anything else; it never fails. */
  function ParseSemver(v: string): (r: Triple)
    ensures r.0 >= 0 && r.1 >= 0 && r.2 >= 0
  {
    match EndAnchored(v, SemverCore)
    case Some(t) => t
    case None => (0, 0, 0)
  }

  /** The core pattern accepts exactly the strings `a.b.c` of non-empty digit runs. */
  lemma SemverCoreExactly(s: string)
    ensures SemverCore(s).Some? <==>
      exists a, b, c :: IsVersionCore(a, b, c) && s == a + "." + b + "." + c
  {
    var g := Split(s, '.');
    if SemverCore(s).Some? {
      assert g == [g[0], g[1], g[2]];
      JoinThree(g[0], g[1], g[2], '.');
    }
    if exists a, b, c :: IsVersionCore(a, b, c) && s == a + "." + b + "." + c {
      var a, b, c :| IsVersionCore(a, b, c) && s == a + "." + b + "." + c;
      VersionParts(a, b, c);
    }
  }

  lemma VersionParts(a: string, b: string, c: string)
    requires IsVersionCore(a, b, c)
    ensures Split(a + "." + b + "." + c, '.') == [a, b, c]
  {
    forall k | k in [a, b, c] ensures '.' !in k {
      if '.' in k { var i :| 0 <= i < |k| && k[i] == '.'; }
    }
    SplitJoin([a, b, c], '.');
    JoinThree(a, b, c, '.');
  }

  /** `parse_semver` of `a.b.c`, optionally followed by one newline (which `$`
      lets through), is the three decimal values; leading zeros are allowed. */
  lemma ParseSemverOf(a: string, b: string, c: string, newline: bool)
    requires IsVersionCore(a, b, c)
    ensures ParseSemver(a + "." + b + "." + c + (if newline then "\n" else ""))
         == (DecimalValue(a), DecimalValue(b), DecimalValue(c))
  {
    var s := a + "." + b + "." + c;
    VersionParts(a, b, c);
    assert SemverCore(s) == Some((DecimalValue(a), DecimalValue(b), DecimalValue(c)));
    if newline {
      SemverCoreNewline(a, b, c);
      assert (s + "\n")[..|s|] == s;
    } else {
      assert s + "" == s;
    }
  }

  /** A version followed by a newline is not matched by the core pattern. */
  lemma SemverCoreNewline(a: string, b: string, c: string)
    requires IsVersionCore(a, b, c)
    ensures SemverCore(a + "." + b + "." + c + "\n").None?
  {
    var s := a + "." + b + "." + c;
    VersionParts(a, b, c);
    SplitAppend(s, '\n', '.');
    assert Split(s + "\n", '.') == [a, b, c + "\n"];
    assert !AllDigits(c + "\n") by { assert (c + "\n")[|c|] == '\n'; }
  }

  /** Every input that is not `a.b.c`, nor `a.b.c` followed by one newline,
      for non-empty digit runs a, b and c, parses to (0, 0, 0). */
  lemma ParseSemverFallback(v: string)
    ensures (exists a, b, c :: IsVersionCore(a, b, c) && (v == a + "." + b + "." + c || v == a + "." + b + "." + c + "\n"))
            || ParseSemver(v) == (0, 0, 0)
  {
    if SemverCore(v).Some? {
      SemverCoreExactly(v);
      var a, b, c :| IsVersionCore(a, b, c) && v == a + "." + b + "." + c;
    } else if EndsWithNewline(v) && SemverCore(v[..|v| - 1]).Some? {
      var w := v[..|v| - 1];
      SemverCoreExactly(w);
      var a, b, c :| IsVersionCore(a, b, c) && w == a + "." + b + "." + c;
      assert v == w + "\n";
    }
  }

  /** Worked value: "01.2.3" gives (1, 2, 3); the leading zero is dropped. */
  lemma ParseSemverExample()
    ensures ParseSemver("01.2.3") == (1, 2, 3)
  {
    var a, b, c := "01", "2", "3";
    assert IsVersionCore(a, b, c);
    ParseSemverOf(a, b, c, false);
    assert a + "." + b + "." + c + "" == "01.2.3";
    assert DecimalValue(a) == 1 by { assert a[..1] == "0"; }
    assert DecimalValue(b) == 2 && DecimalValue(c) == 3;
  }

  /** Worked value: the empty string gives (0, 0, 0). */
  lemma ParseSemverEmpty()
    ensures ParseSemver("") == (0, 0, 0)
  {
  }

  /** The last four characters are digits. */
  predicate EndsInFourDigits(s: string)
  {
    |s| >= 4 && AllDigits(s[|s| - 4..])
  }

  /** `(\d{4})$` searched anywhere, before `$` is allowed its final newline. */
  function PidCore(s: string): Option<int>
  {
    if EndsInFourDigits(s) then Some(DecimalValue(s[|s| - 4..])) else None
  }

  /** `parse_robot_pid`: the integer value of the four digits that end the id
      (just before a final newline, if there is one); ValueError otherwise.
      No prefix shape is required and only the last four digits count. */
  function ParseRobotPid(pid: string): (r: Result<int>)
    ensures r.Ok? <==> EndsInFourDigits(pid) || (EndsWithNewline(pid) && EndsInFourDigits(pid[..|pid| - 1]))
    ensures r.Ok? && EndsInFourDigits(pid) ==> r.value == DecimalValue(pid[|pid| - 4..])
    ensures r.Ok? && !EndsInFourDigits(pid) ==> r.value == DecimalValue(pid[|pid| - 5..|pid| - 1])
    ensures r.Ok? ==> 0 <= r.value <= 9999
    ensures r.Err? ==> r.error == PidWithoutFourDigits(pid)
  {
    match EndAnchored(pid, PidCore)
    case Some(n) => Ok(n)
    case None => Err(PidWithoutFourDigits(pid))
  }

  /** "JAG-0007" gives 7, "JAG-12345" gives 2345, "JAG-07" fails. */
  lemma ParseRobotPidExamples()
    ensures ParseRobotPid("JAG-0007") == Ok(7)
    ensures ParseRobotPid("JAG-12345") == Ok(2345)
    ensures ParseRobotPid("JAG-07").Err?
  {
    assert "JAG-0007"[4..] == "0007";
    FourDigits("0007");
    assert "JAG-12345"[5..] == "2345";
    FourDigits("2345");
    assert !AllDigits("JAG-07"[2..]) by { assert "JAG-07"[2..][1] == '-'; }
  }
}
