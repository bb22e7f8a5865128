/** jira_tools/services/routing.py: choosing, from the master routing catalog,
    the production routing that applies to a robot.  The catalog and the
    attachment that holds it are inputs here rather than Jira fetches. */
module Routing {
  import opened Outcome
  import opened Text
  import opened Json
  import opened StableSort
  import opened PyOrder
  import opened Parse

  /** `get_master_routing` with the attachment passed in: the attachment, or {}
      when it is falsy, must be a dict whose "masterRoutingRecord" is a
      non-empty list. */
  function MasterRouting(attachment: Json): (r: Result<seq<Json>>)
    ensures r.Ok? <==> attachment.JObj? && Get(attachment, "masterRoutingRecord").JArr?
                       && Get(attachment, "masterRoutingRecord").items != []
    ensures r.Ok? ==> r.value == Get(attachment, "masterRoutingRecord").items && r.value != []
    ensures Truthy(attachment) && !attachment.JObj? ==> r == Err(AttributeError)
    ensures (!Truthy(attachment) || attachment.JObj?) && r.Err? ==> r.error == RoutingRecordMissing
  {
    var holder := if Truthy(attachment) then attachment else JObj(map[]);
    if !holder.JObj? then Err(AttributeError)
    else
      var records := Get(holder, "masterRoutingRecord");
      if records.JArr? && records.items != [] then Ok(records.items) else Err(RoutingRecordMissing)
  }

  /** Exactly four ASCII digits. */
  predicate FourDigitString(s: string)
  {
    |s| == 4 && AllDigits(s)
  }

  /** `(\d{4})-(\d{4})` over a whole string that holds no newline. */
  function EffectivityCore(s: string): Option<(int, int)>
  {
    if |s| == 9 && FourDigitString(s[..4]) && s[4] == '-' && FourDigitString(s[5..])
    then Some((DecimalValue(s[..4]), DecimalValue(s[5..])))
    else None
  }

  /** The effectivity pattern, anchored at both ends: `dddd-dddd`, optionally
      followed by the one newline `$` lets through. */
  function Effectivity(s: string): (r: Option<(int, int)>)
    ensures r.Some? ==> 0 <= r.value.0 <= 9999 && 0 <= r.value.1 <= 9999
  {
    EndAnchored(s, EffectivityCore)
  }

  /** The pattern accepts exactly `x-y` and `x-y` plus a newline, for
      four-digit `x` and `y`, and reads them as decimal numbers. */
  lemma EffectivityOf(x: string, y: string, newline: bool)
    requires FourDigitString(x) && FourDigitString(y)
    ensures Effectivity(x + "-" + y + (if newline then "\n" else "")) == Some((DecimalValue(x), DecimalValue(y)))
  {
    var s := x + "-" + y;
    assert s[..4] == x && s[5..] == y && s[4] == '-';
    if newline {
      var t := s + "\n";
      assert t[..|t| - 1] == s;
      assert |t| == 10;
    } else {
      assert s + "" == s;
    }
  }

  lemma EffectivityShape(s: string)
    requires Effectivity(s).Some?
    ensures exists x, y :: FourDigitString(x) && FourDigitString(y)
                           && (s == x + "-" + y || s == x + "-" + y + "\n")
  {
    var c := if EffectivityCore(s).Some? then s else s[..|s| - 1];
    assert c == c[..4] + "-" + c[5..];
    if c != s {
      assert s == c + "\n";
    }
  }

  /** The entry can be read by the loop without raising: a dict whose
      "effectivity" (default "") is a string. */
  predicate Readable(e: Json)
  {
    e.JObj? && GetOr(e, "effectivity", JStr("")).JStr?
  }

  /** The entry's effectivity is well formed and its range holds `n`. */
  predicate Covers(e: Json, n: int)
  {
    && Readable(e)
    && var m := Effectivity(GetOr(e, "effectivity", JStr("")).s);
       m.Some? && m.value.0 <= n <= m.value.1
  }

  /** The version an entry ranks by: `parse_semver(str(version))`, with
      "0.0.0" for a missing version. */
  function VersionRank(e: Json): Triple
    requires e.JObj?
  {
    ParseSemver(PyStr(GetOr(e, "version", JStr("0.0.0"))))
  }

  /** The `candidates` list the loop builds, or the exception it raises. */
  function Candidates(catalog: seq<Json>, n: int): Result<seq<(Triple, Json)>>
  {
    if catalog == [] then Ok([])
    else
      var init :- Candidates(catalog[..|catalog| - 1], n);
      var e := catalog[|catalog| - 1];
      if !e.JObj? then Err(AttributeError)
      else
        var eff := GetOr(e, "effectivity", JStr(""));
        if !eff.JStr? then Err(TypeError)
        else
          match Effectivity(eff.s)
          case None => Ok(init)
          case Some(range) => if range.0 <= n <= range.1 then Ok(init + [(VersionRank(e), e)]) else Ok(init)
  }

  /** The covering entries, in catalog order. */
  function Covering(catalog: seq<Json>, n: int): (r: seq<Json>)
    ensures forall k :: 0 <= k < |r| ==> Covers(r[k], n) && r[k] in catalog
  {
    if catalog == [] then []
    else
      var init := Covering(catalog[..|catalog| - 1], n);
      var e := catalog[|catalog| - 1];
      if Covers(e, n) then init + [e] else init
  }

  /** Each covering entry paired with its version rank. */
  function Tagged(es: seq<Json>): (r: seq<(Triple, Json)>)
    requires forall k :: 0 <= k < |es| ==> es[k].JObj?
    ensures |r| == |es|
    ensures forall k :: 0 <= k < |es| ==> r[k] == (VersionRank(es[k]), es[k])
  {
    seq(|es|, k requires 0 <= k < |es| => (VersionRank(es[k]), es[k]))
  }

  /** `get_routing_for`: the pid's sequence number first (a malformed pid fails
      before any entry is read), then the covering entries, then the one with
      the highest version, the earliest of equals. */
  function RoutingFor(pid: string, catalog: seq<Json>): (r: Result<Json>)
    ensures ParseRobotPid(pid).Err? ==> r == Err(PidWithoutFourDigits(pid))
  {
    var n :- ParseRobotPid(pid);
    var cands :- Candidates(catalog, n);
    if cands == [] then Err(NoRoutingCovers(pid))
    else
      var sorted := Sort(cands, VersionKey, TripleGreater);
      assert |sorted| == |multiset(sorted)| == |cands|;
      Ok(sorted[0].1)
  }

  // ---- the loop, as the code runs it ----

  lemma {:induction false} CandidatesPrefixErr(catalog: seq<Json>, n: int, i: nat)
    requires i <= |catalog| && Candidates(catalog[..i], n).Err?
    ensures Candidates(catalog, n) == Candidates(catalog[..i], n)
    decreases |catalog| - i
  {
    if i == |catalog| {
      assert catalog[..i] == catalog;
    } else {
      assert catalog[..i + 1][..i] == catalog[..i];
      CandidatesPrefixErr(catalog, n, i + 1);
    }
  }

  /** `get_routing_for` as the code runs it: a loop appending to `candidates`,
      then the in-place descending sort, then its first entry. */
  method GetRoutingFor(pid: string, catalog: seq<Json>) returns (r: Result<Json>)
    ensures r == RoutingFor(pid, catalog)
  {
    var parsed := ParseRobotPid(pid);
    if parsed.Err? {
      return Err(parsed.error);
    }
    var n := parsed.value;
    var candidates: seq<(Triple, Json)> := [];
    for i := 0 to |catalog|
      invariant Candidates(catalog[..i], n) == Ok(candidates)
    {
      var routing := catalog[i];
      assert catalog[..i + 1][..i] == catalog[..i];
      if !routing.JObj? {
        CandidatesPrefixErr(catalog, n, i + 1);
        return Err(AttributeError);
      }
      var eff := GetOr(routing, "effectivity", JStr(""));
      if !eff.JStr? {
        CandidatesPrefixErr(catalog, n, i + 1);
        return Err(TypeError);
      }
      var m := Effectivity(eff.s);
      if m.Some? && m.value.0 <= n <= m.value.1 {
        var ver := PyStr(GetOr(routing, "version", JStr("0.0.0")));
        candidates := candidates + [(ParseSemver(ver), routing)];
      }
    }
    assert catalog[..|catalog|] == catalog;
    if candidates == [] {
      return Err(NoRoutingCovers(pid));
    }
    candidates := Sort(candidates, VersionKey, TripleGreater);
    assert |candidates| == |multiset(candidates)|;
    return Ok(candidates[0].1);
  }

  // ---- what the choice means ----

  /** The loop raises exactly when some entry cannot be read. */
  lemma {:induction false} CandidatesOk(catalog: seq<Json>, n: int)
    ensures Candidates(catalog, n).Ok? <==> forall i :: 0 <= i < |catalog| ==> Readable(catalog[i])
  {
    if catalog != [] {
      var init := catalog[..|catalog| - 1];
      CandidatesOk(init, n);
      CandidatesStepOk(catalog, n);
      ReadableSnoc(catalog, init);
    }
  }

  lemma CandidatesStepOk(catalog: seq<Json>, n: int)
    requires catalog != []
    ensures Candidates(catalog, n).Ok? <==>
      Candidates(catalog[..|catalog| - 1], n).Ok? && Readable(catalog[|catalog| - 1])
  {
  }

  lemma ReadableSnoc(catalog: seq<Json>, init: seq<Json>)
    requires catalog != [] && init == catalog[..|catalog| - 1]
    ensures (forall i :: 0 <= i < |catalog| ==> Readable(catalog[i])) <==>
      (forall j :: 0 <= j < |init| ==> Readable(init[j])) && Readable(catalog[|catalog| - 1])
  {
    forall j | 0 <= j < |init| ensures init[j] == catalog[j] { }
  }

  /** Otherwise it collects the covering entries, in order, with their ranks. */
  lemma {:induction false} CandidatesValue(catalog: seq<Json>, n: int)
    requires Candidates(catalog, n).Ok?
    ensures Candidates(catalog, n).value == Tagged(Covering(catalog, n))
  {
    if catalog != [] {
      var init := catalog[..|catalog| - 1];
      var e := catalog[|catalog| - 1];
      CandidatesStepValue(catalog, n);
      CandidatesValue(init, n);
      var cov := Covering(init, n);
      if Covers(e, n) {
        TaggedSnoc(cov, e);
      }
    }
  }

  lemma CandidatesStepValue(catalog: seq<Json>, n: int)
    requires catalog != [] && Candidates(catalog, n).Ok?
    ensures var init := catalog[..|catalog| - 1];
      var e := catalog[|catalog| - 1];
      && Candidates(init, n).Ok?
      && Covering(catalog, n) == Covering(init, n) + (if Covers(e, n) then [e] else [])
      && Candidates(catalog, n).value == Candidates(init, n).value + (if Covers(e, n) then [(VersionRank(e), e)] else [])
  {
  }

  lemma TaggedSnoc(es: seq<Json>, e: Json)
    requires forall k :: 0 <= k < |es| ==> es[k].JObj?
    requires e.JObj?
    ensures Tagged(es + [e]) == Tagged(es) + [(VersionRank(e), e)]
  {
  }

  /** The error raised is that of the first unreadable entry. */
  lemma {:induction false} CandidatesError(catalog: seq<Json>, n: int)
    requires Candidates(catalog, n).Err?
    ensures exists i :: (0 <= i < |catalog| && !Readable(catalog[i])
      && (forall j :: 0 <= j < i ==> Readable(catalog[j]))
      && Candidates(catalog, n).error == (if catalog[i].JObj? then TypeError else AttributeError))
  {
    var init := catalog[..|catalog| - 1];
    if Candidates(init, n).Ok? {
      CandidatesOk(init, n);
      var i := |catalog| - 1;
      forall j | 0 <= j < i ensures Readable(catalog[j]) { assert catalog[j] == init[j]; }
    } else {
      CandidatesError(init, n);
      var i :| 0 <= i < |init| && !Readable(init[i]) && (forall j :: 0 <= j < i ==> Readable(init[j]))
        && Candidates(init, n).error == (if init[i].JObj? then TypeError else AttributeError);
      assert catalog[i] == init[i];
      forall j | 0 <= j < i ensures Readable(catalog[j]) { assert catalog[j] == init[j]; }
    }
  }

  /** Every covering entry is among `Covering`. */
  lemma {:induction false} CoveringHas(catalog: seq<Json>, n: int, j: nat)
    requires j < |catalog| && Covers(catalog[j], n)
    ensures catalog[j] in Covering(catalog, n)
  {
    if j < |catalog| - 1 {
      var init := catalog[..|catalog| - 1];
      assert init[j] == catalog[j];
      CoveringHas(init, n, j);
    }
  }

  /** Where the k-th covering entry sits in the catalog: every covering entry
      before it comes earlier in `Covering` too. */
  lemma {:induction false} CoveringIndex(catalog: seq<Json>, n: int, k: nat) returns (i: nat)
    requires k < |Covering(catalog, n)|
    ensures i < |catalog| && catalog[i] == Covering(catalog, n)[k]
    ensures Covering(catalog[..i], n) == Covering(catalog, n)[..k]
  {
    var init := catalog[..|catalog| - 1];
    var cov := Covering(init, n);
    if k < |cov| {
      i := CoveringIndex(init, n, k);
      assert catalog[..i] == init[..i];
      assert Covering(catalog, n)[..k] == cov[..k];
    } else {
      i := |catalog| - 1;
      assert catalog[..i] == init;
    }
  }

  /** The chosen entry is the first of the covering entries with the highest rank. */
  lemma ChosenFromCovering(pid: string, catalog: seq<Json>) returns (k: nat)
    requires RoutingFor(pid, catalog).Ok?
    ensures var cov := Covering(catalog, ParseRobotPid(pid).value);
      && k < |cov| && cov[k] == RoutingFor(pid, catalog).value
      && (forall m :: 0 <= m < |cov| ==> !TripleGreater(VersionRank(cov[m]), VersionRank(cov[k])))
      && (forall m :: 0 <= m < k ==> VersionRank(cov[m]) != VersionRank(cov[k]))
  {
    var n := ParseRobotPid(pid).value;
    CandidatesValue(catalog, n);
    var cov := Covering(catalog, n);
    k := HeadOfTagged(cov);
  }

  /** The head of the descending sort of tagged entries is the first entry of
      the highest rank. */
  lemma HeadOfTagged(cov: seq<Json>) returns (k: nat)
    requires cov != [] && forall m :: 0 <= m < |cov| ==> cov[m].JObj?
    ensures k < |cov| && cov[k] == Sort(Tagged(cov), VersionKey, TripleGreater)[0].1
    ensures forall m :: 0 <= m < |cov| ==> !TripleGreater(VersionRank(cov[m]), VersionRank(cov[k]))
    ensures forall m :: 0 <= m < k ==> VersionRank(cov[m]) != VersionRank(cov[k])
  {
    var cands := Tagged(cov);
    TripleGreaterStrictTotal();
    SortHead(cands, VersionKey, TripleGreater);
    var h := Sort(cands, VersionKey, TripleGreater)[0];
    k :| 0 <= k < |cands| && cands[k] == h && forall j :: 0 <= j < k ==> VersionKey(cands[j]) != VersionKey(h);
    forall m | 0 <= m < |cov| ensures !TripleGreater(VersionRank(cov[m]), VersionRank(cov[k])) {
      assert !TripleGreater(VersionKey(cands[m]), VersionKey(h));
    }
    forall m | 0 <= m < k ensures VersionRank(cov[m]) != VersionRank(cov[k]) {
      assert VersionKey(cands[m]) != VersionKey(h);
    }
  }

  /** The chosen entry covers the sequence number, and no covering entry has a
      higher version ("2.0.0" beats "1.99.99": components compare as integers). */
  lemma RoutingForMaximal(pid: string, catalog: seq<Json>)
    requires RoutingFor(pid, catalog).Ok?
    ensures var n := ParseRobotPid(pid).value;
      var r := RoutingFor(pid, catalog).value;
      && Covers(r, n)
      && forall j :: 0 <= j < |catalog| && Covers(catalog[j], n) ==>
           !TripleGreater(VersionRank(catalog[j]), VersionRank(r))
  {
    var n := ParseRobotPid(pid).value;
    var k := ChosenFromCovering(pid, catalog);
    var cov := Covering(catalog, n);
    forall j | 0 <= j < |catalog| && Covers(catalog[j], n)
      ensures !TripleGreater(VersionRank(catalog[j]), VersionRank(cov[k]))
    {
      CoveringHas(catalog, n, j);
      var m :| 0 <= m < |cov| && cov[m] == catalog[j];
    }
  }

  /** The k-th covering entry sits at a catalog position before which every
      covering entry is among the first k covering entries. */
  lemma CoveringEarlier(catalog: seq<Json>, n: int, k: nat) returns (i: nat)
    requires k < |Covering(catalog, n)|
    ensures i < |catalog| && catalog[i] == Covering(catalog, n)[k]
    ensures forall j :: 0 <= j < i && Covers(catalog[j], n) ==>
      exists m :: 0 <= m < k && Covering(catalog, n)[m] == catalog[j]
  {
    var cov := Covering(catalog, n);
    i := CoveringIndex(catalog, n, k);
    forall j | 0 <= j < i && Covers(catalog[j], n)
      ensures exists m :: 0 <= m < k && cov[m] == catalog[j]
    {
      assert catalog[..i][j] == catalog[j];
      CoveringHas(catalog[..i], n, j);
      var m :| 0 <= m < k && cov[..k][m] == catalog[j];
      assert cov[m] == catalog[j];
    }
  }

  /** A covering entry whose rank no earlier covering entry shares has no
      covering entry of that rank before it in the catalog either. */
  lemma FirstOfRankInCatalog(catalog: seq<Json>, n: int, k: nat)
    requires k < |Covering(catalog, n)|
    requires forall m :: 0 <= m < k ==>
      VersionRank(Covering(catalog, n)[m]) != VersionRank(Covering(catalog, n)[k])
    ensures exists i :: (0 <= i < |catalog| && catalog[i] == Covering(catalog, n)[k]
      && forall j :: 0 <= j < i && Covers(catalog[j], n) ==>
           VersionRank(catalog[j]) != VersionRank(Covering(catalog, n)[k]))
  {
    var cov := Covering(catalog, n);
    var i := CoveringEarlier(catalog, n, k);
    forall j | 0 <= j < i && Covers(catalog[j], n)
      ensures VersionRank(catalog[j]) != VersionRank(cov[k])
    {
      var m :| 0 <= m < k && cov[m] == catalog[j];
    }
  }

  /** The chosen entry is an element of the catalog, and every covering entry
      before it has a different version: among equal versions the earliest wins. */
  lemma RoutingForEarliest(pid: string, catalog: seq<Json>)
    requires RoutingFor(pid, catalog).Ok?
    ensures var n := ParseRobotPid(pid).value;
      var r := RoutingFor(pid, catalog).value;
      && Covers(r, n)
      && exists i :: 0 <= i < |catalog| && catalog[i] == r
           && forall j :: 0 <= j < i && Covers(catalog[j], n) ==> VersionRank(catalog[j]) != VersionRank(r)
  {
    var n := ParseRobotPid(pid).value;
    var r := RoutingFor(pid, catalog).value;
    var k := ChosenFromCovering(pid, catalog);
    var cov := Covering(catalog, n);
    assert r == cov[k];
    FirstOfRankInCatalog(catalog, n, k);
  }

  /** With a well-formed pid and a readable catalog, the lookup fails exactly
      when no entry covers the pid's sequence number, and then with the "no
      routing" error; an unreadable entry makes it raise instead. */
  lemma RoutingForOutcome(pid: string, catalog: seq<Json>)
    requires ParseRobotPid(pid).Ok?
    ensures var n := ParseRobotPid(pid).value;
      (forall i :: 0 <= i < |catalog| ==> Readable(catalog[i])) ==>
        && (RoutingFor(pid, catalog).Ok? <==> exists i :: 0 <= i < |catalog| && Covers(catalog[i], n))
        && (RoutingFor(pid, catalog).Err? ==> RoutingFor(pid, catalog).error == NoRoutingCovers(pid))
    ensures (exists i :: 0 <= i < |catalog| && !Readable(catalog[i])) ==>
      RoutingFor(pid, catalog).Err? && RoutingFor(pid, catalog).error in {AttributeError, TypeError}
  {
    var n := ParseRobotPid(pid).value;
    CandidatesOk(catalog, n);
    if Candidates(catalog, n).Ok? {
      CandidatesValue(catalog, n);
    } else {
      CandidatesError(catalog, n);
    }
    if exists i :: 0 <= i < |catalog| && Covers(catalog[i], n) {
      var i :| 0 <= i < |catalog| && Covers(catalog[i], n);
      CoveringHas(catalog, n, i);
    }
  }

  /** A version that is missing, or is not a string, ranks as (0, 0, 0). */
  lemma NonStringVersionRanksZero(e: Json)
    requires e.JObj? && !Get(e, "version").JStr?
    ensures VersionRank(e) == (0, 0, 0)
  {
    var v := GetOr(e, "version", JStr("0.0.0"));
    if v.JStr? {
      ZeroVersion();
    } else {
      var s := PyStr(v);
      NoDotNoVersion(s);
      if EndsWithNewline(s) {
        var t := s[..|s| - 1];
        assert '.' !in t by {
          forall k | 0 <= k < |t| ensures t[k] != '.' { assert t[k] == s[k]; }
        }
        NoDotNoVersion(t);
      }
    }
  }

  lemma ZeroVersion()
    ensures ParseSemver("0.0.0") == (0, 0, 0)
  {
    var z := "0";
    ParseSemverOf(z, z, z, false);
    assert z + "." + z + "." + z + "" == "0.0.0";
    assert DecimalValue(z) == 0 by { assert z[..0] == []; }
  }

  lemma NoDotNoVersion(s: string)
    requires '.' !in s
    ensures SemverCore(s).None?
  {
    SplitNoSep(s, '.');
  }

  // ---- a worked catalog: two overlapping ranges ----

  function Entry(version: string, effectivity: string): Json
  {
    JObj(map["version" := JStr(version), "effectivity" := JStr(effectivity)])
  }

  lemma EntryReads(version: string, effectivity: string)
    ensures var e := Entry(version, effectivity);
      Readable(e) && VersionRank(e) == ParseSemver(version) && GetOr(e, "effectivity", JStr("")) == JStr(effectivity)
  {
  }

  lemma PlainVersion(major: string)
    requires major != [] && AllDigits(major)
    ensures ParseSemver(major + ".0.0") == (DecimalValue(major), 0, 0)
  {
    var z := "0";
    ParseSemverOf(major, z, z, false);
    assert major + "." + z + "." + z + "" == major + ".0.0";
    assert DecimalValue(z) == 0 by { assert z[..0] == []; }
  }

  function Older(): Json { Entry("1.0.0", "0001-0200") }
  function Newer(): Json { Entry("2.0.0", "0050-0100") }

  lemma OlderRank()
    ensures Readable(Older()) && VersionRank(Older()) == (1, 0, 0)
  {
    assert DecimalValue("1") == 1 by { assert "1"[..0] == []; }
    PlainVersion("1");
    assert "1" + ".0.0" == "1.0.0";
    EntryReads("1.0.0", "0001-0200");
  }

  lemma OlderRange()
    ensures Effectivity("0001-0200") == Some((1, 200))
  {
    FourDigits("0001");
    FourDigits("0200");
    EffectivityOf("0001", "0200", false);
    assert "0001" + "-" + "0200" + "" == "0001-0200";
  }

  lemma NewerRank()
    ensures Readable(Newer()) && VersionRank(Newer()) == (2, 0, 0)
  {
    assert DecimalValue("2") == 2 by { assert "2"[..0] == []; }
    PlainVersion("2");
    assert "2" + ".0.0" == "2.0.0";
    EntryReads("2.0.0", "0050-0100");
  }

  lemma NewerRange()
    ensures Effectivity("0050-0100") == Some((50, 100))
  {
    FourDigits("0050");
    FourDigits("0100");
    EffectivityOf("0050", "0100", false);
    assert "0050" + "-" + "0100" + "" == "0050-0100";
  }

  lemma WorkedEntries()
    ensures Readable(Older()) && Readable(Newer())
    ensures VersionRank(Older()) == (1, 0, 0) && VersionRank(Newer()) == (2, 0, 0)
    ensures Covers(Older(), 75) && Covers(Newer(), 75) && Covers(Older(), 150) && !Covers(Newer(), 150)
  {
    OlderRank();
    OlderRange();
    NewerRank();
    NewerRange();
    EntryReads("1.0.0", "0001-0200");
    EntryReads("2.0.0", "0050-0100");
  }

  lemma ChosenOfTwo(pid: string, catalog: seq<Json>)
    requires |catalog| == 2 && RoutingFor(pid, catalog).Ok?
    ensures RoutingFor(pid, catalog).value in {catalog[0], catalog[1]}
  {
    RoutingForEarliest(pid, catalog);
  }

  /** The choice among two readable entries, the second of higher version,
      the first covering `n`. */
  lemma PickOfTwo(pid: string, catalog: seq<Json>, n: int)
    requires |catalog| == 2 && ParseRobotPid(pid) == Ok(n)
    requires Readable(catalog[0]) && Readable(catalog[1]) && Covers(catalog[0], n)
    requires TripleGreater(VersionRank(catalog[1]), VersionRank(catalog[0]))
    ensures RoutingFor(pid, catalog).Ok?
    ensures RoutingFor(pid, catalog).value == if Covers(catalog[1], n) then catalog[1] else catalog[0]
  {
    var r := ChoiceOfTwo(pid, catalog, n);
    PickOfTwoValues(catalog[0], catalog[1], r, n);
  }

  lemma ChoiceOfTwo(pid: string, catalog: seq<Json>, n: int) returns (r: Json)
    requires |catalog| == 2 && ParseRobotPid(pid) == Ok(n)
    requires Readable(catalog[0]) && Readable(catalog[1]) && Covers(catalog[0], n)
    ensures RoutingFor(pid, catalog) == Ok(r)
    ensures (r == catalog[0] || r == catalog[1]) && Covers(r, n)
    ensures Covers(catalog[1], n) ==> !TripleGreater(VersionRank(catalog[1]), VersionRank(r))
  {
    RoutingForOutcome(pid, catalog);
    ChosenOfTwo(pid, catalog);
    RoutingForMaximal(pid, catalog);
    r := RoutingFor(pid, catalog).value;
  }

  lemma PickOfTwoValues(older: Json, newer: Json, r: Json, n: int)
    requires r == older || r == newer
    requires older.JObj? && newer.JObj? && Covers(r, n)
    requires Covers(newer, n) ==> !TripleGreater(VersionRank(newer), VersionRank(r))
    requires TripleGreater(VersionRank(newer), VersionRank(older))
    ensures r == if Covers(newer, n) then newer else older
  {
  }

  /** Version 1.0.0 covers 0001-0200 and version 2.0.0 covers 0050-0100: robot
      0075 gets 2.0.0, the higher version, and robot 0150 gets 1.0.0, the only
      one that covers it. */
  lemma OverlappingRangesExample()
    ensures RoutingFor("JAG-0075", [Older(), Newer()]).Ok?
    ensures RoutingFor("JAG-0075", [Older(), Newer()]).value == Newer()
    ensures RoutingFor("JAG-0150", [Older(), Newer()]).Ok?
    ensures RoutingFor("JAG-0150", [Older(), Newer()]).value == Older()
  {
    WorkedEntries();
    RobotExamples();
    PickOfTwo("JAG-0075", [Older(), Newer()], 75);
    PickOfTwo("JAG-0150", [Older(), Newer()], 150);
  }

  lemma RobotExamples()
    ensures ParseRobotPid("JAG-0075") == Ok(75) && ParseRobotPid("JAG-0150") == Ok(150)
  {
    assert "JAG-0075"[4..] == "0075";
    FourDigits("0075");
    assert "JAG-0150"[4..] == "0150";
    FourDigits("0150");
  }
}
