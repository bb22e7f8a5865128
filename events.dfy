/** jira_tools/services/events.py: rebuilding a robot's event history from the
    text of its issue comments.  The comments are an input here (the records
    `parse_adf_comment` produces) rather than a Jira fetch.  The two patterns
    are read line by line: a heading line names the event type, bullet lines
    give `key: value` fields. */
module Events {
  import opened Outcome
  import opened Text
  import opened StableSort
  import opened PyOrder
  import opened Adf

  // ---- the event record ----

  /** The schema fields of an event. */
  datatype FieldName =
    EventType | Timestamp | OperationSeq | OperationName | OperationStatus | Operator
    | ProductionStatus | OperatorComment

  /** The key under which a field is written in comments and in the result. */
  function Name(f: FieldName): string
  {
    match f
    case EventType => "eventType"
    case Timestamp => "timestamp"
    case OperationSeq => "operationSeq"
    case OperationName => "operationName"
    case OperationStatus => "operationStatus"
    case Operator => "operator"
    case ProductionStatus => "productionStatus"
    case OperatorComment => "operatorComment"
  }

  /** `_EVENT_ALL_FIELDS`, in schema order. */
  const EventAllFields: seq<FieldName> := [EventType, Timestamp, OperationSeq, OperationName,
    OperationStatus, Operator, ProductionStatus, OperatorComment]

  /** An event: one value per schema field, in schema order; `None` is a field
      that no line supplied. */
  datatype Event = Event(
    eventType: Option<string>, timestamp: Option<string>, operationSeq: Option<string>,
    operationName: Option<string>, operationStatus: Option<string>, operator: Option<string>,
    productionStatus: Option<string>, operatorComment: Option<string>)

  /** `evt[name]` */
  function Field(e: Event, f: FieldName): Option<string>
  {
    match f
    case EventType => e.eventType
    case Timestamp => e.timestamp
    case OperationSeq => e.operationSeq
    case OperationName => e.operationName
    case OperationStatus => e.operationStatus
    case Operator => e.operator
    case ProductionStatus => e.productionStatus
    case OperatorComment => e.operatorComment
  }

  /** `evt[name] = v` */
  function WithField(e: Event, f: FieldName, v: Option<string>): (r: Event)
    ensures Field(r, f) == v
    ensures forall g :: g != f ==> Field(r, g) == Field(e, g)
  {
    match f
    case EventType => e.(eventType := v)
    case Timestamp => e.(timestamp := v)
    case OperationSeq => e.(operationSeq := v)
    case OperationName => e.(operationName := v)
    case OperationStatus => e.(operationStatus := v)
    case Operator => e.(operator := v)
    case ProductionStatus => e.(productionStatus := v)
    case OperatorComment => e.(operatorComment := v)
  }

  /** Two events with the same value in every schema field are the same event. */
  lemma EventsEqual(a: Event, b: Event)
    requires forall f :: Field(a, f) == Field(b, f)
    ensures a == b
  {
    assert Field(a, EventType) == Field(b, EventType);
    assert Field(a, Timestamp) == Field(b, Timestamp);
    assert Field(a, OperationSeq) == Field(b, OperationSeq);
    assert Field(a, OperationName) == Field(b, OperationName);
    assert Field(a, OperationStatus) == Field(b, OperationStatus);
    assert Field(a, Operator) == Field(b, Operator);
    assert Field(a, ProductionStatus) == Field(b, ProductionStatus);
    assert Field(a, OperatorComment) == Field(b, OperatorComment);
  }

  /** Where a field sits in the schema. */
  function Position(f: FieldName): (i: nat)
    ensures i < |EventAllFields| && EventAllFields[i] == f
  {
    match f
    case EventType => 0
    case Timestamp => 1
    case OperationSeq => 2
    case OperationName => 3
    case OperationStatus => 4
    case Operator => 5
    case ProductionStatus => 6
    case OperatorComment => 7
  }

  /** The schema lists every field once. */
  lemma SchemaComplete(f: FieldName)
    ensures multiset(EventAllFields)[f] == 1
  {
  }

  /** The event as the dict the code returns: the eight schema keys in schema
      order, `operatorComment` last, each with its field's value. */
  function Entries(e: Event): (r: seq<(string, Option<string>)>)
    ensures |r| == |EventAllFields| == 8
    ensures forall i :: 0 <= i < |r| ==> r[i] == (Name(EventAllFields[i]), Field(e, EventAllFields[i]))
    ensures r[7].0 == "operatorComment"
  {
    seq(|EventAllFields|, i requires 0 <= i < |EventAllFields| => (Name(EventAllFields[i]), Field(e, EventAllFields[i])))
  }

  /** `{f: None for f in _EVENT_ALL_FIELDS}` */
  const BlankEvent: Event := Event(None, None, None, None, None, None, None, None)

  // ---- line recognisers ----

  predicate IsHash(c: char) { c == '#' }

  predicate IsTokenChar(c: char) { 'A' <= c <= 'Z' || c == '_' }

  /** The bullets a field line may start with: - – — * • */
  predicate IsBullet(c: char)
  {
    c == '-' || c == '–' || c == '—' || c == '*' || c == '•'
  }

  predicate AllHash(s: string) { forall i :: 0 <= i < |s| ==> IsHash(s[i]) }

  predicate AllToken(s: string) { forall i :: 0 <= i < |s| ==> IsTokenChar(s[i]) }

  predicate AllWord(s: string) { forall i :: 0 <= i < |s| ==> IsWordChar(s[i]) }

  /** The heading pattern on one line: `\s*#{1,6}\s*([A-Z_]+)\s*`; the token. */
  function HeadingToken(line: string): Option<string>
  {
    var r1 := line[Span(line, IsSpace)..];
    var h := Span(r1, IsHash);
    if 1 <= h <= 6 then TokenLine(r1[h..]) else None
  }

  /** What follows the hashes: whitespace, the token, whitespace. */
  function TokenLine(r: string): Option<string>
  {
    var r3 := r[Span(r, IsSpace)..];
    var t := Span(r3, IsTokenChar);
    if t >= 1 && AllSpace(r3[t..]) then Some(r3[..t]) else None
  }

  /** The pieces a heading line is made of. */
  predicate HeadingParts(w1: string, hashes: string, w2: string, token: string, w3: string)
  {
    AllSpace(w1) && 1 <= |hashes| <= 6 && AllHash(hashes) && AllSpace(w2)
    && token != [] && AllToken(token) && AllSpace(w3)
  }

  /** The heading recogniser accepts exactly the lines made of whitespace, one
      to six '#', whitespace, an upper-case token and whitespace, and returns
      that token. */
  lemma HeadingTokenExactly(line: string, token: string)
    ensures HeadingToken(line) == Some(token) <==>
      exists w1, hashes, w2, w3 :: HeadingParts(w1, hashes, w2, token, w3)
        && line == w1 + (hashes + (w2 + (token + w3)))
  {
    if HeadingToken(line) == Some(token) {
      PartsOfHeading(line, token);
    }
    if exists w1, hashes, w2, w3 :: HeadingParts(w1, hashes, w2, token, w3)
        && line == w1 + (hashes + (w2 + (token + w3))) {
      var w1, hashes, w2, w3 :| HeadingParts(w1, hashes, w2, token, w3)
        && line == w1 + (hashes + (w2 + (token + w3)));
      HeadingOfParts(w1, hashes, w2, token, w3);
    }
  }

  lemma PartsOfHeading(line: string, token: string)
    requires HeadingToken(line) == Some(token)
    ensures exists w1, hashes, w2, w3 :: (HeadingParts(w1, hashes, w2, token, w3)
              && line == w1 + (hashes + (w2 + (token + w3))))
  {
    var w1, r1 := SplitRun(line, IsSpace);
    var hashes, r2 := SplitRun(r1, IsHash);
    var w2, r3 := SplitRun(r2, IsSpace);
    var t, w3 := SplitRun(r3, IsTokenChar);
    assert HeadingParts(w1, hashes, w2, token, w3);
  }

  lemma HeadingOfParts(w1: string, hashes: string, w2: string, token: string, w3: string)
    requires HeadingParts(w1, hashes, w2, token, w3)
    ensures HeadingToken(w1 + (hashes + (w2 + (token + w3)))) == Some(token)
  {
    var r3 := token + w3;
    var r2 := w2 + r3;
    var r1 := hashes + r2;
    SkipRun(token, w3, IsTokenChar);
    SkipRun(w2, r3, IsSpace);
    SkipRun(hashes, r2, IsHash);
    SkipRun(w1, r1, IsSpace);
  }

  /** A string split where its leading run of `p` characters ends. */
  lemma SplitRun(s: string, p: char -> bool) returns (x: string, y: string)
    ensures x == s[..Span(s, p)] && y == s[Span(s, p)..] && s == x + y
    ensures (forall i :: 0 <= i < |x| ==> p(x[i])) && (y == [] || !p(y[0]))
  {
    x, y := s[..Span(s, p)], s[Span(s, p)..];
    assert s == x + y;
  }

  lemma Reassemble(s: string, n: nat)
    requires n <= |s|
    ensures s == s[..n] + s[n..]
  {
  }

  lemma ReassembleHead(s: string)
    requires s != []
    ensures s == [s[0]] + s[1..]
  {
  }

  /** Skipping a run of `p` characters that ends where `p` fails. */
  lemma SkipRun(x: string, y: string, p: char -> bool)
    requires forall i :: 0 <= i < |x| ==> p(x[i])
    requires y == [] || !p(y[0])
    ensures Span(x + y, p) == |x| && (x + y)[|x|..] == y && (x + y)[..|x|] == x
  {
    SpanOfRun(x, y, p);
  }

  /** The field pattern on one line: `\s*[bullet]\s*([A-Za-z]\w*)\s*:\s*(.+?)\s*`;
      the key and the stripped value.  The lazy value with the trailing `\s*`
      takes the text after the colon, which must not be empty, stripped of
      whitespace (a whitespace-only rest gives ""). */
  function FieldEntry(line: string): Option<(string, string)>
  {
    match AfterBullet(line)
    case None => None
    case Some(r) => KeyValue(r)
  }

  /** Leading whitespace and a bullet; what follows the bullet. */
  function AfterBullet(line: string): Option<string>
  {
    var r := line[Span(line, IsSpace)..];
    if r == [] || !IsBullet(r[0]) then None else Some(r[1..])
  }

  /** `\s*([A-Za-z]\w*)\s*:(.+)` after the bullet: the key and the stripped rest. */
  function KeyValue(r: string): Option<(string, string)>
  {
    var r3 := r[Span(r, IsSpace)..];
    if r3 == [] || !IsAsciiLetter(r3[0]) then None
    else
      var k := Span(r3, IsWordChar);
      var r4 := r3[k..];
      var r5 := r4[Span(r4, IsSpace)..];
      if r5 == [] || r5[0] != ':' || r5[1..] == [] then None
      else Some((r3[..k], Strip(r5[1..])))
  }

  /** The pieces a field line is made of. */
  predicate FieldParts(w1: string, bullet: char, w2: string, key: string, w3: string, rest: string)
  {
    AllSpace(w1) && IsBullet(bullet) && AllSpace(w2)
    && key != [] && IsAsciiLetter(key[0]) && AllWord(key) && AllSpace(w3) && rest != []
  }

  /** The field recogniser accepts exactly the lines made of whitespace, a
      bullet, whitespace, a key, whitespace, ':' and a non-empty rest, and
      returns the key and the rest stripped. */
  lemma FieldEntryExactly(line: string, key: string, value: string)
    ensures FieldEntry(line) == Some((key, value)) <==>
      exists w1, bullet, w2, w3, rest :: FieldParts(w1, bullet, w2, key, w3, rest)
        && line == w1 + ([bullet] + (w2 + (key + (w3 + (":" + rest))))) && value == Strip(rest)
  {
    if FieldEntry(line) == Some((key, value)) {
      PartsOfField(line, key, value);
    }
    if exists w1, bullet, w2, w3, rest :: FieldParts(w1, bullet, w2, key, w3, rest)
        && line == w1 + ([bullet] + (w2 + (key + (w3 + (":" + rest))))) && value == Strip(rest) {
      var w1, bullet, w2, w3, rest :| FieldParts(w1, bullet, w2, key, w3, rest)
        && line == w1 + ([bullet] + (w2 + (key + (w3 + (":" + rest))))) && value == Strip(rest);
      FieldOfParts(w1, bullet, w2, key, w3, rest);
    }
  }

  lemma PartsOfField(line: string, key: string, value: string)
    requires FieldEntry(line) == Some((key, value))
    ensures exists w1, bullet, w2, w3, rest :: (FieldParts(w1, bullet, w2, key, w3, rest)
              && line == w1 + ([bullet] + (w2 + (key + (w3 + (":" + rest))))) && value == Strip(rest))
  {
    var r :| AfterBullet(line) == Some(r) && KeyValue(r) == Some((key, value));
    var w1, bullet := PartsOfBullet(line, r);
    var w2, w3, rest := PartsOfKeyValue(r, key, value);
    assert FieldParts(w1, bullet, w2, key, w3, rest);
  }

  lemma PartsOfBullet(line: string, r: string) returns (w1: string, bullet: char)
    requires AfterBullet(line) == Some(r)
    ensures AllSpace(w1) && IsBullet(bullet) && line == w1 + ([bullet] + r)
  {
    var n := Span(line, IsSpace);
    var r1 := line[n..];
    w1, bullet := line[..n], r1[0];
    ReassembleHead(r1);
    Reassemble(line, n);
  }

  lemma PartsOfKeyValue(r: string, key: string, value: string) returns (w2: string, w3: string, rest: string)
    requires KeyValue(r) == Some((key, value))
    ensures AllSpace(w2) && key != [] && IsAsciiLetter(key[0]) && AllWord(key) && AllSpace(w3)
    ensures rest != [] && value == Strip(rest)
    ensures r == w2 + (key + (w3 + (":" + rest)))
  {
    var r3, r4, r5, k;
    w2, r3 := SplitRun(r, IsSpace);
    k, r4 := SplitRun(r3, IsWordChar);
    w3, r5 := SplitRun(r4, IsSpace);
    rest := r5[1..];
    assert r5[0] == ':';
    ReassembleHead(r5);
  }

  lemma FieldOfParts(w1: string, bullet: char, w2: string, key: string, w3: string, rest: string)
    requires FieldParts(w1, bullet, w2, key, w3, rest)
    ensures FieldEntry(w1 + ([bullet] + (w2 + (key + (w3 + (":" + rest)))))) == Some((key, Strip(rest)))
  {
    var r := w2 + (key + (w3 + (":" + rest)));
    BulletOfParts(w1, bullet, r);
    KeyValueOfParts(w2, key, w3, rest);
  }

  lemma BulletOfParts(w1: string, bullet: char, r: string)
    requires AllSpace(w1) && IsBullet(bullet)
    ensures AfterBullet(w1 + ([bullet] + r)) == Some(r)
  {
    SkipRun(w1, [bullet] + r, IsSpace);
    assert ([bullet] + r)[1..] == r;
  }

  lemma KeyValueOfParts(w2: string, key: string, w3: string, rest: string)
    requires AllSpace(w2) && key != [] && IsAsciiLetter(key[0]) && AllWord(key) && AllSpace(w3) && rest != []
    ensures KeyValue(w2 + (key + (w3 + (":" + rest)))) == Some((key, Strip(rest)))
  {
    var r5 := ":" + rest;
    var r4 := w3 + r5;
    var r3 := key + r4;
    SkipRun(w3, r5, IsSpace);
    SkipRun(key, r4, IsWordChar);
    SkipRun(w2, r3, IsSpace);
    assert r5[1..] == rest;
  }

  // ---- from comment text to an event ----

  function Lines(text: string): seq<string>
  {
    Split(text, '\n')
  }

  /** `_EVENT_HEADER_RE.search(text)`: the token of the first heading line. */
  function FirstHeading(lines: seq<string>): Option<string>
  {
    FirstSome(HeadingsOf(lines))
  }

  /** What each line offers as a heading. */
  function HeadingsOf(lines: seq<string>): (r: seq<Option<string>>)
    ensures |r| == |lines| && forall i :: 0 <= i < |lines| ==> r[i] == HeadingToken(lines[i])
  {
    seq(|lines|, i requires 0 <= i < |lines| => HeadingToken(lines[i]))
  }

  /** The first present value, scanning from the front. */
  function FirstSome<T>(xs: seq<Option<T>>): Option<T>
  {
    if xs == [] then None
    else if xs[0].Some? then xs[0]
    else FirstSome(xs[1..])
  }

  /** The first present value is present exactly when some value is, and is
      the value at the first such position. */
  lemma {:induction false} FirstSomeMeaning<T>(xs: seq<Option<T>>)
    ensures FirstSome(xs).Some? <==> exists i :: 0 <= i < |xs| && xs[i].Some?
    ensures FirstSome(xs).Some? ==>
      exists i :: 0 <= i < |xs| && xs[i] == FirstSome(xs) && forall j :: 0 <= j < i ==> xs[j].None?
  {
    if xs != [] && xs[0].None? {
      var rest := xs[1..];
      FirstSomeMeaning(rest);
      assert forall i :: 1 <= i < |xs| ==> xs[i] == rest[i - 1];
      if FirstSome(rest).Some? {
        var i :| 0 <= i < |rest| && rest[i] == FirstSome(rest) && forall j :: 0 <= j < i ==> rest[j].None?;
        assert xs[i + 1] == FirstSome(xs);
      }
    }
  }

  /** The heading search finds a token exactly when some line is a heading,
      and returns the token of the first heading line. */
  lemma FirstHeadingMeaning(lines: seq<string>)
    ensures FirstHeading(lines).Some? <==> exists i :: 0 <= i < |lines| && HeadingToken(lines[i]).Some?
    ensures FirstHeading(lines).Some? ==>
      exists i :: 0 <= i < |lines| && HeadingToken(lines[i]) == FirstHeading(lines)
        && forall j :: 0 <= j < i ==> HeadingToken(lines[j]).None?
  {
    FirstSomeMeaning(HeadingsOf(lines));
  }

  /** The `parsed` dict the `finditer` loop fills: each field line sets its
      key, so a later line with the same key wins. */
  function FieldMap(lines: seq<string>): map<string, string>
  {
    Collect(EntriesOf(lines))
  }

  /** What each line contributes. */
  function EntriesOf(lines: seq<string>): (r: seq<Option<(string, string)>>)
    ensures |r| == |lines| && forall i :: 0 <= i < |lines| ==> r[i] == FieldEntry(lines[i])
  {
    seq(|lines|, i requires 0 <= i < |lines| => FieldEntry(lines[i]))
  }

  /** Successive assignments `parsed[key] = value`. */
  function Collect(entries: seq<Option<(string, string)>>): map<string, string>
  {
    if entries == [] then map[]
    else
      var m := Collect(entries[..|entries| - 1]);
      match entries[|entries| - 1]
      case Some(kv) => m[kv.0 := kv.1]
      case None => m
  }

  /** The `finditer` loop as the code runs it. */
  method ParseFields(lines: seq<string>) returns (parsed: map<string, string>)
    ensures parsed == FieldMap(lines)
  {
    ghost var entries := EntriesOf(lines);
    parsed := map[];
    for i := 0 to |lines|
      invariant parsed == Collect(entries[..i])
    {
      assert entries[..i + 1][..i] == entries[..i];
      var m := FieldEntry(lines[i]);
      if m.Some? {
        parsed := parsed[m.value.0 := m.value.1];
      }
    }
    assert entries[..|lines|] == entries;
  }

  /** After successive assignments a key is present exactly when some entry
      gives it, and holds the value of the last entry that gives it. */
  lemma CollectLastWins(entries: seq<Option<(string, string)>>, key: string)
    ensures key in Collect(entries) <==>
      exists i :: 0 <= i < |entries| && entries[i].Some? && entries[i].value.0 == key
    ensures key in Collect(entries) ==>
      exists i :: 0 <= i < |entries| && entries[i] == Some((key, Collect(entries)[key]))
        && forall j :: i < j < |entries| ==> entries[j].None? || entries[j].value.0 != key
  {
    CollectHas(entries, key);
    if key in Collect(entries) {
      CollectLast(entries, key);
    }
  }

  /** A key is collected exactly when some entry gives it. */
  lemma {:induction false} CollectHas(entries: seq<Option<(string, string)>>, key: string)
    ensures key in Collect(entries) <==>
      exists i :: 0 <= i < |entries| && entries[i].Some? && entries[i].value.0 == key
  {
    if entries != [] {
      var init := entries[..|entries| - 1];
      CollectHas(init, key);
      assert forall i :: 0 <= i < |init| ==> init[i] == entries[i];
    }
  }

  /** The collected value is that of the last entry giving the key. */
  lemma {:induction false} CollectLast(entries: seq<Option<(string, string)>>, key: string)
    requires key in Collect(entries)
    ensures exists i :: (0 <= i < |entries| && entries[i] == Some((key, Collect(entries)[key]))
        && forall j :: i < j < |entries| ==> entries[j].None? || entries[j].value.0 != key)
  {
    var init := entries[..|entries| - 1];
    var last := |entries| - 1;
    var e := entries[last];
    if e.Some? && e.value.0 == key {
      assert entries[last] == Some((key, Collect(entries)[key]));
    } else {
      assert key in Collect(init) && Collect(entries)[key] == Collect(init)[key];
      CollectLast(init, key);
      var i :| 0 <= i < |init| && init[i] == Some((key, Collect(init)[key]))
        && forall j :: i < j < |init| ==> init[j].None? || init[j].value.0 != key;
      assert entries[i] == init[i];
      forall j | i < j < |entries| ensures entries[j].None? || entries[j].value.0 != key {
        if j < last { assert entries[j] == init[j]; }
      }
    }
  }

  /** A key is in the parsed dict exactly when some field line gives it, and
      its value is that of the last such line. */
  lemma FieldMapLastWins(lines: seq<string>, key: string)
    ensures key in FieldMap(lines) <==>
      exists i :: 0 <= i < |lines| && FieldEntry(lines[i]).Some? && FieldEntry(lines[i]).value.0 == key
    ensures key in FieldMap(lines) ==>
      exists i :: 0 <= i < |lines| && FieldEntry(lines[i]) == Some((key, FieldMap(lines)[key]))
        && forall j :: i < j < |lines| ==> FieldEntry(lines[j]).None? || FieldEntry(lines[j]).value.0 != key
  {
    CollectLastWins(EntriesOf(lines), key);
  }

  /** The event record the code builds: every schema field a field line gave,
      and otherwise the heading's token for `eventType` and None for the rest. */
  function MakeEvent(etype: string, parsed: map<string, string>): (e: Event)
    ensures forall f :: Field(e, f) == (if Name(f) in parsed then Some(parsed[Name(f)])
                                       else if f == EventType then Some(etype) else None)
  {
    Event(
      Some(if "eventType" in parsed then parsed["eventType"] else etype),
      Given(parsed, "timestamp"), Given(parsed, "operationSeq"), Given(parsed, "operationName"),
      Given(parsed, "operationStatus"), Given(parsed, "operator"), Given(parsed, "productionStatus"),
      Given(parsed, "operatorComment"))
  }

  function Given(parsed: map<string, string>, key: string): Option<string>
  {
    if key in parsed then Some(parsed[key]) else None
  }

  /** The event build as the code runs it: all fields None, `eventType` the
      heading token, then one pass over the schema copying what `parsed` has. */
  method BuildEvent(etype: string, parsed: map<string, string>) returns (evt: Event)
    ensures evt == MakeEvent(etype, parsed)
  {
    evt := WithField(BlankEvent, EventType, Some(etype));
    for k := 0 to |EventAllFields|
      invariant forall j :: 0 <= j < |EventAllFields| ==>
        Field(evt, EventAllFields[j]) ==
          if j < k && Name(EventAllFields[j]) in parsed then Some(parsed[Name(EventAllFields[j])])
          else if j == 0 then Some(etype) else None
    {
      var f := EventAllFields[k];
      if Name(f) in parsed {
        evt := WithField(evt, f, Some(parsed[Name(f)]));
      }
    }
    forall f ensures Field(evt, f) == Field(MakeEvent(etype, parsed), f) {
      assert EventAllFields[Position(f)] == f;
    }
    EventsEqual(evt, MakeEvent(etype, parsed));
  }

  const NBSP: char := ' '

  /** `text.replace(" ", " ").strip()` */
  function Normalize(text: string): string
  {
    Strip(ReplaceChar(text, NBSP, ' '))
  }

  /** The event one comment yields, if any.  A parsed comment always has a
      str "text", so the "body" fallback never applies. */
  function EventOf(c: ParsedComment): Option<Event>
  {
    var text := Normalize(c.text);
    if text == [] then None else EventOfLines(Lines(text))
  }

  /** The event the lines of a non-empty text yield, if any. */
  function EventOfLines(lines: seq<string>): Option<Event>
  {
    match FirstHeading(lines)
    case None => None
    case Some(etype) => Some(MakeEvent(etype, FieldMap(lines)))
  }

  /** The `events` list, in comment order, before the sort. */
  function Built(comments: seq<ParsedComment>): (r: seq<Event>)
    ensures |r| <= |comments|
  {
    if comments == [] then []
    else
      var init := Built(comments[..|comments| - 1]);
      match EventOf(comments[|comments| - 1])
      case Some(e) => init + [e]
      case None => init
  }

  /** `e.get("timestamp") or ""` */
  function TimestampKey(e: Event): string
  {
    match e.timestamp
    case Some(t) => t
    case None => ""
  }

  /** What `get_event_history_for` returns: the built events stably sorted by
      timestamp string. */
  function EventHistory(comments: seq<ParsedComment>): seq<Event>
  {
    Sort(Built(comments), TimestampKey, LexLess)
  }

  /** `get_event_history_for` as the code runs it, with the comments passed in. */
  method GetEventHistoryFor(comments: seq<ParsedComment>) returns (events: seq<Event>)
    ensures events == EventHistory(comments)
  {
    events := [];
    for i := 0 to |comments|
      invariant events == Built(comments[..i])
    {
      assert comments[..i + 1][..i] == comments[..i];
      var text := Normalize(comments[i].text);
      if text == [] {
        continue;
      }
      var lines := Lines(text);
      var header := FirstHeading(lines);
      if header.None? {
        continue;
      }
      var parsed := ParseFields(lines);
      var evt := BuildEvent(header.value, parsed);
      events := events + [evt];
    }
    assert comments[..|comments|] == comments;
    events := Sort(events, TimestampKey, LexLess);
  }

  // ---- what the history means ----

  /** A comment yields an event exactly when its normalised text is not empty
      and has a heading line. */
  lemma EventOfExists(c: ParsedComment)
    ensures var lines := Lines(Normalize(c.text));
      EventOf(c).Some? <==>
        Normalize(c.text) != [] && exists i :: 0 <= i < |lines| && HeadingToken(lines[i]).Some?
  {
    FirstHeadingMeaning(Lines(Normalize(c.text)));
  }

  /** The event some lines yield: its type is the first heading line's token
      unless a field line gives `eventType`, and every other field is the
      last value a field line gave for it, or None. */
  lemma EventOfLinesFields(lines: seq<string>, e: Event)
    requires EventOfLines(lines) == Some(e)
    ensures e.eventType == Some(if "eventType" in FieldMap(lines) then FieldMap(lines)["eventType"]
                                else FirstHeading(lines).value)
    ensures forall f :: f != EventType ==> Field(e, f) == Given(FieldMap(lines), Name(f))
  {
    var parsed := FieldMap(lines);
    assert e == MakeEvent(FirstHeading(lines).value, parsed);
    assert Field(e, EventType) == e.eventType;
  }

  /** The history is ordered by timestamp string. */
  lemma HistorySorted(comments: seq<ParsedComment>)
    ensures SortedBy(EventHistory(comments), TimestampKey, LexLess)
  {
    LexLessStrictTotal();
    SortSorted(Built(comments), TimestampKey, LexLess);
  }

  /** The history holds exactly the built events. */
  lemma HistoryPermutation(comments: seq<ParsedComment>)
    ensures multiset(EventHistory(comments)) == multiset(Built(comments))
    ensures |EventHistory(comments)| == |Built(comments)|
  {
    assert |multiset(EventHistory(comments))| == |multiset(Built(comments))|;
  }

  /** Events with the same timestamp keep their comment order. */
  lemma HistoryStable(comments: seq<ParsedComment>, stamp: string)
    ensures WithKey(EventHistory(comments), TimestampKey, stamp) == WithKey(Built(comments), TimestampKey, stamp)
  {
    LexLessStrictTotal();
    SortStable(Built(comments), TimestampKey, LexLess, stamp);
  }

  /** Events without a timestamp (or with an empty one) come first. */
  lemma NoTimestampFirst(comments: seq<ParsedComment>, i: nat, j: nat)
    requires i < j < |EventHistory(comments)|
    requires TimestampKey(EventHistory(comments)[j]) == ""
    ensures TimestampKey(EventHistory(comments)[i]) == ""
  {
    HistorySorted(comments);
    var h := EventHistory(comments);
    assert !LexLess(TimestampKey(h[j]), TimestampKey(h[i]));
  }

  // ---- a worked comment ----

  /** A token that can follow the heading hashes. */
  predicate Token(token: string) { token != [] && AllToken(token) }

  /** A value that survives stripping and sits on one line. */
  predicate Plain(v: string)
  {
    v != [] && !IsSpace(v[0]) && !IsSpace(v[|v| - 1]) && '\n' !in v && NBSP !in v
  }

  function HeadingLine(token: string): string { "##" + (" " + token) }

  function StampLine(stamp: string): string { "-" + (" " + ("timestamp" + (":" + (" " + stamp)))) }

  /** A comment announcing an event and its timestamp, the shape the robot
      workflow posts. */
  function EventText(token: string, stamp: string): string
  {
    HeadingLine(token) + "\n" + StampLine(stamp)
  }

  /** A heading line with no surrounding whitespace. */
  lemma BareHeading(hashes: string, w2: string, token: string)
    requires HeadingParts("", hashes, w2, token, "")
    ensures HeadingToken(hashes + (w2 + token)) == Some(token)
  {
    HeadingOfParts("", hashes, w2, token, "");
    assert token + "" == token;
    assert "" + (hashes + (w2 + token)) == hashes + (w2 + token);
  }

  /** A field line with no leading whitespace and no space before the colon. */
  lemma BareField(bullet: char, w2: string, key: string, rest: string)
    requires FieldParts("", bullet, w2, key, "", rest)
    ensures FieldEntry([bullet] + (w2 + (key + (":" + rest)))) == Some((key, Strip(rest)))
  {
    FieldOfParts("", bullet, w2, key, "", rest);
    assert "" + (":" + rest) == ":" + rest;
    assert "" + ([bullet] + (w2 + (key + (":" + rest)))) == [bullet] + (w2 + (key + (":" + rest)));
  }

  /** A line starting with neither whitespace nor a bullet is not a field line. */
  lemma NotFieldLine(line: string)
    requires line != [] && !IsSpace(line[0]) && !IsBullet(line[0])
    ensures FieldEntry(line).None?
  {
    assert Span(line, IsSpace) == 0;
  }

  lemma HeadingLineToken(token: string)
    requires Token(token)
    ensures HeadingToken(HeadingLine(token)) == Some(token)
    ensures FieldEntry(HeadingLine(token)).None?
  {
    assert AllHash("##") && AllSpace(" ");
    BareHeading("##", " ", token);
    assert HeadingLine(token)[0] == '#';
    NotFieldLine(HeadingLine(token));
  }

  lemma StampLineEntry(stamp: string)
    requires Plain(stamp)
    ensures FieldEntry(StampLine(stamp)) == Some(("timestamp", stamp))
  {
    var rest := " " + stamp;
    assert AllWord("timestamp") && AllSpace(" ") && IsBullet('-');
    BareField('-', " ", "timestamp", rest);
    StripPadded(" ", stamp, "");
    assert " " + stamp + "" == rest;
  }

  lemma ReplaceAbsent(s: string, from: char, to: char)
    requires from !in s
    ensures ReplaceChar(s, from, to) == s
  {
  }

  lemma EventTextNormal(token: string, stamp: string)
    requires Token(token) && Plain(stamp)
    ensures Normalize(EventText(token, stamp)) == EventText(token, stamp)
  {
    var text := EventText(token, stamp);
    assert forall k :: 0 <= k < |token| ==> token[k] != NBSP;
    assert NBSP !in "timestamp";
    ReplaceAbsent(text, NBSP, ' ');
    assert text[0] == '#' && text[|text| - 1] == stamp[|stamp| - 1];
    StripFixed(text);
  }

  lemma EventTextLines(token: string, stamp: string)
    requires Token(token) && Plain(stamp)
    ensures Lines(EventText(token, stamp)) == [HeadingLine(token), StampLine(stamp)]
  {
    assert forall k :: 0 <= k < |token| ==> token[k] != '\n';
    assert '\n' !in "timestamp";
    SplitPrefix(HeadingLine(token), StampLine(stamp), '\n');
    SplitNoSep(StampLine(stamp), '\n');
  }

  lemma FirstOfTwo(a: string, b: string, token: string)
    requires HeadingToken(a) == Some(token)
    ensures FirstHeading([a, b]) == Some(token)
  {
    assert HeadingsOf([a, b])[0] == Some(token);
  }

  lemma FieldsOfTwo(a: string, b: string, key: string, value: string)
    requires FieldEntry(a).None? && FieldEntry(b) == Some((key, value))
    ensures FieldMap([a, b]) == map[key := value]
  {
    var entries := EntriesOf([a, b]);
    assert entries == [None, Some((key, value))];
    CollectTwo((key, value));
  }

  lemma CollectTwo(kv: (string, string))
    ensures Collect([None, Some(kv)]) == map[kv.0 := kv.1]
  {
    var entries: seq<Option<(string, string)>> := [None, Some(kv)];
    var first := entries[..1];
    assert first[..0] == [] && first[0] == None;
    assert Collect(first) == map[];
    assert entries[..|entries| - 1] == first;
  }

  /** Such a comment yields an event of that type carrying that timestamp and
      no other field. */
  lemma EventTextEvent(c: ParsedComment, token: string, stamp: string)
    requires Token(token) && Plain(stamp)
    requires c.text == EventText(token, stamp)
    ensures EventOf(c) == Some(Event(Some(token), Some(stamp), None, None, None, None, None, None))
  {
    EventTextNormal(token, stamp);
    EventTextLines(token, stamp);
    HeadingLineToken(token);
    StampLineEntry(stamp);
    FirstOfTwo(HeadingLine(token), StampLine(stamp), token);
    FieldsOfTwo(HeadingLine(token), StampLine(stamp), "timestamp", stamp);
    StampOnlyEvent(token, stamp);
    assert EventText(token, stamp) != [];
  }

  /** Only a timestamp was given: every other field but the type stays None. */
  lemma StampOnlyEvent(token: string, stamp: string)
    ensures MakeEvent(token, map["timestamp" := stamp]) == Event(Some(token), Some(stamp), None, None, None, None, None, None)
  {
    var parsed := map["timestamp" := stamp];
    assert "eventType" !in parsed && "operationSeq" !in parsed && "operationName" !in parsed;
    assert "operationStatus" !in parsed && "operator" !in parsed;
    assert "productionStatus" !in parsed && "operatorComment" !in parsed;
  }

  /** A record holding one OPERATION_COMPLETE comment has a history that starts
      with that event, as the integration test expects of its robot record. */
  lemma CompleteHistory(c: ParsedComment)
    requires c.text == EventText("OPERATION_COMPLETE", "2025-07-23T10:00:00Z")
    ensures EventHistory([c]) != [] && EventHistory([c])[0].eventType == Some("OPERATION_COMPLETE")
  {
    var token, stamp := "OPERATION_COMPLETE", "2025-07-23T10:00:00Z";
    assert Token(token);
    assert Plain(stamp);
    EventTextEvent(c, token, stamp);
    assert [c][..0] == [];
    assert Built([c]) == [EventOf(c).value];
    HistoryPermutation([c]);
    assert EventHistory([c])[0] in multiset(EventHistory([c]));
  }
}
