/** jira_tools/adf.py: flattening an Atlassian Document Format (ADF) tree into
    plain text, building a one-paragraph comment body, and reading comment and
    description records.  A Python exception is an `Err`. */
module Adf {
  import opened Outcome
  import opened Text
  import opened Json

  /** `build_adf_comment_body`: a doc holding one paragraph holding one text node. */
  function BuildAdfCommentBody(text: string): Json
  {
    var textNode := JObj(map["type" := JStr("text"), "text" := JStr(text)]);
    var paragraph := JObj(map["type" := JStr("paragraph"), "content" := JArr([textNode])]);
    JObj(map["body" := JObj(map["type" := JStr("doc"), "version" := JInt(1), "content" := JArr([paragraph])])])
  }

  /** Iterating `content` where the code writes `for child in content or []`:
      a falsy value gives no children, a list gives its items; a non-empty string
      or dict yields str children whose `.get` fails, and a true or non-zero
      number is not iterable. */
  function ContentItems(content: Json): (r: Result<seq<Json>>)
    ensures r.Ok? <==> !Truthy(content) || content.JArr?
    ensures r.Ok? ==> r.value == if content.JArr? then content.items else []
  {
    if !Truthy(content) then Ok([])
    else
      match content
      case JArr(items) => Ok(items)
      case JStr(_) => Err(AttributeError)
      case JObj(_) => Err(AttributeError)
      case _ => Err(TypeError)
  }

  /** The results of a loop that stops at the first exception: all the values
      when every step succeeded, else the earliest error. */
  function AllOk(rs: seq<Result<Json>>): (r: Result<seq<Json>>)
    ensures r.Ok? ==> |r.value| == |rs| && forall i :: 0 <= i < |rs| ==> rs[i] == Ok(r.value[i])
    ensures r.Err? ==> exists i :: 0 <= i < |rs| && rs[i] == Err(r.error) && forall j :: 0 <= j < i ==> rs[j].Ok?
  {
    if rs == [] then Ok([])
    else
      var init :- AllOk(rs[..|rs| - 1]);
      var last :- rs[|rs| - 1];
      Ok(init + [last])
  }

  function Concat(ss: seq<string>): string
  {
    if ss == [] then [] else Concat(ss[..|ss| - 1]) + ss[|ss| - 1]
  }

  /** `"".join(pieces)`: TypeError as soon as one piece is not a str. */
  function JoinStr(pieces: seq<Json>): (r: Result<string>)
    ensures r.Ok? <==> forall i :: 0 <= i < |pieces| ==> pieces[i].JStr?
    ensures r.Err? ==> r.error == TypeError
    ensures r.Ok? ==> r.value == Concat(seq(|pieces|, i requires 0 <= i < |pieces| => pieces[i].s))
  {
    if pieces == [] then Ok("")
    else
      var init :- JoinStr(pieces[..|pieces| - 1]);
      var last := pieces[|pieces| - 1];
      if !last.JStr? then Err(TypeError)
      else
        ghost var n := |pieces|;
        assert seq(n - 1, i requires 0 <= i < n - 1 => pieces[..n - 1][i].s)
            == seq(n, i requires 0 <= i < n => pieces[i].s)[..n - 1];
        Ok(init + last.s)
  }

  /** `text_from_node`: a `text` node returns its "text" value (default ""),
      which need not be a str; `hardBreak` returns "\n"; every other node joins
      its children's text and, when it is a `paragraph` or `heading`, ends it
      with a newline unless one is already there. */
  function NodeText(node: Json): Result<Json>
  {
    if !node.JObj? then Err(AttributeError)
    else
      var t := Get(node, "type");
      if t == JStr("text") then Ok(GetOr(node, "text", JStr("")))
      else if t == JStr("hardBreak") then Ok(JStr("\n"))
      else
        var children :- ContentItems(GetOr(node, "content", JArr([])));
        var pieces :- AllOk(seq(|children|, i requires 0 <= i < |children| => NodeText(children[i])));
        var s :- JoinStr(pieces);
        if !Hashable(t) then Err(TypeError)
        else if (t == JStr("paragraph") || t == JStr("heading")) && !EndsWithNewline(s) then Ok(JStr(s + "\n"))
        else Ok(JStr(s))
  }

  /** The texts of a list of nodes, in order, as the `for` loops collect them. */
  function NodeTexts(nodes: seq<Json>): Result<seq<Json>>
  {
    AllOk(seq(|nodes|, i requires 0 <= i < |nodes| => NodeText(nodes[i])))
  }

  // ---- the newline-collapsing loop and its reference meaning ----

  function Newlines(k: nat): (s: string)
    ensures |s| == k && forall i :: 0 <= i < k ==> s[i] == '\n'
  {
    seq(k, _ => '\n')
  }

  /** `"\n\n\n" in s` */
  predicate HasTriple(s: string)
  {
    |s| >= 3 && (s[..3] == "\n\n\n" || HasTriple(s[1..]))
  }

  /** `s.replace("\n\n\n", "\n\n")`: occurrences taken left to right, without overlap. */
  function ReplaceTriples(s: string): (r: string)
    ensures |r| <= |s|
    ensures HasTriple(s) ==> |r| < |s|
  {
    if |s| < 3 then s
    else if s[..3] == "\n\n\n" then "\n\n" + ReplaceTriples(s[3..])
    else [s[0]] + ReplaceTriples(s[1..])
  }

  /** What the collapse loop computes, stated directly: copy `s`, keeping at most
      two newlines of each run; `run` is how many newlines were just kept. */
  function SqueezeFrom(s: string, run: nat): string
  {
    if s == [] then []
    else if s[0] == '\n' then
      if run >= 2 then SqueezeFrom(s[1..], 2) else "\n" + SqueezeFrom(s[1..], run + 1)
    else [s[0]] + SqueezeFrom(s[1..], 0)
  }

  function Squeeze(s: string): string
  {
    SqueezeFrom(s, 0)
  }

  lemma {:induction false} HasTripleRight(a: string, b: string)
    requires HasTriple(b)
    ensures HasTriple(a + b)
  {
    if a != [] {
      assert (a + b)[1..] == a[1..] + b;
      HasTripleRight(a[1..], b);
    } else {
      assert a + b == b;
    }
  }

  lemma {:induction false} HasTripleLeft(a: string, b: string)
    requires HasTriple(a)
    ensures HasTriple(a + b)
  {
    if a[..3] == "\n\n\n" {
      assert (a + b)[..3] == a[..3];
    } else {
      assert (a + b)[1..] == a[1..] + b;
      HasTripleLeft(a[1..], b);
    }
  }

  /** A triple newline in a slice is one in the whole string. */
  lemma HasTripleSlice(s: string, i: nat, j: nat)
    requires i <= j <= |s|
    requires HasTriple(s[i..j])
    ensures HasTriple(s)
  {
    HasTripleLeft(s[i..j], s[j..]);
    HasTripleRight(s[..i], s[i..j] + s[j..]);
    SliceThree(s, i, j);
  }

  lemma SliceThree(s: string, i: nat, j: nat)
    requires i <= j <= |s|
    ensures s[..i] + (s[i..j] + s[j..]) == s
  {
    assert s[i..j] + s[j..] == s[i..];
  }

  /** A character other than a newline breaks every run. */
  lemma {:induction false} HasTripleSplit(x: string, c: char, y: string)
    requires c != '\n'
    requires HasTriple(x + [c] + y)
    ensures HasTriple(x) || HasTriple(y)
  {
    var w := x + [c] + y;
    assert w[|x|] == c;
    if w[..3] == "\n\n\n" {
      assert x[..3] == w[..3];
    } else if x == [] {
      assert w[1..] == y;
    } else {
      assert w[1..] == x[1..] + [c] + y;
      HasTripleSplit(x[1..], c, y);
    }
  }

  /** Where a triple newline starts. */
  lemma {:induction false} TripleAt(s: string) returns (i: nat)
    requires HasTriple(s)
    ensures i + 2 < |s| && s[i] == '\n' && s[i + 1] == '\n' && s[i + 2] == '\n'
  {
    if s[..3] == "\n\n\n" {
      i := 0;
    } else {
      var k := TripleAt(s[1..]);
      i := k + 1;
    }
  }

  lemma {:induction false} TripleFrom(s: string, i: nat)
    requires i + 2 < |s| && s[i] == '\n' && s[i + 1] == '\n' && s[i + 2] == '\n'
    ensures HasTriple(s)
  {
    if i > 0 {
      TripleFrom(s[1..], i - 1);
    } else {
      assert s[..3] == "\n\n\n";
    }
  }

  lemma SqueezeNewline(z: string, run: nat)
    ensures SqueezeFrom("\n" + z, run) == if run >= 2 then SqueezeFrom(z, 2) else "\n" + SqueezeFrom(z, run + 1)
  {
    assert ("\n" + z)[1..] == z;
  }

  lemma SqueezeNewlines(y: string, run: nat)
    ensures SqueezeFrom("\n\n\n" + y, run) == SqueezeFrom("\n\n" + y, run)
  {
    assert "\n\n\n" + y == "\n" + ("\n\n" + y);
    assert "\n\n" + y == "\n" + ("\n" + y);
    SqueezeNewline("\n\n" + y, run);
    SqueezeNewline("\n\n" + y, 1);
    SqueezeNewline("\n\n" + y, 2);
    SqueezeNewline("\n" + y, run);
    SqueezeNewline("\n" + y, 1);
    SqueezeNewline("\n" + y, 2);
    SqueezeNewline(y, 2);
  }

  /** One pass of `replace` leaves the squeezed text unchanged. */
  lemma {:induction false} SqueezeReplace(s: string, run: nat)
    ensures SqueezeFrom(ReplaceTriples(s), run) == SqueezeFrom(s, run)
    decreases |s|
  {
    if |s| < 3 {
    } else if s[..3] == "\n\n\n" {
      var y := s[3..];
      assert s == "\n\n\n" + y;
      SqueezeNewlines(y, run);
      var x := ReplaceTriples(y);
      SqueezeReplace(y, 2);
      assert ("\n\n" + x)[1..] == "\n" + x && ("\n" + x)[1..] == x;
      assert ("\n\n" + y)[1..] == "\n" + y && ("\n" + y)[1..] == y;
    } else {
      var r := ReplaceTriples(s);
      assert r == [s[0]] + ReplaceTriples(s[1..]);
      assert r[1..] == ReplaceTriples(s[1..]) && r[0] == s[0];
      SqueezeReplace(s[1..], if s[0] == '\n' then (if run >= 2 then 2 else run + 1) else 0);
    }
  }

  /** Text without a triple newline (counting the `run` newlines just before it)
      is left as it is. */
  lemma {:induction false} SqueezeFixed(s: string, run: nat)
    requires run <= 2
    requires !HasTriple(Newlines(run) + s)
    ensures SqueezeFrom(s, run) == s
  {
    if s != [] {
      if s[0] == '\n' {
        TripleAhead(s);
        assert run < 2;
        assert Newlines(run + 1) + s[1..] == Newlines(run) + s;
        SqueezeFixed(s[1..], run + 1);
      } else {
        if HasTriple(s[1..]) {
          assert Newlines(run) + s == (Newlines(run) + [s[0]]) + s[1..];
          HasTripleRight(Newlines(run) + [s[0]], s[1..]);
        }
        assert Newlines(0) + s[1..] == s[1..];
        SqueezeFixed(s[1..], 0);
      }
    }
  }

  /** Two newlines followed by a newline make a triple. */
  lemma TripleAhead(s: string)
    requires s != [] && s[0] == '\n'
    ensures HasTriple(Newlines(2) + s)
  {
    var w := Newlines(2) + s;
    assert w[..3] == "\n\n\n";
  }

  /** The squeezed text has no triple newline. */
  lemma {:induction false} SqueezeNoTriple(s: string, run: nat)
    requires run <= 2
    ensures !HasTriple(Newlines(run) + SqueezeFrom(s, run))
  {
    if s == [] {
      assert Newlines(run) + [] == Newlines(run);
    } else if s[0] == '\n' {
      if run >= 2 {
        SqueezeNoTriple(s[1..], 2);
      } else {
        SqueezeNoTriple(s[1..], run + 1);
        assert Newlines(run) + ("\n" + SqueezeFrom(s[1..], run + 1)) == Newlines(run + 1) + SqueezeFrom(s[1..], run + 1);
      }
    } else {
      var y := SqueezeFrom(s[1..], 0);
      SqueezeNoTriple(s[1..], 0);
      assert Newlines(0) + y == y;
      assert Newlines(run) + ([s[0]] + y) == Newlines(run) + [s[0]] + y;
      if HasTriple(Newlines(run) + [s[0]] + y) {
        HasTripleSplit(Newlines(run), s[0], y);
      }
    }
  }

  /** Squeezing works piece by piece across a character that is not a newline. */
  lemma {:induction false} SqueezeConcat(x: string, y: string, run: nat)
    requires x != [] && x[|x| - 1] != '\n'
    ensures SqueezeFrom(x + y, run) == SqueezeFrom(x, run) + Squeeze(y)
  {
    var w := x + y;
    assert w[0] == x[0] && w[1..] == x[1..] + y;
    var next := if x[0] == '\n' then (if run >= 2 then 2 else run + 1) else 0;
    var kept := if x[0] == '\n' then (if run >= 2 then "" else "\n") else [x[0]];
    SqueezeStep(w, run);
    SqueezeStep(x, run);
    var tail := x[1..];
    if |x| == 1 {
      assert tail == [] && w[1..] == y && next == 0;
      assert SqueezeFrom(x, run) == kept;
      assert SqueezeFrom(w, run) == kept + Squeeze(y);
    } else {
      assert tail[|tail| - 1] == x[|x| - 1];
      SqueezeConcat(tail, y, next);
      var a, b := SqueezeFrom(tail, next), Squeeze(y);
      assert SqueezeFrom(w, run) == kept + (a + b);
      assert SqueezeFrom(x, run) == kept + a;
      assert kept + (a + b) == (kept + a) + b;
    }
  }

  /** One step of the collapse: the first character is kept unless it is a
      third newline in a row. */
  lemma SqueezeStep(s: string, run: nat)
    requires s != []
    ensures SqueezeFrom(s, run) ==
      (if s[0] == '\n' then (if run >= 2 then "" else "\n") else [s[0]])
      + SqueezeFrom(s[1..], if s[0] == '\n' then (if run >= 2 then 2 else run + 1) else 0)
  {
  }

  lemma {:induction false} SqueezeRunFrom(k: nat, y: string, run: nat)
    requires run <= 2
    requires y == [] || y[0] != '\n'
    ensures SqueezeFrom(Newlines(k) + y, run) == Newlines(if run + k <= 2 then k else 2 - run) + Squeeze(y)
  {
    if k == 0 {
      assert Newlines(0) + y == y;
      if y != [] { assert SqueezeFrom(y, run) == [y[0]] + SqueezeFrom(y[1..], 0) == Squeeze(y); }
    } else {
      var w := Newlines(k) + y;
      assert w[0] == '\n' && w[1..] == Newlines(k - 1) + y;
      SqueezeRunFrom(k - 1, y, if run >= 2 then 2 else run + 1);
    }
  }

  /** Runs of newlines: a run of k newlines between other characters becomes
      min(k, 2) newlines, so longer runs become exactly two and shorter runs stay. */
  lemma SqueezeRun(x: string, k: nat, y: string)
    requires x == [] || x[|x| - 1] != '\n'
    requires y == [] || y[0] != '\n'
    ensures Squeeze(x + Newlines(k) + y) == Squeeze(x) + Newlines(if k <= 2 then k else 2) + Squeeze(y)
  {
    if x == [] {
      assert x + Newlines(k) + y == Newlines(k) + y;
      SqueezeRunFrom(k, y, 0);
    } else {
      assert x + Newlines(k) + y == x + (Newlines(k) + y);
      SqueezeConcat(x, Newlines(k) + y, 0);
      SqueezeRunFrom(k, y, 0);
    }
  }

  // ---- adf_to_text ----

  lemma NodeTextsSnoc(nodes: seq<Json>, i: nat)
    requires i < |nodes|
    ensures NodeTexts(nodes[..i + 1]) ==
      if NodeTexts(nodes[..i]).Err? then NodeTexts(nodes[..i])
      else if NodeText(nodes[i]).Err? then Err(NodeText(nodes[i]).error)
      else Ok(NodeTexts(nodes[..i]).value + [NodeText(nodes[i]).value])
  {
    var rs := seq(i + 1, k requires 0 <= k < i + 1 => NodeText(nodes[..i + 1][k]));
    assert rs[..i] == seq(i, k requires 0 <= k < i => NodeText(nodes[..i][k]));
    assert rs[i] == NodeText(nodes[i]);
  }

  lemma JoinStrOne(p: Json)
    ensures JoinStr([p]) == if p.JStr? then Ok(p.s) else Err(TypeError)
  {
    assert [p][..0] == [];
    assert JoinStr([]) == Ok("");
    if p.JStr? {
      assert "" + p.s == p.s;
    }
  }

  lemma JoinStrTwo(p: Json, q: Json)
    requires p.JStr? && q.JStr?
    ensures JoinStr([p, q]) == Ok(p.s + q.s)
  {
    assert [p, q][..1] == [p];
    JoinStrOne(p);
  }

  lemma NodeTextsEmpty()
    ensures NodeTexts([]) == Ok([])
  {
    var none: seq<Json> := [];
    assert |seq(|none|, k requires 0 <= k < |none| => NodeText(none[k]))| == 0;
  }

  /** Once an error is met, the rest of the nodes do not matter. */
  lemma {:induction false} NodeTextsPrefixErr(nodes: seq<Json>, i: nat)
    requires i <= |nodes| && NodeTexts(nodes[..i]).Err?
    ensures NodeTexts(nodes) == NodeTexts(nodes[..i])
    decreases |nodes| - i
  {
    if i == |nodes| {
      assert nodes[..i] == nodes;
    } else {
      NodeTextsSnoc(nodes, i);
      NodeTextsPrefixErr(nodes, i + 1);
    }
  }

  /** The texts of one or two nodes. */
  lemma NodeTextsOne(n: Json)
    requires NodeText(n).Ok?
    ensures NodeTexts([n]) == Ok([NodeText(n).value])
  {
    NodeTextsEmpty();
    NodeTextsSnoc([n], 0);
    assert [n][..0] == [] && [n][..1] == [n] && [n][0] == n;
    assert NodeTexts([n][..0]) == Ok([]);
    assert [] + [NodeText(n).value] == [NodeText(n).value];
  }

  lemma NodeTextsTwo(m: Json, n: Json)
    requires NodeText(m).Ok? && NodeText(n).Ok?
    ensures NodeTexts([m, n]) == Ok([NodeText(m).value, NodeText(n).value])
  {
    var nodes := [m, n];
    var x, y := NodeText(m).value, NodeText(n).value;
    NodeTextsOne(m);
    assert nodes[..1] == [m];
    assert NodeTexts(nodes[..1]) == Ok([x]);
    NodeTextsSnoc(nodes, 1);
    assert nodes[..2] == nodes && nodes[1] == n;
    assert [x] + [y] == [x, y];
  }

  /** `text_from_node` as the code runs it: the `buf` loop over the children,
      calling itself on each. */
  method TextFromNode(node: Json) returns (r: Result<Json>)
    ensures r == NodeText(node)
    decreases node
  {
    if !node.JObj? {
      return Err(AttributeError);
    }
    var t := Get(node, "type");
    if t == JStr("text") {
      return Ok(GetOr(node, "text", JStr("")));
    }
    if t == JStr("hardBreak") {
      return Ok(JStr("\n"));
    }
    var children := ContentItems(GetOr(node, "content", JArr([])));
    if children.Err? {
      return Err(children.error);
    }
    var kids := children.value;
    var buf: seq<Json> := [];
    for i := 0 to |kids|
      invariant NodeTexts(kids[..i]) == Ok(buf)
    {
      NodeTextsSnoc(kids, i);
      var piece := TextFromNode(kids[i]);
      if piece.Err? {
        NodeTextsPrefixErr(kids, i + 1);
        return Err(piece.error);
      }
      buf := buf + [piece.value];
    }
    assert kids[..|kids|] == kids;
    var s := JoinStr(buf);
    if s.Err? {
      return Err(s.error);
    }
    if !Hashable(t) {
      return Err(TypeError);
    }
    if (t == JStr("paragraph") || t == JStr("heading")) && !EndsWithNewline(s.value) {
      return Ok(JStr(s.value + "\n"));
    }
    return Ok(JStr(s.value));
  }

  predicate IsDoc(doc: Json)
  {
    doc.JObj? && Get(doc, "type") == JStr("doc")
  }

  /** What `adf_to_text` returns (or raises): "" unless the input is a dict of
      type "doc"; otherwise its blocks' text joined, with newline runs squeezed
      to at most two and the edges stripped of whitespace. */
  function AdfText(doc: Json): Result<string>
  {
    if !IsDoc(doc) then Ok("")
    else
      var blocks :- ContentItems(GetOr(doc, "content", JArr([])));
      var lines :- NodeTexts(blocks);
      var out :- JoinStr(lines);
      Ok(Strip(Squeeze(out)))
  }

  /** The `for block in ...` loop of `adf_to_text`: each block's text, in order,
      stopping at the first exception. */
  method BlockTexts(blocks: seq<Json>) returns (r: Result<seq<Json>>)
    ensures r == NodeTexts(blocks)
  {
    var lines: seq<Json> := [];
    for i := 0 to |blocks|
      invariant NodeTexts(blocks[..i]) == Ok(lines)
    {
      NodeTextsSnoc(blocks, i);
      var piece := TextFromNode(blocks[i]);
      if piece.Err? {
        NodeTextsPrefixErr(blocks, i + 1);
        return Err(piece.error);
      }
      lines := lines + [piece.value];
    }
    assert blocks[..|blocks|] == blocks;
    return Ok(lines);
  }

  /** The `while "\n\n\n" in out` loop: replace triple newlines until none is
      left, which squeezes every run of newlines to at most two. */
  method CollapseNewlines(s: string) returns (out: string)
    ensures out == Squeeze(s)
    ensures !HasTriple(out)
  {
    out := s;
    while HasTriple(out)
      invariant Squeeze(out) == Squeeze(s)
      decreases |out|
    {
      SqueezeReplace(out, 0);
      out := ReplaceTriples(out);
    }
    assert Newlines(0) + out == out;
    SqueezeFixed(out, 0);
  }

  /** `adf_to_text`, as the code runs it. */
  method AdfToText(doc: Json) returns (r: Result<string>)
    ensures r == AdfText(doc)
  {
    if !IsDoc(doc) {
      return Ok("");
    }
    var blocks := ContentItems(GetOr(doc, "content", JArr([])));
    if blocks.Err? {
      return Err(blocks.error);
    }
    var lines := BlockTexts(blocks.value);
    if lines.Err? {
      return Err(lines.error);
    }
    var joined := JoinStr(lines.value);
    if joined.Err? {
      return Err(joined.error);
    }
    var out := CollapseNewlines(joined.value);
    r := Ok(Strip(out));
  }

  /** One block whose text raises makes the whole flattening raise. */
  lemma BlockFailureFails(doc: Json, i: nat)
    requires IsDoc(doc)
    requires var c := ContentItems(GetOr(doc, "content", JArr([])));
      c.Ok? && i < |c.value| && NodeText(c.value[i]).Err?
    ensures AdfText(doc).Err?
  {
    var blocks := ContentItems(GetOr(doc, "content", JArr([]))).value;
    var rs := seq(|blocks|, k requires 0 <= k < |blocks| => NodeText(blocks[k]));
    assert rs[i] == NodeText(blocks[i]);
  }

  /** Text a flattener can give back: no edge whitespace and no triple newline. */
  predicate Clean(t: string)
  {
    !HasTriple(t) && (t == [] || (!IsSpace(t[0]) && !IsSpace(t[|t| - 1])))
  }

  // ---- resilience: unrecognised node types never make flattening raise ----

  /** A node `text_from_node` can read without raising, whatever its type name:
      a dict whose "type" is hashable; a `text` node's text is a str; any other
      node other than `hardBreak` has well-formed content. */
  predicate WellFormedNode(n: Json)
    decreases n, 1
  {
    && n.JObj?
    && Hashable(Get(n, "type"))
    && if Get(n, "type") == JStr("text") then GetOr(n, "text", JStr("")).JStr?
       else if Get(n, "type") == JStr("hardBreak") then true
       else "content" !in n.fields || WellFormedContent(n.fields["content"])
  }

  /** Content that is falsy, or a list of well-formed nodes. */
  predicate WellFormedContent(c: Json)
    decreases c, 0
  {
    !Truthy(c) || (c.JArr? && forall i :: 0 <= i < |c.items| ==> WellFormedNode(c.items[i]))
  }

  /** A well-formed node flattens to a string, whatever the type names in it. */
  lemma {:induction false} WellFormedNodeText(n: Json)
    requires WellFormedNode(n)
    ensures NodeText(n).Ok? && NodeText(n).value.JStr?
    decreases n, 1
  {
    var t := Get(n, "type");
    if t != JStr("text") && t != JStr("hardBreak") {
      if "content" in n.fields {
        WellFormedContentTexts(n.fields["content"]);
      } else {
        NodeTextsEmpty();
      }
    }
  }

  /** The children of well-formed content all flatten to strings, so their
      join succeeds. */
  lemma {:induction false} WellFormedContentTexts(c: Json)
    requires WellFormedContent(c)
    ensures ContentItems(c).Ok?
    ensures NodeTexts(ContentItems(c).value).Ok?
    ensures JoinStr(NodeTexts(ContentItems(c).value).value).Ok?
    decreases c, 0
  {
    var kids := ContentItems(c).value;
    var rs := seq(|kids|, i requires 0 <= i < |kids| => NodeText(kids[i]));
    forall i | 0 <= i < |kids| ensures rs[i].Ok? && rs[i].value.JStr? {
      WellFormedNodeText(kids[i]);
    }
    AllOkWhenEveryOk(rs);
  }

  lemma AllOkWhenEveryOk(rs: seq<Result<Json>>)
    requires forall i :: 0 <= i < |rs| ==> rs[i].Ok? && rs[i].value.JStr?
    ensures AllOk(rs).Ok? && JoinStr(AllOk(rs).value).Ok?
  {
  }

  /** `adf_to_text` never raises on a doc whose content is well formed. */
  lemma WellFormedDocFlattens(doc: Json)
    requires IsDoc(doc) && WellFormedContent(GetOr(doc, "content", JArr([])))
    ensures AdfText(doc).Ok?
  {
    WellFormedContentTexts(GetOr(doc, "content", JArr([])));
  }

  /** A `paragraph` or `heading` node's text is its children's texts joined,
      with a newline added only when that text lacks one; so it always ends in
      a newline. */
  lemma LineNodeText(node: Json)
    requires node.JObj? && (Get(node, "type") == JStr("paragraph") || Get(node, "type") == JStr("heading"))
    requires NodeText(node).Ok?
    ensures var c := ContentItems(GetOr(node, "content", JArr([])));
      && c.Ok? && NodeTexts(c.value).Ok? && JoinStr(NodeTexts(c.value).value).Ok?
      && var s := JoinStr(NodeTexts(c.value).value).value;
         NodeText(node) == Ok(JStr(if EndsWithNewline(s) then s else s + "\n"))
    ensures NodeText(node).value.JStr? && EndsWithNewline(NodeText(node).value.s)
  {
    var c := ContentItems(GetOr(node, "content", JArr([])));
    assert c.Ok?;
    var s := JoinStr(NodeTexts(c.value).value).value;
    if !EndsWithNewline(s) {
      assert EndsWithNewline(s + "\n");
    }
  }

  /** The flattened text is always clean. */
  lemma AdfTextClean(doc: Json)
    requires AdfText(doc).Ok?
    ensures Clean(AdfText(doc).value)
  {
    if IsDoc(doc) {
      var blocks := ContentItems(GetOr(doc, "content", JArr([]))).value;
      var out := JoinStr(NodeTexts(blocks).value).value;
      var q := Squeeze(out);
      SqueezeNoTriple(out, 0);
      assert Newlines(0) + q == q;
      var t := Strip(q);
      var i, j :| 0 <= i <= j <= |q| && t == q[i..j];
      if HasTriple(t) { HasTripleSlice(q, i, j); }
    }
  }

  /** A doc node holding the given blocks. */
  function Doc(blocks: seq<Json>): Json
  {
    JObj(map["type" := JStr("doc"), "content" := JArr(blocks)])
  }

  /** A paragraph node holding one text node. */
  function Paragraph(line: string): Json
  {
    JObj(map["type" := JStr("paragraph"), "content" := JArr([JObj(map["type" := JStr("text"), "text" := JStr(line)])])])
  }

  /** A paragraph holding one line ends that line with a newline. */
  lemma ParagraphText(line: string)
    ensures NodeText(Paragraph(line)) == Ok(JStr(if EndsWithNewline(line) then line else line + "\n"))
  {
    var textNode := JObj(map["type" := JStr("text"), "text" := JStr(line)]);
    assert NodeText(textNode) == Ok(JStr(line));
    NodeTextsOne(textNode);
    JoinStrOne(JStr(line));
    var para := Paragraph(line);
    assert Get(para, "type") == JStr("paragraph");
    assert GetOr(para, "content", JArr([])) == JArr([textNode]);
    BlockNodeText(para, [textNode], [JStr(line)], line);
  }

  /** The text of a node that is neither `text` nor `hardBreak`, from the texts
      of its children. */
  lemma BlockNodeText(node: Json, children: seq<Json>, pieces: seq<Json>, s: string)
    requires node.JObj? && Get(node, "type") == JStr("paragraph")
    requires GetOr(node, "content", JArr([])) == JArr(children)
    requires NodeTexts(children) == Ok(pieces) && JoinStr(pieces) == Ok(s)
    ensures NodeText(node) == Ok(JStr(if EndsWithNewline(s) then s else s + "\n"))
  {
    assert ContentItems(JArr(children)) == Ok(children);
  }

  /** `AdfText` of a doc whose blocks, texts and joined text are known. */
  lemma AdfTextOf(doc: Json, blocks: seq<Json>, lines: seq<Json>, out: string)
    requires IsDoc(doc) && Get(doc, "content") == JArr(blocks)
    requires NodeTexts(blocks) == Ok(lines) && JoinStr(lines) == Ok(out)
    ensures AdfText(doc) == Ok(Strip(Squeeze(out)))
  {
  }

  /** A clean line, ended by one newline, is squeezed and stripped back to itself. */
  lemma CleanLineBack(t: string)
    requires Clean(t)
    ensures Strip(Squeeze(if EndsWithNewline(t) then t else t + "\n")) == t
  {
    if t == [] {
      var p := "\n";
      assert !HasTriple(p);
      assert Newlines(0) + p == p;
      SqueezeFixed(p, 0);
      StripAllSpace(p);
    } else {
      assert !EndsWithNewline(t);
      CleanLineNoTriple(t);
      var p := t + "\n";
      assert Newlines(0) + p == p;
      SqueezeFixed(p, 0);
      StripPadded([], t, "\n");
      assert [] + t + "\n" == p;
    }
  }

  /** A clean non-empty line with one newline added still has no triple newline. */
  lemma CleanLineNoTriple(t: string)
    requires Clean(t) && t != []
    ensures !HasTriple(t + "\n")
  {
    var p := t + "\n";
    if HasTriple(p) {
      var i := TripleAt(p);
      if i + 2 < |t| { TripleFrom(t, i); }
    }
  }

  /** Round trip: flattening the body built for `t` gives `t` back exactly when
      `t` is clean. */
  lemma BuildThenFlatten(t: string)
    ensures AdfText(Get(BuildAdfCommentBody(t), "body")) == Ok(t) <==> Clean(t)
  {
    var doc := Get(BuildAdfCommentBody(t), "body");
    var p := if EndsWithNewline(t) then t else t + "\n";
    ParagraphText(t);
    NodeTextsOne(Paragraph(t));
    JoinStrOne(JStr(p));
    AdfTextOf(doc, [Paragraph(t)], [JStr(p)], p);
    if Clean(t) {
      CleanLineBack(t);
    }
    if AdfText(doc) == Ok(t) {
      AdfTextClean(doc);
    }
  }

  /** Where the newlines of two newline-free lines, each ended by one, are. */
  lemma NewlinesOfTwoLines(a: string, b: string)
    requires '\n' !in a && '\n' !in b
    ensures forall i :: 0 <= i < |a + "\n" + (b + "\n")| && i != |a| && i != |a| + |b| + 1 ==>
      (a + "\n" + (b + "\n"))[i] != '\n'
  {
    var out := a + "\n" + (b + "\n");
    forall i | 0 <= i < |out| && i != |a| && i != |a| + |b| + 1
      ensures out[i] != '\n'
    {
      if i < |a| {
        assert out[i] == a[i];
      } else {
        assert out[i] == b[i - |a| - 1];
      }
    }
  }

  /** Two newline-free lines, each ended by one newline, hold no triple. */
  lemma TwoLinesNoTriple(a: string, b: string)
    requires '\n' !in a && '\n' !in b
    ensures !HasTriple(a + "\n" + (b + "\n"))
  {
    var out := a + "\n" + (b + "\n");
    NewlinesOfTwoLines(a, b);
    if HasTriple(out) {
      var i := TripleAt(out);
      assert false;
    }
  }

  /** Two clean lines, each ended by a newline, squeeze and strip to the lines
      joined by one newline. */
  lemma TwoLinesBack(a: string, b: string)
    requires a != [] && b != [] && '\n' !in a && '\n' !in b
    requires !IsSpace(a[0]) && !IsSpace(b[|b| - 1])
    ensures Strip(Squeeze(a + "\n" + (b + "\n"))) == a + "\n" + b
  {
    var out := a + "\n" + (b + "\n");
    var line := a + "\n" + b;
    TwoLinesNoTriple(a, b);
    assert Newlines(0) + out == out;
    SqueezeFixed(out, 0);
    assert line[0] == a[0] && line[|line| - 1] == b[|b| - 1];
    assert out == line + "\n";
    StripLineEnd(line);
  }

  /** A line that neither starts nor ends with white space, ended by one
      newline, strips back to itself. */
  lemma StripLineEnd(line: string)
    requires line != [] && !IsSpace(line[0]) && !IsSpace(line[|line| - 1])
    ensures Strip(line + "\n") == line
  {
    StripPadded([], line, "\n");
    assert [] + line + "\n" == line + "\n";
  }

  /** Two single-line paragraphs flatten to their lines joined by one newline. */
  lemma TwoParagraphs(a: string, b: string)
    requires a != [] && b != [] && '\n' !in a && '\n' !in b
    requires !IsSpace(a[0]) && !IsSpace(b[|b| - 1])
    ensures AdfText(Doc([Paragraph(a), Paragraph(b)])) == Ok(a + "\n" + b)
  {
    var doc := Doc([Paragraph(a), Paragraph(b)]);
    ParagraphText(a);
    ParagraphText(b);
    NodeTextsTwo(Paragraph(a), Paragraph(b));
    JoinStrTwo(JStr(a + "\n"), JStr(b + "\n"));
    AdfTextOf(doc, [Paragraph(a), Paragraph(b)], [JStr(a + "\n"), JStr(b + "\n")], a + "\n" + (b + "\n"));
    TwoLinesBack(a, b);
  }

  /** The two-paragraph description of the integration test issue. */
  lemma DescriptionExample()
    ensures var a, b := "Here is line #1 of the description", "Here is line #2 of the description";
      AdfText(Doc([Paragraph(a), Paragraph(b)])) == Ok(a + "\n" + b)
  {
    var a, b := "Here is line #1 of the description", "Here is line #2 of the description";
    assert a[0] == 'H' && b[|b| - 1] == 'n';
    assert '\n' !in a && '\n' !in b;
    TwoParagraphs(a, b);
  }

  // ---- comments and descriptions ----

  /** The record `parse_adf_comment` builds; a missing key is `JNull`. */
  datatype ParsedComment = ParsedComment(
    id: Json, text: string, authorName: Json, authorEmail: Json,
    created: Json, updated: Json, public: Json, url: Json)

  /** `parse_adf_comment`: the comment's metadata and the flattened text of its
      body (default {}).  The text is computed before the author is read, so a
      body that raises wins over an author that is not a dict. */
  function ParseAdfComment(comment: Json): (r: Result<ParsedComment>)
    ensures !comment.JObj? ==> r == Err(AttributeError)
    ensures comment.JObj? && AdfText(GetOr(comment, "body", JObj(map[]))).Err? ==>
      r == Err(AdfText(GetOr(comment, "body", JObj(map[]))).error)
    ensures comment.JObj? && AdfText(GetOr(comment, "body", JObj(map[]))).Ok? ==>
      (r.Ok? <==> GetOr(comment, "author", JObj(map[])).JObj?)
    ensures r.Ok? ==> Ok(r.value.text) == AdfText(GetOr(comment, "body", JObj(map[])))
    ensures r.Ok? ==>
      && r.value.id == Get(comment, "id") && r.value.created == Get(comment, "created")
      && r.value.updated == Get(comment, "updated") && r.value.public == Get(comment, "jsdPublic")
      && r.value.url == Get(comment, "self")
      && r.value.authorName == Get(GetOr(comment, "author", JObj(map[])), "displayName")
      && r.value.authorEmail == Get(GetOr(comment, "author", JObj(map[])), "emailAddress")
  {
    if !comment.JObj? then Err(AttributeError)
    else
      var body := GetOr(comment, "body", JObj(map[]));
      var text :- AdfText(body);
      var author := GetOr(comment, "author", JObj(map[]));
      if !author.JObj? then Err(AttributeError)
      else
        Ok(ParsedComment(Get(comment, "id"), text, Get(author, "displayName"), Get(author, "emailAddress"),
          Get(comment, "created"), Get(comment, "updated"), Get(comment, "jsdPublic"), Get(comment, "self")))
  }

  /** `parse_adf_description`: the flattened `fields.description`; a falsy
      `fields` reads as {}, so the description is None and the text "". */
  function ParseAdfDescription(record: Json): (r: Result<string>)
    ensures !record.JObj? ==> r == Err(AttributeError)
    ensures record.JObj? && !Truthy(Get(record, "fields")) ==> r == Ok("")
    ensures record.JObj? && Truthy(Get(record, "fields")) && !Get(record, "fields").JObj? ==> r == Err(AttributeError)
    ensures record.JObj? && Get(record, "fields").JObj? ==> r == AdfText(Get(Get(record, "fields"), "description"))
  {
    if !record.JObj? then Err(AttributeError)
    else
      var fields := if Truthy(Get(record, "fields")) then Get(record, "fields") else JObj(map[]);
      if !fields.JObj? then Err(AttributeError)
      else AdfText(Get(fields, "description"))
  }

  /** A comment posted with `build_adf_comment_body(t)` and read back carries
      `t` as its text exactly when `t` is clean; the keys it lacks read as None. */
  lemma PostedCommentReadBack(t: string)
    ensures var posted := ParseAdfComment(BuildAdfCommentBody(t));
      posted.Ok? && (posted.value.text == t <==> Clean(t))
      && posted.value.id == JNull && posted.value.authorName == JNull && posted.value.authorEmail == JNull
      && posted.value.created == JNull && posted.value.url == JNull
  {
    var body := Get(BuildAdfCommentBody(t), "body");
    assert AdfText(body).Ok? by {
      ParagraphText(t);
      var p := if EndsWithNewline(t) then t else t + "\n";
      NodeTextsOne(Paragraph(t));
      JoinStrOne(JStr(p));
      AdfTextOf(body, [Paragraph(t)], [JStr(p)], p);
    }
    BuildThenFlatten(t);
    AdfTextClean(body);
  }

  /** Text without a newline has no triple newline. */
  lemma NoNewlineNoTriple(s: string)
    requires '\n' !in s
    ensures !HasTriple(s)
  {
    if HasTriple(s) {
      var i := TripleAt(s);
      assert false;
    }
  }

  lemma TestCommentClean()
    ensures Clean("testComment1")
  {
    var t := "testComment1";
    assert t[0] == 't' && t[|t| - 1] == '1';
    forall k | 0 <= k < |t| ensures t[k] != '\n' { }
    NoNewlineNoTriple(t);
  }

  /** The comment texts of the integration test come back unchanged. */
  lemma TestCommentExample()
    ensures var t := "testComment1";
      ParseAdfComment(BuildAdfCommentBody(t)).Ok? && ParseAdfComment(BuildAdfCommentBody(t)).value.text == t
  {
    TestCommentClean();
    PostedCommentReadBack("testComment1");
  }

  /** The description of the integration test issue. */
  lemma TestDescriptionExample()
    ensures var a, b := "Here is line #1 of the description", "Here is line #2 of the description";
      ParseAdfDescription(JObj(map["fields" := JObj(map["description" := Doc([Paragraph(a), Paragraph(b)])])]))
        == Ok(a + "\n" + b)
  {
    DescriptionExample();
  }
}
