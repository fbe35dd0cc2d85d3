/** The teacher dashboard's reading of a generated homework
    (web-interface/frontned/src/pages/teacher/Dashboard.tsx): the answer is
    first taken out of a markdown fence when it has one, then a `<homework>`
    document is preferred to an `<assignment>` one, and tasks get default
    ids by position. The teacher's quiz parser is the student's
    (StudentParsers.QuizFromXml): the same pattern, checks and defaults. */
module TeacherDashboard {
  import opened Wrappers
  import opened Strings
  import opened XmlTree
  import opened TagMatch
  import StudentParsers

  // ---------------------------------------------------------------------
  // The markdown fence

  /** The openers of `/```(?:xml)?\n([\s\S]*?)```/`, the longer one tried
      first at each position. */
  const FenceOpeners: seq<string> := ["```xml\n", "```\n"]

  /** The text between the first fence opener and the next ```` ``` ````;
      None when there is no opener or no closer after it. */
  function FenceInner(s: string): Option<string> {
    match FirstAny(s, FenceOpeners, false, 0)
    case None => None
    case Some(k) =>
      var b := if IsAtFold(s, "```xml\n", false, k) then k + 7 else k + 4;
      match FirstAny(s, ["```"], false, b)
      case None => None
      case Some(j) => Some(s[b..j])
  }

  /** `cleanXmlString`: the fence's inner text when it is not empty,
      otherwise the whole answer. */
  function CleanXml(s: string): (r: string)
    ensures r == s || (FenceInner(s).Some? && r == FenceInner(s).value != "")
  {
    var inner := FenceInner(s);
    if inner.Some? && inner.value != "" then inner.value else s
  }

  /** No fence opener occurs at a position holding no backtick. */
  lemma NoOpenerWithoutBacktick(s: string, m: nat)
    requires m < |s| && s[m] != '`'
    ensures !AnyAt(s, FenceOpeners, false, m)
  {
    AnyAtSome(s, FenceOpeners, false, m);
    forall i | 0 <= i < |FenceOpeners|
      ensures !IsAtFold(s, FenceOpeners[i], false, m)
    {
      var w := FenceOpeners[i];
      if m + |w| <= |s| {
        assert s[m..m + |w|][0] == s[m];
      }
    }
  }

  /** The first fence opener is the one after backtick-free text. */
  lemma FenceOpenerAt(pre: string, i: nat, body: string, post: string)
    requires i < |FenceOpeners| && '`' !in pre
    ensures FirstAny(pre + FenceOpeners[i] + body + "```" + post, FenceOpeners, false, 0) == Some(|pre|)
  {
    var s := pre + FenceOpeners[i] + body + "```" + post;
    var p := |pre|;
    forall m | 0 <= m < p
      ensures !AnyAt(s, FenceOpeners, false, m)
    {
      assert s[m] == pre[m];
      NoOpenerWithoutBacktick(s, m);
    }
    assert s[p..p + |FenceOpeners[i]|] == FenceOpeners[i];
    AnyAtSome(s, FenceOpeners, false, p);
    FirstAnyAt(s, FenceOpeners, false, 0, p);
  }

  /** The longer opener is found exactly when it was put there. */
  lemma XmlOpenerAt(pre: string, i: nat, body: string, post: string)
    requires i < |FenceOpeners|
    ensures IsAtFold(pre + FenceOpeners[i] + body + "```" + post, "```xml\n", false, |pre|) <==> i == 0
  {
    var s := pre + FenceOpeners[i] + body + "```" + post;
    var p := |pre|;
    assert s[p..p + |FenceOpeners[i]|] == FenceOpeners[i];
    if i == 1 && p + 7 <= |s| {
      assert s[p..p + 7][3] == s[p + 3] == '\n';
    }
  }

  /** The inner text of a fence whose body holds no backtick is the body. */
  lemma FenceInnerOf(pre: string, i: nat, body: string, post: string)
    requires i < |FenceOpeners| && '`' !in pre && '`' !in body
    ensures FenceInner(pre + FenceOpeners[i] + body + "```" + post) == Some(body)
  {
    var o := FenceOpeners[i];
    var s := pre + o + body + "```" + post;
    FenceOpenerAt(pre, i, body, post);
    XmlOpenerAt(pre, i, body, post);
    CharFreeCloser(pre + o, body, "```", post);
    BodySlice(pre, o, body, "```", post);
    FenceInnerParts(s, |pre|, i, |pre| + |o| + |body|);
  }

  /** The body is where it was put. */
  lemma BodySlice(pre: string, o: string, body: string, c: string, post: string)
    ensures var b := |pre| + |o|;
      (pre + o + body + c + post)[b..b + |body|] == body
  {
  }

  /** FenceInner from where the opener `i` and the closer are first found. */
  lemma FenceInnerParts(s: string, k: nat, i: nat, j: nat)
    requires i < |FenceOpeners|
    requires FirstAny(s, FenceOpeners, false, 0) == Some(k)
    requires IsAtFold(s, "```xml\n", false, k) <==> i == 0
    requires FirstAny(s, ["```"], false, k + |FenceOpeners[i]|) == Some(j)
    ensures k + |FenceOpeners[i]| <= j <= |s| && FenceInner(s) == Some(s[k + |FenceOpeners[i]|..j])
  {
  }

  /** Partner of CleanXml: a fenced document, with no backtick before the
      fence or inside it, is unwrapped to its body, with or without the
      `xml` tag. */
  lemma FenceUnwrapped(pre: string, xmlTag: bool, body: string, post: string)
    requires '`' !in pre && '`' !in body && body != ""
    ensures var lang := if xmlTag then "xml" else "";
      CleanXml(pre + "```" + lang + "\n" + body + "```" + post) == body
  {
    var lang := if xmlTag then "xml" else "";
    var i := if xmlTag then 0 else 1;
    assert "```" + lang + "\n" == FenceOpeners[i];
    assert pre + "```" + lang + "\n" + body + "```" + post == pre + FenceOpeners[i] + body + "```" + post;
    FenceInnerOf(pre, i, body, post);
  }

  /** Without a backtick the whole answer is searched. */
  lemma NoFenceKeepsAnswer(s: string)
    requires '`' !in s
    ensures CleanXml(s) == s
  {
    var first := FirstAny(s, FenceOpeners, false, 0);
    FirstAnyLeftmost(s, FenceOpeners, false, 0);
    if first.Some? && first.value < |s| {
      NoOpenerWithoutBacktick(s, first.value);
    }
    if first.Some? && first.value == |s| {
      AnyAtSome(s, FenceOpeners, false, |s|);
    }
  }

  // ---------------------------------------------------------------------
  // Root selection

  /** `match(homeworkPattern) || match(assignmentPattern)`. */
  function AssignmentRoot(clean: string): (r: Option<string>)
    ensures MatchText(clean, Single("homework")).Some? ==> r == MatchText(clean, Single("homework"))
    ensures MatchText(clean, Single("homework")).None? ==> r == MatchText(clean, Single("assignment"))
  {
    match MatchText(clean, Single("homework"))
    case Some(m) => Some(m)
    case None => MatchText(clean, Single("assignment"))
  }

  /** A `<homework>` document is taken wherever it stands, even after an
      `<assignment>` one. */
  lemma HomeworkPreferred(pre: string, body: string, post: string)
    requires forall k :: !IsAt(pre, "<homework>", k)
    requires forall k :: !IsAt(body, "</homework>", k)
    ensures var doc := "<homework>" + body + "</homework>";
      AssignmentRoot(pre + doc + post) == Some(doc)
  {
    assert "<" + "homework" + ">" == "<homework>" && "</" + "homework" + ">" == "</homework>";
    WrappedMatchText(pre, "homework", body, post);
  }

  /** Without a `<homework>` opener anywhere, the `<assignment>` document is
      taken. */
  lemma AssignmentFallback(pre: string, body: string, post: string)
    requires forall k :: !IsAt(pre + "<assignment>" + body + "</assignment>" + post, "<homework>", k)
    requires forall k :: !IsAt(pre, "<assignment>", k)
    requires forall k :: !IsAt(body, "</assignment>", k)
    ensures var doc := "<assignment>" + body + "</assignment>";
      AssignmentRoot(pre + doc + post) == Some(doc)
  {
    var doc := "<assignment>" + body + "</assignment>";
    assert "<" + "assignment" + ">" == "<assignment>" && "</" + "assignment" + ">" == "</assignment>";
    assert "<" + "homework" + ">" == "<homework>" && "</" + "homework" + ">" == "</homework>";
    assert pre + "<assignment>" + body + "</assignment>" + post == pre + doc + post;
    NoOpenerNoMatch(pre + doc + post, "<homework>", "</homework>");
    WrappedMatchText(pre, "assignment", body, post);
  }

  // ---------------------------------------------------------------------
  // The homework read from the document

  /** The parsed homework: title, description, tasks and instructions. */
  datatype ParsedHomework = ParsedHomework(title: string, description: string,
                                           tasks: seq<StudentParsers.Task>, submissionInstructions: string)

  /** The default id of the task at position `index`: `task-{index+1}`. */
  function DefaultTaskId(index: nat): string {
    "task-" + NatToString(index + 1)
  }

  /** Tasks without an id get ids that differ by position. */
  lemma DefaultTaskIdsDiffer(i: nat, j: nat)
    requires i != j
    ensures DefaultTaskId(i) != DefaultTaskId(j)
  {
    var x, y := NatToString(i + 1), NatToString(j + 1);
    NatToStringInjective(i + 1, j + 1);
    assert ("task-" + x)[5..] == x;
    assert ("task-" + y)[5..] == y;
  }

  /** One `<task>` at position `index`: its non-empty id or the default, and
      the text of its first `<text>` descendant, or else its own text. */
  function TaskAt(t: Node, index: nat): (r: StudentParsers.Task)
    ensures Attr(t, "id").None? || Attr(t, "id") == Some("") ==> r.id == DefaultTaskId(index)
    ensures Attr(t, "id").Some? && Attr(t, "id").value != "" ==> r.id == Attr(t, "id").value
    ensures Query(t, "text").Some? ==> r.text == TextContent(Query(t, "text").value)
    ensures Query(t, "text").None? ==> r.text == TextContent(t)
  {
    var id := StudentParsers.AttrOr(t, "id");
    var text := Query(t, "text");
    StudentParsers.Task(if id != "" then id else DefaultTaskId(index),
                        if text.Some? then TextContent(text.value) else TextContent(t))
  }

  /** The tasks in document order, each read with its position. */
  function TasksOf(nodes: seq<Node>): (r: seq<StudentParsers.Task>)
    ensures |r| == |nodes|
  {
    if |nodes| == 0 then [] else TasksOf(nodes[..|nodes| - 1]) + [TaskAt(nodes[|nodes| - 1], |nodes| - 1)]
  }

  /** Reading one more task appends it, at its position. */
  lemma TasksOfPrefix(nodes: seq<Node>, i: nat)
    requires i < |nodes|
    ensures TasksOf(nodes[..i + 1]) == TasksOf(nodes[..i]) + [TaskAt(nodes[i], i)]
  {
    assert nodes[..i + 1][..i] == nodes[..i];
  }

  /** The task loop of parseAssignmentXml. */
  method ReadTasks(nodes: seq<Node>) returns (tasks: seq<StudentParsers.Task>)
    ensures tasks == TasksOf(nodes)
  {
    tasks := [];
    var i := 0;
    while i < |nodes|
      invariant 0 <= i <= |nodes|
      invariant tasks == TasksOf(nodes[..i])
    {
      TasksOfPrefix(nodes, i);
      tasks := tasks + [TaskAt(nodes[i], i)];
      i := i + 1;
    }
    assert nodes[..i] == nodes;
  }

  /** The `i`-th task is read from the `i`-th element, at position `i`. */
  lemma {:induction false} TasksOfAt(nodes: seq<Node>, i: nat)
    requires i < |nodes|
    ensures TasksOf(nodes)[i] == TaskAt(nodes[i], i)
  {
    if i < |nodes| - 1 {
      TasksOfAt(nodes[..|nodes| - 1], i);
    }
  }

  function HomeworkOf(doc: Node): ParsedHomework {
    ParsedHomework(StudentParsers.DocField(doc, "title"), StudentParsers.DocField(doc, "description"),
                   TasksOf(DocQueryAll(doc, "task")), StudentParsers.DocField(doc, "submissionInstructions"))
  }

  /** The teacher's parseAssignmentXml as a value: None is its `null`. */
  function AssignmentFromXml(xml: string, parse: string -> Node): Option<ParsedHomework> {
    match AssignmentRoot(CleanXml(xml))
    case None => None
    case Some(m) => if StudentParsers.ParserAccepts(parse(m)) then Some(HomeworkOf(parse(m))) else None
  }

  /** The teacher's parseAssignmentXml: unwrap, pick the root, parse,
      then read the fields and loop over the tasks. */
  method ParseAssignmentXml(xml: string, parse: string -> Node) returns (r: Option<ParsedHomework>)
    ensures r == AssignmentFromXml(xml, parse)
  {
    var clean := CleanXml(xml);
    var m := AssignmentRoot(clean);
    if m.None? {
      return None;
    }
    var doc := parse(m.value);
    if !StudentParsers.ParserAccepts(doc) {
      return None;
    }
    var tasks := ReadTasks(DocQueryAll(doc, "task"));
    r := Some(ParsedHomework(StudentParsers.DocField(doc, "title"), StudentParsers.DocField(doc, "description"),
                             tasks, StudentParsers.DocField(doc, "submissionInstructions")));
  }
}
