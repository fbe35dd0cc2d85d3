/** The structured-answer readers of the student dashboard
    (web-interface/frontned/src/pages/student/Dashboard.tsx): the quiz,
    homework and grading-report XML parsers, the quiz and assignment lists
    built from the saved items, and the LaTeX code cut out of a fenced
    answer. Each XML parser takes the first lazy match of its root tag,
    hands it to DOMParser (a parameter here: `parse` maps the text to the
    document's root, a tree that holds a `parsererror` element when the
    text is not well formed), and reads its fields in document order. */
module StudentParsers {
  import opened Wrappers
  import opened Strings
  import opened XmlTree
  import opened TagMatch

  // ---------------------------------------------------------------------
  // Shared steps

  /** `xmlDoc.getElementsByTagName('parsererror').length === 0`. */
  predicate ParserAccepts(doc: Node) {
    |DocQueryAll(doc, "parsererror")| == 0
  }

  /** The first `<tag>…</tag>` match, parsed; None when there is no match
      or the parsed document holds a `parsererror`. */
  function RootOf(xml: string, tag: string, parse: string -> Node): (r: Option<Node>)
    ensures r.Some? ==> MatchText(xml, Single(tag)).Some? && r.value == parse(MatchText(xml, Single(tag)).value)
    ensures r.Some? ==> ParserAccepts(r.value)
    ensures r.None? ==> MatchText(xml, Single(tag)).None? || !ParserAccepts(parse(MatchText(xml, Single(tag)).value))
  {
    match MatchText(xml, Single(tag))
    case None => None
    case Some(m) => if ParserAccepts(parse(m)) then Some(parse(m)) else None
  }

  /** Partner of RootOf: a document wrapped in free text, with no earlier
      opener and no closer inside it, is the text that is parsed. */
  lemma RootOfWrapped(pre: string, tag: string, body: string, post: string, parse: string -> Node)
    requires '<' !in tag
    requires forall k :: !IsAt(pre, "<" + tag + ">", k)
    requires forall k :: !IsAt(body, "</" + tag + ">", k)
    ensures var doc := ("<" + tag + ">") + body + ("</" + tag + ">");
      RootOf(pre + doc + post, tag, parse) == if ParserAccepts(parse(doc)) then Some(parse(doc)) else None
  {
    WrappedMatchText(pre, tag, body, post);
  }

  /** `el?.textContent || ''` for a query result. */
  function TextOr(e: Option<Node>): string {
    if e.Some? then TextContent(e.value) else ""
  }

  /** `xmlDoc.querySelector(name)?.textContent || ''`. */
  function DocField(doc: Node, name: string): string {
    TextOr(DocQuery(doc, name))
  }

  /** `el.getAttribute(a) || ''`. */
  function AttrOr(n: Node, a: string): string {
    Attr(n, a).GetOr("")
  }

  /** `elements.forEach(el => out.push(read(el)))`: one result per element,
      in document order. */
  function Each<T>(nodes: seq<Node>, read: Node -> T): (r: seq<T>)
    ensures |r| == |nodes|
  {
    if |nodes| == 0 then [] else Each(nodes[..|nodes| - 1], read) + [read(nodes[|nodes| - 1])]
  }

  /** The `i`-th result is read from the `i`-th element. */
  lemma {:induction false} EachAt<T>(nodes: seq<Node>, read: Node -> T, i: nat)
    requires i < |nodes|
    ensures Each(nodes, read)[i] == read(nodes[i])
  {
    if i < |nodes| - 1 {
      EachAt(nodes[..|nodes| - 1], read, i);
    }
  }

  /** The `forEach` loop that pushes one result per element. */
  method ReadEach<T>(nodes: seq<Node>, read: Node -> T) returns (r: seq<T>)
    ensures r == Each(nodes, read)
  {
    r := [];
    var i := 0;
    while i < |nodes|
      invariant 0 <= i <= |nodes|
      invariant r == Each(nodes[..i], read)
    {
      assert nodes[..i + 1][..i] == nodes[..i];
      r := r + [read(nodes[i])];
      i := i + 1;
    }
    assert nodes[..i] == nodes;
  }

  // ---------------------------------------------------------------------
  // parseQuizXml

  datatype Choice = Choice(text: string, correct: bool)
  datatype Question = Question(id: string, qtype: string, text: string, options: seq<Choice>)
  datatype QuizContent = QuizContent(topic: string, questions: seq<Question>)

  /** One `<option>`: its whole text, correct exactly when the attribute
      reads `true`. */
  function ChoiceOf(o: Node): Choice {
    Choice(TextContent(o), Attr(o, "correct") == Some("true"))
  }

  /** One `<question>`: id, type and the text of its first `<text>`
      descendant, `''` when absent; every descendant `<option>` in order. */
  function QuestionOf(q: Node): (r: Question)
    ensures Attr(q, "id").Some? ==> r.id == Attr(q, "id").value
    ensures Attr(q, "id").None? ==> r.id == ""
    ensures Attr(q, "type").Some? ==> r.qtype == Attr(q, "type").value
    ensures Attr(q, "type").None? ==> r.qtype == ""
    ensures Query(q, "text").Some? ==> r.text == TextContent(Query(q, "text").value)
    ensures (forall x :: Below(x, q) ==> !IsElementNamed(x, "text")) ==> r.text == ""
    ensures |r.options| == |QueryAll(q, "option")|
  {
    QueryFirst(q, "text");
    Question(AttrOr(q, "id"), AttrOr(q, "type"), TextOr(Query(q, "text")), Each(QueryAll(q, "option"), ChoiceOf))
  }

  /** The quiz read from the parsed document: the text of the first
      `<topic>`, `''` when there is none, and one question per
      `<question>`. */
  function QuizContentOf(doc: Node): (r: QuizContent)
    ensures DocQuery(doc, "topic").None? ==> r.topic == ""
    ensures DocQuery(doc, "topic").Some? ==> r.topic == TextContent(DocQuery(doc, "topic").value)
    ensures |r.questions| == |DocQueryAll(doc, "question")|
  {
    QuizContent(DocField(doc, "topic"), Each(DocQueryAll(doc, "question"), QuestionOf))
  }

  /** parseQuizXml as a value: None is its `null`. */
  function QuizFromXml(xml: string, parse: string -> Node): Option<QuizContent> {
    match RootOf(xml, "test", parse)
    case None => None
    case Some(doc) => Some(QuizContentOf(doc))
  }

  /** parseQuizXml: `null` without a `<test>` match or on a parser error;
      otherwise the topic, then the question loop. */
  method ParseQuizXml(xml: string, parse: string -> Node) returns (r: Option<QuizContent>)
    ensures r.None? <==> RootOf(xml, "test", parse).None?
    ensures r.Some? ==> r.value == QuizContentOf(RootOf(xml, "test", parse).value)
  {
    var doc := RootOf(xml, "test", parse);
    if doc.None? {
      return None;
    }
    var topic := DocField(doc.value, "topic");
    var questions := ReadEach(DocQueryAll(doc.value, "question"), QuestionOf);
    r := Some(QuizContent(topic, questions));
  }

  /** The questions keep document order, with `''` for a missing id or
      text. */
  lemma QuizQuestionAt(doc: Node, i: nat)
    requires i < |DocQueryAll(doc, "question")|
    ensures var q := DocQueryAll(doc, "question")[i];
      var question := QuizContentOf(doc).questions[i];
      question == QuestionOf(q) &&
      (Attr(q, "id").None? ==> question.id == "") &&
      (Query(q, "text").None? ==> question.text == "")
  {
    EachAt(DocQueryAll(doc, "question"), QuestionOf, i);
  }

  /** The options keep document order, and one is correct exactly when its
      attribute reads `"true"`. */
  lemma QuizOptionAt(q: Node, j: nat)
    requires j < |QueryAll(q, "option")|
    ensures QuestionOf(q).options[j].text == TextContent(QueryAll(q, "option")[j])
    ensures QuestionOf(q).options[j].correct <==> Attr(QueryAll(q, "option")[j], "correct") == Some("true")
  {
    EachAt(QueryAll(q, "option"), ChoiceOf, j);
  }

  /** An option marked `correct="TRUE"` is not correct here. */
  lemma UpperCaseTrueIsNotCorrect()
    ensures !ChoiceOf(Element("option", [("correct", "TRUE")], [Text("4")])).correct
  {
    var o := Element("option", [("correct", "TRUE")], [Text("4")]);
    assert Attr(o, "correct") == Some("TRUE");
    assert "TRUE" != "true" by { assert "TRUE"[0] != "true"[0]; }
  }

  // ---------------------------------------------------------------------
  // fetchQuizzes

  /** A quiz as get_quizzes returns it. */
  datatype SavedQuiz = SavedQuiz(key: string, topic: string, timestamp: int, xml: string)

  /** A quiz in the student's list: the saved fields and the questions the
      dashboard parsed from its XML. */
  datatype StudentQuiz = StudentQuiz(key: string, topic: string, timestamp: int, xml: string, questions: seq<Question>)

  /** `{...quiz, questions: parseQuizXml(quiz.xml)?.questions || []}`. */
  function WithQuestions(q: SavedQuiz, parse: string -> Node): StudentQuiz {
    var parsed := QuizFromXml(q.xml, parse);
    StudentQuiz(q.key, q.topic, q.timestamp, q.xml, if parsed.Some? then parsed.value.questions else [])
  }

  /** The list the tests tab shows: every saved quiz, in order. */
  function QuizList(saved: seq<SavedQuiz>, parse: string -> Node): (r: seq<StudentQuiz>)
    ensures |r| == |saved|
  {
    if |saved| == 0 then [] else QuizList(saved[..|saved| - 1], parse) + [WithQuestions(saved[|saved| - 1], parse)]
  }

  /** No quiz is dropped: the `i`-th entry keeps the saved fields of the
      `i`-th quiz, and one whose XML fails to parse has no questions. */
  lemma {:induction false} QuizListKeepsEveryQuiz(saved: seq<SavedQuiz>, parse: string -> Node, i: nat)
    requires i < |saved|
    ensures var s, q := saved[i], QuizList(saved, parse)[i];
      q.key == s.key && q.topic == s.topic && q.timestamp == s.timestamp && q.xml == s.xml &&
      (QuizFromXml(s.xml, parse).None? ==> q.questions == [])
  {
    if i < |saved| - 1 {
      QuizListKeepsEveryQuiz(saved[..|saved| - 1], parse, i);
    }
  }

  // ---------------------------------------------------------------------
  // parseAssignmentXml

  datatype Task = Task(id: string, text: string)
  datatype HomeworkDetails = HomeworkDetails(topic: string, title: string, description: string,
                                             tasks: seq<Task>, submissionInstructions: string)

  /** One `<task>`: its id and the text of its first `<text>` descendant,
      `''` when absent. */
  function TaskOf(t: Node): Task {
    Task(AttrOr(t, "id"), TextOr(Query(t, "text")))
  }

  function HomeworkOf(doc: Node): HomeworkDetails {
    HomeworkDetails(DocField(doc, "topic"), DocField(doc, "title"), DocField(doc, "description"),
                    Each(DocQueryAll(doc, "task"), TaskOf), DocField(doc, "submissionInstructions"))
  }

  /** parseAssignmentXml: None is its `{}` (no `<homework>` match, or a
      parser error). */
  method ParseAssignmentXml(xml: string, parse: string -> Node) returns (r: Option<HomeworkDetails>)
    ensures r.None? <==> RootOf(xml, "homework", parse).None?
    ensures r.Some? ==> r.value == HomeworkOf(RootOf(xml, "homework", parse).value)
  {
    var doc := RootOf(xml, "homework", parse);
    if doc.None? {
      return None;
    }
    var tasks := ReadEach(DocQueryAll(doc.value, "task"), TaskOf);
    r := Some(HomeworkDetails(DocField(doc.value, "topic"), DocField(doc.value, "title"),
                              DocField(doc.value, "description"), tasks,
                              DocField(doc.value, "submissionInstructions")));
  }

  /** A saved assignment as get_assignments returns it. */
  datatype SavedAssignment = SavedAssignment(key: string, topic: string, timestamp: int, xml: string)

  /** An assignment in the student's list: `{...assignment,
      ...parseAssignmentXml(assignment.xml)}`. A parsed document supplies
      its own topic (even an empty one); `{}` leaves the saved topic and no
      details. */
  datatype StudentAssignment = StudentAssignment(key: string, topic: string, timestamp: int, xml: string,
                                                 details: Option<HomeworkDetails>)

  function Merged(a: SavedAssignment, parsed: Option<HomeworkDetails>): (r: StudentAssignment)
    ensures r.key == a.key && r.timestamp == a.timestamp && r.xml == a.xml && r.details == parsed
    ensures r.topic == if parsed.Some? then parsed.value.topic else a.topic
  {
    StudentAssignment(a.key, if parsed.Some? then parsed.value.topic else a.topic, a.timestamp, a.xml, parsed)
  }

  // ---------------------------------------------------------------------
  // parseGradeXml

  datatype TaskGrade = TaskGrade(id: string, score: string, feedback: string)
  datatype GradeReport = GradeReport(topic: string, grades: seq<TaskGrade>, overallFeedback: string, finalScore: string)

  /** One `<taskGrade>`: id, and the first `<score>` and `<feedback>`
      descendants' text, `''` when absent. */
  function TaskGradeOf(g: Node): TaskGrade {
    TaskGrade(AttrOr(g, "id"), TextOr(Query(g, "score")), TextOr(Query(g, "feedback")))
  }

  function GradeReportOf(doc: Node): GradeReport {
    GradeReport(DocField(doc, "topic"), Each(DocQueryAll(doc, "taskGrade"), TaskGradeOf),
                DocField(doc, "overallFeedback"), DocField(doc, "finalScore"))
  }

  /** parseGradeXml: `null` without a `<gradingReport>` match or on a
      parser error. */
  method ParseGradeXml(xml: string, parse: string -> Node) returns (r: Option<GradeReport>)
    ensures r.None? <==> RootOf(xml, "gradingReport", parse).None?
    ensures r.Some? ==> r.value == GradeReportOf(RootOf(xml, "gradingReport", parse).value)
  {
    var doc := RootOf(xml, "gradingReport", parse);
    if doc.None? {
      return None;
    }
    var grades := ReadEach(DocQueryAll(doc.value, "taskGrade"), TaskGradeOf);
    r := Some(GradeReport(DocField(doc.value, "topic"), grades,
                          DocField(doc.value, "overallFeedback"), DocField(doc.value, "finalScore")));
  }

  // ---------------------------------------------------------------------
  // handleLatexUpload

  /** `/```latex\s*([\s\S]*?)\s*```/`: the fence opener and closer. */
  function LatexFence(): (p: Pattern)
    ensures WellFormed(p) && OpenLen(p) == 8 && CloseLen(p) == 3
  {
    Pattern(["```latex"], ["```"], false)
  }

  /** The text between the opener and the closer of the first `p` match. */
  function Inside(raw: string, p: Pattern): (r: Option<string>)
    requires WellFormed(p)
    ensures r.Some? <==> FirstLazy(raw, p).Some?
  {
    match FirstLazy(raw, p)
    case None => None
    case Some(sp) =>
      FirstLazyBounds(raw, p);
      Some(raw[sp.start + OpenLen(p)..sp.end - CloseLen(p)])
  }

  /** The LaTeX code shown: the trimmed inside of the first ```latex fence
      when that is not empty, otherwise the whole answer trimmed. */
  function LatexCode(raw: string): (r: string)
    ensures |r| > 0 ==> !IsSpace(r[0]) && !IsSpace(r[|r| - 1])
  {
    var inside := Inside(raw, LatexFence());
    if inside.Some? && Trim(inside.value) != "" then Trim(inside.value) else Trim(raw)
  }

  /** A fenced block, with no backtick before it or inside it, yields
      its trimmed body. */
  lemma LatexCodeFenced(pre: string, body: string, post: string)
    requires '`' !in pre && '`' !in body && Trim(body) != ""
    ensures LatexCode(pre + "```latex" + body + "```" + post) == Trim(body)
  {
    var s := pre + "```latex" + body + "```" + post;
    WrappedCharFree(pre, "```latex", body, "```", post);
    assert s[|pre| + 8..|pre| + 8 + |body|] == body;
    assert Inside(s, LatexFence()) == Some(body);
  }

  /** Without a ```latex opener the whole answer is used, trimmed. */
  lemma LatexCodeUnfenced(raw: string)
    requires forall k :: !IsAt(raw, "```latex", k)
    ensures LatexCode(raw) == Trim(raw)
  {
    NoOpenerNoMatch(raw, "```latex", "```");
  }
}
