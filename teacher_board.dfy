/** The quiz and homework tabs of the teacher dashboard
    (web-interface/frontned/src/pages/teacher/Dashboard.tsx): generating a
    draft from a topic, saving it, listing and deleting. The generator, the
    backend and the confirmation dialog are outside the model: their
    answers are parameters. */
module TeacherBoard {
  import opened Wrappers
  import opened Strings
  import opened XmlTree
  import StudentParsers
  import TeacherDashboard
  import opened KeyedLists

  // ---------------------------------------------------------------------
  // Items and replies

  /** A quiz in the teacher's list. */
  datatype Quiz = Quiz(key: string, topic: string, timestamp: int, questions: seq<StudentParsers.Question>)

  /** A homework in the teacher's list. */
  datatype Homework = Homework(key: string, topic: string, title: string, description: string,
                               tasks: seq<StudentParsers.Task>, submissionInstructions: string,
                               timestamp: int, xml: string)

  /** The generator's answer: the request failed with a message, it
      returned no data, or it returned `text` and `response` (absent ones
      as `''`). */
  datatype GeneratorReply = RequestFailed(message: string) | NoData | Data(text: string, response: string)

  /** The backend's answer to a save: the new key, or a failure with the
      server's or the request's message (`''` when there is none). */
  datatype SaveReply = Saved(key: string) | NotSaved(error: string)

  /** The backend's answer to a delete. */
  datatype DeleteReply = Deleted | NotDeleted(error: string)

  /** The backend's answer to a listing. */
  datatype ListReply<T> = Listed(items: seq<T>) | NotListed(error: string)

  // The messages the dashboard shows.
  const TitlePrefix := "Assignment on "
  const HomeworkNotDeleted := "Failed to delete assignment"
  const QuizNotDeleted := "Failed to delete quiz"
  const HomeworkNotLoaded := "Failed to load assignments"
  const QuizzesNotLoaded := "Failed to load quizzes"
  const HomeworkUnparsed := "Failed to parse assignment data from response"
  const QuizUnparsed := "Failed to parse quiz data from response"
  const HomeworkNotSaved := "Failed to save assignment"
  const QuizNotSaved := "Failed to save quiz"
  const NoHomeworkDraft := "No assignment data to save"
  const NoHomeworkData := "No data returned from assignment generator"
  const NoQuizData := "No data returned from quiz generator"
  const NoQuizDraft := "No quiz data to save"
  const HomeworkTopicMissing := "Please provide a topic for the assignment."
  const QuizTopicMissing := "Please provide a topic for the quiz."

  // ---------------------------------------------------------------------
  // Drafts

  /** The quiz drafted from generated XML: accepted only with at least one
      question, under the topic the teacher typed and not the XML's; the
      key is the current time in milliseconds. */
  function QuizDraft(topic: string, xml: string, parse: string -> Node, now: nat): (r: Option<Quiz>)
    ensures r.Some? <==> StudentParsers.QuizFromXml(xml, parse).Some? && |StudentParsers.QuizFromXml(xml, parse).value.questions| > 0
    ensures r.Some? ==> r.value == Quiz(NatToString(now), topic, now, StudentParsers.QuizFromXml(xml, parse).value.questions)
  {
    match StudentParsers.QuizFromXml(xml, parse)
    case None => None
    case Some(q) => if |q.questions| > 0 then Some(Quiz(NatToString(now), topic, now, q.questions)) else None
  }

  /** The homework drafted from generated XML: accepted whenever it parses;
      an empty title becomes `Assignment on {topic}`. */
  function HomeworkDraft(topic: string, xml: string, parse: string -> Node, now: nat): (r: Option<Homework>)
    ensures r.Some? <==> TeacherDashboard.AssignmentFromXml(xml, parse).Some?
    ensures r.Some? ==> var h := TeacherDashboard.AssignmentFromXml(xml, parse).value;
      r.value.topic == topic && r.value.xml == xml && r.value.tasks == h.tasks &&
      r.value.title == (if h.title != "" then h.title else TitlePrefix + topic)
  {
    match TeacherDashboard.AssignmentFromXml(xml, parse)
    case None => None
    case Some(h) =>
      Some(Homework(NatToString(now), topic, if h.title != "" then h.title else TitlePrefix + topic,
                    h.description, h.tasks, h.submissionInstructions, now, xml))
  }

  /** A loaded homework: the saved fields, the parsed details, and the
      saved topic as title when the parsed one is missing or empty. */
  function LoadedHomework(a: StudentParsers.SavedAssignment, parse: string -> Node): (r: Homework)
    ensures r.key == a.key && r.topic == a.topic && r.timestamp == a.timestamp && r.xml == a.xml
    ensures TeacherDashboard.AssignmentFromXml(a.xml, parse).None? ==> r.title == a.topic && r.tasks == []
  {
    var p := TeacherDashboard.AssignmentFromXml(a.xml, parse);
    var title := if p.Some? && p.value.title != "" then p.value.title else a.topic;
    Homework(a.key, a.topic, title,
             if p.Some? then p.value.description else "",
             if p.Some? then p.value.tasks else [],
             if p.Some? then p.value.submissionInstructions else "",
             a.timestamp, a.xml)
  }

  /** A loaded quiz: the saved fields with the parsed questions, or none. */
  function LoadedQuiz(q: StudentParsers.SavedQuiz, parse: string -> Node): (r: Quiz)
    ensures r.key == q.key && r.topic == q.topic && r.timestamp == q.timestamp
    ensures StudentParsers.QuizFromXml(q.xml, parse).None? ==> r.questions == []
  {
    var p := StudentParsers.QuizFromXml(q.xml, parse);
    Quiz(q.key, q.topic, q.timestamp, if p.Some? then p.value.questions else [])
  }

  function QuizKey(q: Quiz): string { q.key }
  function HomeworkKey(h: Homework): string { h.key }

  // ---------------------------------------------------------------------
  // The dashboard state

  /** One tab's form: the generated XML, the draft, the error shown, and
      whether the last save succeeded. */
  datatype Form<T> = Form(xml: string, draft: Option<T>, error: Option<string>, saved: bool)

  /** The generator's reply applied to a cleared form: its error, or the
      XML and the draft read from it, or the parse error without a draft. */
  method ReadReply<T>(form: Form<T>, reply: GeneratorReply, draftOf: string -> Option<T>,
                      noData: string, unparsed: string) returns (r: Form<T>)
    ensures reply.RequestFailed? ==> r == form.(error := Some(reply.message))
    ensures reply.NoData? ==> r == form.(error := Some(noData))
    ensures reply.Data? ==>
      var xml := OrDefault(reply.text, reply.response);
      r.xml == xml &&
      (draftOf(xml).Some? ==> r == form.(xml := xml, draft := draftOf(xml), saved := false)) &&
      (draftOf(xml).None? ==> r == form.(xml := xml, error := Some(unparsed)))
  {
    r := form;
    match reply {
      case RequestFailed(message) =>
        r := r.(error := Some(message));
      case NoData =>
        r := r.(error := Some(noData));
      case Data(text, response) =>
        var xml := OrDefault(text, response);
        r := r.(xml := xml);
        var draft := draftOf(xml);
        if draft.Some? {
          r := r.(draft := draft, saved := false);
        } else {
          r := r.(error := Some(unparsed));
        }
    }
  }

  class Board {
    var quizzes: seq<Quiz>
    var quizForm: Form<Quiz>
    var deleteQuizError: Option<string>
    var homework: seq<Homework>
    var homeworkForm: Form<Homework>
    var deleteHomeworkError: Option<string>

    constructor()
      ensures quizzes == [] && homework == []
      ensures quizForm == Form("", None, None, false) && homeworkForm == Form("", None, None, false)
      ensures deleteQuizError == None && deleteHomeworkError == None
    {
      quizzes := [];
      quizForm := Form("", None, None, false);
      deleteQuizError := None;
      homework := [];
      homeworkForm := Form("", None, None, false);
      deleteHomeworkError := None;
    }

    /** handleGenerateQuiz. A blank topic only sets an error and never
        reaches the generator; otherwise the draft is cleared and rebuilt
        from the reply. */
    method GenerateQuiz(topic: string, reply: GeneratorReply, parse: string -> Node, now: nat)
      modifies this
      ensures quizzes == old(quizzes) && homework == old(homework) && homeworkForm == old(homeworkForm)
      ensures deleteQuizError == old(deleteQuizError) && deleteHomeworkError == old(deleteHomeworkError)
      ensures Trim(topic) == "" ==> quizForm == old(quizForm).(error := Some(QuizTopicMissing))
      ensures Trim(topic) != "" && reply.RequestFailed? ==>
        quizForm == old(quizForm).(draft := None, error := Some(reply.message))
      ensures Trim(topic) != "" && reply.NoData? ==>
        quizForm == old(quizForm).(draft := None, error := Some(NoQuizData))
      ensures Trim(topic) != "" && reply.Data? ==>
        var xml := OrDefault(reply.text, reply.response);
        var draft := QuizDraft(topic, xml, parse, now);
        quizForm.xml == xml && quizForm.draft == draft &&
        (draft.Some? ==> quizForm.error == None && !quizForm.saved) &&
        (draft.None? ==> quizForm.error == Some(QuizUnparsed) && quizForm.saved == old(quizForm).saved)
    {
      if Trim(topic) == "" {
        quizForm := quizForm.(error := Some(QuizTopicMissing));
        return;
      }
      quizForm := ReadReply(quizForm.(error := None, draft := None), reply, xml => QuizDraft(topic, xml, parse, now),
                            NoQuizData, QuizUnparsed);
    }

    /** handleSaveQuiz: without a draft and its XML nothing is sent; a
        saved draft goes to the front of the list under the server's key. */
    method SaveQuiz(reply: SaveReply)
      modifies this
      ensures homework == old(homework) && homeworkForm == old(homeworkForm)
      ensures deleteQuizError == old(deleteQuizError) && deleteHomeworkError == old(deleteHomeworkError)
      ensures old(quizForm).draft.None? || old(quizForm).xml == "" ==>
        quizzes == old(quizzes) && quizForm == old(quizForm).(error := Some(NoQuizDraft))
      ensures old(quizForm).draft.Some? && old(quizForm).xml != "" && reply.Saved? ==>
        quizzes == [old(quizForm).draft.value.(key := reply.key)] + old(quizzes) &&
        quizForm == old(quizForm).(saved := true)
      ensures old(quizForm).draft.Some? && old(quizForm).xml != "" && reply.NotSaved? ==>
        quizzes == old(quizzes) && quizForm == old(quizForm).(error := Some(OrDefault(reply.error, QuizNotSaved)))
    {
      if quizForm.draft.None? || quizForm.xml == "" {
        quizForm := quizForm.(error := Some(NoQuizDraft));
        return;
      }
      match reply {
        case Saved(key) =>
          quizForm := quizForm.(saved := true);
          quizzes := [quizForm.draft.value.(key := key)] + quizzes;
        case NotSaved(error) =>
          quizForm := quizForm.(error := Some(OrDefault(error, QuizNotSaved)));
      }
    }

    /** loadQuizzes: the listed quizzes with their parsed questions. */
    method LoadQuizzes(reply: ListReply<StudentParsers.SavedQuiz>, parse: string -> Node)
      modifies this
      ensures homework == old(homework) && homeworkForm == old(homeworkForm)
      ensures deleteQuizError == old(deleteQuizError) && deleteHomeworkError == old(deleteHomeworkError)
      ensures reply.Listed? ==> quizzes == MapAll(reply.items, q => LoadedQuiz(q, parse)) && quizForm == old(quizForm)
      ensures reply.NotListed? ==>
        quizzes == old(quizzes) && quizForm == old(quizForm).(error := Some(OrDefault(reply.error, QuizzesNotLoaded)))
    {
      match reply {
        case Listed(items) =>
          quizzes := MapAll(items, q => LoadedQuiz(q, parse));
        case NotListed(error) =>
          quizForm := quizForm.(error := Some(OrDefault(error, QuizzesNotLoaded)));
      }
    }

    /** handleDeleteQuiz: nothing unless confirmed; a successful delete
        drops exactly the quizzes with that key. */
    method DeleteQuiz(key: string, confirmed: bool, reply: DeleteReply)
      modifies this
      ensures homework == old(homework) && homeworkForm == old(homeworkForm) && quizForm == old(quizForm)
      ensures deleteHomeworkError == old(deleteHomeworkError)
      ensures !confirmed ==> quizzes == old(quizzes) && deleteQuizError == old(deleteQuizError)
      ensures confirmed && reply.Deleted? ==>
        quizzes == WithoutKey(old(quizzes), QuizKey, key) && deleteQuizError == old(deleteQuizError)
      ensures confirmed && reply.NotDeleted? ==>
        quizzes == old(quizzes) && deleteQuizError == Some(OrDefault(reply.error, QuizNotDeleted))
    {
      if !confirmed {
        return;
      }
      match reply {
        case Deleted =>
          quizzes := WithoutKey(quizzes, QuizKey, key);
        case NotDeleted(error) =>
          deleteQuizError := Some(OrDefault(error, QuizNotDeleted));
      }
    }

    /** handleGenerateAssignment. */
    method GenerateHomework(topic: string, reply: GeneratorReply, parse: string -> Node, now: nat)
      modifies this
      ensures quizzes == old(quizzes) && homework == old(homework) && quizForm == old(quizForm)
      ensures deleteQuizError == old(deleteQuizError) && deleteHomeworkError == old(deleteHomeworkError)
      ensures Trim(topic) == "" ==> homeworkForm == old(homeworkForm).(error := Some(HomeworkTopicMissing))
      ensures Trim(topic) != "" && reply.RequestFailed? ==>
        homeworkForm == old(homeworkForm).(draft := None, error := Some(reply.message))
      ensures Trim(topic) != "" && reply.NoData? ==>
        homeworkForm == old(homeworkForm).(draft := None, error := Some(NoHomeworkData))
      ensures Trim(topic) != "" && reply.Data? ==>
        var xml := OrDefault(reply.text, reply.response);
        var draft := HomeworkDraft(topic, xml, parse, now);
        homeworkForm.xml == xml && homeworkForm.draft == draft &&
        (draft.Some? ==> homeworkForm.error == None && !homeworkForm.saved) &&
        (draft.None? ==> homeworkForm.error == Some(HomeworkUnparsed) && homeworkForm.saved == old(homeworkForm).saved)
    {
      if Trim(topic) == "" {
        homeworkForm := homeworkForm.(error := Some(HomeworkTopicMissing));
        return;
      }
      homeworkForm := ReadReply(homeworkForm.(error := None, draft := None), reply, xml => HomeworkDraft(topic, xml, parse, now),
                                NoHomeworkData, HomeworkUnparsed);
    }

    /** handleSaveAssignment. */
    method SaveHomework(reply: SaveReply)
      modifies this
      ensures quizzes == old(quizzes) && quizForm == old(quizForm)
      ensures deleteQuizError == old(deleteQuizError) && deleteHomeworkError == old(deleteHomeworkError)
      ensures old(homeworkForm).draft.None? || old(homeworkForm).xml == "" ==>
        homework == old(homework) && homeworkForm == old(homeworkForm).(error := Some(NoHomeworkDraft))
      ensures old(homeworkForm).draft.Some? && old(homeworkForm).xml != "" && reply.Saved? ==>
        homework == [old(homeworkForm).draft.value.(key := reply.key)] + old(homework) &&
        homeworkForm == old(homeworkForm).(saved := true)
      ensures old(homeworkForm).draft.Some? && old(homeworkForm).xml != "" && reply.NotSaved? ==>
        homework == old(homework) &&
        homeworkForm == old(homeworkForm).(error := Some(OrDefault(reply.error, HomeworkNotSaved)))
    {
      if homeworkForm.draft.None? || homeworkForm.xml == "" {
        homeworkForm := homeworkForm.(error := Some(NoHomeworkDraft));
        return;
      }
      match reply {
        case Saved(key) =>
          homeworkForm := homeworkForm.(saved := true);
          homework := [homeworkForm.draft.value.(key := key)] + homework;
        case NotSaved(error) =>
          homeworkForm := homeworkForm.(error := Some(OrDefault(error, HomeworkNotSaved)));
      }
    }

    /** loadAssignments. */
    method LoadHomework(reply: ListReply<StudentParsers.SavedAssignment>, parse: string -> Node)
      modifies this
      ensures quizzes == old(quizzes) && quizForm == old(quizForm)
      ensures deleteQuizError == old(deleteQuizError) && deleteHomeworkError == old(deleteHomeworkError)
      ensures reply.Listed? ==> homework == MapAll(reply.items, a => LoadedHomework(a, parse)) && homeworkForm == old(homeworkForm)
      ensures reply.NotListed? ==>
        homework == old(homework) &&
        homeworkForm == old(homeworkForm).(error := Some(OrDefault(reply.error, HomeworkNotLoaded)))
    {
      match reply {
        case Listed(items) =>
          homework := MapAll(items, a => LoadedHomework(a, parse));
        case NotListed(error) =>
          homeworkForm := homeworkForm.(error := Some(OrDefault(error, HomeworkNotLoaded)));
      }
    }

    /** handleDeleteAssignment. */
    method DeleteHomework(key: string, confirmed: bool, reply: DeleteReply)
      modifies this
      ensures quizzes == old(quizzes) && quizForm == old(quizForm) && homeworkForm == old(homeworkForm)
      ensures deleteQuizError == old(deleteQuizError)
      ensures !confirmed ==> homework == old(homework) && deleteHomeworkError == old(deleteHomeworkError)
      ensures confirmed && reply.Deleted? ==>
        homework == WithoutKey(old(homework), HomeworkKey, key) && deleteHomeworkError == old(deleteHomeworkError)
      ensures confirmed && reply.NotDeleted? ==>
        homework == old(homework) && deleteHomeworkError == Some(OrDefault(reply.error, HomeworkNotDeleted))
    {
      if !confirmed {
        return;
      }
      match reply {
        case Deleted =>
          homework := WithoutKey(homework, HomeworkKey, key);
        case NotDeleted(error) =>
          deleteHomeworkError := Some(OrDefault(error, HomeworkNotDeleted));
      }
    }
  }
}
