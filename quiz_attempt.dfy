/** Taking a quiz on the student dashboard
    (web-interface/frontned/src/pages/student/Dashboard.tsx): the dashboard
    keeps the step it shows, the quiz being taken, the answers chosen so
    far and the score, and four handlers move between `list`, `quiz` and
    `results`. */
module QuizAttempt {
  import opened Wrappers
  import opened XmlTree
  import opened StudentParsers

  /** `activeQuizStep`: `'list' | 'quiz' | 'results'`. */
  datatype Step = List | Taking | Results

  /** One chosen option: the question's id and the option's position. */
  datatype StudentAnswer = StudentAnswer(questionId: string, selectedOption: nat)

  // ---------------------------------------------------------------------
  // The answer list

  /** The first answer at or after `from` for question `id`. */
  function FindFrom(answers: seq<StudentAnswer>, id: string, from: nat): (r: Option<nat>)
    requires from <= |answers|
    ensures r.Some? ==> from <= r.value < |answers| && answers[r.value].questionId == id
    ensures r.Some? ==> forall k :: from <= k < r.value ==> answers[k].questionId != id
    ensures r.None? ==> forall k :: from <= k < |answers| ==> answers[k].questionId != id
    decreases |answers| - from
  {
    if from == |answers| then None
    else if answers[from].questionId == id then Some(from)
    else FindFrom(answers, id, from + 1)
  }

  /** `studentAnswers.findIndex(a => a.questionId === id)`, None for -1. */
  function FindAnswer(answers: seq<StudentAnswer>, id: string): Option<nat> {
    FindFrom(answers, id, 0)
  }

  /** `studentAnswers.find(a => a.questionId === id)?.selectedOption`. */
  function Chosen(answers: seq<StudentAnswer>, id: string): Option<nat> {
    match FindAnswer(answers, id)
    case None => None
    case Some(i) => Some(answers[i].selectedOption)
  }

  /** At most one answer per question. */
  predicate UniqueIds(answers: seq<StudentAnswer>) {
    forall i, j :: 0 <= i < j < |answers| ==> answers[i].questionId != answers[j].questionId
  }

  /** handleOptionSelect on the list: an existing answer for the question
      is replaced where it stands, otherwise one is appended. */
  function Upsert(answers: seq<StudentAnswer>, id: string, option: nat): seq<StudentAnswer> {
    match FindAnswer(answers, id)
    case Some(i) => answers[i := StudentAnswer(id, option)]
    case None => answers + [StudentAnswer(id, option)]
  }

  /** An answered question keeps its place: only that entry changes. */
  lemma UpsertReplaces(answers: seq<StudentAnswer>, id: string, option: nat, i: nat)
    requires i < |answers| && answers[i].questionId == id
    ensures var r := Upsert(answers, id, option);
      |r| == |answers| &&
      (forall k :: 0 <= k < |answers| && answers[k].questionId != id ==> r[k] == answers[k]) &&
      (UniqueIds(answers) ==> r[i] == StudentAnswer(id, option))
  {
    var f := FindAnswer(answers, id);
    if UniqueIds(answers) {
      assert f.value == i;
    }
  }

  /** An unanswered question gets one new entry at the end. */
  lemma UpsertAppends(answers: seq<StudentAnswer>, id: string, option: nat)
    requires forall k :: 0 <= k < |answers| ==> answers[k].questionId != id
    ensures Upsert(answers, id, option) == answers + [StudentAnswer(id, option)]
  {
  }

  /** After selecting, the question's answer is the option just chosen,
      and every other question's answer is what it was. */
  lemma UpsertRecorded(answers: seq<StudentAnswer>, id: string, option: nat, other: string)
    requires other != id
    ensures Chosen(Upsert(answers, id, option), id) == Some(option)
    ensures Chosen(Upsert(answers, id, option), other) == Chosen(answers, other)
  {
    var r := Upsert(answers, id, option);
    match FindAnswer(answers, id) {
      case Some(i) =>
        assert r[i].questionId == id;
        assert FindAnswer(r, id) == Some(i);
        var o := FindAnswer(answers, other);
        if o.Some? {
          assert r[o.value] == answers[o.value];
          assert FindAnswer(r, other) == o;
        } else {
          assert FindAnswer(r, other).None?;
        }
      case None =>
        assert r[|answers|].questionId == id;
        assert FindAnswer(r, id) == Some(|answers|);
        var o := FindAnswer(answers, other);
        if o.Some? {
          assert r[o.value] == answers[o.value];
          assert FindAnswer(r, other) == o;
        } else {
          assert FindAnswer(r, other).None?;
        }
    }
  }

  /** The list never holds two answers to one question. */
  lemma UpsertKeepsUnique(answers: seq<StudentAnswer>, id: string, option: nat)
    requires UniqueIds(answers)
    ensures UniqueIds(Upsert(answers, id, option))
  {
  }

  // ---------------------------------------------------------------------
  // Scoring

  /** A question counts when its chosen option exists and is correct. */
  predicate Earns(q: Question, answers: seq<StudentAnswer>) {
    var c := Chosen(answers, q.id);
    c.Some? && c.value < |q.options| && q.options[c.value].correct
  }

  /** The number of questions that count. */
  function CountCorrect(qs: seq<Question>, answers: seq<StudentAnswer>): (r: nat)
    ensures r <= |qs|
  {
    if |qs| == 0 then 0
    else CountCorrect(qs[..|qs| - 1], answers) + (if Earns(qs[|qs| - 1], answers) then 1 else 0)
  }

  /** Every question right: every question counts. */
  lemma {:induction false} AllEarnedCountsAll(qs: seq<Question>, answers: seq<StudentAnswer>)
    requires forall i :: 0 <= i < |qs| ==> Earns(qs[i], answers)
    ensures CountCorrect(qs, answers) == |qs|
  {
    if |qs| > 0 {
      AllEarnedCountsAll(qs[..|qs| - 1], answers);
    }
  }

  /** No question right: the count is zero. */
  lemma {:induction false} NoneEarnedCountsNone(qs: seq<Question>, answers: seq<StudentAnswer>)
    requires forall i :: 0 <= i < |qs| ==> !Earns(qs[i], answers)
    ensures CountCorrect(qs, answers) == 0
  {
    if |qs| > 0 {
      NoneEarnedCountsNone(qs[..|qs| - 1], answers);
    }
  }

  /** `parseFloat(((c / n) * 10).toFixed(1))`, in tenths of a point: the
      nearest tenth, a tie rounding up. */
  function RoundTenths(c: nat, n: nat): (r: nat)
    requires 0 < n
    ensures 2 * n * r <= 200 * c + n < 2 * n * (r + 1)
  {
    (200 * c + n) / (2 * n)
  }

  /** A score out of 10 as JavaScript computes it: NaN for `0 / 0`. */
  datatype JsScore = Tenths(tenths: nat) | NaN

  /** The score as submitQuiz computes it. */
  function ScoreAsWritten(c: nat, n: nat): (r: JsScore)
    requires c <= n
    ensures r.NaN? <==> n == 0
  {
    if n == 0 then NaN else Tenths(RoundTenths(c, n))
  }

  /** Multiplying by a natural number keeps the order. */
  lemma MulMono(k: nat, a: nat, b: nat)
    requires a <= b
    ensures k * a <= k * b
  {
  }

  /** The intended score in tenths: always a number from 0 to 10, and the
      written score whenever there are questions. A quiz without questions
      is never scored, since submitting it does nothing; 0 stands in for
      it here so that the function is total. */
  function QuizScore(c: nat, n: nat): (r: nat)
    requires c <= n
    ensures r <= 100
    ensures n > 0 ==> ScoreAsWritten(c, n) == Tenths(r)
  {
    if n == 0 then 0
    else
      RoundTenthsAtMost(c, n);
      RoundTenths(c, n)
  }

  /** At most all correct is at most 10 points. */
  lemma RoundTenthsAtMost(c: nat, n: nat)
    requires 0 < n && c <= n
    ensures RoundTenths(c, n) <= 100
  {
    var r := RoundTenths(c, n);
    if r > 100 {
      MulMono(2 * n, 101, r);
      assert false;
    }
  }

  /** All correct gives 10, none correct gives 0, and a better count never
      gives a lower score. */
  lemma ScoreBounds(c: nat, d: nat, n: nat)
    requires c <= d <= n
    ensures 0 < n ==> QuizScore(n, n) == 100
    ensures QuizScore(0, n) == 0
    ensures QuizScore(c, n) <= QuizScore(d, n)
  {
    if 0 < n {
      var a, b := RoundTenths(c, n), RoundTenths(d, n);
      if a > b {
        MulMono(2 * n, b + 1, a);
        assert false;
      }
      var z := RoundTenths(0, n);
      if z > 0 {
        MulMono(2 * n, 1, z);
        assert false;
      }
      var f := RoundTenths(n, n);
      if f < 100 {
        MulMono(2 * n, f + 1, 100);
        assert false;
      }
    }
  }

  /** The submit button is enabled once there are as many answers as
      questions: at once for a quiz without questions, never while fewer
      answers than questions have been chosen. */
  predicate CanSubmit(quiz: StudentQuiz, answers: seq<StudentAnswer>)
    ensures |quiz.questions| == 0 ==> CanSubmit(quiz, answers)
    ensures |answers| < |quiz.questions| ==> !CanSubmit(quiz, answers)
  {
    |answers| >= |quiz.questions|
  }

  /** No two questions of the quiz share an id. */
  predicate DistinctQuestionIds(qs: seq<Question>) {
    forall i, j :: 0 <= i < j < |qs| ==> qs[i].id != qs[j].id
  }

  /** The ids of the questions. */
  function QuestionIds(qs: seq<Question>): set<string> {
    set i | 0 <= i < |qs| :: qs[i].id
  }

  /** Questions of distinct ids have as many ids as questions. */
  lemma {:induction false} QuestionIdsCount(qs: seq<Question>)
    requires DistinctQuestionIds(qs)
    ensures |QuestionIds(qs)| == |qs|
    decreases |qs|
  {
    if |qs| > 0 {
      var n := |qs| - 1;
      var init := qs[..n];
      QuestionIdsCount(init);
      assert QuestionIds(qs) == QuestionIds(init) + {qs[n].id} by {
        forall x | x in QuestionIds(qs)
          ensures x in QuestionIds(init) + {qs[n].id}
        {
          var i :| 0 <= i < |qs| && qs[i].id == x;
          if i < n {
            assert init[i] == qs[i];
          }
        }
        forall x | x in QuestionIds(init)
          ensures x in QuestionIds(qs)
        {
          var i :| 0 <= i < |init| && init[i].id == x;
          assert qs[i] == init[i];
        }
      }
      assert qs[n].id !in QuestionIds(init);
    }
  }

  /** The ids the answers name. */
  function AnswerIds(answers: seq<StudentAnswer>): set<string> {
    set i | 0 <= i < |answers| :: answers[i].questionId
  }

  /** One answer per question: as many ids as answers. */
  lemma {:induction false} AnswerIdsCount(answers: seq<StudentAnswer>)
    requires UniqueIds(answers)
    ensures |AnswerIds(answers)| == |answers|
    decreases |answers|
  {
    if |answers| > 0 {
      var n := |answers| - 1;
      var init := answers[..n];
      AnswerIdsCount(init);
      assert AnswerIds(answers) == AnswerIds(init) + {answers[n].questionId} by {
        forall x | x in AnswerIds(answers)
          ensures x in AnswerIds(init) + {answers[n].questionId}
        {
          var i :| 0 <= i < |answers| && answers[i].questionId == x;
          if i < n {
            assert init[i] == answers[i];
          }
        }
        forall x | x in AnswerIds(init)
          ensures x in AnswerIds(answers)
        {
          var i :| 0 <= i < |init| && init[i].questionId == x;
          assert answers[i] == init[i];
        }
      }
      assert answers[n].questionId !in AnswerIds(init);
    }
  }

  /** Every answer is for a question of `quiz`, as the quiz view offers
      only its own questions' options. */
  predicate AnswersOf(quiz: StudentQuiz, answers: seq<StudentAnswer>) {
    forall i :: 0 <= i < |answers| ==> answers[i].questionId in QuestionIds(quiz.questions)
  }

  /** Every question of `quiz` has an answer. */
  predicate AllAnswered(quiz: StudentQuiz, answers: seq<StudentAnswer>) {
    forall i :: 0 <= i < |quiz.questions| ==> FindAnswer(answers, quiz.questions[i].id).Some?
  }

  /** With one answer per question and questions of distinct ids, counting
      answers is the same as checking that every question is answered. */
  lemma SubmitMeansAllAnswered(quiz: StudentQuiz, answers: seq<StudentAnswer>)
    requires UniqueIds(answers) && DistinctQuestionIds(quiz.questions) && AnswersOf(quiz, answers)
    ensures CanSubmit(quiz, answers) <==> AllAnswered(quiz, answers)
  {
    var qs := quiz.questions;
    var a, q := AnswerIds(answers), QuestionIds(qs);
    AnswerIdsCount(answers);
    QuestionIdsCount(qs);
    assert a <= q;
    assert a * q == a && a + q == q;
    assert |q - a| == |q| - |a|;
    forall id
      ensures FindAnswer(answers, id).Some? <==> id in a
    {
      if id in a {
        var i :| 0 <= i < |answers| && answers[i].questionId == id;
      }
    }
    if CanSubmit(quiz, answers) {
      assert q - a == {};
      forall i | 0 <= i < |qs|
        ensures FindAnswer(answers, qs[i].id).Some?
      {
        assert qs[i].id in q;
        assert qs[i].id !in q - a;
      }
    }
  }

  /** A quiz whose XML does not parse stays in the list with no questions;
      it can be submitted at once, and its score is NaN. */
  lemma UnparsedQuizScoresNaN(saved: seq<SavedQuiz>, parse: string -> Node, i: nat, answers: seq<StudentAnswer>)
    requires i < |saved| && QuizFromXml(saved[i].xml, parse).None?
    ensures var quiz := QuizList(saved, parse)[i];
      CanSubmit(quiz, answers) &&
      ScoreAsWritten(CountCorrect(quiz.questions, answers), |quiz.questions|) == NaN
  {
    QuizListKeepsEveryQuiz(saved, parse, i);
  }

  // ---------------------------------------------------------------------
  // The dashboard's quiz state

  class Attempt {
    var step: Step
    var selected: Option<StudentQuiz>
    var answers: seq<StudentAnswer>
    /** `quizScore` in tenths; None is `null`. */
    var score: Option<nat>

    /** The answer list has one entry per question at most, and the quiz
        and results views always have a quiz. */
    predicate Valid()
      reads this
    {
      UniqueIds(answers) && (step != List ==> selected.Some?)
    }

    /** The initial state: the list view, nothing chosen. */
    constructor()
      ensures Valid()
      ensures step == List && selected == None && answers == [] && score == None
    {
      step := List;
      selected := None;
      answers := [];
      score := None;
    }

    /** startQuiz. */
    method StartQuiz(quiz: StudentQuiz)
      modifies this
      ensures Valid()
      ensures step == Taking && selected == Some(quiz) && answers == [] && score == None
    {
      selected := Some(quiz);
      step := Taking;
      answers := [];
      score := None;
    }

    /** handleOptionSelect. */
    method SelectOption(id: string, option: nat)
      requires Valid()
      modifies this
      ensures Valid()
      ensures answers == Upsert(old(answers), id, option)
      ensures step == old(step) && selected == old(selected) && score == old(score)
    {
      var i := FindAnswer(answers, id);
      if i.Some? {
        answers := answers[i.value := StudentAnswer(id, option)];
      } else {
        answers := answers + [StudentAnswer(id, option)];
      }
      UpsertKeepsUnique(old(answers), id, option);
    }

    /** Whether the submit button is enabled: once every question of the
        chosen quiz has an answer, when its answers are for its own
        questions and its questions' ids differ. */
    predicate SubmitEnabled()
      reads this
      ensures Valid() && selected.Some? && DistinctQuestionIds(selected.value.questions) &&
              AnswersOf(selected.value, answers) ==>
                (SubmitEnabled() <==> AllAnswered(selected.value, answers))
    {
      if selected.Some? && UniqueIds(answers) && DistinctQuestionIds(selected.value.questions) &&
         AnswersOf(selected.value, answers)
      then
        SubmitMeansAllAnswered(selected.value, answers);
        CanSubmit(selected.value, answers)
      else selected.Some? && CanSubmit(selected.value, answers)
    }

    /** submitQuiz: nothing without a quiz or without questions, as the
        guard at its head intends; otherwise count the questions whose
        chosen option is correct, score them out of 10 to one decimal, and
        show the results. */
    method SubmitQuiz()
      requires Valid()
      modifies this
      ensures Valid()
      ensures old(selected).None? || |old(selected).value.questions| == 0 ==> unchanged(this)
      ensures old(selected).Some? && |old(selected).value.questions| > 0 ==>
        var qs := old(selected).value.questions;
        step == Results && selected == old(selected) && answers == old(answers) &&
        score == Some(QuizScore(CountCorrect(qs, answers), |qs|)) &&
        ScoreAsWritten(CountCorrect(qs, answers), |qs|) == Tenths(score.value)
    {
      if selected.None? || |selected.value.questions| == 0 {
        return;
      }
      var qs := selected.value.questions;
      var correct := 0;
      var i := 0;
      while i < |qs|
        invariant 0 <= i <= |qs|
        invariant correct == CountCorrect(qs[..i], answers)
      {
        assert qs[..i + 1][..i] == qs[..i];
        var chosen := FindAnswer(answers, qs[i].id);
        if chosen.Some? {
          var option := answers[chosen.value].selectedOption;
          if option < |qs[i].options| && qs[i].options[option].correct {
            correct := correct + 1;
          }
        }
        i := i + 1;
      }
      assert qs[..i] == qs;
      score := Some(QuizScore(correct, |qs|));
      step := Results;
    }

    /** resetQuiz: back to the list with nothing chosen. */
    method ResetQuiz()
      modifies this
      ensures Valid()
      ensures step == List && selected == None && answers == [] && score == None
    {
      selected := None;
      step := List;
      answers := [];
      score := None;
    }
  }
}
