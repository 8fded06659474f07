/**
 * The quiz-taking page of `src/pages/student/TakeQuiz.tsx`: a cursor over the
 * questions, the selected option per question, a seconds counter, and the
 * finish step that grades the selections and writes one result to the store.
 */
module TakeQuiz {
  import opened Seqs
  import opened QuizTypes
  import opened QuizUtils
  import opened LocalStorage
  import opened Routes

  // ------------------------------------------------------------ selections

  /**
   * The `selectedOptions` record is kept as its entries in insertion order
   * (the order `Object.entries` reports for non-numeric keys).
   */
  function SelectionFor(questionId: string): Selection -> bool
  {
    (s: Selection) => s.questionId == questionId
  }

  /** `selectedOptions[questionId]`: the option chosen for that question, if any. */
  function SelectedFor(selected: seq<Selection>, questionId: string): (r: Maybe<string>)
    ensures r.None? <==> forall k :: 0 <= k < |selected| ==> selected[k].questionId != questionId
    ensures r.Some? ==> Selection(questionId, r.value) in selected
  {
    match Find(selected, SelectionFor(questionId))
    case None => None
    case Some(s) => Some(s.selectedOptionId)
  }

  /** The guard of `handleNext`: a selection exists and is not the empty (falsy) string. */
  predicate HasSelection(selected: seq<Selection>, questionId: string)
  {
    SelectedFor(selected, questionId).Some? && SelectedFor(selected, questionId).value != ""
  }

  /** `{ ...selectedOptions, [questionId]: optionId }`: overwrite that key in place, or add it at the end. */
  function Select(selected: seq<Selection>, questionId: string, optionId: string): seq<Selection>
  {
    Upsert(selected, SelectionFor(questionId), Selection(questionId, optionId))
  }

  /** After selecting, the question reads back the new option. */
  lemma SelectThenRead(selected: seq<Selection>, questionId: string, optionId: string)
    ensures SelectedFor(Select(selected, questionId, optionId), questionId) == Some(optionId)
  {
    UpsertThenFind(selected, SelectionFor(questionId), Selection(questionId, optionId));
  }

  /** Selecting for one question leaves the selection of every other question as it was. */
  lemma SelectKeepsOtherQuestions(selected: seq<Selection>, questionId: string, optionId: string, other: string)
    requires other != questionId
    ensures SelectedFor(Select(selected, questionId, optionId), other) == SelectedFor(selected, other)
  {
    var r := Select(selected, questionId, optionId);
    var p := SelectionFor(other);
    assert forall k :: 0 <= k < |selected| ==> p(r[k]) == p(selected[k]) by {
      forall k | 0 <= k < |selected|
        ensures p(r[k]) == p(selected[k])
      {
        if r[k] != selected[k] {
          assert SelectionFor(questionId)(selected[k]);
        }
      }
    }
    if |r| == |selected| + 1 {
      assert r == selected + [Selection(questionId, optionId)];
    }
    FindIndexAgree(selected, r, p);
    match FindIndex(selected, p)
    case None =>
    case Some(i) =>
      assert r[i] == selected[i];
  }

  /** Selecting never makes two entries for the same question. */
  lemma SelectKeepsKeysDistinct(selected: seq<Selection>, questionId: string, optionId: string)
    requires DistinctQuestions(selected)
    ensures DistinctQuestions(Select(selected, questionId, optionId))
  {
    var r := Select(selected, questionId, optionId);
    if |r| == |selected| {
      forall k | 0 <= k < |r|
        ensures r[k].questionId == selected[k].questionId
      {
        if r[k] != selected[k] {
          assert SelectionFor(questionId)(selected[k]);
        }
      }
    } else {
      assert r == selected + [Selection(questionId, optionId)];
    }
  }

  // --------------------------------------------------------------- answers

  function AnswerIsCorrect(a: Answer): bool { a.isCorrect }

  /**
   * One entry of the `answers` map in `finishQuiz`: the ids are copied and
   * `isCorrect` is the flag of the option found by id in the question found
   * by id, or false when either is missing. It agrees with `calculateScore`.
   */
  function ToAnswer(quiz: Quiz, s: Selection): (a: Answer)
    ensures a.questionId == s.questionId && a.selectedOptionId == s.selectedOptionId
    ensures a.isCorrect <==> Earns(quiz, s)
  {
    var question := Find(quiz.questions, QuestionHasId(s.questionId));
    var option := if question.Some? then Find(question.value.options, OptionHasId(s.selectedOptionId)) else None;
    Answer(s.questionId, s.selectedOptionId, option.Some? && option.value.isCorrect)
  }

  /** `Object.entries(selectedOptions).map(...)`: one answer per selected question, in entry order. */
  function BuildAnswers(selected: seq<Selection>, quiz: Quiz): (r: seq<Answer>)
    ensures |r| == |selected|
    ensures forall k :: 0 <= k < |r| ==> r[k] == ToAnswer(quiz, selected[k])
  {
    if selected == [] then [] else [ToAnswer(quiz, selected[0])] + BuildAnswers(selected[1..], quiz)
  }

  /** `answers.map(a => ({ questionId, selectedOptionId }))`: what is handed to `calculateScore`. */
  function AsSelections(answers: seq<Answer>): (r: seq<Selection>)
    ensures |r| == |answers|
    ensures forall k :: 0 <= k < |r| ==> r[k].questionId == answers[k].questionId
    ensures forall k :: 0 <= k < |r| ==> r[k].selectedOptionId == answers[k].selectedOptionId
  {
    if answers == [] then [] else [Selection(answers[0].questionId, answers[0].selectedOptionId)] + AsSelections(answers[1..])
  }

  /** Projecting the built answers back gives exactly the selections. */
  lemma {:induction false} AnswersRoundTrip(selected: seq<Selection>, quiz: Quiz)
    ensures AsSelections(BuildAnswers(selected, quiz)) == selected
  {
    if selected != [] {
      AnswersRoundTrip(selected[1..], quiz);
    }
  }

  lemma {:induction false} FlagCountMatchesEarnings(selected: seq<Selection>, quiz: Quiz)
    ensures |Filter(BuildAnswers(selected, quiz), AnswerIsCorrect)| == |Filter(selected, EarnsIn(quiz))|
  {
    if selected != [] {
      FlagCountMatchesEarnings(selected[1..], quiz);
    }
  }

  /** The computed score is the number of answers recorded as correct. */
  lemma ScoreMatchesAnswerFlags(selected: seq<Selection>, quiz: Quiz)
    ensures Score(AsSelections(BuildAnswers(selected, quiz)), quiz) == |Filter(BuildAnswers(selected, quiz), AnswerIsCorrect)|
  {
    AnswersRoundTrip(selected, quiz);
    ScoreIsEarningCount(selected, quiz);
    FlagCountMatchesEarnings(selected, quiz);
  }

  /**
   * The result record of `finishQuiz`. Its score counts the answers recorded
   * as correct, `totalQuestions` is the quiz's question count, and with one
   * selection per question the score never exceeds it.
   */
  function ResultFor(quiz: Quiz, user: User, selected: seq<Selection>, id: string, timeSpent: int, completedAt: int): (r: QuizResult)
    ensures r.id == id && r.quizId == quiz.id && r.userId == user.id
    ensures r.timeSpent == timeSpent && r.completedAt == completedAt
    ensures r.answers == BuildAnswers(selected, quiz)
    ensures r.totalQuestions == |quiz.questions|
    ensures r.score == |Filter(r.answers, AnswerIsCorrect)|
    ensures DistinctQuestions(selected) ==> 0 <= r.score <= r.totalQuestions
  {
    var answers := BuildAnswers(selected, quiz);
    ScoreMatchesAnswerFlags(selected, quiz);
    AnswersRoundTrip(selected, quiz);
    ScoreAtMostQuestions(selected, quiz);
    QuizResult(id, quiz.id, user.id, Score(AsSelections(answers), quiz), |quiz.questions|, timeSpent, completedAt, answers)
  }

  // --------------------------------------------------------------- session

  /** Every question before position `n` of the quiz has a recorded selection. */
  predicate AnsweredUpTo(quiz: Quiz, selected: seq<Selection>, n: nat)
  {
    forall m :: 0 <= m < n && m < |quiz.questions| ==> SelectedFor(selected, quiz.questions[m].id).Some?
  }

  /** Answering the question at the cursor extends the answered prefix by one. */
  lemma AnsweredUpToNext(quiz: Quiz, selected: seq<Selection>, n: nat)
    requires AnsweredUpTo(quiz, selected, n)
    requires n < |quiz.questions| && SelectedFor(selected, quiz.questions[n].id).Some?
    ensures AnsweredUpTo(quiz, selected, n + 1)
  {
  }

  /** Some answer in `answers` is for the question with that id. */
  predicate Answered(answers: seq<Answer>, questionId: string)
  {
    exists k :: 0 <= k < |answers| && answers[k].questionId == questionId
  }

  /** A question with a recorded selection has an answer among the built answers. */
  lemma SelectionAnswered(selected: seq<Selection>, quiz: Quiz, questionId: string)
    requires SelectedFor(selected, questionId).Some?
    ensures Answered(BuildAnswers(selected, quiz), questionId)
  {
    var k :| 0 <= k < |selected| && selected[k] == Selection(questionId, SelectedFor(selected, questionId).value);
    assert BuildAnswers(selected, quiz)[k].questionId == questionId;
  }

  /** Once every question has a selection, the built answers cover every question of the quiz. */
  lemma AllQuestionsAnswered(selected: seq<Selection>, quiz: Quiz)
    requires AnsweredUpTo(quiz, selected, |quiz.questions|)
    ensures forall m :: 0 <= m < |quiz.questions| ==> Answered(BuildAnswers(selected, quiz), quiz.questions[m].id)
  {
    forall m | 0 <= m < |quiz.questions|
      ensures Answered(BuildAnswers(selected, quiz), quiz.questions[m].id)
    {
      SelectionAnswered(selected, quiz, quiz.questions[m].id);
    }
  }

  class QuizSession {
    var quiz: Maybe<Quiz>
    /** Index of the question on screen. */
    var currentQuestion: nat
    var selected: seq<Selection>
    /** Seconds counted by the page timer. */
    var timeSpent: nat
    var isFinished: bool
    var result: Maybe<QuizResult>
    var loading: bool

    /**
     * The cursor stays on a question of the quiz (or at 0), every question
     * before the cursor has a selection (the page only moves on from an
     * answered question), there is at most one selection per question, and a
     * result exists exactly once finished.
     */
    predicate Valid()
      reads this
    {
      Progress() && (isFinished <==> result.Some?)
    }

    /** The part of `Valid` about the cursor and the selections. */
    predicate Progress()
      reads this`quiz, this`currentQuestion, this`selected
    {
      && (currentQuestion == 0 || (quiz.Some? && currentQuestion < |quiz.value.questions|))
      && (quiz.Some? ==> AnsweredUpTo(quiz.value, selected, currentQuestion))
      && DistinctQuestions(selected)
    }

    /** The initial state of the page. */
    constructor ()
      ensures Valid()
      ensures quiz.None? && currentQuestion == 0 && selected == [] && timeSpent == 0
      ensures !isFinished && result.None? && loading
    {
      quiz := None;
      currentQuestion := 0;
      selected := [];
      timeSpent := 0;
      isFinished := false;
      result := None;
      loading := true;
    }

    /**
     * The load effect on mount: the stored quiz is loaded and loading ends, or
     * the page leaves for the student dashboard (and stays loading).
     */
    method Load(store: Store, quizId: string) returns (redirect: Maybe<Route>)
      requires Valid() && quiz.None?
      modifies this`quiz, this`loading
      ensures Valid()
      ensures quizId == "" ==> quiz.None? && loading == old(loading) && redirect.None?
      ensures quizId != "" && store.GetQuizById(quizId).Some? ==>
        quiz == store.GetQuizById(quizId) && !loading && redirect.None?
      ensures quizId != "" && store.GetQuizById(quizId).None? ==>
        quiz.None? && loading == old(loading) && redirect == Some(StudentDashboard)
    {
      redirect := None;
      if quizId != "" {
        var quizData := store.GetQuizById(quizId);
        if quizData.Some? {
          quiz := quizData;
          loading := false;
        } else {
          redirect := Some(StudentDashboard);
        }
      }
    }

    /** One timer tick: a second is counted while a quiz is loaded and not finished. */
    method Tick()
      requires Valid()
      modifies this`timeSpent
      ensures Valid()
      ensures quiz.Some? && !isFinished ==> timeSpent == old(timeSpent) + 1
      ensures quiz.None? || isFinished ==> timeSpent == old(timeSpent)
    {
      if quiz.Some? && !isFinished {
        timeSpent := timeSpent + 1;
      }
    }

    /** `handleOptionSelect`: records the option for that question, keeping every other entry. */
    method OptionSelect(questionId: string, optionId: string)
      requires Valid()
      modifies this`selected
      ensures Valid()
      ensures selected == Select(old(selected), questionId, optionId)
      ensures SelectedFor(selected, questionId) == Some(optionId)
      ensures forall other :: other != questionId ==> SelectedFor(selected, other) == SelectedFor(old(selected), other)
    {
      SelectKeepsKeysDistinct(selected, questionId, optionId);
      SelectThenRead(selected, questionId, optionId);
      forall other | other != questionId
        ensures SelectedFor(Select(old(selected), questionId, optionId), other) == SelectedFor(old(selected), other)
      {
        SelectKeepsOtherQuestions(old(selected), questionId, optionId, other);
      }
      selected := Select(selected, questionId, optionId);
    }

    /** `handlePrevious`: steps back unless on the first question. */
    method Previous()
      requires Valid()
      modifies this`currentQuestion
      ensures Valid()
      ensures old(currentQuestion) > 0 ==> currentQuestion == old(currentQuestion) - 1
      ensures old(currentQuestion) == 0 ==> currentQuestion == 0
    {
      if currentQuestion > 0 {
        currentQuestion := currentQuestion - 1;
      }
    }

    /**
     * `finishQuiz`: without a quiz or a user nothing happens; otherwise the
     * graded result is upserted into the store by its (fresh) id, appended
     * when the id is new, kept as the page's result, and the page is finished.
     */
    method Finish(store: Store, user: Maybe<User>, resultId: string, now: int)
      requires Valid()
      modifies this`result, this`isFinished, store`results
      ensures Valid()
      ensures quiz.None? || user.None? ==>
        result == old(result) && isFinished == old(isFinished) && store.results == old(store.results)
      ensures quiz.Some? && user.Some? ==>
        var r := ResultFor(quiz.value, user.value, selected, resultId, timeSpent, now);
        && result == Some(r) && isFinished
        && store.results == Upsert(old(store.results), ResultHasId(resultId), r)
        && Find(store.results, ResultHasId(resultId)) == Some(r)
        && (Find(old(store.results), ResultHasId(resultId)).None? ==> store.results == old(store.results) + [r])
    {
      if quiz.None? || user.None? {
        return;
      }
      var answers := BuildAnswers(selected, quiz.value);
      var score := CalculateScore(AsSelections(answers), quiz.value);
      var quizResult := QuizResult(resultId, quiz.value.id, user.value.id, score,
        |quiz.value.questions|, timeSpent, now, answers);
      assert quizResult == ResultFor(quiz.value, user.value, selected, resultId, timeSpent, now);
      var _ := store.SaveQuizResult(quizResult);
      result := Some(quizResult);
      isFinished := true;
    }

    /**
     * `handleNext`: without a quiz, or without a selection for the question on
     * screen, nothing changes. Otherwise the cursor advances, or on the last
     * question the quiz is finished.
     */
    method Next(store: Store, user: Maybe<User>, resultId: string, now: int)
      requires Valid()
      requires quiz.Some? ==> |quiz.value.questions| > 0
      modifies this`currentQuestion, this`result, this`isFinished, store`results
      ensures Valid()
      ensures quiz.None? || !HasSelection(selected, quiz.value.questions[old(currentQuestion)].id) ==>
        currentQuestion == old(currentQuestion) && result == old(result)
        && isFinished == old(isFinished) && store.results == old(store.results)
      ensures (quiz.Some? && HasSelection(selected, quiz.value.questions[old(currentQuestion)].id)
               && old(currentQuestion) < |quiz.value.questions| - 1) ==>
        currentQuestion == old(currentQuestion) + 1 && result == old(result)
        && isFinished == old(isFinished) && store.results == old(store.results)
      ensures (quiz.Some? && HasSelection(selected, quiz.value.questions[old(currentQuestion)].id)
               && old(currentQuestion) == |quiz.value.questions| - 1) ==>
        currentQuestion == old(currentQuestion)
        && (user.None? ==>
          result == old(result) && isFinished == old(isFinished) && store.results == old(store.results))
        && (user.Some? ==>
          var r := ResultFor(quiz.value, user.value, selected, resultId, timeSpent, now);
          result == Some(r) && isFinished
          && store.results == Upsert(old(store.results), ResultHasId(resultId), r)
          && forall m :: 0 <= m < |quiz.value.questions| ==> Answered(r.answers, quiz.value.questions[m].id))
    {
      if quiz.None? {
        return;
      }
      var currentQuestionId := quiz.value.questions[currentQuestion].id;
      if !HasSelection(selected, currentQuestionId) {
        return;
      }
      AnsweredUpToNext(quiz.value, selected, currentQuestion);
      if currentQuestion < |quiz.value.questions| - 1 {
        currentQuestion := currentQuestion + 1;
      } else {
        AllQuestionsAnswered(selected, quiz.value);
        Finish(store, user, resultId, now);
      }
    }

    /** `handleRetakeQuiz`: back to the first question with nothing selected, no time and no result. */
    method Retake()
      requires Valid()
      modifies this`currentQuestion, this`selected, this`timeSpent, this`isFinished, this`result
      ensures Valid()
      ensures currentQuestion == 0 && selected == [] && timeSpent == 0
      ensures !isFinished && result.None?
    {
      currentQuestion := 0;
      selected := [];
      timeSpent := 0;
      isFinished := false;
      result := None;
    }
  }
}
