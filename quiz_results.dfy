/**
 * The result page of `src/pages/student/QuizResults.tsx`: it loads a stored
 * result and its quiz, and shows one detail row per recorded answer, looking
 * the question and option texts up in the quiz.
 */
module ResultsPage {
  import opened Seqs
  import opened QuizTypes
  import opened QuizUtils
  import opened LocalStorage
  import opened Routes
  import opened TakeQuiz

  /** What `getQuestionAndOption` returns. */
  datatype Lookup = Lookup(questionText: string, optionText: string, isCorrect: bool)

  /**
   * `getQuestionAndOption`: empty texts and false without a quiz or with an
   * unknown question; the question text alone when the option is unknown;
   * both texts and the option's flag when both are found (first matches).
   */
  function GetQuestionAndOption(quiz: Maybe<Quiz>, questionId: string, optionId: string): (r: Lookup)
    ensures quiz.None? ==> r == Lookup("", "", false)
    ensures quiz.Some? && Find(quiz.value.questions, QuestionHasId(questionId)).None? ==> r == Lookup("", "", false)
    ensures quiz.Some? && Find(quiz.value.questions, QuestionHasId(questionId)).Some? ==>
      var q := Find(quiz.value.questions, QuestionHasId(questionId)).value;
      && r.questionText == q.text
      && (Find(q.options, OptionHasId(optionId)).None? ==> r.optionText == "" && !r.isCorrect)
      && (Find(q.options, OptionHasId(optionId)).Some? ==>
            var o := Find(q.options, OptionHasId(optionId)).value;
            r.optionText == o.text && r.isCorrect == o.isCorrect)
  {
    if quiz.None? then Lookup("", "", false)
    else
      var question := Find(quiz.value.questions, QuestionHasId(questionId));
      if question.None? then Lookup("", "", false)
      else
        var option := Find(question.value.options, OptionHasId(optionId));
        if option.None? then Lookup(question.value.text, "", false)
        else Lookup(question.value.text, option.value.text, option.value.isCorrect)
  }

  /**
   * `getCorrectOptionText`: the text of the first option marked correct of
   * the question, or "" without a quiz, an unknown question or no correct option.
   */
  function GetCorrectOptionText(quiz: Maybe<Quiz>, questionId: string): (r: string)
    ensures quiz.None? || Find(quiz.value.questions, QuestionHasId(questionId)).None? ==> r == ""
    ensures quiz.Some? && Find(quiz.value.questions, QuestionHasId(questionId)).Some? ==>
      var c := Find(Find(quiz.value.questions, QuestionHasId(questionId)).value.options, IsMarkedCorrect);
      r == if c.Some? then c.value.text else ""
    ensures r != "" ==> exists q, o :: q in quiz.value.questions && q.id == questionId && o in q.options && o.isCorrect && o.text == r
  {
    if quiz.None? then ""
    else
      var question := Find(quiz.value.questions, QuestionHasId(questionId));
      if question.None? then ""
      else
        var correctOption := Find(question.value.options, IsMarkedCorrect);
        if correctOption.Some? then correctOption.value.text else ""
  }

  /** For a question whose options pass the validator, the correct answer shown is its one correct option. */
  lemma CorrectTextOfCompleteQuestion(quiz: Quiz, k: nat, j: nat)
    requires k < |quiz.questions|
    requires forall m :: 0 <= m < k ==> quiz.questions[m].id != quiz.questions[k].id
    requires UniqueCorrectAt(quiz.questions[k].options, j)
    ensures GetCorrectOptionText(Some(quiz), quiz.questions[k].id) == quiz.questions[k].options[j].text
  {
    var q := quiz.questions[k];
    assert FindIndex(quiz.questions, QuestionHasId(q.id)) == Some(k);
    assert IsMarkedCorrect(q.options[j]);
    var found := FindIndex(q.options, IsMarkedCorrect);
    assert found.Some?;
    assert IsMarkedCorrect(q.options[found.value]);
    assert found.value == j;
  }

  /** One entry of the detailed results list. */
  datatype DetailRow = DetailRow(
    number: nat,
    questionText: string,
    answerText: string,
    markedCorrect: bool,
    correctAnswer: Maybe<string>)

  /**
   * The detailed list: one row per stored answer, in stored order, numbered
   * from 1. The badge is the stored `isCorrect`, and the correct answer is
   * shown exactly when that flag is false.
   */
  function DetailRows(result: QuizResult, quiz: Maybe<Quiz>): (rows: seq<DetailRow>)
    ensures |rows| == |result.answers|
    ensures forall k :: 0 <= k < |rows| ==>
      var a := result.answers[k];
      && rows[k].number == k + 1
      && rows[k].markedCorrect == a.isCorrect
      && rows[k].questionText == GetQuestionAndOption(quiz, a.questionId, a.selectedOptionId).questionText
      && rows[k].answerText == GetQuestionAndOption(quiz, a.questionId, a.selectedOptionId).optionText
      && (rows[k].correctAnswer.Some? <==> !a.isCorrect)
      && (!a.isCorrect ==> rows[k].correctAnswer.value == GetCorrectOptionText(quiz, a.questionId))
  {
    seq(|result.answers|, k requires 0 <= k < |result.answers| =>
      var a := result.answers[k];
      var lookup := GetQuestionAndOption(quiz, a.questionId, a.selectedOptionId);
      DetailRow(k + 1, lookup.questionText, lookup.optionText, a.isCorrect,
        if a.isCorrect then None else Some(GetCorrectOptionText(quiz, a.questionId)))
    )
  }

  /**
   * On a result written by the quiz page for the same quiz, the stored flag
   * of every answer is the flag the page looks up again: the badge and the
   * lookup never disagree while the quiz is unchanged.
   */
  lemma StoredFlagsMatchLookup(quiz: Quiz, user: User, selected: seq<Selection>, id: string, timeSpent: int, now: int)
    ensures var r := ResultFor(quiz, user, selected, id, timeSpent, now);
      forall k :: 0 <= k < |r.answers| ==>
        r.answers[k].isCorrect == GetQuestionAndOption(Some(quiz), r.answers[k].questionId, r.answers[k].selectedOptionId).isCorrect
  {
  }

  /** What the page renders once loading is over. */
  datatype View = NotFound | Details(result: QuizResult, quiz: Quiz)

  /** The page state after the load effect. */
  datatype Loaded = Loaded(result: Maybe<QuizResult>, quiz: Maybe<Quiz>, redirect: Maybe<Route>)

  /**
   * The load effect: an unknown result id leads back to the student
   * dashboard; a found result whose quiz is gone stays loaded without a quiz.
   */
  function Load(store: Store, resultId: string): (p: Loaded)
    reads store
    ensures resultId == "" ==> p == Loaded(None, None, None)
    ensures resultId != "" && store.GetQuizResultById(resultId).None? ==> p == Loaded(None, None, Some(StudentDashboard))
    ensures resultId != "" && store.GetQuizResultById(resultId).Some? ==>
      && p.result == store.GetQuizResultById(resultId)
      && p.quiz == store.GetQuizById(p.result.value.quizId)
      && p.redirect.None?
  {
    if resultId == "" then Loaded(None, None, None)
    else
      var resultData := store.GetQuizResultById(resultId);
      if resultData.None? then Loaded(None, None, Some(StudentDashboard))
      else Loaded(resultData, store.GetQuizById(resultData.value.quizId), None)
  }

  /** "Result not found" unless both the result and its quiz were loaded. */
  function Render(p: Loaded): (v: View)
    ensures v.Details? <==> p.result.Some? && p.quiz.Some?
    ensures v.Details? ==> v.result == p.result.value && v.quiz == p.quiz.value
  {
    if p.result.Some? && p.quiz.Some? then Details(p.result.value, p.quiz.value) else NotFound
  }

  /** A stored result whose quiz has been deleted renders as not found, without a redirect. */
  lemma OrphanedResultNotFound(store: Store, resultId: string)
    requires resultId != ""
    requires store.GetQuizResultById(resultId).Some?
    requires store.GetQuizById(store.GetQuizResultById(resultId).value.quizId).None?
    ensures Render(Load(store, resultId)) == NotFound
    ensures Load(store, resultId).redirect.None?
  {
  }
}
