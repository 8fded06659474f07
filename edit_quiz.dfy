/**
 * The admin quiz editor of `src/pages/admin/EditQuiz.tsx`: a quiz loaded from
 * the store by id, edited field by field, and written back only when it passes
 * the completeness check.
 */
module EditQuiz {
  import opened Seqs
  import opened QuizTypes
  import opened QuizUtils
  import opened LocalStorage
  import opened Routes

  /** The string-valued keys of a quiz that `handleQuizChange` can set. */
  datatype QuizField = IdField | TitleField | DescriptionField | CreatedByField

  /** The string-valued keys of a question that `handleQuestionChange` can set. */
  datatype QuestionField = QuestionIdField | QuestionTextField

  function QuizFieldValue(quiz: Quiz, field: QuizField): string
  {
    match field
    case IdField => quiz.id
    case TitleField => quiz.title
    case DescriptionField => quiz.description
    case CreatedByField => quiz.createdBy
  }

  function QuestionFieldValue(q: Question, field: QuestionField): string
  {
    match field
    case QuestionIdField => q.id
    case QuestionTextField => q.text
  }

  /** `{ ...quiz, [field]: value }`: that key reads back `value`, every other key is kept. */
  function WithQuizField(quiz: Quiz, field: QuizField, value: string): (r: Quiz)
    ensures QuizFieldValue(r, field) == value
    ensures forall f :: f != field ==> QuizFieldValue(r, f) == QuizFieldValue(quiz, f)
    ensures r.questions == quiz.questions && r.createdAt == quiz.createdAt
  {
    match field
    case IdField => quiz.(id := value)
    case TitleField => quiz.(title := value)
    case DescriptionField => quiz.(description := value)
    case CreatedByField => quiz.(createdBy := value)
  }

  /** `{ ...question, [field]: value }`: that key reads back `value`, the other key and the options are kept. */
  function WithQuestionField(q: Question, field: QuestionField, value: string): (r: Question)
    ensures QuestionFieldValue(r, field) == value
    ensures forall f :: f != field ==> QuestionFieldValue(r, f) == QuestionFieldValue(q, f)
    ensures r.options == q.options
  {
    match field
    case QuestionIdField => q.(id := value)
    case QuestionTextField => q.(text := value)
  }

  /**
   * The correct-option edit: every option is first reset to not correct (the
   * `forEach` of `handleCorrectOptionChange`), then option `j` is marked.
   * Afterwards `j` is the one correct option; ids and texts are kept.
   */
  method MarkOnlyCorrect(options: seq<Option>, j: nat) returns (r: seq<Option>)
    requires j < |options|
    ensures |r| == |options|
    ensures UniqueCorrectAt(r, j)
    ensures forall k :: 0 <= k < |r| ==> r[k].id == options[k].id && r[k].text == options[k].text
  {
    r := options;
    var k := 0;
    while k < |r|
      invariant 0 <= k <= |r| == |options|
      invariant forall m :: 0 <= m < |r| ==> r[m].id == options[m].id && r[m].text == options[m].text
      invariant forall m :: 0 <= m < k ==> !r[m].isCorrect
    {
      r := r[k := r[k].(isCorrect := false)];
      k := k + 1;
    }
    r := r[j := r[j].(isCorrect := true)];
  }

  /** `splice(index, 1)` for a non-negative index: removes that element, or nothing when it is past the end. */
  function Splice<T>(s: seq<T>, i: nat): (r: seq<T>)
    ensures i < |s| ==> |r| == |s| - 1
    ensures i < |s| ==> forall k :: 0 <= k < |r| ==> r[k] == if k < i then s[k] else s[k + 1]
    ensures i >= |s| ==> r == s
  {
    if i < |s| then s[..i] + s[i + 1..] else s
  }

  /**
   * Once question `q` has non-blank text and non-blank options, marking any
   * option correct makes it complete: the radio edit is what the validator's
   * "exactly one correct option" rule asks for.
   */
  lemma MarkingCompletesQuestion(q: Question, marked: seq<Option>, j: nat)
    requires !Blank(q.text)
    requires forall k :: 0 <= k < |q.options| ==> !Blank(q.options[k].text)
    requires |marked| == |q.options| && UniqueCorrectAt(marked, j)
    requires forall k :: 0 <= k < |marked| ==> marked[k].text == q.options[k].text
    ensures IsQuestionComplete(q.(options := marked))
  {
    CorrectCountOne(marked);
  }

  /** An added question is blank, so a quiz with it cannot be saved until it is filled in. */
  lemma AddedQuestionBlocksSave(quiz: Quiz, ids: QuestionIds)
    ensures !IsQuizComplete(quiz.(questions := quiz.questions + [CreateEmptyQuestion(ids)]))
  {
    var qs := quiz.questions + [CreateEmptyQuestion(ids)];
    assert !IsQuestionComplete(qs[|qs| - 1]);
  }

  /** What `handleSaveQuiz` did. */
  datatype SaveOutcome =
    | NothingLoaded
    | Incomplete
    | Written(next: Route)

  class QuizEditor {
    /** The quiz being edited; `None` until one is loaded. */
    var quiz: Maybe<Quiz>
    var loading: bool

    constructor ()
      ensures quiz.None? && loading
    {
      quiz := None;
      loading := true;
    }

    /**
     * The load effect: with a route id, the stored quiz is loaded, or, when
     * there is none, nothing is loaded and the editor leaves for the admin
     * dashboard. Loading ends either way.
     */
    method Load(store: Store, quizId: string) returns (redirect: Maybe<Route>)
      modifies this
      ensures !loading
      ensures quizId == "" ==> quiz == old(quiz) && redirect.None?
      ensures quizId != "" && store.GetQuizById(quizId).Some? ==>
        quiz == store.GetQuizById(quizId) && redirect.None?
      ensures quizId != "" && store.GetQuizById(quizId).None? ==>
        quiz == old(quiz) && redirect == Some(AdminDashboard)
    {
      redirect := None;
      if quizId != "" {
        var existingQuiz := store.GetQuizById(quizId);
        if existingQuiz.Some? {
          quiz := existingQuiz;
        } else {
          redirect := Some(AdminDashboard);
        }
      }
      loading := false;
    }

    /** `handleQuizChange`: sets one key of the loaded quiz. */
    method SetQuizField(field: QuizField, value: string)
      modifies this`quiz
      ensures old(quiz).None? ==> quiz.None?
      ensures old(quiz).Some? ==> quiz == Some(WithQuizField(old(quiz).value, field, value))
    {
      if quiz.Some? {
        quiz := Some(WithQuizField(quiz.value, field, value));
      }
    }

    /** `handleQuestionChange`: sets one key of question `i`; every other question is kept. */
    method SetQuestionField(i: nat, field: QuestionField, value: string)
      modifies this`quiz
      requires quiz.Some? ==> i < |quiz.value.questions|
      ensures old(quiz).None? ==> quiz.None?
      ensures old(quiz).Some? ==>
        var before := old(quiz).value;
        quiz == Some(before.(questions := before.questions[i := WithQuestionField(before.questions[i], field, value)]))
    {
      if quiz.Some? {
        var updatedQuestions := quiz.value.questions;
        updatedQuestions := updatedQuestions[i := WithQuestionField(updatedQuestions[i], field, value)];
        quiz := Some(quiz.value.(questions := updatedQuestions));
      }
    }

    /** `handleOptionChange`: sets the text of option `j` of question `i` and nothing else. */
    method SetOptionText(i: nat, j: nat, value: string)
      modifies this`quiz
      requires quiz.Some? ==> i < |quiz.value.questions| && j < |quiz.value.questions[i].options|
      ensures old(quiz).None? ==> quiz.None?
      ensures old(quiz).Some? ==> quiz.Some?
      ensures old(quiz).Some? ==>
        var before, after := old(quiz).value, quiz.value;
        && after == before.(questions := after.questions)
        && |after.questions| == |before.questions|
        && (forall k :: 0 <= k < |before.questions| && k != i ==> after.questions[k] == before.questions[k])
        && after.questions[i] == before.questions[i].(options := after.questions[i].options)
        && |after.questions[i].options| == |before.questions[i].options|
        && (forall k :: 0 <= k < |before.questions[i].options| && k != j ==>
              after.questions[i].options[k] == before.questions[i].options[k])
        && after.questions[i].options[j] == before.questions[i].options[j].(text := value)
    {
      if quiz.Some? {
        var updatedQuestions := quiz.value.questions;
        var q := updatedQuestions[i];
        var opts := q.options[j := q.options[j].(text := value)];
        updatedQuestions := updatedQuestions[i := q.(options := opts)];
        quiz := Some(quiz.value.(questions := updatedQuestions));
      }
    }

    /**
     * `handleCorrectOptionChange`: afterwards option `j` is the only correct
     * option of question `i`; option ids and texts and every other question
     * are kept.
     */
    method SetCorrectOption(i: nat, j: nat)
      modifies this`quiz
      requires quiz.Some? ==> i < |quiz.value.questions| && j < |quiz.value.questions[i].options|
      ensures old(quiz).None? ==> quiz.None?
      ensures old(quiz).Some? ==> quiz.Some?
      ensures old(quiz).Some? ==>
        var before, after := old(quiz).value, quiz.value;
        && after == before.(questions := after.questions)
        && |after.questions| == |before.questions|
        && (forall k :: 0 <= k < |before.questions| && k != i ==> after.questions[k] == before.questions[k])
        && after.questions[i] == before.questions[i].(options := after.questions[i].options)
        && UniqueCorrectAt(after.questions[i].options, j)
        && |after.questions[i].options| == |before.questions[i].options|
        && (forall k :: 0 <= k < |before.questions[i].options| ==>
              after.questions[i].options[k].id == before.questions[i].options[k].id
              && after.questions[i].options[k].text == before.questions[i].options[k].text)
    {
      if quiz.Some? {
        var updatedQuestions := quiz.value.questions;
        var q := updatedQuestions[i];
        var opts := MarkOnlyCorrect(q.options, j);
        updatedQuestions := updatedQuestions[i := q.(options := opts)];
        quiz := Some(quiz.value.(questions := updatedQuestions));
      }
    }

    /** `addQuestion`: appends one blank question (fresh ids supplied by the caller). */
    method AddQuestion(ids: QuestionIds)
      modifies this`quiz
      ensures old(quiz).None? ==> quiz.None?
      ensures old(quiz).Some? ==>
        quiz == Some(old(quiz).value.(questions := old(quiz).value.questions + [CreateEmptyQuestion(ids)]))
    {
      if quiz.Some? {
        quiz := Some(quiz.value.(questions := quiz.value.questions + [CreateEmptyQuestion(ids)]));
      }
    }

    /**
     * `removeQuestion`: splices question `i` out, but only while the quiz has
     * more than one question, so the editor never empties a quiz.
     */
    method RemoveQuestion(i: nat)
      modifies this`quiz
      ensures old(quiz).None? ==> quiz.None?
      ensures old(quiz).Some? && |old(quiz).value.questions| > 1 ==>
        quiz == Some(old(quiz).value.(questions := Splice(old(quiz).value.questions, i)))
      ensures old(quiz).Some? && |old(quiz).value.questions| <= 1 ==> quiz == old(quiz)
      ensures old(quiz).Some? && |old(quiz).value.questions| >= 1 ==> |quiz.value.questions| >= 1
    {
      if quiz.Some? && |quiz.value.questions| > 1 {
        quiz := Some(quiz.value.(questions := Splice(quiz.value.questions, i)));
      }
    }

    /**
     * `handleSaveQuiz`: the store is written only with a loaded, complete
     * quiz, which then is what the store holds under its id; the editor
     * returns to the admin dashboard. Otherwise the store is untouched.
     */
    method Save(store: Store) returns (outcome: SaveOutcome)
      modifies store`quizzes
      ensures quiz.None? ==> outcome == NothingLoaded
      ensures quiz.Some? && !IsQuizComplete(quiz.value) ==> outcome == Incomplete
      ensures quiz.Some? && IsQuizComplete(quiz.value) ==> outcome == Written(AdminDashboard)
      ensures outcome.Written? ==>
        store.quizzes == Upsert(old(store.quizzes), QuizHasId(quiz.value.id), quiz.value)
        && store.GetQuizById(quiz.value.id) == quiz
      ensures !outcome.Written? ==> store.quizzes == old(store.quizzes)
    {
      if quiz.None? {
        return NothingLoaded;
      }
      if !IsQuizComplete(quiz.value) {
        return Incomplete;
      }
      var _ := store.SaveQuiz(quiz.value);
      outcome := Written(AdminDashboard);
    }
  }
}
