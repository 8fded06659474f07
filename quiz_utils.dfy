/**
 * The scorer, the authoring validator, the time formatter and the blank
 * templates of `src/utils/quizUtils.ts`.
 */
module QuizUtils {
  import opened Seqs
  import opened QuizTypes

  /** Fresh ids for a blank question and its four options (the `uuidv4()` calls). */
  datatype QuestionIds = QuestionIds(question: string, first: string, second: string, third: string, fourth: string)

  /** A blank question: empty text and four empty options, none marked correct. */
  function CreateEmptyQuestion(ids: QuestionIds): (q: Question)
    ensures q.id == ids.question && q.text == "" && |q.options| == 4
    ensures forall k :: 0 <= k < |q.options| ==> q.options[k].text == "" && !q.options[k].isCorrect
    ensures CorrectCount(q.options) == 0
    ensures !IsQuestionComplete(q)
  {
    var q := Question(ids.question, "", [
      Option(ids.first, "", false), Option(ids.second, "", false),
      Option(ids.third, "", false), Option(ids.fourth, "", false)]);
    NoneCorrect(q.options);
    q
  }

  /** A blank quiz owned by `userId`, holding one blank question. */
  function CreateEmptyQuiz(id: string, questionIds: QuestionIds, userId: string, createdAt: int): (q: Quiz)
    ensures q.id == id && q.title == "" && q.description == ""
    ensures q.createdBy == userId && q.createdAt == createdAt
    ensures |q.questions| == 1 && q.questions[0] == CreateEmptyQuestion(questionIds)
    ensures !IsQuizComplete(q)
  {
    Quiz(id, "", "", [CreateEmptyQuestion(questionIds)], userId, createdAt)
  }

  // ---------------------------------------------------------------- grading

  /** The part of an answer that `calculateScore` looks at. */
  datatype Selection = Selection(questionId: string, selectedOptionId: string)

  /**
   * An answer earns a point when its question id resolves to a question of
   * the quiz (first match), its option id resolves to an option of that
   * question (first match), and that option is marked correct.
   */
  predicate Earns(quiz: Quiz, a: Selection)
  {
    match Find(quiz.questions, QuestionHasId(a.questionId))
    case None => false
    case Some(q) =>
      match Find(q.options, OptionHasId(a.selectedOptionId))
      case None => false
      case Some(o) => o.isCorrect
  }

  function EarnsIn(quiz: Quiz): Selection -> bool { (a: Selection) => Earns(quiz, a) }

  /** The number of answers that earn a point, counted over the answers in order. */
  function Score(answers: seq<Selection>, quiz: Quiz): (r: nat)
    ensures r <= |answers|
  {
    if answers == [] then 0
    else Score(answers[..|answers| - 1], quiz) + (if Earns(quiz, answers[|answers| - 1]) then 1 else 0)
  }

  /** `calculateScore`: the accumulator loop over the answers. */
  method CalculateScore(answers: seq<Selection>, quiz: Quiz) returns (score: nat)
    ensures score == Score(answers, quiz)
    ensures score <= |answers|
  {
    score := 0;
    var i := 0;
    while i < |answers|
      invariant 0 <= i <= |answers|
      invariant score == Score(answers[..i], quiz)
    {
      var answer := answers[i];
      var question := Find(quiz.questions, QuestionHasId(answer.questionId));
      if question.Some? {
        var selectedOption := Find(question.value.options, OptionHasId(answer.selectedOptionId));
        if selectedOption.Some? && selectedOption.value.isCorrect {
          score := score + 1;
        }
      }
      assert answers[..i + 1][..i] == answers[..i];
      i := i + 1;
    }
    assert answers[..|answers|] == answers;
  }

  /** The score is the number of earning answers: the filter view of the same count. */
  lemma {:induction false} ScoreIsEarningCount(answers: seq<Selection>, quiz: Quiz)
    ensures Score(answers, quiz) == |Filter(answers, EarnsIn(quiz))|
  {
    if answers != [] {
      var n := |answers| - 1;
      ScoreIsEarningCount(answers[..n], quiz);
      assert answers == answers[..n] + [answers[n]];
      FilterAppend(answers[..n], [answers[n]], EarnsIn(quiz));
    }
  }

  /**
   * An answer whose question id resolves to no question, or whose option id
   * resolves to no option of the first question with that id, adds 0 and
   * raises nothing.
   */
  lemma UnmatchedAnswerAddsNothing(answers: seq<Selection>, a: Selection, quiz: Quiz)
    requires || Find(quiz.questions, QuestionHasId(a.questionId)).None?
             || Find(Find(quiz.questions, QuestionHasId(a.questionId)).value.options, OptionHasId(a.selectedOptionId)).None?
    ensures Score(answers + [a], quiz) == Score(answers, quiz)
  {
    assert (answers + [a])[..|answers|] == answers;
    assert !Earns(quiz, a);
  }

  /** The question ids of the earning answers. */
  function EarnedIds(answers: seq<Selection>, quiz: Quiz): set<string>
  {
    if answers == [] then {}
    else
      var n := |answers| - 1;
      EarnedIds(answers[..n], quiz) + (if Earns(quiz, answers[n]) then {answers[n].questionId} else {})
  }

  function IdsOf(qs: seq<Question>): set<string>
  {
    if qs == [] then {} else {qs[0].id} + IdsOf(qs[1..])
  }

  lemma {:induction false} IdsOfBound(qs: seq<Question>)
    ensures |IdsOf(qs)| <= |qs|
    ensures forall k :: 0 <= k < |qs| ==> qs[k].id in IdsOf(qs)
  {
    if qs != [] {
      IdsOfBound(qs[1..]);
      assert forall k :: 1 <= k < |qs| ==> qs[k] == qs[1..][k - 1];
    }
  }

  lemma {:induction false} SubsetSize(a: set<string>, b: set<string>)
    requires a <= b
    ensures |a| <= |b|
  {
    if a != {} {
      var x :| x in a;
      SubsetSize(a - {x}, b - {x});
    }
  }

  /** No two answers name the same question (the keys of the selection map). */
  predicate DistinctQuestions(answers: seq<Selection>)
  {
    forall i, j :: 0 <= i < j < |answers| ==> answers[i].questionId != answers[j].questionId
  }

  lemma {:induction false} EarnedIdsCount(answers: seq<Selection>, quiz: Quiz)
    requires DistinctQuestions(answers)
    ensures |EarnedIds(answers, quiz)| == Score(answers, quiz)
  {
    if answers != [] {
      var n := |answers| - 1;
      var prefix, last := answers[..n], answers[n];
      LastIsNew(answers, quiz);
      EarnedIdsCount(prefix, quiz);
      var earned := EarnedIds(prefix, quiz);
      if Earns(quiz, last) {
        assert EarnedIds(answers, quiz) == earned + {last.questionId};
      } else {
        assert EarnedIds(answers, quiz) == earned;
      }
    }
  }

  /** The last answer's question is not among the earlier earned ones, and the prefix stays distinct. */
  lemma LastIsNew(answers: seq<Selection>, quiz: Quiz)
    requires DistinctQuestions(answers) && answers != []
    ensures DistinctQuestions(answers[..|answers| - 1])
    ensures answers[|answers| - 1].questionId !in EarnedIds(answers[..|answers| - 1], quiz)
  {
    var n := |answers| - 1;
    var prefix := answers[..n];
    forall i, j | 0 <= i < j < |prefix| ensures prefix[i].questionId != prefix[j].questionId {
      assert prefix[i] == answers[i] && prefix[j] == answers[j];
    }
    EarnedIdsMembers(prefix, quiz);
    forall k | 0 <= k < |prefix| ensures prefix[k].questionId != answers[n].questionId {
      assert prefix[k] == answers[k];
    }
  }

  lemma {:induction false} EarnedIdsResolve(answers: seq<Selection>, quiz: Quiz)
    ensures EarnedIds(answers, quiz) <= IdsOf(quiz.questions)
  {
    if answers != [] {
      var n := |answers| - 1;
      EarnedIdsResolve(answers[..n], quiz);
      var last := answers[n];
      if Earns(quiz, last) {
        var q := Find(quiz.questions, QuestionHasId(last.questionId));
        IdsOfBound(quiz.questions);
        var i :| 0 <= i < |quiz.questions| && quiz.questions[i] == q.value && QuestionHasId(last.questionId)(quiz.questions[i]);
        assert last.questionId in IdsOf(quiz.questions);
      }
    }
  }

  lemma {:induction false} EarnedIdsMembers(answers: seq<Selection>, quiz: Quiz)
    ensures forall id :: id in EarnedIds(answers, quiz) ==> exists k :: 0 <= k < |answers| && answers[k].questionId == id
  {
    if answers != [] {
      var n := |answers| - 1;
      EarnedIdsMembers(answers[..n], quiz);
      forall id | id in EarnedIds(answers, quiz)
        ensures exists k :: 0 <= k < |answers| && answers[k].questionId == id
      {
        if id in EarnedIds(answers[..n], quiz) {
          var k :| 0 <= k < n && answers[..n][k].questionId == id;
          assert answers[k].questionId == id;
        } else {
          assert answers[n].questionId == id;
        }
      }
    }
  }

  /**
   * With one answer per question id (as the selection map produces), the
   * score never exceeds the number of questions.
   */
  lemma ScoreAtMostQuestions(answers: seq<Selection>, quiz: Quiz)
    ensures DistinctQuestions(answers) ==> Score(answers, quiz) <= |quiz.questions|
  {
    if DistinctQuestions(answers) {
      EarnedIdsCount(answers, quiz);
      EarnedIdsResolve(answers, quiz);
      IdsOfBound(quiz.questions);
      SubsetSize(EarnedIds(answers, quiz), IdsOf(quiz.questions));
    }
  }

  // ------------------------------------------------------------ time format

  predicate IsDigit(c: char) { '0' <= c <= '9' }

  predicate AllDigits(s: string) { forall k :: 0 <= k < |s| ==> IsDigit(s[k]) }

  function DigitChar(d: nat): (c: char)
    requires d < 10
    ensures IsDigit(c)
  {
    ('0' as int + d) as char
  }

  /** `n.toString()` for a non-negative integer: decimal digits, no leading zero. */
  function NatToString(n: nat): (s: string)
    ensures |s| >= 1 && AllDigits(s)
    ensures n == 0 ==> s == "0"
    ensures |s| > 1 ==> s[0] != '0'
    ensures n > 0 ==> s[0] != '0'
  {
    if n < 10 then [DigitChar(n)] else NatToString(n / 10) + [DigitChar(n % 10)]
  }

  /** `n.toString()` for any integer: its decimal digits, after a minus sign when negative. */
  function IntToString(n: int): (s: string)
    ensures n >= 0 ==> AllDigits(s) && DigitsValue(s) == n
    ensures n < 0 ==> |s| >= 2 && s[0] == '-' && AllDigits(s[1..]) && DigitsValue(s[1..]) == -n
  {
    if n < 0 then
      NatToStringValue(-n);
      assert ("-" + NatToString(-n))[1..] == NatToString(-n);
      "-" + NatToString(-n)
    else
      NatToStringValue(n);
      NatToString(n)
  }

  /** `s.padStart(2, "0")`: left-pad with zeros to length two; never truncates. */
  function PadStart2(s: string): (r: string)
    ensures |r| == if |s| >= 2 then |s| else 2
    ensures r[|r| - |s|..] == s
    ensures forall k :: 0 <= k < |r| - |s| ==> r[k] == '0'
  {
    if |s| >= 2 then s else if |s| == 1 then "0" + s else "00"
  }

  /** The quotient of JavaScript's `%`: division truncated toward zero. */
  function TruncatedQuotient(a: int, b: int): int
    requires b > 0
  {
    if a >= 0 then a / b else -((-a) / b)
  }

  /**
   * JavaScript's `%`: the remainder takes the sign of the dividend, is
   * smaller than the divisor in magnitude, and completes the division
   * truncated toward zero.
   */
  function JsRemainder(a: int, b: int): (r: int)
    requires b > 0
    ensures a >= 0 ==> 0 <= r < b
    ensures a < 0 ==> -b < r <= 0
    ensures a == b * TruncatedQuotient(a, b) + r
  {
    if a >= 0 then a % b
    else
      var q := (-a) / b;
      assert -a == b * q + (-a) % b;
      assert b * (-q) == -(b * q);
      -((-a) % b)
  }

  /** `formatTime`: minutes `Math.floor(seconds / 60)` and seconds `seconds % 60`, each padded. */
  function FormatTime(seconds: int): string
  {
    PadStart2(IntToString(seconds / 60)) + ":" + PadStart2(IntToString(JsRemainder(seconds, 60)))
  }

  /**
   * `t` is a time display that reads back as `seconds`: minute digits, a
   * colon, then two digits of seconds below 60.
   */
  predicate ReadsAsTime(t: string, seconds: int)
  {
    && |t| >= 5 && t[|t| - 3] == ':'
    && AllDigits(t[..|t| - 3]) && AllDigits(t[|t| - 2..])
    && DigitsValue(t[|t| - 2..]) < 60
    && 60 * DigitsValue(t[..|t| - 3]) + DigitsValue(t[|t| - 2..]) == seconds
  }

  /** The value of a string of decimal digits. */
  function DigitsValue(s: string): nat
    requires AllDigits(s)
  {
    if s == [] then 0 else 10 * DigitsValue(s[..|s| - 1]) + (s[|s| - 1] as int - '0' as int)
  }

  lemma {:induction false} NatToStringValue(n: nat)
    ensures DigitsValue(NatToString(n)) == n
  {
    if n >= 10 {
      NatToStringValue(n / 10);
      var s := NatToString(n);
      assert s[..|s| - 1] == NatToString(n / 10);
    }
  }

  lemma {:induction false} LeadingZeroValue(s: string)
    requires AllDigits(s)
    ensures AllDigits("0" + s) && DigitsValue("0" + s) == DigitsValue(s)
  {
    if s != [] {
      var n := |s| - 1;
      LeadingZeroValue(s[..n]);
      assert ("0" + s)[..|s|] == "0" + s[..n];
    }
  }

  lemma PadStart2Value(s: string)
    requires AllDigits(s)
    ensures AllDigits(PadStart2(s)) && DigitsValue(PadStart2(s)) == DigitsValue(s)
  {
    if |s| < 2 {
      LeadingZeroValue(s);
      LeadingZeroValue("0" + s);
    }
  }

  /** A padded decimal rendering of `n`: at least two digits, exactly two below 100, reading back as `n`. */
  lemma PaddedNat(n: nat)
    ensures var p := PadStart2(NatToString(n));
      && |p| >= 2 && (n < 100 ==> |p| == 2) && AllDigits(p) && DigitsValue(p) == n
  {
    NatToStringValue(n);
    PadStart2Value(NatToString(n));
    if 10 <= n < 100 {
      assert NatToString(n) == NatToString(n / 10) + [DigitChar(n % 10)];
    }
  }

  /**
   * For a non-negative number of seconds the output is `mm:ss`: digits, a
   * colon, and exactly two digits; reading the two parts back gives the
   * minutes and a seconds part below 60 that together make up the input.
   */
  lemma FormatTimeRoundTrip(seconds: nat)
    ensures ReadsAsTime(FormatTime(seconds), seconds)
  {
    var mins, secs := seconds / 60, seconds % 60;
    assert JsRemainder(seconds, 60) == secs;
    assert IntToString(mins) == NatToString(mins);
    assert IntToString(JsRemainder(seconds, 60)) == NatToString(secs);
    var m := PadStart2(NatToString(mins));
    var s := PadStart2(NatToString(secs));
    PaddedNat(mins);
    PaddedNat(secs);
    var t := m + ":" + s;
    assert FormatTime(seconds) == t;
    assert t[..|t| - 3] == m;
    assert t[|t| - 2..] == s;
  }

  lemma FormatTimeExamples()
    ensures FormatTime(65) == "01:05"
    ensures FormatTime(59) == "00:59"
  {
    assert NatToString(1) == "1" && NatToString(5) == "5" && NatToString(0) == "0";
    assert NatToString(59) == NatToString(5) + "9";
  }

  // -------------------------------------------------------------- validation

  /** How many options are marked correct (`options.filter(o => o.isCorrect).length`). */
  function CorrectCount(options: seq<Option>): nat
  {
    |Filter(options, IsMarkedCorrect)|
  }

  /** `isQuestionComplete`: non-blank text, no blank option, exactly one correct option. */
  predicate IsQuestionComplete(q: Question)
  {
    && !Blank(q.text)
    && !(exists k :: 0 <= k < |q.options| && Blank(q.options[k].text))
    && CorrectCount(q.options) == 1
  }

  /** `isQuizComplete`: non-blank title and description, at least one question, all complete. */
  predicate IsQuizComplete(quiz: Quiz)
  {
    && !Blank(quiz.title) && !Blank(quiz.description)
    && |quiz.questions| != 0
    && forall k :: 0 <= k < |quiz.questions| ==> IsQuestionComplete(quiz.questions[k])
  }

  /** Exactly one option is marked correct: there is an index `j` that is correct and no other is. */
  predicate UniqueCorrectAt(options: seq<Option>, j: int)
  {
    0 <= j < |options| && forall k :: 0 <= k < |options| ==> (options[k].isCorrect <==> k == j)
  }

  lemma {:induction false} CorrectCountOne(options: seq<Option>)
    ensures CorrectCount(options) == 1 <==> exists j :: UniqueCorrectAt(options, j)
  {
    if options != [] {
      var rest := options[1..];
      CorrectCountOne(rest);
      FilterShrinks(rest, Not(IsMarkedCorrect));
      assert CorrectCount(options) == (if options[0].isCorrect then 1 else 0) + CorrectCount(rest);
      if CorrectCount(options) == 1 {
        if options[0].isCorrect {
          assert CorrectCount(rest) == 0;
          ZeroCorrect(rest);
          assert UniqueCorrectAt(options, 0);
        } else {
          var j :| UniqueCorrectAt(rest, j);
          assert UniqueCorrectAt(options, j + 1);
        }
      }
      if j :| UniqueCorrectAt(options, j) {
        if j == 0 {
          assert forall k :: 0 <= k < |rest| ==> !rest[k].isCorrect;
          NoneCorrect(rest);
        } else {
          assert UniqueCorrectAt(rest, j - 1);
        }
      }
    }
  }

  lemma {:induction false} ZeroCorrect(options: seq<Option>)
    requires CorrectCount(options) == 0
    ensures forall k :: 0 <= k < |options| ==> !options[k].isCorrect
  {
    if options != [] {
      ZeroCorrect(options[1..]);
      assert forall k :: 1 <= k < |options| ==> options[k] == options[1..][k - 1];
    }
  }

  lemma {:induction false} NoneCorrect(options: seq<Option>)
    requires forall k :: 0 <= k < |options| ==> !options[k].isCorrect
    ensures CorrectCount(options) == 0
  {
    if options != [] {
      NoneCorrect(options[1..]);
    }
  }

  /**
   * A question is complete exactly when its text and every option text are
   * non-blank and exactly one option is marked correct.
   */
  lemma QuestionCompleteIff(q: Question)
    ensures IsQuestionComplete(q) <==>
      && !Blank(q.text)
      && (forall k :: 0 <= k < |q.options| ==> !Blank(q.options[k].text))
      && (exists j :: UniqueCorrectAt(q.options, j))
  {
    CorrectCountOne(q.options);
  }

  /** A quiz with a blank title or description, or without questions, is never complete. */
  lemma QuizIncompleteCases(quiz: Quiz)
    ensures Blank(quiz.title) || Blank(quiz.description) || |quiz.questions| == 0 ==> !IsQuizComplete(quiz)
    ensures !Blank(quiz.title) && !Blank(quiz.description) && |quiz.questions| != 0 ==>
      (IsQuizComplete(quiz) <==> forall k :: 0 <= k < |quiz.questions| ==> IsQuestionComplete(quiz.questions[k]))
  {
  }
}
