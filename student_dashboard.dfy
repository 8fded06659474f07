/**
 * The student dashboard of `src/pages/student/Dashboard.tsx`: the student's
 * results paired with the quizzes they were taken on, the summary statistics,
 * the correct/incorrect chart, and the per-quiz start/retake label.
 */
module StudentDashboardPage {
  import opened Seqs
  import opened QuizTypes
  import opened LocalStorage
  import opened Rounding

  /** One attempted quiz: a result together with the quiz it was taken on. */
  datatype Attempt = Attempt(quiz: Quiz, result: QuizResult)

  /**
   * Pairs every result with the first stored quiz of its id, dropping the
   * results whose quiz no longer exists.
   */
  function Pair(results: seq<QuizResult>, quizzes: seq<Quiz>): (r: seq<Attempt>)
    ensures |r| <= |results|
    ensures forall k :: 0 <= k < |r| ==> Find(quizzes, QuizHasId(r[k].result.quizId)) == Some(r[k].quiz)
  {
    if results == [] then []
    else
      match Find(quizzes, QuizHasId(results[0].quizId))
      case None => Pair(results[1..], quizzes)
      case Some(q) => [Attempt(q, results[0])] + Pair(results[1..], quizzes)
  }

  function ResultsOf(attempts: seq<Attempt>): (r: seq<QuizResult>)
    ensures |r| == |attempts|
    ensures forall k :: 0 <= k < |r| ==> r[k] == attempts[k].result
  {
    if attempts == [] then [] else [attempts[0].result] + ResultsOf(attempts[1..])
  }

  /** The result's quiz is still stored. */
  function QuizExists(quizzes: seq<Quiz>): QuizResult -> bool
  {
    (r: QuizResult) => Find(quizzes, QuizHasId(r.quizId)).Some?
  }

  /**
   * The attempted list holds exactly the results whose quiz still exists, in
   * result order: orphaned results are dropped and nothing else is.
   */
  lemma {:induction false} PairDropsOnlyOrphans(results: seq<QuizResult>, quizzes: seq<Quiz>)
    ensures ResultsOf(Pair(results, quizzes)) == Filter(results, QuizExists(quizzes))
  {
    if results != [] {
      PairDropsOnlyOrphans(results[1..], quizzes);
    }
  }

  /** The attempted list of the load effect: the user's results, paired with all stored quizzes. */
  function Attempted(store: Store, userId: string): seq<Attempt>
    reads store
  {
    Pair(store.GetQuizResultsByUser(userId), store.quizzes)
  }

  /** `attemptedQuizzes.some(a => a.quiz.id === quiz.id)`. */
  predicate HasAttempted(attempted: seq<Attempt>, quizId: string)
  {
    exists k :: 0 <= k < |attempted| && attempted[k].quiz.id == quizId
  }

  /**
   * A quiz counts as attempted exactly when the student has a result on it
   * and the quiz is stored.
   */
  lemma AttemptedIff(results: seq<QuizResult>, quizzes: seq<Quiz>, quizId: string)
    ensures HasAttempted(Pair(results, quizzes), quizId) <==>
      (exists k :: 0 <= k < |results| && results[k].quizId == quizId) && Find(quizzes, QuizHasId(quizId)).Some?
  {
    var r := Pair(results, quizzes);
    PairDropsOnlyOrphans(results, quizzes);
    var kept := Filter(results, QuizExists(quizzes));
    assert ResultsOf(r) == kept;
    if HasAttempted(r, quizId) {
      var k :| 0 <= k < |r| && r[k].quiz.id == quizId;
      assert QuizHasId(r[k].result.quizId)(r[k].quiz);
      assert kept[k] == r[k].result;
      assert r[k].result in results;
    }
    if (exists k :: 0 <= k < |results| && results[k].quizId == quizId) && Find(quizzes, QuizHasId(quizId)).Some? {
      var j :| 0 <= j < |results| && results[j].quizId == quizId;
      assert QuizExists(quizzes)(results[j]);
      assert results[j] in kept;
      var m :| 0 <= m < |kept| && kept[m] == results[j];
      assert r[m].result == results[j];
      assert QuizHasId(r[m].result.quizId)(r[m].quiz);
    }
  }

  /** The button label of a quiz card. */
  function ButtonLabel(attempted: seq<Attempt>, quizId: string): (caption: string)
    ensures caption == "Retake Quiz" <==> HasAttempted(attempted, quizId)
    ensures caption == "Start Quiz" <==> !HasAttempted(attempted, quizId)
  {
    if HasAttempted(attempted, quizId) then "Retake Quiz" else "Start Quiz"
  }

  /** "Recent performance": the first three attempted entries. */
  function RecentPerformance(attempted: seq<Attempt>): (r: seq<Attempt>)
    ensures |r| <= 3 && |r| <= |attempted|
    ensures |attempted| >= 3 ==> |r| == 3
    ensures |attempted| <= 3 ==> r == attempted
    ensures r == attempted[..|r|]
  {
    if |attempted| > 3 then attempted[..3] else attempted
  }

  /**
   * The dashboard statistics. `averageScoreTenths` is `averageScore` times
   * ten: the source rounds the mean score to one decimal.
   */
  datatype Stats = Stats(
    totalQuizzesTaken: nat,
    averageScoreTenths: int,
    totalScore: int,
    averageTimeSpent: int,
    totalTimeSpent: int)

  function ScoreOf(a: Attempt): int { a.result.score }

  function TimeOf(a: Attempt): int { a.result.timeSpent }

  function TenfoldScoreOf(a: Attempt): int { 10 * a.result.score }

  /** The statistics set when there is at least one attempt. */
  function ComputeStats(attempted: seq<Attempt>): Stats
    requires attempted != []
  {
    var n := |attempted|;
    var totalScore := SumOf(attempted, ScoreOf);
    var totalTimeSpent := SumOf(attempted, TimeOf);
    Stats(n, RoundHalfUp(10 * totalScore, n), totalScore, RoundHalfUp(totalTimeSpent, n), totalTimeSpent)
  }

  /** Ten times a sum is the sum of ten times each term. */
  lemma {:induction false} TenfoldSum(s: seq<Attempt>)
    ensures SumOf(s, TenfoldScoreOf) == 10 * SumOf(s, ScoreOf)
  {
    if s != [] {
      TenfoldSum(s[1..]);
    }
  }

  /**
   * The two averages are the rounded means of the attempts: each lies
   * between any bounds on the individual scores (in tenths) and times.
   */
  lemma StatsAveragesWithin(attempted: seq<Attempt>, scoreLo: int, scoreHi: int, timeLo: int, timeHi: int)
    requires attempted != []
    requires forall k :: 0 <= k < |attempted| ==> scoreLo <= attempted[k].result.score <= scoreHi
    requires forall k :: 0 <= k < |attempted| ==> timeLo <= attempted[k].result.timeSpent <= timeHi
    ensures 10 * scoreLo <= ComputeStats(attempted).averageScoreTenths <= 10 * scoreHi
    ensures timeLo <= ComputeStats(attempted).averageTimeSpent <= timeHi
  {
    TenfoldSum(attempted);
    MeanWithinBounds(attempted, TenfoldScoreOf, 10 * scoreLo, 10 * scoreHi);
    MeanWithinBounds(attempted, TimeOf, timeLo, timeHi);
  }

  function TotalQuestionsOf(a: Attempt): int { a.result.totalQuestions }

  function MissedOf(a: Attempt): int { a.result.totalQuestions - a.result.score }

  /** The two slices of the correct/incorrect chart. */
  datatype ScoreSlices = ScoreSlices(correct: int, incorrect: int)

  /** `scoreDistributionData`: the stats' total score, and the questions not scored summed over the attempts. */
  function ScoreDistributionData(stats: Stats, attempted: seq<Attempt>): ScoreSlices
  {
    ScoreSlices(stats.totalScore, SumOf(attempted, MissedOf))
  }

  /**
   * With the statistics of the same attempts, the two slices add up to the
   * questions answered, and the incorrect slice is never negative while no
   * score exceeds its question count.
   */
  lemma {:induction false} SlicesAddUp(attempted: seq<Attempt>)
    requires attempted != []
    ensures var d := ScoreDistributionData(ComputeStats(attempted), attempted);
      d.correct + d.incorrect == SumOf(attempted, TotalQuestionsOf)
    ensures (forall k :: 0 <= k < |attempted| ==> attempted[k].result.score <= attempted[k].result.totalQuestions)
      ==> ScoreDistributionData(ComputeStats(attempted), attempted).incorrect >= 0
  {
    SumOfAdd(attempted, ScoreOf, MissedOf, TotalQuestionsOf);
    if forall k :: 0 <= k < |attempted| ==> attempted[k].result.score <= attempted[k].result.totalQuestions {
      SumOfNonNegative(attempted, MissedOf);
    }
  }

  class Dashboard {
    /** Every stored quiz, whoever created it. */
    var quizzes: seq<Quiz>
    var attempted: seq<Attempt>
    var stats: Stats

    constructor ()
      ensures quizzes == [] && attempted == [] && stats == Stats(0, 0, 0, 0, 0)
    {
      quizzes := [];
      attempted := [];
      stats := Stats(0, 0, 0, 0, 0);
    }

    /**
     * The load effect: with a user, all stored quizzes are listed, the
     * attempts are paired, and the statistics are set when there is at least
     * one attempt (otherwise they keep their values, zero on first load).
     */
    method Load(store: Store, user: Maybe<User>)
      modifies this
      ensures user.None? ==> quizzes == old(quizzes) && attempted == old(attempted) && stats == old(stats)
      ensures user.Some? ==> quizzes == store.quizzes && attempted == Attempted(store, user.value.id)
      ensures user.Some? && attempted != [] ==> stats == ComputeStats(attempted)
      ensures user.Some? && attempted == [] ==> stats == old(stats)
    {
      if user.Some? {
        var allQuizzes := store.quizzes;
        quizzes := allQuizzes;
        attempted := Attempted(store, user.value.id);
        if |attempted| > 0 {
          stats := ComputeStats(attempted);
        }
      }
    }
  }
}
