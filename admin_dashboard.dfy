/**
 * The admin dashboard of `src/pages/admin/Dashboard.tsx`: the admin's own
 * quizzes and the results taken on them, the summary statistics and chart
 * series computed from them, the "recent" view, and quiz deletion.
 */
module AdminDashboardPage {
  import opened Seqs
  import opened QuizTypes
  import opened LocalStorage
  import opened Rounding

  // ------------------------------------------------------------- selection

  /** The admin's quizzes: those it created, in stored order. */
  function AdminQuizzes(all: seq<Quiz>, userId: string): (r: seq<Quiz>)
    ensures forall k :: 0 <= k < |r| ==> r[k].createdBy == userId && r[k] in all
    ensures forall k :: 0 <= k < |all| && all[k].createdBy == userId ==> all[k] in r
  {
    Filter(all, QuizCreatedBy(userId))
  }

  /** `quizzes.some(quiz => quiz.id === id)`. */
  predicate HasQuizId(quizzes: seq<Quiz>, id: string)
    ensures HasQuizId(quizzes, id) <==> Find(quizzes, QuizHasId(id)).Some?
  {
    exists k :: 0 <= k < |quizzes| && quizzes[k].id == id
  }

  function ForQuizIn(quizzes: seq<Quiz>): QuizResult -> bool
  {
    (r: QuizResult) => HasQuizId(quizzes, r.quizId)
  }

  /** The results on the admin's quizzes, in stored order. */
  function RelevantResults(all: seq<QuizResult>, adminQuizzes: seq<Quiz>): (r: seq<QuizResult>)
    ensures forall k :: 0 <= k < |r| ==> HasQuizId(adminQuizzes, r[k].quizId) && r[k] in all
    ensures forall k :: 0 <= k < |all| && HasQuizId(adminQuizzes, all[k].quizId) ==> all[k] in r
  {
    Filter(all, ForQuizIn(adminQuizzes))
  }

  // ------------------------------------------------------------- averages

  function ScoreOf(r: QuizResult): int { r.score }

  /** `result.timeSpent || 0`; the model's time is always a number, so it is the time itself. */
  function TimeOf(r: QuizResult): int { r.timeSpent }

  function AverageScore(results: seq<QuizResult>): int
  {
    Mean(SumOf(results, ScoreOf), |results|)
  }

  function AverageTime(results: seq<QuizResult>): int
  {
    Mean(SumOf(results, TimeOf), |results|)
  }

  /**
   * `averageScore` and `averageTime` are 0 without results, and otherwise lie
   * between any bounds that hold for every loaded score and time.
   */
  lemma AveragesWithin(results: seq<QuizResult>, scoreLo: int, scoreHi: int, timeLo: int, timeHi: int)
    requires forall k :: 0 <= k < |results| ==> scoreLo <= results[k].score <= scoreHi
    requires forall k :: 0 <= k < |results| ==> timeLo <= results[k].timeSpent <= timeHi
    ensures results == [] ==> AverageScore(results) == 0 && AverageTime(results) == 0
    ensures results != [] ==> scoreLo <= AverageScore(results) <= scoreHi
    ensures results != [] ==> timeLo <= AverageTime(results) <= timeHi
  {
    MeanWithinBounds(results, ScoreOf, scoreLo, scoreHi);
    MeanWithinBounds(results, TimeOf, timeLo, timeHi);
  }

  // ------------------------------------------------------------ histograms

  /** The four counts of a chart series. */
  datatype Histogram = Histogram(first: nat, second: nat, third: nat, fourth: nat)
  {
    function Total(): nat { first + second + third + fourth }
  }

  /** `timeDistributionData`: under 1 min, 1-2 min, 2-5 min, over 5 min. */
  function TimeDistribution(results: seq<QuizResult>): Histogram
  {
    Histogram(
      |Filter(results, (r: QuizResult) => r.timeSpent < 60)|,
      |Filter(results, (r: QuizResult) => r.timeSpent >= 60 && r.timeSpent < 120)|,
      |Filter(results, (r: QuizResult) => r.timeSpent >= 120 && r.timeSpent < 300)|,
      |Filter(results, (r: QuizResult) => r.timeSpent >= 300)|)
  }

  /** The time buckets partition every time, so they count every attempt exactly once. */
  lemma {:induction false} TimeBucketsCoverAttempts(results: seq<QuizResult>)
    ensures TimeDistribution(results).Total() == |results|
  {
    if results != [] {
      TimeBucketsCoverAttempts(results[1..]);
    }
  }

  /**
   * `scoreDistribution` as written: the raw score (a count of correct
   * answers) is compared against 25, 50, 75 and 100.
   */
  function ScoreDistribution(results: seq<QuizResult>): Histogram
  {
    Histogram(
      |Filter(results, (r: QuizResult) => r.score <= 25)|,
      |Filter(results, (r: QuizResult) => r.score > 25 && r.score <= 50)|,
      |Filter(results, (r: QuizResult) => r.score > 50 && r.score <= 75)|,
      |Filter(results, (r: QuizResult) => r.score > 75 && r.score <= 100)|)
  }

  function Above100(r: QuizResult): bool { r.score > 100 }

  /** The raw-score buckets are disjoint and miss exactly the scores above 100. */
  lemma {:induction false} ScoreBucketsCount(results: seq<QuizResult>)
    ensures ScoreDistribution(results).Total() + |Filter(results, Above100)| == |results|
  {
    if results != [] {
      ScoreBucketsCount(results[1..]);
    }
  }

  /**
   * The raw-score buckets never count more than the attempts, and count all
   * of them exactly when no score exceeds 100.
   */
  lemma ScoreBucketsMissAbove100(results: seq<QuizResult>)
    ensures ScoreDistribution(results).Total() <= |results|
    ensures ScoreDistribution(results).Total() == |results| <==> forall k :: 0 <= k < |results| ==> results[k].score <= 100
  {
    ScoreBucketsCount(results);
    FilterShrinks(results, Not(Above100));
    FilterComplement(results, Above100);
  }

  /** The percentage a result's buckets are labelled with: `Math.round(score / totalQuestions * 100)`. */
  function Percent(r: QuizResult): int
  {
    if r.totalQuestions > 0 then RoundHalfUp(100 * r.score, r.totalQuestions) else 0
  }

  /** A score between 0 and the question count is a percentage between 0 and 100. */
  lemma PercentInRange(r: QuizResult)
    requires 0 <= r.score <= r.totalQuestions
    ensures 0 <= Percent(r) <= 100
  {
    if r.totalQuestions > 0 {
      RoundHalfUpWithin(100 * r.score, r.totalQuestions, 0, 100);
    }
  }

  /** The score histogram bucketed by percentage, as its labels say. */
  function PercentDistribution(results: seq<QuizResult>): Histogram
  {
    Histogram(
      |Filter(results, (r: QuizResult) => Percent(r) <= 25)|,
      |Filter(results, (r: QuizResult) => Percent(r) > 25 && Percent(r) <= 50)|,
      |Filter(results, (r: QuizResult) => Percent(r) > 50 && Percent(r) <= 75)|,
      |Filter(results, (r: QuizResult) => Percent(r) > 75 && Percent(r) <= 100)|)
  }

  /** By percentage, every attempt whose score is at most its question count is counted exactly once. */
  lemma {:induction false} PercentBucketsCoverAttempts(results: seq<QuizResult>)
    requires forall k :: 0 <= k < |results| ==> 0 <= results[k].score <= results[k].totalQuestions
    ensures PercentDistribution(results).Total() == |results|
  {
    if results != [] {
      PercentInRange(results[0]);
      PercentBucketsCoverAttempts(results[1..]);
    }
  }

  /**
   * A full-marks attempt on a 4-question quiz (100%) is counted under
   * "0-25%" by the raw-score buckets, and under "76-100%" by percentage.
   */
  lemma FullMarksCountedAsLowest()
    ensures var r := QuizResult("r", "q", "u", 4, 4, 30, 0, []);
      && ScoreDistribution([r]) == Histogram(1, 0, 0, 0)
      && PercentDistribution([r]) == Histogram(0, 0, 0, 1)
  {
    var r := QuizResult("r", "q", "u", 4, 4, 30, 0, []);
    assert Percent(r) == 100;
  }

  // ---------------------------------------------------------- per-quiz stats

  /** One entry of `quizAttemptsData` (and the figures on a quiz card). */
  datatype QuizStat = QuizStat(name: string, attempts: nat, avgScore: int)

  /** The chart label: the title itself up to 15 characters, else its first 15 and "...". */
  function Label(title: string): (r: string)
    ensures |title| <= 15 ==> r == title
    ensures |title| > 15 ==> |r| == 18 && r[..15] == title[..15] && r[15..] == "..."
  {
    if |title| > 15 then title[..15] + "..." else title
  }

  /** The attempts of one quiz and their rounded mean score (0 without attempts). */
  function StatFor(quiz: Quiz, results: seq<QuizResult>): (s: QuizStat)
    ensures s.name == Label(quiz.title)
    ensures s.attempts == |GetResultsFor(results, quiz.id)|
    ensures s.attempts == 0 ==> s.avgScore == 0
  {
    var quizAttempts := GetResultsFor(results, quiz.id);
    QuizStat(Label(quiz.title), |quizAttempts|, Mean(SumOf(quizAttempts, ScoreOf), |quizAttempts|))
  }

  /** A quiz's mean score lies between any bounds that hold for every loaded score. */
  lemma StatAverageWithin(quiz: Quiz, results: seq<QuizResult>, lo: int, hi: int)
    requires forall k :: 0 <= k < |results| ==> lo <= results[k].score <= hi
    requires StatFor(quiz, results).attempts > 0
    ensures lo <= StatFor(quiz, results).avgScore <= hi
  {
    var quizAttempts := GetResultsFor(results, quiz.id);
    assert forall k :: 0 <= k < |quizAttempts| ==> quizAttempts[k] in results;
    MeanWithinBounds(quizAttempts, ScoreOf, lo, hi);
  }

  /** `results.filter(result => result.quizId === quiz.id)`. */
  function GetResultsFor(results: seq<QuizResult>, quizId: string): (r: seq<QuizResult>)
    ensures forall k :: 0 <= k < |r| ==> r[k].quizId == quizId && r[k] in results
    ensures forall k :: 0 <= k < |results| && results[k].quizId == quizId ==> results[k] in r
  {
    Filter(results, ResultOfQuiz(quizId))
  }

  /** `quizAttemptsData`: one entry per admin quiz, in quiz order. */
  function QuizAttemptsData(quizzes: seq<Quiz>, results: seq<QuizResult>): (r: seq<QuizStat>)
    ensures |r| == |quizzes|
    ensures forall k :: 0 <= k < |r| ==> r[k] == StatFor(quizzes[k], results)
  {
    seq(|quizzes|, k requires 0 <= k < |quizzes| => StatFor(quizzes[k], results))
  }

  function AttemptsOf(s: QuizStat): int { s.attempts }

  /** Quiz ids are pairwise different. */
  predicate DistinctIds(quizzes: seq<Quiz>)
  {
    forall i, j :: 0 <= i < j < |quizzes| ==> quizzes[i].id != quizzes[j].id
  }

  /** A result is on the quizzes when it is on the first or on one of the others, never both. */
  lemma ForQuizInCons(quizzes: seq<Quiz>, r: QuizResult)
    requires quizzes != [] && DistinctIds(quizzes)
    ensures ForQuizIn(quizzes)(r) == (ResultOfQuiz(quizzes[0].id)(r) || ForQuizIn(quizzes[1..])(r))
    ensures !(ResultOfQuiz(quizzes[0].id)(r) && ForQuizIn(quizzes[1..])(r))
  {
    var rest := quizzes[1..];
    if HasQuizId(quizzes, r.quizId) && r.quizId != quizzes[0].id {
      var j :| 0 <= j < |quizzes| && quizzes[j].id == r.quizId;
      assert rest[j - 1].id == r.quizId;
    }
    if HasQuizId(rest, r.quizId) {
      var j :| 0 <= j < |rest| && rest[j].id == r.quizId;
      assert quizzes[j + 1].id == r.quizId;
      assert quizzes[j + 1].id != quizzes[0].id;
    }
  }

  /** With no quizzes, no result is relevant. */
  lemma NoQuizzesNoResults(results: seq<QuizResult>)
    ensures RelevantResults(results, []) == []
  {
    NoneKept(results, ForQuizIn([]));
  }

  /**
   * With distinct quiz ids, the per-quiz attempt counts add up to the number
   * of results on those quizzes, i.e. to `totalAttempts`.
   */
  lemma {:induction false} AttemptsAddUp(quizzes: seq<Quiz>, results: seq<QuizResult>)
    requires DistinctIds(quizzes)
    ensures SumOf(QuizAttemptsData(quizzes, results), AttemptsOf) == |RelevantResults(results, quizzes)|
  {
    if quizzes == [] {
      NoQuizzesNoResults(results);
    } else {
      var rest := quizzes[1..];
      AttemptsAddUp(rest, results);
      assert QuizAttemptsData(quizzes, results)[1..] == QuizAttemptsData(rest, results);
      forall k | 0 <= k < |results|
        ensures ForQuizIn(quizzes)(results[k]) == (ResultOfQuiz(quizzes[0].id)(results[k]) || ForQuizIn(rest)(results[k]))
        ensures !(ResultOfQuiz(quizzes[0].id)(results[k]) && ForQuizIn(rest)(results[k]))
      {
        ForQuizInCons(quizzes, results[k]);
      }
      FilterDisjointUnion(results, ResultOfQuiz(quizzes[0].id), ForQuizIn(rest), ForQuizIn(quizzes));
    }
  }

  // ------------------------------------------------------------ recent view

  /** Newest first by `createdAt`. */
  predicate NewestFirst(s: seq<Quiz>)
  {
    forall i, j :: 0 <= i < j < |s| ==> s[j].createdAt <= s[i].createdAt
  }

  /**
   * One insertion step of a stable sort, newest first: `x`, which came
   * before every element of `s`, goes before the first element that is not
   * newer than it.
   */
  function InsertNewest(x: Quiz, s: seq<Quiz>): (r: seq<Quiz>)
    ensures multiset(r) == multiset(s) + multiset{x}
  {
    if s == [] || s[0].createdAt <= x.createdAt then
      [x] + s
    else
      assert s == [s[0]] + s[1..];
      [s[0]] + InsertNewest(x, s[1..])
  }

  /** Inserting into a newest-first list keeps it newest first. */
  lemma {:induction false} InsertKeepsNewestFirst(x: Quiz, s: seq<Quiz>)
    requires NewestFirst(s)
    ensures NewestFirst(InsertNewest(x, s))
  {
    if s != [] && x.createdAt < s[0].createdAt {
      var rest := InsertNewest(x, s[1..]);
      InsertKeepsNewestFirst(x, s[1..]);
      forall k | 0 <= k < |rest|
        ensures rest[k].createdAt <= s[0].createdAt
      {
        assert rest[k] in multiset(rest);
        if rest[k] != x {
          assert rest[k] in multiset(s[1..]);
          var j :| 0 <= j < |s[1..]| && s[1..][j] == rest[k];
          assert s[j + 1] == rest[k];
        }
      }
    }
  }

  /** `quizzes.slice().sort((a, b) => b.createdAt - a.createdAt)`. */
  function SortNewestFirst(s: seq<Quiz>): (r: seq<Quiz>)
    ensures multiset(r) == multiset(s)
    ensures NewestFirst(r)
  {
    if s == [] then []
    else
      assert s == [s[0]] + s[1..];
      var sortedRest := SortNewestFirst(s[1..]);
      InsertKeepsNewestFirst(s[0], sortedRest);
      InsertNewest(s[0], sortedRest)
  }

  function Min(a: int, b: int): int { if a < b then a else b }

  /** The "recent" view: the sorted list cut to its first 6. */
  function Recent(quizzes: seq<Quiz>): (r: seq<Quiz>)
    ensures |r| == Min(6, |quizzes|)
    ensures NewestFirst(r)
  {
    var sorted := SortNewestFirst(quizzes);
    assert |sorted| == |quizzes| by {
      assert |multiset(sorted)| == |multiset(quizzes)|;
    }
    sorted[..Min(6, |quizzes|)]
  }

  /**
   * The recent view shows some of the admin's quizzes, and none left out is
   * newer than any shown.
   */
  lemma RecentIsNewest(quizzes: seq<Quiz>)
    ensures multiset(Recent(quizzes)) <= multiset(quizzes)
    ensures forall q :: q in multiset(quizzes) - multiset(Recent(quizzes)) ==>
      forall k :: 0 <= k < |Recent(quizzes)| ==> q.createdAt <= Recent(quizzes)[k].createdAt
  {
    var sorted := SortNewestFirst(quizzes);
    var m := |Recent(quizzes)|;
    assert sorted == sorted[..m] + sorted[m..];
    assert multiset(sorted) == multiset(sorted[..m]) + multiset(sorted[m..]);
    forall q | q in multiset(quizzes) - multiset(Recent(quizzes))
      ensures forall k :: 0 <= k < m ==> q.createdAt <= Recent(quizzes)[k].createdAt
    {
      assert q in multiset(sorted[m..]);
      var j :| 0 <= j < |sorted[m..]| && sorted[m..][j] == q;
      assert sorted[m + j] == q;
    }
  }

  datatype ViewFilter = All | RecentOnly

  /** The list under the tabs: all quizzes unchanged, or the recent view. */
  function Shown(filter: ViewFilter, quizzes: seq<Quiz>): (r: seq<Quiz>)
    ensures filter == All ==> r == quizzes
    ensures filter == RecentOnly ==> |r| <= 6 && NewestFirst(r)
  {
    if filter == All then quizzes else Recent(quizzes)
  }

  // --------------------------------------------------------------- the page

  class Dashboard {
    /** The admin's quizzes as displayed. */
    var quizzes: seq<Quiz>
    /** The results on them, as loaded. */
    var results: seq<QuizResult>

    constructor ()
      ensures quizzes == [] && results == []
    {
      quizzes := [];
      results := [];
    }

    /** The load effect: with a user, its quizzes and the results on them; without, nothing changes. */
    method Load(store: Store, user: Maybe<User>)
      modifies this
      ensures user.None? ==> quizzes == old(quizzes) && results == old(results)
      ensures user.Some? ==> quizzes == AdminQuizzes(store.quizzes, user.value.id)
      ensures user.Some? ==> results == RelevantResults(store.results, quizzes)
    {
      if user.Some? {
        var adminQuizzes := AdminQuizzes(store.quizzes, user.value.id);
        quizzes := adminQuizzes;
        results := RelevantResults(store.results, adminQuizzes);
      }
    }

    function TotalAttempts(): nat
      reads this
    {
      |results|
    }

    /**
     * `handleDeleteQuiz`: nothing happens unless confirmed; a confirmed
     * deletion that the store reports drops the quiz from the list; the loaded
     * results are kept either way.
     */
    method DeleteQuiz(store: Store, quizId: string, confirmed: bool)
      modifies this`quizzes, store`quizzes
      ensures !confirmed ==> quizzes == old(quizzes) && store.quizzes == old(store.quizzes)
      ensures confirmed && old(store.GetQuizById(quizId)).Some? ==>
        quizzes == Filter(old(quizzes), Not(QuizHasId(quizId)))
        && store.quizzes == Filter(old(store.quizzes), Not(QuizHasId(quizId)))
      ensures confirmed && old(store.GetQuizById(quizId)).None? ==>
        quizzes == old(quizzes) && store.quizzes == old(store.quizzes)
      ensures results == old(results)
    {
      if confirmed {
        var result := store.DeleteQuiz(quizId);
        if result {
          quizzes := Filter(quizzes, Not(QuizHasId(quizId)));
        }
      }
    }
  }
}
