# Quiz website: a verified model of its core logic

This project models a browser quiz application in Dafny. Administrators
author multiple-choice quizzes and students take them. The application
keeps three collections (users, quizzes, quiz results) and the id of the
logged-in user in the browser's local storage.

The model covers:

- **The entity store** (`store.dfy`, module `LocalStorage`). The `Store`
  class has one field per storage key. It models first-run seeding, lookup
  by id, the case-insensitive e-mail login, and the upsert-by-id writes
  `saveQuiz` and `saveQuizResult`. It also models `deleteQuiz` and its
  "did it shrink" report.
- **The pure helpers** (`quiz_utils.dfy`, module `QuizUtils`): the blank
  question and quiz templates, the scorer `calculateScore`, the `mm:ss`
  formatter, and the authoring validator (`isQuestionComplete`,
  `isQuizComplete`).
- **The quiz editor** (`edit_quiz.dfy`, module `EditQuiz`). The
  `QuizEditor` class holds the quiz being edited. It models each edit
  handler and the save that only writes a complete quiz.
- **The quiz-taking page** (`take_quiz.dfy`, module `TakeQuiz`). The
  `QuizSession` class holds the cursor, the selection map, the seconds
  counter and the finish step, which grades and stores one result.
- **The result page** (`quiz_results.dfy`, module `ResultsPage`). It
  covers loading a result and its quiz and building the per-answer detail
  rows.
- **The two dashboards** (`admin_dashboard.dfy`, `student_dashboard.dfy`).
  The admin side has its quiz and result selection, rounded averages, chart
  series, the "recent" view and deletion. The student side pairs results
  with quizzes, computes the statistics and the correct/incorrect chart,
  and picks the start/retake label.
- **Authentication and route protection** (`auth.dfy`, module `Auth`): the
  login/logout context and the `ProtectedRoute` gate with the route table.

Shared pieces:

- `seqs.dfy` holds JavaScript's `find`, `findIndex` and `filter` over
  sequences, the "replace at the first match or push" upsert, and sums.
- `types.dfy` holds the entity types and the routes.
- `rounding.dfy` holds `Math.round` of a quotient.

Browser side effects are modelled in these ways:

- A page's navigation is a returned `Route` value.
- Fresh ids (`uuidv4()`) and the current time are parameters.
- A timer tick is a method call.

## Model

| member | source | states |
|---|---|---|
| QuizTypes.Blank | src/utils/quizUtils.ts:63-75 | `!s.trim()`: a text is blank exactly when every character is white space; `QuizUtils.QuestionCompleteIff` and `QuizUtils.QuizIncompleteCases` state its use |
| QuizTypes.Lower | src/services/localStorageService.ts:64 | lower-casing keeps the length and maps each character to its lower-case form |
| Routes.Landing | src/contexts/AuthContext.tsx:39 | an admin lands on the admin dashboard and a student on the student dashboard, and on nothing else |
| Rounding.RoundHalfUp | src/pages/admin/Dashboard.tsx:65-70 | the result is the integer nearest to the quotient, with halves rounded up, as `Math.round` does |
| Rounding.RoundHalfUpWithin | src/pages/admin/Dashboard.tsx:65-70 | a rounded quotient lying between two integer bounds stays between them |
| Rounding.Mean | src/pages/admin/Dashboard.tsx:65-70 | 0 for no items, otherwise the nearest integer to `total / count`, halves rounded up as `Math.round` does |
| Rounding.MeanWithinBounds | src/pages/admin/Dashboard.tsx:65-70 | a rounded mean is 0 for no items, and otherwise lies between any bounds that hold for every item |
| QuizUtils.CreateEmptyQuestion | src/utils/quizUtils.ts:6-18 | the blank question has empty text and four empty options, none of them correct, so it is not complete |
| QuizUtils.CreateEmptyQuiz | src/utils/quizUtils.ts:21-30 | the blank quiz belongs to the user, has empty title and description, holds one blank question, and is not complete |
| QuizUtils.Score | src/utils/quizUtils.ts:33-52 | the score never exceeds the number of answers |
| QuizUtils.Earns | src/utils/quizUtils.ts:40-47 | the point test of one answer (first question by id, first option by id, marked correct); `ScoreIsEarningCount` and `TakeQuiz.ToAnswer` state what it counts |
| QuizUtils.CalculateScore | src/utils/quizUtils.ts:33-52 | the accumulator loop returns the number of answers whose question and option resolve (first match) to an option marked correct |
| QuizUtils.ScoreIsEarningCount | src/utils/quizUtils.ts:39-49 | the score equals the number of answers that earn a point |
| QuizUtils.UnmatchedAnswerAddsNothing | src/utils/quizUtils.ts:40-47 | an answer whose question id finds no question, or whose option id finds no option of that question, adds nothing to the score and raises no error |
| QuizUtils.ScoreAtMostQuestions | src/utils/quizUtils.ts:33-52 | with one answer per question id, the score is at most the number of questions |
| QuizUtils.NatToString | src/utils/quizUtils.ts:58 | `toString` of a non-negative integer is a non-empty string of decimal digits: `"0"` for zero, and never a leading zero otherwise |
| QuizUtils.IntToString | src/utils/quizUtils.ts:58 | `toString` of an integer: digits reading back as the number, after a minus sign when negative |
| QuizUtils.JsRemainder | src/utils/quizUtils.ts:57 | the remainder takes the sign of the dividend, is smaller than the divisor in magnitude, and completes the division truncated toward zero |
| QuizUtils.FormatTime | src/utils/quizUtils.ts:55-59 | the `mm:ss` rendering; `FormatTimeRoundTrip` states its shape and read-back, `FormatTimeExamples` two outputs |
| QuizUtils.PadStart2 | src/utils/quizUtils.ts:58 | `padStart(2, "0")` gives at least two characters, keeps the input as a suffix, and puts only zeros in front |
| QuizUtils.PaddedNat | src/utils/quizUtils.ts:58 | a padded non-negative number is all digits, has exactly two of them below 100, and reads back as the number |
| QuizUtils.FormatTimeRoundTrip | src/utils/quizUtils.ts:55-59 | for non-negative seconds the output is digits, a colon and two digits; reading both back gives a seconds part below 60 and recovers the input |
| QuizUtils.FormatTimeExamples | src/utils/quizUtils.ts:55-59 | 65 seconds format as `01:05` and 59 as `00:59` |
| QuizUtils.CorrectCountOne | src/utils/quizUtils.ts:69-70 | exactly one option is marked correct if and only if some index is correct and no other is |
| QuizUtils.IsQuestionComplete | src/utils/quizUtils.ts:62-71 | the question validator; `QuestionCompleteIff` states both directions of its conditions |
| QuizUtils.IsQuizComplete | src/utils/quizUtils.ts:74-79 | the quiz validator; `QuizIncompleteCases` states each early return and the every-question condition |
| QuizUtils.QuestionCompleteIff | src/utils/quizUtils.ts:62-71 | a question is complete exactly when its text and every option text are non-blank and exactly one option is correct |
| QuizUtils.QuizIncompleteCases | src/utils/quizUtils.ts:74-79 | a blank title or description, or no questions, makes a quiz incomplete; otherwise it is complete exactly when every question is |
| LocalStorage.Initialize | src/services/localStorageService.ts:5-32 | every absent key is written (empty lists, the two seeded users, an empty session) and every present key is kept |
| LocalStorage.InitializeIdempotent | src/services/localStorageService.ts:5-32 | a second initialization changes nothing |
| LocalStorage.SeedUsers | src/services/localStorageService.ts:13-26 | the two default accounts; `FirstRunSeeds` and `SeededAdminLogin` state how start-up and login use them |
| LocalStorage.FirstRunSeeds | src/services/localStorageService.ts:12-28 | an empty storage is seeded with exactly the admin and student accounts |
| LocalStorage.SeededAdminLogin | src/services/localStorageService.ts:62-70 | on the seeded users the admin e-mail finds the admin account |
| LocalStorage.LoginIgnoresCase | src/services/localStorageService.ts:64 | two e-mails equal after lower-casing find the same account |
| LocalStorage.UnseededLoginFails | src/services/localStorageService.ts:62-70 | on a first-run store, any e-mail that differs (ignoring case) from every seeded account's e-mail finds nobody |
| LocalStorage.NobodyLoginFails | src/services/localStorageService.ts:62-70 | the concrete address `nobody@example.com` matches no seeded account |
| LocalStorage.Store.constructor | src/services/localStorageService.ts:34-35 | the store holds the initialized contents of the saved keys |
| LocalStorage.Store.GetUserById | src/services/localStorageService.ts:43-46 | a found user is the first stored user with that id; nothing is found exactly when no user has that id |
| LocalStorage.Store.GetCurrentUser | src/services/localStorageService.ts:48-52 | no user for an empty session; otherwise the stored user the session names, or none when no user has that id |
| LocalStorage.Store.SetCurrentUser | src/services/localStorageService.ts:54-56 | the session names the given id |
| LocalStorage.Store.Logout | src/services/localStorageService.ts:58-60 | the session is empty and there is no current user |
| LocalStorage.Store.UserByEmail | src/services/localStorageService.ts:63-64 | a found user is the first stored user whose e-mail matches ignoring case; nothing is found exactly when no e-mail matches |
| LocalStorage.Store.AuthenticateUser | src/services/localStorageService.ts:62-70 | on a match the matched user is returned and the session names it; without one, null is returned and the session is untouched |
| LocalStorage.Store.GetQuizById | src/services/localStorageService.ts:78-81 | a found quiz is the first stored quiz with that id; nothing is found exactly when no quiz has that id |
| LocalStorage.Store.SaveQuiz | src/services/localStorageService.ts:83-95 | the quiz replaces the first one with its id or is appended; a lookup of its id then finds it; quizzes with other ids are unchanged and in order |
| LocalStorage.Store.DeleteQuiz | src/services/localStorageService.ts:97-106 | true exactly when a quiz had that id; then every such quiz is removed and the rest kept in order; afterwards none has the id; results are untouched |
| LocalStorage.Store.GetQuizResultById | src/services/localStorageService.ts:114-117 | a found result is the first stored result with that id; nothing is found exactly when no result has that id |
| LocalStorage.Store.GetQuizResultsByUser | src/services/localStorageService.ts:119-122 | exactly the stored results of that user |
| LocalStorage.Store.GetQuizResultsByQuiz | src/services/localStorageService.ts:124-127 | exactly the stored results on that quiz |
| LocalStorage.Store.SaveQuizResult | src/services/localStorageService.ts:129-141 | upsert by id: a lookup of the id then finds the result, and a new id is appended at the end |
| EditQuiz.WithQuizField | src/pages/admin/EditQuiz.tsx:41-45 | the edited key reads back the new value and every other key is kept |
| EditQuiz.WithQuestionField | src/pages/admin/EditQuiz.tsx:47-56 | the edited key of the question reads back the new value; the other key and the options are kept |
| EditQuiz.MarkOnlyCorrect | src/pages/admin/EditQuiz.tsx:68-72 | after resetting every option and marking option j, j is the only correct option; ids and texts are kept |
| EditQuiz.Splice | src/pages/admin/EditQuiz.tsx:88-89 | `splice(i, 1)` removes element i and shifts the rest, or changes nothing past the end |
| EditQuiz.MarkingCompletesQuestion | src/pages/admin/EditQuiz.tsx:66-75 | marking one option correct on a question with non-blank texts makes it pass the validator |
| EditQuiz.AddedQuestionBlocksSave | src/pages/admin/EditQuiz.tsx:77-84 | a quiz with a freshly added question is incomplete, so it cannot be saved |
| EditQuiz.QuizEditor.constructor | src/pages/admin/EditQuiz.tsx:24-39 | nothing is loaded and the editor is loading |
| EditQuiz.QuizEditor.Load | src/pages/admin/EditQuiz.tsx:24-39 | loads the stored quiz, or redirects to the admin dashboard when the id is unknown; loading ends either way |
| EditQuiz.QuizEditor.SetQuizField | src/pages/admin/EditQuiz.tsx:41-45 | a loaded quiz gets the field set; without one nothing changes |
| EditQuiz.QuizEditor.SetQuestionField | src/pages/admin/EditQuiz.tsx:47-56 | only question i changes, and only in the edited field |
| EditQuiz.QuizEditor.SetOptionText | src/pages/admin/EditQuiz.tsx:58-64 | only the text of option j of question i changes |
| EditQuiz.QuizEditor.SetCorrectOption | src/pages/admin/EditQuiz.tsx:66-75 | option j becomes the only correct option of question i; ids, texts and other questions are kept |
| EditQuiz.QuizEditor.AddQuestion | src/pages/admin/EditQuiz.tsx:77-84 | a blank question is appended |
| EditQuiz.QuizEditor.RemoveQuestion | src/pages/admin/EditQuiz.tsx:86-92 | question i is spliced out only while there are two or more, so a non-empty quiz stays non-empty |
| EditQuiz.QuizEditor.Save | src/pages/admin/EditQuiz.tsx:94-121 | the store is written, and the editor returns to the admin dashboard, exactly for a loaded complete quiz; otherwise the store is untouched |
| TakeQuiz.SelectedFor | src/pages/student/TakeQuiz.tsx:72 | nothing is read exactly when no entry names the question; a read value is an entry for it |
| TakeQuiz.HasSelection | src/pages/student/TakeQuiz.tsx:71-72 | the truthiness guard of `handleNext`; `TakeQuiz.QuizSession.Next` states that nothing changes without it |
| TakeQuiz.Select | src/pages/student/TakeQuiz.tsx:60-65 | the spread update of the selection map; `SelectThenRead`, `SelectKeepsOtherQuestions` and `SelectKeepsKeysDistinct` state its read-back, frame and key invariant |
| TakeQuiz.SelectThenRead | src/pages/student/TakeQuiz.tsx:60-65 | after selecting, the question reads back the new option |
| TakeQuiz.SelectKeepsOtherQuestions | src/pages/student/TakeQuiz.tsx:60-65 | selecting for one question leaves every other question's selection unchanged |
| TakeQuiz.SelectKeepsKeysDistinct | src/pages/student/TakeQuiz.tsx:60-65 | the selection map never holds two entries for the same question |
| TakeQuiz.ToAnswer | src/pages/student/TakeQuiz.tsx:98-107 | an answer copies the ids and is flagged correct exactly when `calculateScore` would give it a point |
| TakeQuiz.BuildAnswers | src/pages/student/TakeQuiz.tsx:98-107 | one answer per selection, in entry order |
| TakeQuiz.AsSelections | src/pages/student/TakeQuiz.tsx:110 | projecting answers keeps their number and their ids |
| TakeQuiz.AnswersRoundTrip | src/pages/student/TakeQuiz.tsx:98-112 | projecting the built answers gives back exactly the selections |
| TakeQuiz.FlagCountMatchesEarnings | src/pages/student/TakeQuiz.tsx:98-107 | the answers flagged correct are as many as the selections that earn a point |
| TakeQuiz.ScoreMatchesAnswerFlags | src/pages/student/TakeQuiz.tsx:98-112 | the stored score equals the number of stored answers flagged correct |
| TakeQuiz.ResultFor | src/pages/student/TakeQuiz.tsx:114-123 | the result records the quiz, user, time and answers; its score counts the correct answers, and is between 0 and the question count |
| TakeQuiz.QuizSession.constructor | src/pages/student/TakeQuiz.tsx:19-25 | the initial page state: no quiz, first question, nothing selected, no time, no result, loading |
| TakeQuiz.QuizSession.Load | src/pages/student/TakeQuiz.tsx:32-47 | the stored quiz is loaded and loading ends, or the page redirects to the student dashboard |
| TakeQuiz.QuizSession.Tick | src/pages/student/TakeQuiz.tsx:50-58 | a second is counted only while a quiz is loaded and unfinished |
| TakeQuiz.QuizSession.OptionSelect | src/pages/student/TakeQuiz.tsx:60-65 | the question reads back the option, every other question is unchanged, and the page invariant holds (so no question before the cursor loses its selection) |
| TakeQuiz.QuizSession.Previous | src/pages/student/TakeQuiz.tsx:88-92 | steps back one question, never below the first |
| TakeQuiz.QuizSession.Finish | src/pages/student/TakeQuiz.tsx:94-128 | without a quiz or user nothing changes; otherwise the graded result is stored under its id, appended when new, and the page is finished |
| TakeQuiz.QuizSession.Next | src/pages/student/TakeQuiz.tsx:67-86 | without a selection nothing changes; otherwise the cursor advances, or on the last question the quiz is finished and its result stored when a user is logged in, with an answer for every question of the quiz, and nothing changes without one; the page invariant (every question before the cursor has a selection) holds after each step |
| TakeQuiz.SelectionAnswered | src/pages/student/TakeQuiz.tsx:98-107 | a question with a recorded selection has an answer among the answers built from the selections |
| TakeQuiz.AllQuestionsAnswered | src/pages/student/TakeQuiz.tsx:67-86 | once every question has a selection, the built answers cover every question of the quiz |
| TakeQuiz.QuizSession.Retake | src/pages/student/TakeQuiz.tsx:136-142 | back to the first question with no selections, no time and no result |
| ResultsPage.GetQuestionAndOption | src/pages/student/QuizResults.tsx:50-64 | empty without a quiz or question; the question text alone without the option; otherwise both texts and the option's flag |
| ResultsPage.GetCorrectOptionText | src/pages/student/QuizResults.tsx:66-74 | empty without a quiz or question; for a found question (first match), the text of its first option marked correct, or empty when none is marked; a non-empty text is that of a correct option of the question |
| ResultsPage.CorrectTextOfCompleteQuestion | src/pages/student/QuizResults.tsx:66-74 | for a question with exactly one correct option, the shown correct answer is that option's text |
| ResultsPage.DetailRows | src/pages/student/QuizResults.tsx:116-161 | one row per stored answer, numbered from 1; the badge is the stored flag; the correct answer is shown exactly for an incorrect answer |
| ResultsPage.StoredFlagsMatchLookup | src/pages/student/QuizResults.tsx:116-137 | on a result graded against the same quiz, each stored flag equals the flag looked up again |
| ResultsPage.Load | src/pages/student/QuizResults.tsx:22-48 | an unknown result redirects to the student dashboard; a found one is loaded with the quiz it names, if that quiz still exists |
| ResultsPage.Render | src/pages/student/QuizResults.tsx:76-77 | the details are shown exactly when both the result and its quiz were loaded |
| ResultsPage.OrphanedResultNotFound | src/pages/student/QuizResults.tsx:28-37 | a result whose quiz was deleted shows "Result not found" without a redirect |
| AdminDashboardPage.AdminQuizzes | src/pages/admin/Dashboard.tsx:28 | exactly the stored quizzes the admin created |
| AdminDashboardPage.HasQuizId | src/pages/admin/Dashboard.tsx:34 | `some` holds exactly when `find` for that quiz id finds a quiz |
| AdminDashboardPage.GetResultsFor | src/pages/admin/Dashboard.tsx:74 | exactly the stored results on that quiz, and only stored ones |
| AdminDashboardPage.RelevantResults | src/pages/admin/Dashboard.tsx:32-35 | exactly the stored results on one of the admin's quizzes |
| AdminDashboardPage.AverageScore | src/pages/admin/Dashboard.tsx:65-67 | the rounded mean score; `AveragesWithin` states its 0-for-empty case and bounds |
| AdminDashboardPage.AverageTime | src/pages/admin/Dashboard.tsx:68-70 | the rounded mean time; `AveragesWithin` states its 0-for-empty case and bounds |
| AdminDashboardPage.TimeDistribution | src/pages/admin/Dashboard.tsx:85-90 | the four time buckets; `TimeBucketsCoverAttempts` states that they count every attempt once |
| AdminDashboardPage.ScoreDistribution | src/pages/admin/Dashboard.tsx:93-98 | the score buckets as written, on the raw score; `ScoreBucketsCount`, `ScoreBucketsMissAbove100` and `FullMarksCountedAsLowest` state what they count |
| AdminDashboardPage.Percent | src/pages/admin/Dashboard.tsx:93-98 | the rounded percentage the bucket labels name; `PercentInRange` bounds it |
| AdminDashboardPage.PercentDistribution | src/pages/admin/Dashboard.tsx:93-98 | the corrected buckets by percentage; `PercentBucketsCoverAttempts` states that they count every valid attempt once |
| AdminDashboardPage.AveragesWithin | src/pages/admin/Dashboard.tsx:64-70 | both averages are 0 without results, and otherwise lie within any bounds on the individual scores and times |
| AdminDashboardPage.TimeBucketsCoverAttempts | src/pages/admin/Dashboard.tsx:85-90 | the four time buckets together count every attempt exactly once |
| AdminDashboardPage.ScoreBucketsCount | src/pages/admin/Dashboard.tsx:93-98 | the raw-score buckets plus the scores above 100 count every attempt exactly once |
| AdminDashboardPage.ScoreBucketsMissAbove100 | src/pages/admin/Dashboard.tsx:93-98 | the raw-score buckets count every attempt if and only if no score exceeds 100 |
| AdminDashboardPage.PercentInRange | src/pages/admin/Dashboard.tsx:93-98 | a score between 0 and the question count is a rounded percentage between 0 and 100 |
| AdminDashboardPage.PercentBucketsCoverAttempts | src/pages/admin/Dashboard.tsx:93-98 | bucketed by percentage, every attempt with a score between 0 and its question count is counted exactly once |
| AdminDashboardPage.FullMarksCountedAsLowest | src/pages/admin/Dashboard.tsx:93-98 | a 4-out-of-4 attempt falls in the "0-25%" bucket as written and in "76-100%" by percentage |
| AdminDashboardPage.Label | src/pages/admin/Dashboard.tsx:76 | a title of up to 15 characters is kept; a longer one becomes its first 15 characters plus "..." |
| AdminDashboardPage.StatFor | src/pages/admin/Dashboard.tsx:73-82 | the label, the number of attempts on the quiz, and an average of 0 without attempts |
| AdminDashboardPage.StatAverageWithin | src/pages/admin/Dashboard.tsx:78-80 | a quiz's average score lies within any bounds on the individual scores |
| AdminDashboardPage.QuizAttemptsData | src/pages/admin/Dashboard.tsx:73-82 | one entry per admin quiz, in quiz order |
| AdminDashboardPage.AttemptsAddUp | src/pages/admin/Dashboard.tsx:64-82 | with distinct quiz ids, the per-quiz attempt counts add up to the total attempts |
| AdminDashboardPage.InsertNewest | src/pages/admin/Dashboard.tsx:358 | inserting adds exactly one element |
| AdminDashboardPage.InsertKeepsNewestFirst | src/pages/admin/Dashboard.tsx:358 | inserting into a newest-first list keeps it newest first |
| AdminDashboardPage.SortNewestFirst | src/pages/admin/Dashboard.tsx:358 | the sort is a permutation, newest first |
| AdminDashboardPage.Recent | src/pages/admin/Dashboard.tsx:358 | the recent view holds the first six (or all, if fewer) of the sorted quizzes, newest first |
| AdminDashboardPage.RecentIsNewest | src/pages/admin/Dashboard.tsx:358 | the recent view is drawn from the quizzes, and none left out is newer than one shown |
| AdminDashboardPage.Shown | src/pages/admin/Dashboard.tsx:358 | "all" shows the quizzes unchanged; "recent" shows at most six, newest first |
| AdminDashboardPage.Dashboard.constructor | src/pages/admin/Dashboard.tsx:24-38 | no quizzes and no results before loading |
| AdminDashboardPage.Dashboard.Load | src/pages/admin/Dashboard.tsx:24-38 | with a user, its own quizzes and the results on them; without one, nothing changes |
| AdminDashboardPage.Dashboard.TotalAttempts | src/pages/admin/Dashboard.tsx:64 | the number of loaded results; `AttemptsAddUp` states that the per-quiz counts add up to it |
| AdminDashboardPage.Dashboard.DeleteQuiz | src/pages/admin/Dashboard.tsx:40-57 | when confirmed and found, the quiz leaves both the store and the list; otherwise neither changes; loaded results are kept |
| StudentDashboardPage.Pair | src/pages/student/Dashboard.tsx:43-48 | each kept result is paired with the first stored quiz of its id, and nothing is added |
| StudentDashboardPage.ResultsOf | src/pages/student/Dashboard.tsx:43-48 | the results of the attempts, in order |
| StudentDashboardPage.PairDropsOnlyOrphans | src/pages/student/Dashboard.tsx:40-48 | the attempted list holds exactly the user's results whose quiz still exists, in order |
| StudentDashboardPage.Attempted | src/pages/student/Dashboard.tsx:40-48 | the user's results paired with the stored quizzes; `PairDropsOnlyOrphans` states what it keeps |
| StudentDashboardPage.HasAttempted | src/pages/student/Dashboard.tsx:240 | the attempted test of a quiz card; `AttemptedIff` states both directions |
| StudentDashboardPage.AttemptedIff | src/pages/student/Dashboard.tsx:240 | a quiz counts as attempted if and only if the student has a result on it and the quiz is stored |
| StudentDashboardPage.ButtonLabel | src/pages/student/Dashboard.tsx:258 | "Retake Quiz" exactly for an attempted quiz, "Start Quiz" exactly otherwise |
| StudentDashboardPage.RecentPerformance | src/pages/student/Dashboard.tsx:191 | a prefix of the attempts: exactly three when there are at least three, and all of them when there are at most three |
| StudentDashboardPage.TenfoldSum | src/pages/student/Dashboard.tsx:55-60 | summing ten times each score gives ten times the total score |
| StudentDashboardPage.ComputeStats | src/pages/student/Dashboard.tsx:53-64 | the statistics of a non-empty attempt list; `StatsAveragesWithin` bounds both averages |
| StudentDashboardPage.StatsAveragesWithin | src/pages/student/Dashboard.tsx:53-64 | the average score (in tenths) and the average time lie within any bounds on the individual values |
| StudentDashboardPage.ScoreDistributionData | src/pages/student/Dashboard.tsx:78-85 | the correct/incorrect slices; `SlicesAddUp` states their sum and the sign of the incorrect slice |
| StudentDashboardPage.SlicesAddUp | src/pages/student/Dashboard.tsx:78-85 | the correct and incorrect slices add up to the questions answered, and the incorrect slice is non-negative when no score exceeds its question count |
| StudentDashboardPage.Dashboard.constructor | src/pages/student/Dashboard.tsx:21-29 | no quizzes, no attempts and zero statistics before loading |
| StudentDashboardPage.Dashboard.Load | src/pages/student/Dashboard.tsx:33-67 | with a user: all quizzes, the paired attempts, and statistics recomputed only when something was attempted |
| Auth.AuthContext.constructor | src/contexts/AuthContext.tsx:19 | nobody is logged in |
| Auth.AuthContext.IsAuthenticated | src/contexts/AuthContext.tsx:67 | `!!user`: authenticated exactly while a user is held; `Auth.AuthContext.Login`, `Auth.AuthContext.Logout` and `Auth.AuthContext.IsAdmin` state when it holds |
| Auth.AuthContext.IsAdmin | src/contexts/AuthContext.tsx:66-67 | `isAdmin` holds for a logged-in admin, and every admin is authenticated |
| Auth.AuthContext.Restore | src/contexts/AuthContext.tsx:23-29 | a stored session's user is restored; otherwise the user is kept |
| Auth.AuthContext.Login | src/contexts/AuthContext.tsx:31-48 | true exactly when an e-mail matches; then the user and the session are that account, the context is authenticated, it is an admin exactly for an admin account, and the page goes to its role's dashboard; otherwise nothing changes |
| Auth.AuthContext.Logout | src/contexts/AuthContext.tsx:50-58 | nobody is logged in, neither flag holds, the stored session id is the empty string so the session reads back as nobody, and the page goes home |
| Auth.Guard | src/components/ProtectedRoute.tsx:11-24 | a visitor goes to the login page; a user of the wrong role goes to its own dashboard; everyone else sees the page |
| Auth.GuardRendersIff | src/components/ProtectedRoute.tsx:11-24 | the page is shown if and only if the user is logged in and has the required role, if one is required |
| Auth.RequiredRole | src/App.tsx:36-84 | the admin dashboard requires an admin, the student dashboard a student, and the public pages nobody |
| Auth.LandingPassesGuard | src/App.tsx:36-84 | a user sent to their own dashboard, by a login or a redirect, is let in there, so redirects never loop |

## Left out

- Storage is kept as parsed values. JSON serialization and the browser's `localStorage` API are not modelled, and neither is a corrupt or hand-edited key.
- `getUsers`, `getQuizzes` and `getQuizResults` are plain reads of the `Store` fields, because they only parse a key.
- The page timer's `setInterval` scheduling is not modelled. Each tick is a call to `TakeQuiz.QuizSession.Tick`.
- `uuidv4()` and `new Date()` are parameters: `QuestionIds`, result ids, and `createdAt`/`completedAt` as integers. Their freshness is not modelled.
- Toasts, `window.confirm`, rendering and layout are left out. Navigation is a returned route, and confirmation is a boolean parameter.
- The presentational files (pages other than the ones named here, UI components, hooks) are not part of this model, and neither is the quiz-creation page.
- QuizTypes.Lower: lower-cases ASCII letters only, because JavaScript's `toLowerCase` Unicode case mapping has no counterpart here.
- AdminDashboardPage.Label: counts characters, while JavaScript's `length` and `substring` count UTF-16 code units.
- StudentDashboardPage.ComputeStats: keeps `averageScore` in tenths as an integer. The source computes `Math.round((total / n) * 10) / 10` in floating point.
- The admin dashboard's seven-day activity chart and the percentages drawn on the pie charts are not modelled, because they are display-only arithmetic on dates and floats.
- AdminDashboardPage.TimeOf: `timeSpent || 0` is the time itself, because a modelled result always has a numeric time.
- EditQuiz.QuizEditor.SetQuestionField: only the string-valued question keys (`id`, `text`) are settable. The source's `keyof Question` would also let `options` be overwritten by a string.
- EditQuiz.QuizEditor.SetQuizField: only the string-valued quiz keys are settable. The source's `keyof Quiz` would also let `questions` or `createdAt` be overwritten by a string.
- EditQuiz.QuizEditor.SetOptionText: requires indices in range. The source would throw on a missing question.
- EditQuiz.QuizEditor.SetCorrectOption: requires indices in range. The source would throw on a missing question.
- EditQuiz.QuizEditor.SetQuestionField: requires an in-range index. The source would otherwise create a sparse slot.
- EditQuiz.QuizEditor.SetOptionText: the source mutates option objects shared with the previous state. The model builds new values, so that aliasing is not captured.
- EditQuiz.QuizEditor.SetCorrectOption: the source mutates option objects shared with the previous state. The model builds new values, so that aliasing is not captured.
- TakeQuiz.QuizSession.Next: requires a quiz with at least one question, because the source reads `quiz.questions[currentQuestion].id` and throws on an empty quiz.
- TakeQuiz.QuizSession.Load: requires that no quiz is loaded yet. It models the mount effect, not a re-run with a changed route id.
- TakeQuiz.Select: keeps selection entries in insertion order. That is the `Object.entries` order for the non-numeric ids the app generates; integer-like keys would be reordered.
- AdminDashboardPage.SortNewestFirst: is proved sorted and a permutation, but not stable, although it is built by stable insertion.

## Findings

| source | as written | input that shows it | evidently intended | confidence | as-written member | corrected member |
|---|---|---|---|---|---|---|
| src/pages/admin/Dashboard.tsx:93-98 | the score histogram labelled "0-25%" … "76-100%" compares the raw score (a count of correct answers) against 25, 50, 75 and 100 | one result with score 4 of 4 questions (100%) is counted under "0-25%" | bucket by the percentage `Math.round(score / totalQuestions * 100)` | not executed | AdminDashboardPage.FullMarksCountedAsLowest | AdminDashboardPage.PercentBucketsCoverAttempts |
