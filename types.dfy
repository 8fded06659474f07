/**
 * The entities of the quiz application (users, quizzes with their questions
 * and options, and quiz results), the id predicates used to look them up, and
 * the two string tests the application applies to user text: "blank after
 * trim" and lower-casing for e-mail comparison.
 */
module QuizTypes {
  import opened Seqs

  datatype Role = Admin | Student

  datatype User = User(id: string, name: string, email: string, role: Role)

  datatype Option = Option(id: string, text: string, isCorrect: bool)

  datatype Question = Question(id: string, text: string, options: seq<Option>)

  /** `createdAt` is a timestamp, kept as an integer. */
  datatype Quiz = Quiz(
    id: string,
    title: string,
    description: string,
    questions: seq<Question>,
    createdBy: string,
    createdAt: int)

  /** One recorded answer of an attempt. */
  datatype Answer = Answer(questionId: string, selectedOptionId: string, isCorrect: bool)

  /** One attempt; `timeSpent` is in seconds, `completedAt` a timestamp. */
  datatype QuizResult = QuizResult(
    id: string,
    quizId: string,
    userId: string,
    score: int,
    totalQuestions: int,
    timeSpent: int,
    completedAt: int,
    answers: seq<Answer>)

  // Lookup predicates, one per `find(x => x.field === value)` of the source.

  function UserHasId(id: string): User -> bool { (u: User) => u.id == id }

  function QuizHasId(id: string): Quiz -> bool { (q: Quiz) => q.id == id }

  function QuestionHasId(id: string): Question -> bool { (q: Question) => q.id == id }

  function OptionHasId(id: string): Option -> bool { (o: Option) => o.id == id }

  function ResultHasId(id: string): QuizResult -> bool { (r: QuizResult) => r.id == id }

  function QuizCreatedBy(userId: string): Quiz -> bool { (q: Quiz) => q.createdBy == userId }

  function ResultOfUser(userId: string): QuizResult -> bool { (r: QuizResult) => r.userId == userId }

  function ResultOfQuiz(quizId: string): QuizResult -> bool { (r: QuizResult) => r.quizId == quizId }

  function IsMarkedCorrect(o: Option): bool { o.isCorrect }

  /** The characters `String.prototype.trim` removes (white space and line terminators). */
  predicate IsWhitespace(c: char)
  {
    || c == ' ' || c == '\t' || c == '\n' || c == '\r'
    || c == '\U{000B}' || c == '\U{000C}' || c == '\U{00A0}' || c == '\U{1680}'
    || ('\U{2000}' <= c <= '\U{200A}')
    || c == '\U{2028}' || c == '\U{2029}' || c == '\U{202F}' || c == '\U{205F}'
    || c == '\U{3000}' || c == '\U{FEFF}'
  }

  /** `!s.trim()`: the text is empty once surrounding white space is removed. */
  predicate Blank(s: string)
  {
    forall k :: 0 <= k < |s| ==> IsWhitespace(s[k])
  }

  function LowerChar(c: char): char
  {
    if 'A' <= c <= 'Z' then (c as int + 32) as char else c
  }

  /** `toLowerCase` on the ASCII letters. */
  function Lower(s: string): (r: string)
    ensures |r| == |s|
    ensures forall k :: 0 <= k < |s| ==> r[k] == LowerChar(s[k])
  {
    if s == [] then [] else [LowerChar(s[0])] + Lower(s[1..])
  }
}

/** The application's routes, as far as the logic chooses between them. */
module Routes {
  import opened QuizTypes

  datatype Route = Home | LoginPage | AdminDashboard | StudentDashboard
  {
    function Path(): string
    {
      match this
      case Home => "/"
      case LoginPage => "/login"
      case AdminDashboard => "/admin/dashboard"
      case StudentDashboard => "/student/dashboard"
    }
  }

  /** Where a user of the given role lands: its role's dashboard. */
  function Landing(role: Role): (r: Route)
    ensures r.AdminDashboard? <==> role.Admin?
    ensures r.StudentDashboard? <==> role.Student?
  {
    match role
    case Admin => AdminDashboard
    case Student => StudentDashboard
  }
}
