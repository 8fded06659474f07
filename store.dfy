/**
 * The client-side entity store of `src/services/localStorageService.ts`:
 * three id-keyed collections and the current-session id. Each key holds a
 * serialized list that is parsed on every read and rewritten on every write;
 * the model keeps the parsed values, so a write followed by a read is the
 * identity.
 */
module LocalStorage {
  import opened Seqs
  import opened QuizTypes

  /** What the four storage keys held before start-up; `None` for an absent key. */
  datatype Saved = Saved(
    users: Maybe<seq<User>>,
    quizzes: Maybe<seq<Quiz>>,
    results: Maybe<seq<QuizResult>>,
    currentUser: Maybe<string>)

  /** The two accounts written on first run. */
  function SeedUsers(): seq<User>
  {
    [ User("1", "Admin User", "admin@example.com", Admin),
      User("2", "Student User", "student@example.com", Student) ]
  }

  /**
   * `initializeLocalStorage`: every absent key is written (empty lists, the
   * two seeded users, an empty session); every present key is left alone.
   */
  function Initialize(saved: Saved): (r: Saved)
    ensures r.users.Some? && r.quizzes.Some? && r.results.Some? && r.currentUser.Some?
    ensures saved.users.Some? ==> r.users == saved.users
    ensures saved.quizzes.Some? ==> r.quizzes == saved.quizzes
    ensures saved.results.Some? ==> r.results == saved.results
    ensures saved.currentUser.Some? ==> r.currentUser == saved.currentUser
    ensures saved.users.None? ==> r.users.value == SeedUsers()
    ensures saved.quizzes.None? ==> r.quizzes.value == []
    ensures saved.results.None? ==> r.results.value == []
    ensures saved.currentUser.None? ==> r.currentUser.value == ""
  {
    Saved(
      Some(if saved.users.Some? then saved.users.value else SeedUsers()),
      Some(if saved.quizzes.Some? then saved.quizzes.value else []),
      Some(if saved.results.Some? then saved.results.value else []),
      // an empty session id is falsy and is rewritten with the same empty value
      Some(if saved.currentUser.Some? then saved.currentUser.value else ""))
  }

  /** Initialization writes nothing on a second run. */
  lemma InitializeIdempotent(saved: Saved)
    ensures Initialize(Initialize(saved)) == Initialize(saved)
  {
  }

  /** The e-mail test of `authenticateUser`: equal after lower-casing both sides. */
  function EmailMatches(email: string): User -> bool
  {
    (u: User) => Lower(u.email) == Lower(email)
  }

  class Store {
    var users: seq<User>
    var quizzes: seq<Quiz>
    var results: seq<QuizResult>
    /** The session id; "" when nobody is logged in. */
    var currentUser: string

    /** Loads the keys as they are after `initializeLocalStorage` has run on `saved`. */
    constructor (saved: Saved)
      ensures Saved(Some(users), Some(quizzes), Some(results), Some(currentUser)) == Initialize(saved)
    {
      var init := Initialize(saved);
      users := init.users.value;
      quizzes := init.quizzes.value;
      results := init.results.value;
      currentUser := init.currentUser.value;
    }

    // ------------------------------------------------------------- users

    /** `getUserById`: the first user with that id. */
    function GetUserById(id: string): (r: Maybe<User>)
      reads this
      ensures r.Some? ==> r.value in users && r.value.id == id
      ensures r.Some? ==> exists i :: 0 <= i < |users| && users[i] == r.value && forall k :: 0 <= k < i ==> users[k].id != id
      ensures r.None? <==> forall k :: 0 <= k < |users| ==> users[k].id != id
    {
      Find(users, UserHasId(id))
    }

    /** `getCurrentUser`: null for an empty session id or one that names no user. */
    function GetCurrentUser(): (r: Maybe<User>)
      reads this
      ensures currentUser == "" ==> r.None?
      ensures r.Some? ==> r.value in users && r.value.id == currentUser
      ensures r.None? && currentUser != "" ==> forall k :: 0 <= k < |users| ==> users[k].id != currentUser
    {
      if currentUser == "" then None else GetUserById(currentUser)
    }

    method SetCurrentUser(userId: string)
      modifies this`currentUser
      ensures currentUser == userId
    {
      currentUser := userId;
    }

    /** `logout`: empties the session, after which there is no current user. */
    method Logout()
      modifies this`currentUser
      ensures currentUser == ""
      ensures GetCurrentUser().None?
    {
      currentUser := "";
    }

    /** The first user whose e-mail equals `email` ignoring case. */
    function UserByEmail(email: string): (r: Maybe<User>)
      reads this
      ensures r.Some? ==> r.value in users && Lower(r.value.email) == Lower(email)
      ensures r.Some? ==> exists i :: 0 <= i < |users| && users[i] == r.value && forall k :: 0 <= k < i ==> Lower(users[k].email) != Lower(email)
      ensures r.None? <==> forall k :: 0 <= k < |users| ==> Lower(users[k].email) != Lower(email)
    {
      Find(users, EmailMatches(email))
    }

    /**
     * `authenticateUser`: on a match, the session names the matched user; on
     * no match, the result is null and the session is untouched.
     */
    method AuthenticateUser(email: string) returns (r: Maybe<User>)
      modifies this`currentUser
      ensures r == old(UserByEmail(email))
      ensures r.Some? ==> currentUser == r.value.id
      ensures r.None? ==> currentUser == old(currentUser)
    {
      r := UserByEmail(email);
      if r.Some? {
        SetCurrentUser(r.value.id);
      }
    }

    // ----------------------------------------------------------- quizzes

    /** `getQuizById`: the first quiz with that id. */
    function GetQuizById(id: string): (r: Maybe<Quiz>)
      reads this
      ensures r.Some? ==> r.value in quizzes && r.value.id == id
      ensures r.Some? ==> exists i :: 0 <= i < |quizzes| && quizzes[i] == r.value && forall k :: 0 <= k < i ==> quizzes[k].id != id
      ensures r.None? <==> forall k :: 0 <= k < |quizzes| ==> quizzes[k].id != id
    {
      Find(quizzes, QuizHasId(id))
    }

    /**
     * `saveQuiz`: replaces the first quiz with the same id at its index, or
     * appends; the quiz is then what a lookup of its id finds, every quiz with
     * another id keeps its place, and the argument is returned.
     */
    method SaveQuiz(quiz: Quiz) returns (saved: Quiz)
      modifies this`quizzes
      ensures saved == quiz
      ensures quizzes == Upsert(old(quizzes), QuizHasId(quiz.id), quiz)
      ensures GetQuizById(quiz.id) == Some(quiz)
      ensures Filter(quizzes, Not(QuizHasId(quiz.id))) == Filter(old(quizzes), Not(QuizHasId(quiz.id)))
    {
      var existingIndex := FindIndex(quizzes, QuizHasId(quiz.id));
      if existingIndex.Some? {
        quizzes := quizzes[existingIndex.value := quiz];
      } else {
        quizzes := quizzes + [quiz];
      }
      UpsertThenFind(old(quizzes), QuizHasId(quiz.id), quiz);
      UpsertKeepsOthers(old(quizzes), QuizHasId(quiz.id), quiz);
      saved := quiz;
    }

    /**
     * `deleteQuiz`: removes every quiz with that id, keeping the rest in order,
     * and reports whether the list shrank. Results are never touched.
     */
    method DeleteQuiz(id: string) returns (deleted: bool)
      modifies this`quizzes
      ensures deleted <==> old(GetQuizById(id)).Some?
      ensures deleted ==> quizzes == Filter(old(quizzes), Not(QuizHasId(id)))
      ensures !deleted ==> quizzes == old(quizzes)
      ensures GetQuizById(id).None?
      ensures results == old(results)
    {
      var filteredQuizzes := Filter(quizzes, Not(QuizHasId(id)));
      FilterShrinks(quizzes, Not(QuizHasId(id)));
      if |filteredQuizzes| < |quizzes| {
        quizzes := filteredQuizzes;
        deleted := true;
      } else {
        deleted := false;
      }
    }

    // ----------------------------------------------------------- results

    /** `getQuizResultById`: the first result with that id. */
    function GetQuizResultById(id: string): (r: Maybe<QuizResult>)
      reads this
      ensures r.Some? ==> r.value in results && r.value.id == id
      ensures r.Some? ==> exists i :: 0 <= i < |results| && results[i] == r.value && forall k :: 0 <= k < i ==> results[k].id != id
      ensures r.None? <==> forall k :: 0 <= k < |results| ==> results[k].id != id
    {
      Find(results, ResultHasId(id))
    }

    /** `getQuizResultsByUser`: the stored results of that user, in stored order. */
    function GetQuizResultsByUser(userId: string): (r: seq<QuizResult>)
      reads this
      ensures forall k :: 0 <= k < |r| ==> r[k].userId == userId && r[k] in results
      ensures forall k :: 0 <= k < |results| && results[k].userId == userId ==> results[k] in r
    {
      Filter(results, ResultOfUser(userId))
    }

    /** `getQuizResultsByQuiz`: the stored results for that quiz, in stored order. */
    function GetQuizResultsByQuiz(quizId: string): (r: seq<QuizResult>)
      reads this
      ensures forall k :: 0 <= k < |r| ==> r[k].quizId == quizId && r[k] in results
      ensures forall k :: 0 <= k < |results| && results[k].quizId == quizId ==> results[k] in r
    {
      Filter(results, ResultOfQuiz(quizId))
    }

    /** `saveQuizResult`: the same upsert by id as `saveQuiz`, on the results. */
    method SaveQuizResult(result: QuizResult) returns (saved: QuizResult)
      modifies this`results
      ensures saved == result
      ensures results == Upsert(old(results), ResultHasId(result.id), result)
      ensures Find(results, ResultHasId(result.id)) == Some(result)
      ensures Find(old(results), ResultHasId(result.id)).None? ==> results == old(results) + [result]
    {
      var existingIndex := FindIndex(results, ResultHasId(result.id));
      if existingIndex.Some? {
        results := results[existingIndex.value := result];
      } else {
        results := results + [result];
      }
      UpsertThenFind(old(results), ResultHasId(result.id), result);
      saved := result;
    }
  }

  /** On an empty store, start-up seeds the admin and student accounts and nothing else. */
  lemma FirstRunSeeds()
    ensures Initialize(Saved(None, None, None, None)) == Saved(Some(SeedUsers()), Some([]), Some([]), Some(""))
  {
  }

  /** On the seeded users, the admin address finds the admin account. */
  lemma SeededAdminLogin()
    ensures Find(SeedUsers(), EmailMatches("admin@example.com")) == Some(SeedUsers()[0])
  {
    assert EmailMatches("admin@example.com")(SeedUsers()[0]);
    assert FindIndex(SeedUsers(), EmailMatches("admin@example.com")) == Some(0);
  }

  /** Two addresses that agree after lower-casing find the same account. */
  lemma LoginIgnoresCase(users: seq<User>, typed: string, other: string)
    requires Lower(typed) == Lower(other)
    ensures Find(users, EmailMatches(typed)) == Find(users, EmailMatches(other))
  {
    FindIndexSamePredicate(users, EmailMatches(typed), EmailMatches(other));
  }

  /** Any address that differs, ignoring case, from every seeded e-mail finds no seeded account. */
  lemma UnseededLoginFails(email: string)
    requires forall k :: 0 <= k < |SeedUsers()| ==> Lower(SeedUsers()[k].email) != Lower(email)
    ensures Find(SeedUsers(), EmailMatches(email)).None?
  {
  }

  /** An instance: `nobody@example.com` is not a seeded account. */
  lemma NobodyLoginFails()
    ensures Find(SeedUsers(), EmailMatches("nobody@example.com")).None?
  {
    var users := SeedUsers();
    assert Lower("nobody@example.com")[0] != Lower(users[0].email)[0];
    assert Lower("nobody@example.com")[0] != Lower(users[1].email)[0];
  }
}
