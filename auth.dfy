/**
 * The session layer: the authentication context of
 * `src/contexts/AuthContext.tsx` (the logged-in user, login and logout) and
 * the role gate of `src/components/ProtectedRoute.tsx`.
 */
module Auth {
  import opened Seqs
  import opened QuizTypes
  import opened LocalStorage
  import opened Routes

  class AuthContext {
    /** The logged-in user; `None` for a visitor. */
    var user: Maybe<User>

    constructor ()
      ensures user.None?
    {
      user := None;
    }

    /** `isAuthenticated`: `!!user`. */
    predicate IsAuthenticated()
      reads this
    {
      user.Some?
    }

    /** `isAdmin`: `user?.role === 'admin'`; every administrator is authenticated. */
    predicate IsAdmin()
      reads this
      ensures IsAdmin() ==> IsAuthenticated()
    {
      user.Some? && user.value.role == Admin
    }

    /** The mount effect: the stored session's user is restored when there is one. */
    method Restore(store: Store)
      modifies this`user
      ensures store.GetCurrentUser().Some? ==> user == store.GetCurrentUser()
      ensures store.GetCurrentUser().None? ==> user == old(user)
    {
      var currentUser := store.GetCurrentUser();
      if currentUser.Some? {
        user := currentUser;
      }
    }

    /**
     * `loginHandler`: on a match the user is set, the store's session names
     * it, the result is true and the page goes to the user's dashboard; with
     * no match the result is false and nothing changes.
     */
    method Login(store: Store, email: string) returns (ok: bool, next: Maybe<Route>)
      modifies this`user, store`currentUser
      ensures ok <==> old(store.UserByEmail(email)).Some?
      ensures ok ==> user == old(store.UserByEmail(email))
      ensures ok ==> store.currentUser == user.value.id && next == Some(Landing(user.value.role))
      ensures ok ==> IsAuthenticated() && (IsAdmin() <==> user.value.role == Admin)
      ensures !ok ==> user == old(user) && store.currentUser == old(store.currentUser) && next.None?
    {
      var authenticatedUser := store.AuthenticateUser(email);
      if authenticatedUser.Some? {
        user := authenticatedUser;
        return true, Some(Landing(authenticatedUser.value.role));
      }
      return false, None;
    }

    /** `logoutHandler`: the store's session and the user are cleared and the page goes home. */
    method Logout(store: Store) returns (next: Route)
      modifies this`user, store`currentUser
      ensures user.None? && !IsAuthenticated() && !IsAdmin()
      ensures store.currentUser == "" && store.GetCurrentUser().None?
      ensures next == Home
    {
      store.Logout();
      user := None;
      next := Home;
    }
  }

  /** What `ProtectedRoute` does: redirect, or show the protected page. */
  datatype Decision = Redirect(to: Route) | Render

  /**
   * `ProtectedRoute`: a visitor goes to the login page; a user without the
   * required role goes to the dashboard of the role it has; everyone else
   * sees the page.
   */
  function Guard(user: Maybe<User>, requiredRole: Maybe<Role>): (d: Decision)
    ensures user.None? ==> d == Redirect(LoginPage)
    ensures user.Some? && requiredRole.Some? && user.value.role != requiredRole.value ==>
      d == Redirect(Landing(user.value.role))
    ensures user.Some? && (requiredRole.None? || user.value.role == requiredRole.value) ==> d == Render
  {
    if user.None? then Redirect(LoginPage)
    else if requiredRole.Some? && user.value.role != requiredRole.value then
      Redirect(if user.value.role == Admin then AdminDashboard else StudentDashboard)
    else Render
  }

  /** The page is shown exactly to an authenticated user whose role is the required one, if any. */
  lemma GuardRendersIff(user: Maybe<User>, requiredRole: Maybe<Role>)
    ensures Guard(user, requiredRole) == Render <==>
      user.Some? && (requiredRole.None? || user.value.role == requiredRole.value)
  {
  }

  /** The role the route table requires of each dashboard. */
  function RequiredRole(route: Route): (r: Maybe<Role>)
    ensures route.AdminDashboard? ==> r == Some(Admin)
    ensures route.StudentDashboard? ==> r == Some(Student)
    ensures route.Home? || route.LoginPage? ==> r.None?
  {
    match route
    case AdminDashboard => Some(Admin)
    case StudentDashboard => Some(Student)
    case _ => None
  }

  /**
   * Redirects never loop: wherever the gate or a login sends a user, the gate
   * of that page lets the user in.
   */
  lemma LandingPassesGuard(u: User, requiredRole: Maybe<Role>)
    ensures Guard(Some(u), RequiredRole(Landing(u.role))) == Render
    ensures Guard(Some(u), requiredRole).Redirect? ==>
      Guard(Some(u), RequiredRole(Guard(Some(u), requiredRole).to)) == Render
  {
    match u.role
    case Admin =>
    case Student =>
  }
}
