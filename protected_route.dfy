/**
 * The route guard of src/routes/ProtectedRoute.jsx: given the session's
 * `isAuthenticated` flag and `user`, and the route's `adminOnly` flag, it
 * either renders the guarded children or redirects.
 */
module ProtectedRoute {
  import opened Wrappers
  import opened AuthContext

  /**
   * A navigation target as its list of path segments: "/" is [] and
   * "/login" is ["login"].
   */
  type Path = seq<string>

  const LoginPath: Path := ["login"]
  const HomePath: Path := []

  /** What the guard yields: its children, or a `<Navigate to=…>`. */
  datatype Decision = Render | Redirect(to: Path)

  /** `user?.role !== "admin"`: no user counts as not an admin. */
  predicate NotAdmin(user: Option<User>) {
    user.None? || user.value.role != "admin"
  }

  /**
   * `ProtectedRoute({ children, adminOnly })`: authentication is checked
   * first, then the role when the route is admin-only.
   */
  function Decide(isAuthenticated: bool, user: Option<User>, adminOnly: bool): (d: Decision)
    ensures d == Redirect(LoginPath) <==> !isAuthenticated
    ensures d == Redirect(HomePath) <==> isAuthenticated && adminOnly && NotAdmin(user)
    ensures d == Render <==> isAuthenticated && (!adminOnly || !NotAdmin(user))
  {
    if !isAuthenticated then Redirect(LoginPath)
    else if adminOnly && NotAdmin(user) then Redirect(HomePath)
    else Render
  }

  /** The default `adminOnly = false`. */
  function DecideDefault(isAuthenticated: bool, user: Option<User>): (d: Decision)
    ensures d == Render <==> isAuthenticated
    ensures d != Render ==> d == Redirect(LoginPath)
  {
    Decide(isAuthenticated, user, false)
  }

  /** The guard as the session store feeds it: `isAuthenticated` is `!!user`. */
  function DecideFor(user: Option<User>, adminOnly: bool): (d: Decision)
    ensures d == Redirect(LoginPath) <==> user.None?
    ensures d == Redirect(HomePath) <==> user.Some? && adminOnly && user.value.role != "admin"
    ensures d == Render <==> user.Some? && (!adminOnly || user.value.role == "admin")
  {
    Decide(IsAuthenticated(user), user, adminOnly)
  }

  /** Exactly one of the three outcomes occurs, and a redirect goes to "/login" or "/". */
  lemma ExactlyOneOutcome(isAuthenticated: bool, user: Option<User>, adminOnly: bool)
    ensures var d := Decide(isAuthenticated, user, adminOnly);
            (d == Render) != (d.Redirect? && (d.to == LoginPath || d.to == HomePath))
  {
  }

  /** Authentication comes first: an anonymous request is never sent to "/". */
  lemma AnonymousNeverSentHome(user: Option<User>, adminOnly: bool)
    ensures Decide(false, user, adminOnly) == Redirect(LoginPath)
    ensures Decide(false, user, adminOnly) != Redirect(HomePath)
  {
  }

  /** Only the role of the user matters, not the rest of the record. */
  lemma DependsOnlyOnRole(isAuthenticated: bool, u: User, v: User, adminOnly: bool)
    requires u.role == v.role
    ensures Decide(isAuthenticated, Some(u), adminOnly) == Decide(isAuthenticated, Some(v), adminOnly)
  {
  }

  /**
   * Over the session store: a signed-out store redirects to "/login"; a
   * store holding a `user` is let through an admin-only route only as an
   * `admin` and sent to "/" otherwise; an `admin` is let through both kinds.
   */
  lemma SessionDecisions(user: Option<User>)
    ensures user.None? ==> DecideFor(user, false) == DecideFor(user, true) == Redirect(LoginPath)
    ensures user.Some? ==> DecideFor(user, false) == Render
    ensures user.Some? && user.value.role == "admin" ==> DecideFor(user, true) == Render
    ensures user.Some? && user.value.role != "admin" ==> DecideFor(user, true) == Redirect(HomePath)
  {
  }

  /**
   * Three sign-in scenarios: the shipped `user` account may open an
   * authenticated route and is sent home from an admin-only one; the
   * shipped `admin` account may open both; an unknown email does not sign
   * in, so the admin-only route sends to "/login".
   */
  method Scenarios()
  {
    var store := new AuthProvider();
    var ok := store.Login("user@example.com", "12345678");
    ShippedLogins("user@example.com", "12345678");
    assert ok && store.user.value.role == "user";
    assert DecideFor(store.user, false) == Render;
    assert DecideFor(store.user, true) == Redirect(HomePath);

    ok := store.Login("admin@example.com", "12345678");
    ShippedLogins("admin@example.com", "12345678");
    assert ok && store.user.value.role == "admin";
    assert DecideFor(store.user, true) == Render;

    store.Logout();
    store.Logout();
    assert !store.Authenticated();

    ok := store.Login("nobody@example.com", "12345678");
    ShippedLogins("nobody@example.com", "12345678");
    assert !ok && store.user == None;
    assert DecideFor(store.user, true) == Redirect(LoginPath);
  }
}
