/**
 * The session store of src/context/AuthContext.jsx: the `AuthProvider`
 * keeps a single nullable `user`, `login` looks the given email up in a
 * fixed table of mock users, `logout` clears it, and `isAuthenticated`
 * is derived from it.
 */
module AuthContext {
  import opened Wrappers

  /** One record of the mock-user table. `password` is optional on a record. */
  datatype User = User(
    id: string,
    name: string,
    email: string,
    role: string,
    avatar: string,
    password: Option<string>)

  /** The fixed table `mockUsers`, in declaration order. */
  function MockUsers(): (users: seq<User>)
    ensures |users| == 3
  {
    [ User("1", "John Doe", "user@example.com", "user",
           "https://images.unsplash.com/photo-1472099645785-5658abf4ff4e?w=100&h=100&fit=crop",
           Some("12345678")),
      User("2", "Admin User", "admin@example.com", "admin",
           "https://images.unsplash.com/photo-1522075469751-3a6694fb2f61?w=100&h=100&fit=crop",
           Some("12345678")),
      User("3", "Vijay Negi", "negijay700@gmail.com", "admin",
           "https://images.unsplash.com/photo-1506794778202-cad84cf45f1d?w=100&h=100&fit=crop",
           Some("12345678")) ]
  }

  /** No two records share an email. */
  ghost predicate DistinctEmails(users: seq<User>) {
    forall i, j :: 0 <= i < j < |users| ==> users[i].email != users[j].email
  }

  /**
   * `users.find(u => u.email === email)`: the first record whose email is
   * exactly `email`, or `None` when there is none.
   */
  function FindByEmail(users: seq<User>, email: string): (r: Option<User>)
    ensures r.None? <==> forall u :: u in users ==> u.email != email
    ensures r.Some? ==> r.value in users && r.value.email == email
    ensures r.Some? ==> exists i :: 0 <= i < |users| && users[i] == r.value
                          && forall j :: 0 <= j < i ==> users[j].email != email
  {
    if |users| == 0 then None
    else if users[0].email == email then Some(users[0])
    else
      var r := FindByEmail(users[1..], email);
      if r.Some? then
        var i :| 0 <= i < |users[1..]| && users[1..][i] == r.value
                 && forall j :: 0 <= j < i ==> users[1..][j].email != email;
        assert users[i + 1] == r.value;
        assert forall j :: 0 <= j < i + 1 ==> users[j].email != email by {
          forall j | 0 <= j < i + 1
            ensures users[j].email != email
          {
            if j > 0 {
              assert users[j] == users[1..][j - 1];
            }
          }
        }
        r
      else
        assert forall u :: u in users ==> u == users[0] || u in users[1..];
        r
  }

  /**
   * The password test `!user.password || user.password === password`:
   * a record without a password, or with the empty (falsy) one, accepts
   * any password.
   */
  predicate PasswordAccepts(recorded: Option<string>, given: string)
    ensures recorded == Some(given) ==> PasswordAccepts(recorded, given)
    ensures recorded.Some? && recorded.value != "" ==>
              (PasswordAccepts(recorded, given) <==> recorded.value == given)
  {
    recorded.None? || recorded.value == "" || recorded.value == given
  }

  /** The user a `login(email, password)` call stores, or `None` when it fails. */
  function Authenticate(users: seq<User>, email: string, password: string): (r: Option<User>)
    ensures r.Some? ==> r.value in users && r.value.email == email
                        && PasswordAccepts(r.value.password, password)
    ensures (forall u :: u in users ==> u.email != email) ==> r.None?
  {
    match FindByEmail(users, email)
    case Some(u) => if PasswordAccepts(u.password, password) then Some(u) else None
    case None => None
  }

  /** `isAuthenticated: !!user`. */
  predicate IsAuthenticated(user: Option<User>) {
    user.Some?
  }

  /** The stored user after `login(email, password)` from state `current`. */
  function LoginStep(current: Option<User>, email: string, password: string): (next: Option<User>)
    ensures next == current || (next.Some? && next.value in MockUsers() && next.value.email == email)
    ensures IsAuthenticated(current) ==> IsAuthenticated(next)
  {
    var found := Authenticate(MockUsers(), email, password);
    if found.Some? then found else current
  }

  /** The stored user after `logout()`. */
  function LogoutStep(current: Option<User>): (next: Option<User>)
    ensures next.None? && !IsAuthenticated(next)
  {
    None
  }

  /** The provider's state: the single `user` field that `setUser` replaces. */
  class AuthProvider {
    var user: Option<User>

    /** `useState(null)`: nobody is signed in. */
    constructor ()
      ensures user == None && !IsAuthenticated(user)
    {
      user := None;
    }

    /** The derived `isAuthenticated` flag of the context value. */
    function Authenticated(): (b: bool)
      reads this
      ensures b <==> user.Some?
    {
      IsAuthenticated(user)
    }

    /**
     * `login(email, password)`. `ok` is false exactly where the source
     * raises its "Invalid email or password" alert.
     */
    method Login(email: string, password: string) returns (ok: bool)
      modifies this
      ensures ok <==> Authenticate(MockUsers(), email, password).Some?
      ensures user == LoginStep(old(user), email, password)
      ensures ok ==> user == Authenticate(MockUsers(), email, password)
      ensures !ok ==> user == old(user)
    {
      var found := FindByEmail(MockUsers(), email);
      if found.Some? && PasswordAccepts(found.value.password, password) {
        user := found;
        ok := true;
      } else {
        ok := false;
      }
    }

    /** `logout()`: clears the user whatever the state. */
    method Logout()
      modifies this
      ensures user == LogoutStep(old(user)) && !Authenticated()
    {
      user := None;
    }
  }

  /** The shipped table satisfies the premise of `find` having at most one candidate. */
  lemma MockEmailsDistinct()
    ensures DistinctEmails(MockUsers())
  {
  }

  /**
   * With distinct emails, a login succeeds exactly when some record has the
   * given email and accepts the given password, and it stores that record.
   */
  lemma {:induction false} AuthenticateCharacterized(users: seq<User>, email: string, password: string)
    requires DistinctEmails(users)
    ensures Authenticate(users, email, password).Some? <==>
            exists u :: u in users && u.email == email && PasswordAccepts(u.password, password)
    ensures forall u :: u in users && u.email == email && PasswordAccepts(u.password, password) ==>
              Authenticate(users, email, password) == Some(u)
  {
    var r := FindByEmail(users, email);
    forall u | u in users && u.email == email
      ensures r == Some(u)
    {
      var i :| 0 <= i < |users| && users[i] == r.value
               && forall j :: 0 <= j < i ==> users[j].email != email;
      var k :| 0 <= k < |users| && users[k] == u;
      if i != k {
        assert false;
      }
    }
  }

  /**
   * The shipped table admits exactly three logins: the three mock emails,
   * each with password "12345678"; the first signs in as a `user`, the
   * other two as an `admin`.
   */
  lemma ShippedLogins(email: string, password: string)
    ensures Authenticate(MockUsers(), email, password).Some? <==>
            (email in {"user@example.com", "admin@example.com", "negijay700@gmail.com"}
             && password == "12345678")
    ensures email == "user@example.com" && password == "12345678" ==>
            Authenticate(MockUsers(), email, password).value.role == "user"
    ensures email in {"admin@example.com", "negijay700@gmail.com"} && password == "12345678" ==>
            Authenticate(MockUsers(), email, password).value.role == "admin"
  {
    MockEmailsDistinct();
    AuthenticateCharacterized(MockUsers(), email, password);
    var users := MockUsers();
    assert forall u :: u in users <==> u == users[0] || u == users[1] || u == users[2];
  }

  /** A failed login leaves any existing session in place. */
  lemma FailedLoginKeepsSession(current: Option<User>, email: string, password: string)
    ensures Authenticate(MockUsers(), email, password).None? ==>
              LoginStep(current, email, password) == current
              && IsAuthenticated(LoginStep(current, email, password)) == IsAuthenticated(current)
  {
  }

  /**
   * A successful login replaces the user wholesale: the new state is the
   * matching record whatever was stored before, and it carries the email
   * used to sign in.
   */
  lemma SuccessfulLoginReplaces(a: Option<User>, b: Option<User>, email: string, password: string)
    requires Authenticate(MockUsers(), email, password).Some?
    ensures LoginStep(a, email, password) == LoginStep(b, email, password)
    ensures LoginStep(a, email, password).Some?
    ensures LoginStep(a, email, password).value.email == email
    ensures LoginStep(a, email, password).value in MockUsers()
  {
  }

  /** Logging out twice is the same as logging out once, from any state. */
  lemma LogoutIdempotent(current: Option<User>)
    ensures LogoutStep(LogoutStep(current)) == LogoutStep(current)
  {
  }

  /** Any login attempt followed by a logout ends with no user. */
  lemma LoginThenLogout(current: Option<User>, email: string, password: string)
    ensures LogoutStep(LoginStep(current, email, password)) == None
  {
  }
}
