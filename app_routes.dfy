/**
 * The route table of src/routes/Index.jsx (`AppRoutes`), read as a policy
 * table: each declared path pattern names a page and whether the page is
 * wrapped in `ProtectedRoute`, and with which `adminOnly` flag. Matching is
 * a simplified version of the router's: exact paths, a trailing `:id`
 * segment, a trailing splat segment and the catch-all.
 */
module AppRoutes {
  import opened Wrappers
  import opened AuthContext
  import opened ProtectedRoute

  datatype Page =
    | Home | Search | HomestayDetails | Login | Register | About | Contact
    | Faq | PrivacyPolicy | TermsOfService | Testimonials | Blog
    | Dashboard | AdminDashboard | NotFound

  /** An exact path, a path ending in `:id`, a path ending in a splat, and `path="*"`. */
  datatype Pattern =
    | Exact(segments: Path)
    | Param(prefix: Path)
    | Splat(prefix: Path)
    | CatchAll

  /**
   * The guard a route element carries: none, `<ProtectedRoute>` or
   * `<ProtectedRoute adminOnly>`.
   */
  datatype Policy = Public | Authenticated | AdminOnly

  datatype Route = Route(pattern: Pattern, page: Page, policy: Policy)

  /** What the user ends up with after navigating: a page, or a redirect. */
  datatype Outcome = Show(page: Page) | Redirected(to: Path)

  /** The `<Routes>` children, in declaration order. */
  function Table(): (t: seq<Route>)
    ensures |t| == 15 && t[14] == Route(CatchAll, NotFound, Public)
  {
    [ Route(Exact(["homestay"]), Home, Public),
      Route(Exact(["rooms"]), Search, Public),
      Route(Param(["homestay"]), HomestayDetails, Public),
      Route(Exact(["login"]), Login, Public),
      Route(Exact(["register"]), Register, Public),
      Route(Exact(["about"]), About, Public),
      Route(Exact(["contact"]), Contact, Public),
      Route(Exact(["faq"]), Faq, Public),
      Route(Exact(["privacy-policy"]), PrivacyPolicy, Public),
      Route(Exact(["terms-of-service"]), TermsOfService, Public),
      Route(Exact(["testimonials"]), Testimonials, Public),
      Route(Exact(["blog"]), Blog, Public),
      Route(Splat(["dashboard"]), Dashboard, Authenticated),
      Route(Splat(["admin"]), AdminDashboard, AdminOnly),
      Route(CatchAll, NotFound, Public) ]
  }

  /** Whether `pattern` matches the segments of `path`. */
  predicate Matches(pattern: Pattern, path: Path) {
    match pattern
    case Exact(s) => path == s
    case Param(p) => |path| == |p| + 1 && path[..|p|] == p && path[|p|] != ""
    case Splat(p) => p <= path
    case CatchAll => true
  }

  /** The first route of `routes` whose pattern matches `path`. */
  function FirstMatch(routes: seq<Route>, path: Path): (r: Option<Route>)
    ensures r.None? <==> forall i :: 0 <= i < |routes| ==> !Matches(routes[i].pattern, path)
    ensures r.Some? ==> exists i :: 0 <= i < |routes| && routes[i] == r.value
                          && Matches(routes[i].pattern, path)
                          && forall j :: 0 <= j < i ==> !Matches(routes[j].pattern, path)
  {
    if |routes| == 0 then None
    else if Matches(routes[0].pattern, path) then Some(routes[0])
    else
      var r := FirstMatch(routes[1..], path);
      if r.Some? then
        var i :| 0 <= i < |routes[1..]| && routes[1..][i] == r.value
                 && Matches(routes[1..][i].pattern, path)
                 && forall j :: 0 <= j < i ==> !Matches(routes[1..][j].pattern, path);
        assert routes[i + 1] == r.value;
        r
      else r
  }

  /** The route that serves `path`; the catch-all guarantees there is one. */
  function Resolve(path: Path): (r: Route)
    ensures r in Table() && Matches(r.pattern, path)
  {
    var m := FirstMatch(Table(), path);
    assert Matches(Table()[14].pattern, path);
    m.value
  }

  /** The element rendered at `path` for the session holding `user`. */
  function Navigate(path: Path, user: Option<User>): (o: Outcome)
    ensures o.Show? ==> o.page == Resolve(path).page
    ensures o.Redirected? ==> Resolve(path).policy != Public
                              && (o.to == LoginPath || o.to == HomePath)
    ensures Resolve(path).policy == Public ==> o == Show(Resolve(path).page)
    ensures o == Redirected(LoginPath) <==> Resolve(path).policy != Public && user.None?
  {
    var r := Resolve(path);
    if r.policy == Public then Show(r.page)
    else match DecideFor(user, r.policy == AdminOnly)
      case Render => Show(r.page)
      case Redirect(to) => Redirected(to)
  }

  /** The segments a pattern spells out before its parameter or splat, if any. */
  function Stem(pattern: Pattern): Path {
    match pattern
    case Exact(s) => s
    case Param(p) => p
    case Splat(p) => p
    case CatchAll => []
  }

  /** Every entry but the catch-all begins with a literal segment, and those segments tell them apart. */
  lemma TableStems()
    ensures forall i :: 0 <= i < 14 ==> !Table()[i].pattern.CatchAll? && |Stem(Table()[i].pattern)| == 1
    ensures forall i, j :: 0 <= i < j < 14 && Stem(Table()[i].pattern) == Stem(Table()[j].pattern) ==> i == 0 && j == 2
  {
  }

  /** A pattern with a non-empty stem only matches paths that begin with its stem's first segment. */
  lemma MatchesLead(pattern: Pattern, path: Path)
    requires |Stem(pattern)| == 1 && Matches(pattern, path)
    ensures |path| >= 1 && [path[0]] == Stem(pattern)
    ensures pattern.Exact? ==> |path| == 1
    ensures pattern.Param? ==> |path| == 2
  {
    if pattern.Param? {
      assert path[..1] == Stem(pattern);
    } else if pattern.Splat? {
      assert path[..1] == Stem(pattern);
    }
  }

  /**
   * Apart from the catch-all, no two entries match the same path, so the
   * outcome does not depend on declaration order (the router's ranking
   * picks the same entry as the first match).
   */
  lemma Unambiguous(path: Path, i: nat, j: nat)
    requires i < j < 14
    ensures !(Matches(Table()[i].pattern, path) && Matches(Table()[j].pattern, path))
  {
    var t := Table();
    TableStems();
    if Matches(t[i].pattern, path) && Matches(t[j].pattern, path) {
      MatchesLead(t[i].pattern, path);
      MatchesLead(t[j].pattern, path);
      assert false;
    }
  }

  /** The route serving `path` is the one entry whose pattern matches it, if any. */
  lemma {:induction false} ResolveIsTheMatchingEntry(path: Path, i: nat)
    requires i < 14 && Matches(Table()[i].pattern, path)
    ensures Resolve(path) == Table()[i]
  {
    var t := Table();
    var r := Resolve(path);
    var k :| 0 <= k < |t| && t[k] == r && Matches(t[k].pattern, path)
             && forall j :: 0 <= j < k ==> !Matches(t[j].pattern, path);
    if k < i {
      Unambiguous(path, k, i);
    }
  }

  /** A path that no declared entry matches is served by the catch-all `NotFound`. */
  lemma {:induction false} ResolveFallsThrough(path: Path)
    requires forall i :: 0 <= i < 14 ==> !Matches(Table()[i].pattern, path)
    ensures Resolve(path) == Route(CatchAll, NotFound, Public)
  {
    var t := Table();
    var k :| 0 <= k < |t| && t[k] == Resolve(path) && Matches(t[k].pattern, path);
    assert k == 14;
  }

  /** The twelve entries declared first carry no guard. */
  lemma TwelvePublicEntries()
    ensures forall i :: 0 <= i < 12 ==> Table()[i].policy == Public && !Table()[i].pattern.CatchAll?
    ensures forall i :: 12 <= i < 14 ==> Table()[i].policy != Public
  {
  }

  /** A path served by one of the twelve public entries renders its page for any session. */
  lemma PublicRoutesRender(path: Path, i: nat, user: Option<User>)
    requires i < 12 && Matches(Table()[i].pattern, path)
    ensures Navigate(path, user) == Show(Table()[i].page)
  {
    ResolveIsTheMatchingEntry(path, i);
  }

  /** The dashboard splat route is for any signed-in user; anyone else is sent to "/login". */
  lemma DashboardIsAuthenticatedOnly(rest: Path, user: Option<User>)
    ensures Resolve(["dashboard"] + rest).policy == Authenticated
    ensures Navigate(["dashboard"] + rest, user) ==
            if user.Some? then Show(Dashboard) else Redirected(LoginPath)
  {
    var path := ["dashboard"] + rest;
    assert Matches(Table()[12].pattern, path);
    ResolveIsTheMatchingEntry(path, 12);
  }

  /**
   * The admin splat route is for admins only: anonymous requests go to "/login", a
   * signed-in non-admin goes to "/".
   */
  lemma AdminIsAdminOnly(rest: Path, user: Option<User>)
    ensures Resolve(["admin"] + rest).policy == AdminOnly
    ensures Navigate(["admin"] + rest, user) ==
            if user.None? then Redirected(LoginPath)
            else if user.value.role == "admin" then Show(AdminDashboard)
            else Redirected(HomePath)
  {
    var path := ["admin"] + rest;
    assert Matches(Table()[13].pattern, path);
    ResolveIsTheMatchingEntry(path, 13);
  }

  /** "/login" is itself public, so the login redirect always shows the login page. */
  lemma LoginIsPublic(user: Option<User>)
    ensures Resolve(LoginPath).policy == Public
    ensures Navigate(LoginPath, user) == Show(Login)
  {
    ResolveIsTheMatchingEntry(LoginPath, 3);
  }

  /** No entry declares "/", so the guard's home redirect is served by `NotFound`. */
  lemma HomeIsNotFound(user: Option<User>)
    ensures forall i :: 0 <= i < 14 ==> !Matches(Table()[i].pattern, HomePath)
    ensures Resolve(HomePath) == Route(CatchAll, NotFound, Public)
    ensures Navigate(HomePath, user) == Show(NotFound)
  {
    TableStems();
    forall i | 0 <= i < 14
      ensures !Matches(Table()[i].pattern, HomePath)
    {
      if Matches(Table()[i].pattern, HomePath) {
        MatchesLead(Table()[i].pattern, HomePath);
      }
    }
    ResolveFallsThrough(HomePath);
  }

  /** Every redirect lands on a page that renders without a further redirect. */
  lemma RedirectsDoNotChain(path: Path, user: Option<User>)
    ensures Navigate(path, user).Redirected? ==>
            Navigate(Navigate(path, user).to, user).Show?
  {
    LoginIsPublic(user);
    HomeIsNotFound(user);
  }

  /**
   * "/homestay" and "/homestay/:id" are separate entries: the bare path is
   * the home page, one more non-empty segment is the detail page, and two
   * more segments match neither.
   */
  lemma HomestayRoutes(id: string, extra: string, user: Option<User>)
    ensures Navigate(["homestay"], user) == Show(Home)
    ensures id != "" ==> Navigate(["homestay", id], user) == Show(HomestayDetails)
    ensures Navigate(["homestay", id, extra], user) == Show(NotFound)
  {
    ResolveIsTheMatchingEntry(["homestay"], 0);
    if id != "" {
      assert Matches(Table()[2].pattern, ["homestay", id]);
      ResolveIsTheMatchingEntry(["homestay", id], 2);
    }
    var p := ["homestay", id, extra];
    TableStems();
    forall i | 0 <= i < 14
      ensures !Matches(Table()[i].pattern, p)
    {
      if Matches(Table()[i].pattern, p) {
        MatchesLead(Table()[i].pattern, p);
      }
    }
    ResolveFallsThrough(p);
  }
}
