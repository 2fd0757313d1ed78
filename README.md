# HomeStay front end: session, route guard, FAQ and newsletter logic

This project models, in Dafny, the small amount of decision logic inside the
HomeStay booking-marketplace front end (a React application whose data is
all mocked in memory):

- **Session store** (`AuthProvider`, `auth_context.dfy`, module `AuthContext`):
  a single nullable `user`. `login` looks the email up in a fixed table of
  three mock users and checks the password only when the record has a
  non-empty one. `logout` clears the user. `isAuthenticated` is `!!user`.
- **Route guard** (`ProtectedRoute`, `protected_route.dfy`): renders its
  children, redirects to `/login` when nobody is signed in, or redirects to
  `/` when an admin-only route is opened by a non-admin.
- **Route table** (`AppRoutes`, `app_routes.dfy`): the twelve public pages,
  the authenticated-only dashboard, the admin-only admin page and the
  `NotFound` catch-all. Combined with the guard, it fixes where each
  navigation and each redirect ends up.
- **FAQ page** (`faq.dfy`): the static question table, the `openQuestions`
  list that `toggleQuestion` updates, and the `filteredFaqs` search view.
- **Newsletter form** (`Footer`, `footer.dfy`): the email pattern test and
  the `subscribeStatus` machine idle → loading → success/error.

Paths are modelled as lists of segments: `/` is `[]`, `/login` is
`["login"]`, `/homestay/42` is `["homestay", "42"]`. JavaScript `null` and
`undefined` are `None` of the `Option` type in `wrappers.dfy`.

A role is the string the guard compares with `"admin"`, and `login`
returns nothing and raises an alert on failure.

Where state changes in place, the model uses classes (`AuthProvider`,
`FaqState`, `NewsletterForm`). Each of their methods other than the plain
setters is tied to a pure function (`LoginStep`, `LogoutStep`, `Toggle`,
`Submit`, `Settle`), and the lemmas are stated about those functions.

## Model

| member | source | states |
|---|---|---|
| `AuthContext.MockUsers` | src/context/AuthContext.jsx:10-39 | the table holds three records; `MockEmailsDistinct` states that their emails differ and `ShippedLogins` which email and password sign in with which role |
| `AuthContext.PasswordAccepts` | src/context/AuthContext.jsx:44 | the matching password is always accepted; a record with a non-empty password accepts exactly that password (a missing or empty one accepts any) |
| `AuthContext.Authenticate` | src/context/AuthContext.jsx:42-44 | a login that succeeds yields a record of the table with that email whose password test passes; an email no record has always fails; `AuthenticateCharacterized` gives the converse |
| `AuthContext.IsAuthenticated` | src/context/AuthContext.jsx:57 | `!!user`: true exactly when a user is stored (a definition; `AuthContext.AuthProvider.Authenticated` and `LogoutStep` state it of the provider) |
| `AuthContext.LoginStep` | src/context/AuthContext.jsx:44-48 | a login either leaves the stored user as it was or stores a mock record carrying the email used, and never signs a user out |
| `AuthContext.FindByEmail` | src/context/AuthContext.jsx:42 | `find` returns `None` exactly when no record has the email; otherwise it returns a record of the table with that email, and no earlier record has it |
| `AuthContext.AuthProvider.constructor` | src/context/AuthContext.jsx:6 | the provider starts with no user, so it is not authenticated |
| `AuthContext.AuthProvider.Authenticated` | src/context/AuthContext.jsx:57 | `isAuthenticated` holds exactly when a user is stored; it is derived, never stored |
| `AuthContext.AuthProvider.Login` | src/context/AuthContext.jsx:8-49 | login succeeds exactly when the lookup finds a record that accepts the password; on success the stored user is that record, on failure the stored user is unchanged |
| `AuthContext.AuthProvider.Logout` | src/context/AuthContext.jsx:51-53 | logout clears the user from any state and leaves the provider unauthenticated |
| `AuthContext.LogoutStep` | src/context/AuthContext.jsx:52 | after logout no user is stored and the session is not authenticated |
| `AuthContext.MockEmailsDistinct` | src/context/AuthContext.jsx:10-39 | no two mock records share an email, so `find` has at most one candidate |
| `AuthContext.AuthenticateCharacterized` | src/context/AuthContext.jsx:42-45 | with distinct emails, login succeeds iff some record has exactly that email and its password is absent, empty or equal to the given one, and it then yields that record |
| `AuthContext.ShippedLogins` | src/context/AuthContext.jsx:10-45 | the shipped table admits exactly `user@example.com`, `admin@example.com` and `negijay700@gmail.com` with password `12345678`; the first signs in with role `user`, the other two with role `admin` |
| `AuthContext.FailedLoginKeepsSession` | src/context/AuthContext.jsx:44-48 | a failed login leaves the stored user, and so the authentication flag, as they were |
| `AuthContext.SuccessfulLoginReplaces` | src/context/AuthContext.jsx:45 | a successful login stores the same record whatever was stored before (no merging), and that record carries the email used |
| `AuthContext.LogoutIdempotent` | src/context/AuthContext.jsx:51-53 | logging out twice is the same as logging out once |
| `AuthContext.LoginThenLogout` | src/context/AuthContext.jsx:45-52 | a logout after any login attempt leaves no user |
| `ProtectedRoute.Decide` | src/routes/ProtectedRoute.jsx:5-18 | the guard redirects to `/login` iff not authenticated; to `/` iff authenticated, admin-only and the role is not `admin`; renders iff authenticated and either not admin-only or an admin |
| `ProtectedRoute.NotAdmin` | src/routes/ProtectedRoute.jsx:14 | `user?.role !== "admin"`, so a missing user counts as not an admin (a definition; `ProtectedRoute.Decide` and `AnonymousNeverSentHome` state its use) |
| `ProtectedRoute.DecideFor` | src/routes/ProtectedRoute.jsx:5-18 | fed by the session store: `/login` iff no user is stored; `/` iff a user is stored, the route is admin-only and the role is not `admin`; render otherwise |
| `ProtectedRoute.DecideDefault` | src/routes/ProtectedRoute.jsx:5 | with the default `adminOnly = false`, any authenticated user of any role is let through, anyone else goes to `/login` |
| `ProtectedRoute.ExactlyOneOutcome` | src/routes/ProtectedRoute.jsx:9-18 | exactly one of render, redirect to `/login`, redirect to `/` occurs |
| `ProtectedRoute.AnonymousNeverSentHome` | src/routes/ProtectedRoute.jsx:9-16 | authentication is checked before the role: an anonymous request is sent to `/login`, never to `/`, even for an admin-only route |
| `ProtectedRoute.DependsOnlyOnRole` | src/routes/ProtectedRoute.jsx:6-14 | two users with the same role get the same decision |
| `ProtectedRoute.SessionDecisions` | src/routes/ProtectedRoute.jsx:9-18 | fed by the session store: signed out means `/login` for both kinds of route; a signed-in user passes the default guard; the admin-only guard passes an `admin` and sends anyone else to `/` |
| `AppRoutes.Table` | src/routes/Index.jsx:24-58 | the fifteen routes in declaration order, the last being the public `NotFound` catch-all; `TableStems`, `TwelvePublicEntries` and `Unambiguous` state its shape |
| `AppRoutes.Matches` | src/routes/Index.jsx:24-58 | exact paths, one trailing `:id` segment (non-empty), a `/*` splat and the `*` catch-all (a definition; `MatchesLead` shows a match begins with the pattern's literal segments) |
| `AppRoutes.Navigate` | src/routes/Index.jsx:24-58 | a shown page is the page of the route serving the path; an unguarded route always shows its page; a redirect comes only from a guarded route and goes to `/login` or `/`, and to `/login` exactly when the route is guarded and nobody is signed in |
| `AppRoutes.FirstMatch` | src/routes/Index.jsx:23-58 | the selected route matches the path and no earlier route does; there is none only when no route matches |
| `AppRoutes.Resolve` | src/routes/Index.jsx:58 | because of the catch-all, every path is served by some route of the table that matches it |
| `AppRoutes.TableStems` | src/routes/Index.jsx:24-55 | every declared route but the catch-all begins with one literal segment, and only `/homestay` and `/homestay/:id` share it |
| `AppRoutes.Unambiguous` | src/routes/Index.jsx:24-55 | apart from the catch-all, no path matches two declared routes, so among them declaration order does not matter; the catch-all matches every path and serves only when it is the sole match, because it is listed last |
| `AppRoutes.ResolveIsTheMatchingEntry` | src/routes/Index.jsx:24-55 | a path matched by a declared route is served by that route |
| `AppRoutes.ResolveFallsThrough` | src/routes/Index.jsx:58 | a path no declared route matches is served by the `NotFound` catch-all |
| `AppRoutes.TwelvePublicEntries` | src/routes/Index.jsx:24-35 | the twelve routes declared first carry no guard; the two after them do |
| `AppRoutes.PublicRoutesRender` | src/routes/Index.jsx:24-35 | a path served by one of those twelve routes shows its page for every session |
| `AppRoutes.DashboardIsAuthenticatedOnly` | src/routes/Index.jsx:38-45 | any path under `/dashboard` is guarded without `adminOnly`: it shows the dashboard to any signed-in user and sends anyone else to `/login` |
| `AppRoutes.AdminIsAdminOnly` | src/routes/Index.jsx:48-55 | any path under `/admin` is admin-only: anonymous goes to `/login`, a non-admin goes to `/`, an admin sees the admin dashboard |
| `AppRoutes.LoginIsPublic` | src/routes/Index.jsx:27 | `/login` is unguarded, so the guard's login redirect always shows the login page |
| `AppRoutes.HomeIsNotFound` | src/routes/Index.jsx:58 | no route declares `/`, so the guard's `/` redirect shows `NotFound` |
| `AppRoutes.RedirectsDoNotChain` | src/routes/ProtectedRoute.jsx:10-15 | every redirect lands on a page that is shown without a further redirect, so the guard cannot loop |
| `AppRoutes.HomestayRoutes` | src/routes/Index.jsx:24-26 | `/homestay` shows the home page, `/homestay/<id>` with a non-empty id shows the details page, and a second extra segment matches neither and shows `NotFound` |
| `Faq.CategoryButtons` | src/pages/FAQ.jsx:10-16 | the five category buttons in order (a definition; `ButtonsNameCategories` states that each names a key of the table) |
| `Faq.Faqs` | src/pages/FAQ.jsx:18-107 | the `faqs` object, its five keys in insertion order (a definition; `ShippedIds` and `ShippedIdsUnique` state its ids) |
| `Faq.Toggle` | src/pages/FAQ.jsx:110-114 | the updater passed to `setOpenQuestions` (a definition; `ToggleEffect`, `ToggleFrame`, `ToggleTwice` and `ToggleKeepsNoDuplicates` state its effect) |
| `Faq.RemoveAll` | src/pages/FAQ.jsx:112 | the filter removes every occurrence of the id; every other id keeps its number of occurrences, and the result is a subsequence of the input, so their order is kept |
| `Faq.ToggleEffect` | src/pages/FAQ.jsx:110-113 | after a toggle the id is present iff it was absent; an absent id is appended at the end; a present one is removed, so the list shrinks |
| `Faq.ToggleFrame` | src/pages/FAQ.jsx:111-113 | every other id keeps its membership and its number of occurrences; erasing the id before or after the toggle gives the same list, which is a subsequence of the toggled one, so the other ids keep their order |
| `Faq.ToggleTwice` | src/pages/FAQ.jsx:109-115 | toggling twice restores every id's membership, and restores the list when the id was absent |
| `Faq.ToggleKeepsNoDuplicates` | src/pages/FAQ.jsx:111-113 | a duplicate-free list of open ids stays duplicate-free |
| `Faq.ToggleFlipsOnlyItsEntry` | src/pages/FAQ.jsx:109-115 | a toggle flips the open state of the entries with that id and of no other entry |
| `Faq.UniqueIdsSingleEntry` | src/pages/FAQ.jsx:18-107 | when ids are unique, at most one entry carries a given id, so a toggle affects one entry |
| `Faq.ShippedIds` | src/pages/FAQ.jsx:18-107 | the flattened table holds the ids g1, g2, g3, b1, b2, b3, h1, h2, h3, a1, a2, s1, s2 in that order |
| `Faq.ShippedIdsUnique` | src/pages/FAQ.jsx:18-107 | the FAQ ids are unique across all categories |
| `Faq.ButtonsAreKeys` | src/pages/FAQ.jsx:10-18 | every category button's id is a key of the table |
| `Faq.CategoriesNonEmpty` | src/pages/FAQ.jsx:18-107 | every category of the table has at least one entry |
| `Faq.ButtonsNameCategories` | src/pages/FAQ.jsx:10-107 | every category button names a key of the table whose list of entries is not empty |
| `Faq.Flatten` | src/pages/FAQ.jsx:118-119 | `Object.values(faqs).flat()`, the categories' entries concatenated in order (a definition; `FlattenMembership` and `FilterAppend` state its properties) |
| `Faq.FlattenMembership` | src/pages/FAQ.jsx:118-119 | an entry is in the flattened list iff it is in one of the categories |
| `Faq.Lookup` | src/pages/FAQ.jsx:125 | `faqs[key]` is undefined iff no category has that own key; otherwise it is that category's entries |
| `Faq.Lower` | src/pages/FAQ.jsx:122-123 | lower-casing keeps the length and lower-cases each character |
| `Faq.Includes` | src/pages/FAQ.jsx:122-123 | `String.prototype.includes` (a definition; `IncludesIff` states it is substring occurrence) |
| `Faq.IncludesIff` | src/pages/FAQ.jsx:122-123 | `includes` holds exactly when the term occurs in the text at some position |
| `Faq.MatchesTerm` | src/pages/FAQ.jsx:121-123 | the search callback: the lower-cased question or answer includes the lower-cased term (a definition; `SearchIgnoresTermCase` states it ignores the term's case) |
| `Faq.FilterEntries` | src/pages/FAQ.jsx:120-124 | the `.filter` call never lengthens the list; `FilterMembership`, `FilterCount` and `FilterIsSubsequence` state what it keeps |
| `Faq.FilterMembership` | src/pages/FAQ.jsx:120-124 | an entry is kept iff it is in the input and its lower-cased question or answer contains the lower-cased term |
| `Faq.FilterAppend` | src/pages/FAQ.jsx:118-124 | filtering works piece by piece, so the result follows the categories' order |
| `Faq.FilterCount` | src/pages/FAQ.jsx:120-124 | each entry occurs in the result as often as in the input when it matches the term, and not at all otherwise |
| `Faq.FilterIsSubsequence` | src/pages/FAQ.jsx:120-124 | the result keeps the input's order |
| `Faq.FilteredFaqs` | src/pages/FAQ.jsx:117-125 | an empty term yields exactly `faqs[activeCategory]`; a non-empty term yields the matching entries of all categories, each as often as it occurs in them and in declaration order, and no other entry |
| `Faq.SearchIgnoresTermCase` | src/pages/FAQ.jsx:122-123 | the search gives the same result for a term and its lower-cased form |
| `Faq.FaqState.constructor` | src/pages/FAQ.jsx:6-8 | the page starts with an empty search term, the `general` category (a button id) and nothing open |
| `Faq.FaqState.ToggleQuestion` | src/pages/FAQ.jsx:109-115 | `toggleQuestion` replaces the open list by its toggle, keeps it duplicate-free and changes nothing else |
| `Faq.FaqState.SetSearchTerm` | src/pages/FAQ.jsx:151 | typing in the search box sets the term only |
| `Faq.FaqState.SetActiveCategory` | src/pages/FAQ.jsx:161-165 | a category button sets the active category, to that button's id, and nothing else; the state stays valid |
| `Faq.FaqState.ActiveCategoryHasEntries` | src/pages/FAQ.jsx:125 | in every reachable state the active category is a button id, so `faqs[activeCategory]` is defined and not empty |
| `Footer.IsWhitespace` | src/components/Footer.jsx:20 | the characters of `\s`: the ECMAScript white-space and line-terminator characters (a definition used by `MatchesEmailPatternIff`) |
| `Footer.MatchesEmailPattern` | src/components/Footer.jsx:20 | the pattern test written out by splitting at the first `@` (a definition; `MatchesEmailPatternIff` proves it equal to the pattern's reading) |
| `Footer.Accepts` | src/components/Footer.jsx:20 | the guard `email && email.match(...)` (a definition; `EmptyEmailRejected` and `AcceptedEmailShape` state what it admits) |
| `Footer.MatchesEmailPatternIff` | src/components/Footer.jsx:20 | the hand-written test accepts exactly the strings of the form A@B.C with A, B, C non-empty runs free of white space and `@` |
| `Footer.AcceptedEmailShape` | src/components/Footer.jsx:20 | an accepted email is non-empty, has no white space and exactly one `@` with text before it, and after the `@` a `.` that neither follows it directly nor ends the string |
| `Footer.Submit` | src/components/Footer.jsx:20-24 | the submit handler never changes the email; a rejected email changes nothing; an accepted one sets `loading` |
| `Footer.Settle` | src/components/Footer.jsx:25-32 | after the await, success sets `success` and clears the email; failure sets `error` and keeps the email; either way the form leaves `loading` |
| `Footer.SubmitEnabled` | src/components/Footer.jsx:136 | the button is enabled unless the status is `loading` (a definition; `SubmissionCycle` states when it is disabled and enabled again) |
| `Footer.SubmissionCycle` | src/components/Footer.jsx:24-32 | a submission of an accepted email disables the button while loading and ends in `success` with an empty field or `error` with the email kept, with the button enabled again |
| `Footer.EmptyEmailRejected` | src/components/Footer.jsx:20-21 | an empty email fails the pattern and leaves the state unchanged |
| `Footer.NewsletterForm.constructor` | src/components/Footer.jsx:15-16 | the form starts with an empty email and status `idle` |
| `Footer.NewsletterForm.Input` | src/components/Footer.jsx:130 | typing sets the email and leaves the status alone |
| `Footer.NewsletterForm.HandleSubmit` | src/components/Footer.jsx:18-24 | the handler gets past its guard exactly for an accepted email, and its state change is `Submit` |
| `Footer.NewsletterForm.Complete` | src/components/Footer.jsx:25-32 | the continuation after the await changes the state as `Settle` does |

## Left out

- Rendering, Tailwind classes, framer-motion animation and icons in every file: presentation only.
- The static content pages (Home, Search, HomestayDetails, Dashboard, AdminDashboard, About, Blog, PrivacyPolicy, TermsOfService, Testimonials, NotFound): mock data and layout, with no logic beyond trivial UI state.
- The router library: `Navigate`, `useNavigate`, `useLocation` and react-router's ranking. Matching is simplified to exact paths, one trailing `:id` segment, a trailing splat and the catch-all. Case-insensitive matching, trailing slashes and empty segments are not modelled. Apart from the catch-all, no path matches two entries (`AppRoutes.Unambiguous`). The router ranks `*` below any other match, and the model reproduces that by listing the catch-all last.
- The `alert` in `login`, the context check in `useAuth`, and the `async` shape of `login`: they do not affect the state change. `AuthContext.AuthProvider.Login` returns `ok`, which is false exactly where the alert is raised.
- The header search debounce, the search submit handlers in Header, Navbar and NotFound, and the theme toggle in App.jsx: they use timers, `encodeURIComponent`, navigation side effects, the DOM and `localStorage`.
- Footer I/O: the one-second `setTimeout` and `window.scrollTo`. The awaited step is a parameter (`failed`) of `Footer.NewsletterForm.Complete`. The shipped promise is a timer and never rejects, so the `error` branch is unreachable as shipped; it is modelled anyway. Overlapping submissions are not modelled, because the button is disabled while loading.
- The regular-expression engine: the pattern is a hand-written predicate (`Footer.MatchesEmailPattern`), proved equal to the pattern's own A@B.C reading. JavaScript `\s` is written out as the ECMAScript white-space and line-terminator characters.
- Faq.Lookup: models own keys of `faqs` only. Keys inherited from `Object.prototype` (`toString`, `constructor`, `__proto__`) are not modelled. They cannot be reached: `Faq.FaqState.Valid` keeps the active category a button id, `Faq.FaqState.SetActiveCategory` is only called with one, and `Faq.FaqState.ActiveCategoryHasEntries` shows such an id is an own key with entries.
- Faq.Lower: models `toLowerCase` on ASCII letters only. Unicode case mapping is not modelled.
- Browser-side validation, `FileReader`, `console.log` and date formatting: browser I/O or locale-dependent.
