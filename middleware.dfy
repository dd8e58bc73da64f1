/**
 * middleware.ts: the route guard that runs before every matched request.
 *
 * The guard looks only at the request path and at whether a non-empty session
 * cookie is present; it never checks that the session behind the cookie is
 * valid.
 * Protected routes are matched exactly, auth routes by a raw string prefix.
 */
module Middleware {
  import opened Wrappers
  import opened Text

  /** `protectedRoutes` (middleware.ts:4) */
  const ProtectedRoutes: seq<string> := ["/profile", "/admin/dashboard"]

  const AuthPrefix: string := "/auth"

  const LoginPage: string := "/auth/login"

  const ProfilePage: string := "/profile"

  /** What the middleware returns: `NextResponse.next()` or a redirect to a path
      on the request's own origin. */
  datatype Decision = Next | RedirectTo(location: string)

  /** The inputs the middleware reads: the path of `nextUrl` and the session
      cookie that `getSessionCookie` finds, if any. */
  datatype Request = Request(pathname: string, sessionCookie: Option<string>)

  /** `protectedRoutes.includes(pathname)`: exact equality with one entry. */
  predicate IsProtectedRoute(pathname: string) {
    pathname in ProtectedRoutes
  }

  /** `pathname.startsWith("/auth")` */
  predicate IsAuthRoute(pathname: string) {
    StartsWith(pathname, AuthPrefix)
  }

  /** The decision of `middleware` (middleware.ts:14-20): a logged-out request to
      a protected route goes to the login page, a logged-in request to an auth
      route goes to the profile page, and everything else passes. */
  function Decide(pathname: string, isLoggedIn: bool): (d: Decision)
    ensures d == RedirectTo(LoginPage) <==> IsProtectedRoute(pathname) && !isLoggedIn
    ensures d == RedirectTo(ProfilePage) <==> IsAuthRoute(pathname) && isLoggedIn
    ensures d == Next <==> !(IsProtectedRoute(pathname) && !isLoggedIn) && !(IsAuthRoute(pathname) && isLoggedIn)
  {
    if IsProtectedRoute(pathname) && !isLoggedIn then RedirectTo(LoginPage)
    else if IsAuthRoute(pathname) && isLoggedIn then RedirectTo(ProfilePage)
    else Next
  }

  /** `!!sessionCookies` (middleware.ts:10): a cookie is found and its value is
      not the empty string, which JavaScript counts as false. */
  predicate LoggedIn(req: Request) {
    req.sessionCookie.Some? && req.sessionCookie.value != ""
  }

  /** `middleware(req)` (middleware.ts:6-21): a request without a non-empty
      session cookie to a protected route goes to the login page, a request
      with one to an auth route goes to the profile page, and everything else
      passes. */
  function Middleware(req: Request): (d: Decision)
    ensures d == RedirectTo(LoginPage) <==>
      IsProtectedRoute(req.pathname) && (req.sessionCookie == None || req.sessionCookie == Some(""))
    ensures d == RedirectTo(ProfilePage) <==>
      IsAuthRoute(req.pathname) && req.sessionCookie.Some? && req.sessionCookie.value != ""
    ensures d == Next <==>
      !(IsProtectedRoute(req.pathname) && !LoggedIn(req)) && !(IsAuthRoute(req.pathname) && LoggedIn(req))
  {
    assert !LoggedIn(req) <==> req.sessionCookie == None || req.sessionCookie == Some("");
    Decide(req.pathname, LoggedIn(req))
  }

  /** No path is both protected and an auth route, so at most one redirect
      condition holds for any request. */
  lemma RoutesDisjoint(pathname: string)
    ensures !(IsProtectedRoute(pathname) && IsAuthRoute(pathname))
  {
    if IsProtectedRoute(pathname) {
      assert pathname[1] != AuthPrefix[1] || pathname[2] != AuthPrefix[2];
    }
  }

  /** A redirect never leads to a second redirect: following it with the same
      cookie state passes through. */
  lemma NoRedirectLoop(pathname: string, isLoggedIn: bool)
    ensures Decide(pathname, isLoggedIn).RedirectTo? ==>
      Decide(Decide(pathname, isLoggedIn).location, isLoggedIn) == Next
  {
    RoutesDisjoint(LoginPage);
    RoutesDisjoint(ProfilePage);
  }

  /** The two redirect targets are the login page and the profile page, and
      they are the only ones. */
  lemma RedirectTargets(pathname: string, isLoggedIn: bool)
    ensures Decide(pathname, isLoggedIn).RedirectTo? ==>
      Decide(pathname, isLoggedIn).location in {LoginPage, ProfilePage}
    ensures IsAuthRoute(LoginPage) && IsProtectedRoute(ProfilePage)
  {
  }

  /** Protection is an exact match: extensions and parents of a protected path
      are not protected. */
  lemma ProtectionIsExact()
    ensures Decide("/profile", false) == RedirectTo(LoginPage)
    ensures Decide("/admin/dashboard", false) == RedirectTo(LoginPage)
    ensures Decide("/profile/edit", false) == Next
    ensures Decide("/admin", false) == Next
    ensures Decide("/admin/dashboard/", false) == Next
  {
  }

  /** The auth-route test is a raw prefix: any path that begins with the
      characters `/auth`, such as `/authors`, counts. */
  lemma AuthRouteIsRawPrefix()
    ensures Decide("/authors", true) == RedirectTo(ProfilePage)
    ensures Decide("/auth/login", true) == RedirectTo(ProfilePage)
    ensures Decide("/auth", true) == RedirectTo(ProfilePage)
    ensures Decide("/Auth", true) == Next
  {
    assert "/profile"[1] != "/authors"[1];
  }

  /** The cases where nothing happens: a logged-in request to a protected path
      and a logged-out request to an auth path both pass. */
  lemma OtherCasesPass(pathname: string)
    ensures IsProtectedRoute(pathname) ==> Decide(pathname, true) == Next
    ensures IsAuthRoute(pathname) ==> Decide(pathname, false) == Next
  {
    RoutesDisjoint(pathname);
  }

  /** Only whether a non-empty cookie is present matters, not its value: an
      expired or forged cookie is treated like a valid one, and an empty cookie
      like no cookie at all. */
  lemma CookieValueIgnored(pathname: string, a: string, b: string)
    requires a != "" && b != ""
    ensures Middleware(Request(pathname, Some(a))) == Middleware(Request(pathname, Some(b)))
    ensures Middleware(Request(pathname, Some(a))) == Decide(pathname, true)
    ensures Middleware(Request(pathname, Some(""))) == Middleware(Request(pathname, None))
    ensures Middleware(Request(pathname, None)) == Decide(pathname, false)
  {
  }

  /** An empty session cookie does not log a request in: `/profile` still goes
      to the login page, and `/auth/login` is served. */
  lemma EmptyCookieIsLoggedOut()
    ensures Middleware(Request("/profile", Some(""))) == RedirectTo(LoginPage)
    ensures Middleware(Request("/auth/login", Some(""))) == Next
  {
  }
}
