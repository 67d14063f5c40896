/** The routing decision of src/middleware.ts: signed-in visitors are sent away
    from the sign-in pages, anonymous visitors away from the dashboard. */
module RouteGuard {
  import opened AuthTypes
  import opened SessionCookie

  /** Paths that need a session; matched by prefix. */
  const ProtectedPaths: seq<string> := ["/dashboard"]

  /** Paths a signed-in visitor has no use for; matched exactly. */
  const AuthPaths: seq<string> := ["/", "/login", "/register"]

  const DashboardPath := "/dashboard"
  const RootPath := "/"

  datatype Decision = Proceed | Redirect(target: string)

  /** `protectedPaths.some(path => pathname.startsWith(path))`. */
  predicate IsProtected(path: string) {
    exists p :: p in ProtectedPaths && p <= path
  }

  /** With the one protected path, a path is protected exactly when it starts
      with `/dashboard`. */
  lemma ProtectedMeansDashboardPrefix(path: string)
    ensures IsProtected(path) <==> DashboardPath <= path
  {
    if DashboardPath <= path {
      assert DashboardPath in ProtectedPaths;
    }
  }

  /** `middleware(request)` for the request's pathname and its `session` cookie. */
  function Middleware(path: string, session: Option<string>): (d: Decision)
    ensures d == Redirect(DashboardPath) <==> HasSession(session) && path in AuthPaths
    ensures d == Redirect(RootPath) <==> !HasSession(session) && DashboardPath <= path
    ensures d.Redirect? ==> d.target in {DashboardPath, RootPath}
  {
    ProtectedMeansDashboardPrefix(path);
    if HasSession(session) && path in AuthPaths then Redirect(DashboardPath)
    else if !HasSession(session) && IsProtected(path) then Redirect(RootPath)
    else Proceed
  }

  /** No redirect loop: following a redirect with the same cookie reaches a page
      the guard lets through. */
  lemma NoRedirectLoop(path: string, session: Option<string>)
    ensures Middleware(path, session).Redirect? ==>
              Middleware(Middleware(path, session).target, session) == Proceed
  {
  }

  /** The two kinds of match differ: a path below the dashboard is protected,
      a path below the login page is not an auth path. */
  lemma PrefixAndExactMatch()
    ensures Middleware("/dashboard/settings", None) == Redirect(RootPath)
    ensures Middleware("/dashboard/settings", Some("")) == Redirect(RootPath)
    ensures Middleware("/login/help", Some("7")) == Proceed
    ensures Middleware("/login", Some("7")) == Redirect(DashboardPath)
  {
  }
}
