/**
 * The routing decision of src/middleware.ts, run before every matched request: let it
 * through, answer 401 for the API, or redirect to the login page. Whether the session
 * cookie holds a valid session (`isValidSession`) is given as `authenticated`.
 */
module Middleware {

  /** Passing the request on, a JSON error with a status, or a redirect to a path of the same origin. */
  datatype Response = Next | Json(status: int, error: string) | Redirect(location: string)

  /** Paths served without a session, matched exactly. */
  const ExemptPaths: seq<string> := ["/login", "/api/auth/login", "/api/health", "/favicon.ico"]

  predicate StartsWith(s: string, prefix: string) {
    |prefix| <= |s| && s[..|prefix|] == prefix
  }

  /** Next.js build output, or one of the exempt paths. */
  predicate Exempt(pathname: string) {
    StartsWith(pathname, "/_next") || pathname in ExemptPaths
  }

  /**
   * `middleware`. Exempt paths pass whatever the session; without a session the API
   * answers 401 and pages go to "/login". The redirect of a signed-in "/login" to "/"
   * never happens, because "/login" is exempt and returns first.
   */
  function Decide(pathname: string, authenticated: bool): (r: Response)
    ensures r.Next? <==> Exempt(pathname) || authenticated
    ensures r.Json? <==> !Exempt(pathname) && !authenticated && StartsWith(pathname, "/api/")
    ensures r.Json? ==> r == Json(401, "Unauthorized")
    ensures r.Redirect? ==> r == Redirect("/login")
    ensures r != Redirect("/")
  {
    if Exempt(pathname) then Next
    else if !authenticated then
      (if StartsWith(pathname, "/api/") then Json(401, "Unauthorized") else Redirect("/login"))
    else if authenticated && pathname == "/login" then Redirect("/")
    else Next
  }

  /** Exemption is by equality: a sub-path or a trailing slash is not exempt. */
  lemma ExactMatchOnly()
    ensures Decide("/login/x", false) == Redirect("/login")
    ensures Decide("/api/health/", false) == Json(401, "Unauthorized")
    ensures Decide("/api/health", false) == Next
    ensures Decide("/_next/static/app.js", false) == Next
  {
    assert "/login/x"[..6][1] == 'l';
    assert "/api/health/"[..6][1] == 'a';
    assert "/api/health/"[..5] == "/api/";
    assert "/api/health"[..6][1] == 'a';
  }
}
