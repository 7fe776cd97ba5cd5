/**
 * The password gate of src/middleware.ts: public paths pass through, a
 * request carrying the authentication cookie goes on to the locale
 * middleware, and every other request is sent to the login page.
 */
module Middleware {
  import opened Common

  const CookieName: string := "site-auth"
  const CookieMaxAge: int := 60 * 60 * 24 * 365
  const AuthenticatedValue: string := "authenticated"
  const LoginPath: string := "/login"

  /** What the middleware does with a request. */
  datatype Decision =
    | PassThrough                                       // NextResponse.next()
    | Localize                                          // handed to the locale middleware
    | RedirectToLogin(location: string, redirect: string)  // location plus its `redirect` query parameter

  predicate StartsWith(s: string, prefix: string)
  {
    |prefix| <= |s| && s[..|prefix|] == prefix
  }

  /** Paths the gate never checks: the login page and API, framework assets, and any path with a dot. */
  function IsPublic(pathname: string): (p: bool)
    ensures '.' in pathname ==> p
    ensures StartsWith(pathname, LoginPath) ==> p
    ensures p && '.' !in pathname ==> |pathname| >= 6 && pathname[0] == '/'
  {
    || StartsWith(pathname, "/login")
    || StartsWith(pathname, "/api/login")
    || StartsWith(pathname, "/_next")
    || StartsWith(pathname, "/favicon")
    || '.' in pathname
  }

  /** The gate's decision for a request path and the request's cookies (name to value). */
  function Decide(pathname: string, cookies: map<string, string>): (d: Decision)
    ensures d.PassThrough? <==> IsPublic(pathname)
    ensures d.Localize? <==> !IsPublic(pathname) && CookieName in cookies && cookies[CookieName] == AuthenticatedValue
    ensures d.RedirectToLogin? ==> d == RedirectToLogin(LoginPath, pathname)
  {
    if IsPublic(pathname) then PassThrough
    else if CookieName in cookies && cookies[CookieName] == AuthenticatedValue then Localize
    else RedirectToLogin(LoginPath, pathname)
  }

  /** On a public path the cookies are never consulted. */
  lemma PublicPathIgnoresCookies(pathname: string, cookies: map<string, string>, others: map<string, string>)
    requires IsPublic(pathname)
    ensures Decide(pathname, cookies) == Decide(pathname, others) == PassThrough
  {
  }

  /** Only the exact value "authenticated" opens the gate; any other value, or none, redirects. */
  lemma OnlyExactCookieOpens(pathname: string, cookies: map<string, string>)
    requires !IsPublic(pathname)
    ensures CookieName !in cookies ==> Decide(pathname, cookies) == RedirectToLogin(LoginPath, pathname)
    ensures CookieName in cookies && cookies[CookieName] != AuthenticatedValue ==>
      Decide(pathname, cookies) == RedirectToLogin(LoginPath, pathname)
  {
  }

  /** The redirect target is itself public, so a redirect never leads to another redirect. */
  lemma NoRedirectLoop(pathname: string, cookies: map<string, string>, next: map<string, string>)
    requires Decide(pathname, cookies).RedirectToLogin?
    ensures IsPublic(Decide(pathname, cookies).location)
    ensures Decide(Decide(pathname, cookies).location, next) == PassThrough
  {
    assert StartsWith(LoginPath, "/login");
  }

  /** A path containing a dot passes without any cookie, wherever it points. */
  lemma DottedPathBypassesGate(pathname: string, cookies: map<string, string>, k: nat)
    requires k < |pathname| && pathname[k] == '.'
    ensures Decide(pathname, cookies) == PassThrough
  {
  }
}
