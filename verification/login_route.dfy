/**
 * POST of src/app/api/login/route.ts: compares the submitted password with
 * the configured site password and, on a match, issues the cookie that the
 * password gate of src/middleware.ts accepts.
 */
module LoginRoute {
  import opened Common
  import Middleware

  /** The cookie attributes that the gate depends on; the security flags are not modelled. */
  datatype Cookie = Cookie(name: string, value: string, maxAge: int, path: string)

  datatype LoginReply =
    | NotConfigured          // 500: no site password
    | LoggedIn(cookie: Cookie)  // 200 with the authentication cookie
    | WrongPassword          // 401, no cookie
  {
    function Status(): int
    {
      match this
      case NotConfigured => 500
      case LoggedIn(_) => 200
      case WrongPassword => 401
    }
  }

  /**
   * The reply to a login with `password` (absent when the body has none)
   * while the site password is `sitePassword` (absent when unset).
   */
  function Login(password: Option<string>, sitePassword: Option<string>): (r: LoginReply)
    ensures !Truthy(sitePassword) ==> r.Status() == 500
    ensures Truthy(sitePassword) ==> (r.Status() == 200 <==> password == sitePassword)
    ensures Truthy(sitePassword) && password != sitePassword ==> r == WrongPassword
    ensures r.LoggedIn? ==> r.cookie == Cookie("site-auth", "authenticated", 31536000, "/")
  {
    if !Truthy(sitePassword) then NotConfigured
    else if password == sitePassword then LoggedIn(Cookie("site-auth", "authenticated", 60 * 60 * 24 * 365, "/"))
    else WrongPassword
  }

  /** Without a configured password every attempt gets 500, whatever was typed. */
  lemma UnconfiguredAlwaysFails(password: Option<string>, other: Option<string>, sitePassword: Option<string>)
    requires !Truthy(sitePassword)
    ensures Login(password, sitePassword) == Login(other, sitePassword) == NotConfigured
  {
  }

  /**
   * The issued cookie is the one the gate looks for, with the gate's
   * lifetime, and it opens the gate on every path that is not public.
   */
  lemma IssuedCookieOpensGate(password: Option<string>, sitePassword: Option<string>,
                              pathname: string, cookies: map<string, string>)
    requires Login(password, sitePassword).LoggedIn?
    ensures var c := Login(password, sitePassword).cookie;
      && c.name == Middleware.CookieName
      && c.value == Middleware.AuthenticatedValue
      && c.maxAge == Middleware.CookieMaxAge
      && c.path == "/"
      && (!Middleware.IsPublic(pathname) ==> Middleware.Decide(pathname, cookies[c.name := c.value]) == Middleware.Localize)
  {
  }
}
