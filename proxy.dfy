/**
 * The request gate of `proxy.ts`: which paths are public, whether a session
 * cookie is present, and whether a request passes or is sent to the login
 * page. Cookies are a name-to-value map; the URL is only its pathname.
 */
module Proxy {
  import opened Text

  const LoginPath: string := "/login"
  const ApiPrefix: string := "/api"
  const AuthPrefix: string := "/api/auth"
  const NextPrefix: string := "/_next"
  const FaviconPrefix: string := "/favicon"

  /** The Auth.js session cookie names, secure and plain, of both library generations. */
  const SessionCookieNames: seq<string> := [
    "__Secure-authjs.session-token",
    "authjs.session-token",
    "__Secure-next-auth.session-token",
    "next-auth.session-token"]

  /** `isPublicPath`. */
  predicate IsPublicPath(pathname: string)
    ensures IsPublicPath(pathname) ==> |pathname| > 1 && pathname[0] == '/'
  {
    || pathname in {LoginPath}
    || StartsWith(pathname, AuthPrefix)
    || StartsWith(pathname, NextPrefix)
    || StartsWith(pathname, FaviconPrefix)
  }

  /** `names.some((n) => cookies.get(n)?.value)` over the names from position k on. */
  function SomeSessionCookie(cookies: map<string, string>, k: nat): (r: bool)
    requires k <= |SessionCookieNames|
    ensures r <==> exists i :: k <= i < |SessionCookieNames| && SessionCookieNames[i] in cookies && cookies[SessionCookieNames[i]] != ""
    decreases |SessionCookieNames| - k
  {
    if k == |SessionCookieNames| then false
    else
      var n := SessionCookieNames[k];
      (n in cookies && cookies[n] != "") || SomeSessionCookie(cookies, k + 1)
  }

  /** `hasAuthSessionCookie`: one of the four session cookies has a non-empty value. */
  function HasAuthSessionCookie(cookies: map<string, string>): (r: bool)
    ensures r <==> exists n :: n in SessionCookieNames && n in cookies && cookies[n] != ""
  {
    var r := SomeSessionCookie(cookies, 0);
    assert r ==> exists n :: n in SessionCookieNames && n in cookies && cookies[n] != "";
    assert (exists n :: n in SessionCookieNames && n in cookies && cookies[n] != "") ==> r by {
      if n :| n in SessionCookieNames && n in cookies && cookies[n] != "" {
        var i :| 0 <= i < |SessionCookieNames| && SessionCookieNames[i] == n;
      }
    }
    r
  }

  /** `NextResponse.next()`, or a redirect to `pathname` with the query parameter `from`. */
  datatype Decision = Pass | Redirect(pathname: string, from: string)

  /** `proxy(req)`. */
  function Decide(pathname: string, cookies: map<string, string>): (r: Decision)
    ensures r.Pass? <==> IsPublicPath(pathname) || StartsWith(pathname, ApiPrefix) || HasAuthSessionCookie(cookies)
    ensures r.Redirect? ==> r.pathname == LoginPath && r.from == pathname
  {
    if IsPublicPath(pathname) then Pass
    else if StartsWith(pathname, ApiPrefix) then Pass
    else if HasAuthSessionCookie(cookies) then Pass
    else Redirect(LoginPath, pathname)
  }

  /** `isPublicPath` holds for "/login" and the three prefixes, and for no other path. */
  lemma PublicPaths(pathname: string)
    ensures IsPublicPath(LoginPath)
    ensures StartsWith(pathname, AuthPrefix) || StartsWith(pathname, NextPrefix) || StartsWith(pathname, FaviconPrefix) ==>
      IsPublicPath(pathname)
    ensures IsPublicPath(pathname) ==>
      pathname == LoginPath || StartsWith(pathname, AuthPrefix) || StartsWith(pathname, NextPrefix) || StartsWith(pathname, FaviconPrefix)
  {
  }

  /** Public paths and API paths pass whatever the cookies. */
  lemma OpenPathsIgnoreCookies(pathname: string, c1: map<string, string>, c2: map<string, string>)
    requires IsPublicPath(pathname) || StartsWith(pathname, ApiPrefix)
    ensures Decide(pathname, c1) == Decide(pathname, c2) == Pass
  {
  }

  /** The auth API prefix is inside the API prefix, so its public-path test changes no decision. */
  lemma AuthPrefixWithinApi(pathname: string)
    requires StartsWith(pathname, AuthPrefix)
    ensures StartsWith(pathname, ApiPrefix)
  {
    assert pathname[..|ApiPrefix|] == pathname[..|AuthPrefix|][..|ApiPrefix|];
  }

  /** A visitor with a session cookie passes everywhere. */
  lemma SessionPassesEverywhere(pathname: string, cookies: map<string, string>, n: string)
    requires n in SessionCookieNames && n in cookies && cookies[n] != ""
    ensures Decide(pathname, cookies) == Pass
  {
  }

  /** The login page itself always passes, so following a redirect never redirects again. */
  lemma RedirectSettles(pathname: string, cookies: map<string, string>)
    requires Decide(pathname, cookies).Redirect?
    ensures Decide(Decide(pathname, cookies).pathname, cookies) == Pass
  {
  }

  /** Without a session cookie, every path other than the open ones is redirected to the login page with `from` set to it. */
  lemma NoSessionRedirects(pathname: string, cookies: map<string, string>)
    requires !IsPublicPath(pathname) && !StartsWith(pathname, ApiPrefix)
    requires forall n :: n in SessionCookieNames && n in cookies ==> cookies[n] == ""
    ensures Decide(pathname, cookies) == Redirect(LoginPath, pathname)
  {
  }
}
