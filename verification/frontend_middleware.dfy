/** The Next.js route guard (frontend/src/middleware.ts): protected paths
    need a session, otherwise the browser is sent to the sign-in page. */
module FrontendMiddleware {
  import opened Strings

  const ProtectedRoutes: seq<string> := ["/user-info"]
  const SignInPath := "/api/auth/signin"

  /** A request URL split into the parts the guard looks at. */
  datatype Url = Url(origin: string, pathname: string, search: string)

  datatype Decision = Redirect(location: Url) | Next

  /** `protectedRoutes.some((route) => pathname.startsWith(route))`. */
  function AnyPrefix(routes: seq<string>, pathname: string): (b: bool)
    ensures b <==> exists k :: 0 <= k < |routes| && HasPrefix(pathname, routes[k])
  {
    if |routes| == 0 then false
    else if HasPrefix(pathname, routes[0]) then true
    else
      var b := AnyPrefix(routes[1..], pathname);
      assert forall k :: 1 <= k < |routes| ==> routes[k] == routes[1..][k - 1];
      b
  }

  predicate IsProtected(pathname: string) {
    AnyPrefix(ProtectedRoutes, pathname)
  }

  /** `new URL(path, base)` for an absolute path: same origin, new path, no query. */
  function Resolve(path: string, base: Url): Url {
    Url(base.origin, path, "")
  }

  /** The guard: `hasSession` is whether `auth()` returned a session. */
  function Middleware(request: Url, hasSession: bool): (d: Decision)
    ensures d.Redirect? <==> IsProtected(request.pathname) && !hasSession
    ensures d.Redirect? ==> d.location == Url(request.origin, SignInPath, "")
  {
    if IsProtected(request.pathname) && !hasSession then Redirect(Resolve(SignInPath, request))
    else Next
  }

  /** Protection is by prefix only: "/user-info" and everything that starts
      with it, "/user-infoX" included, and nothing else. */
  lemma ProtectionIsPrefix(pathname: string)
    ensures IsProtected(pathname) <==> HasPrefix(pathname, "/user-info")
  {
  }

  lemma PrefixOnlyExample()
    ensures IsProtected("/user-infoX")
    ensures IsProtected("/user-info/settings")
    ensures !IsProtected("/")
  {
    assert "/user-infoX"[..|"/user-info"|] == "/user-info";
    assert "/user-info/settings"[..|"/user-info"|] == "/user-info";
  }
}
