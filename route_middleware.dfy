/**
 * The frontend's route middleware: for a request path and the session token
 * (absent when signed out) it either lets the request through or redirects.
 * Roles here are the session's lower-case strings ("admin"), not the
 * backend's enum.
 */
module RouteMiddleware {
  import opened Common

  /** The session token as the middleware reads it: only its role matters. */
  datatype Token = Token(role: Option<string>)

  datatype Outcome = Next | Redirect(to: string)

  const SIGN_IN: string := "/auth/signin"

  /** `token?.role === "admin"` */
  predicate IsAdmin(token: Option<Token>)
  {
    token.Some? && token.value.role == Some("admin")
  }

  /** No path lies under both "/auth" and "/admin": they differ in their third character. */
  lemma AuthIsNotAdmin(pathname: string)
    ensures !(StartsWith(pathname, "/auth") && StartsWith(pathname, "/admin"))
  {
    if StartsWith(pathname, "/auth") {
      assert pathname[..5][2] == pathname[2];
      DiffersAt(pathname, "/admin", 2);
    }
  }

  /** The redirect policy for a path the matcher admitted. */
  function Decide(pathname: string, token: Option<Token>): (o: Outcome)
    ensures StartsWith(pathname, "/auth") && token.Some? ==> o == Redirect(if IsAdmin(token) then "/admin" else "/dashboard")
    ensures token.None? && !StartsWith(pathname, "/auth") ==> o == Redirect(SIGN_IN)
    ensures token.None? && StartsWith(pathname, "/auth") ==> o == Next
    ensures (token.Some? && !StartsWith(pathname, "/auth") && StartsWith(pathname, "/admin")
      ==> o == (if IsAdmin(token) then Next else Redirect("/dashboard")))
    ensures o == Next <==> (
      if token.None? then StartsWith(pathname, "/auth")
      else !StartsWith(pathname, "/auth") && (StartsWith(pathname, "/admin") ==> IsAdmin(token)))
  {
    AuthIsNotAdmin(pathname);
    var isAuth := token.Some?;
    var isAuthPage := StartsWith(pathname, "/auth");
    if isAuthPage && isAuth then
      if IsAdmin(token) then Redirect("/admin") else Redirect("/dashboard")
    else if !isAuth && !isAuthPage then Redirect(SIGN_IN)
    else if StartsWith(pathname, "/admin") && !IsAdmin(token) then Redirect("/dashboard")
    else Next
  }

  /** `"/<prefix>/:path*"`: the prefix itself or anything below it. */
  predicate Under(pathname: string, prefix: string)
  {
    pathname == prefix || StartsWith(pathname, prefix + "/")
  }

  /** The matcher: the middleware runs only under /dashboard, /admin and /auth. */
  predicate Matched(pathname: string)
  {
    Under(pathname, "/dashboard") || Under(pathname, "/admin") || Under(pathname, "/auth")
  }

  /** The middleware as deployed: paths outside the matcher are never redirected. */
  function Middleware(pathname: string, token: Option<Token>): (o: Outcome)
    ensures !Matched(pathname) ==> o == Next
    ensures Matched(pathname) ==> o == Decide(pathname, token)
  {
    if Matched(pathname) then Decide(pathname, token) else Next
  }

  /** A redirect target is itself let through with the same token: no redirect chains or loops. */
  lemma RedirectSettles(pathname: string, token: Option<Token>)
    requires Decide(pathname, token).Redirect?
    ensures Decide(Decide(pathname, token).to, token) == Next
    ensures Matched(Decide(pathname, token).to)
  {
    var to := Decide(pathname, token).to;
    if to == "/admin" {
      DiffersAt(to, "/auth", 2);
      assert to[..6] == "/admin";
    } else if to == SIGN_IN {
      assert to[..5] == "/auth";
      DiffersAt(to, "/admin", 2);
      assert to[..6] == "/auth" + "/";
    } else {
      DiffersAt(to, "/auth", 1);
      DiffersAt(to, "/admin", 1);
      assert to[..10] == "/dashboard";
    }
  }

  /** A signed-out visitor always ends on the sign-in page, in at most one redirect. */
  lemma SignedOutReachesSignIn(pathname: string)
    requires Matched(pathname) && !StartsWith(pathname, "/auth")
    ensures Middleware(pathname, None) == Redirect(SIGN_IN)
    ensures Middleware(SIGN_IN, None) == Next
  {
    assert SIGN_IN == "/auth" + "/signin";
    assert SIGN_IN[..6] == "/auth" + "/";
  }
}
