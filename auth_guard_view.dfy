/**
 * The client-side page guard: from the session status, the session's role
 * and the role the page requires it decides what renders (a spinner,
 * nothing, or the page) and where its effect redirects. The router push is
 * returned as a value.
 */
module AuthGuardView {
  import opened Common

  datatype SessionStatus = Loading | Authenticated | Unauthenticated

  /** The `requiredRole` prop: "admin" or "user". */
  datatype RequiredRole = AdminRole | UserRole

  function RoleString(r: RequiredRole): string
  {
    match r
    case AdminRole => "admin"
    case UserRole => "user"
  }

  const DEFAULT_FALLBACK: string := "/auth/signin"

  /** The `fallbackUrl` prop with its default, which applies only when the prop is left out. */
  function FallbackUrl(given: Option<string>): (url: string)
    ensures given.None? ==> url == DEFAULT_FALLBACK
    ensures given.Some? ==> url == given.value
  {
    if given.Some? then given.value else DEFAULT_FALLBACK
  }

  /** `requiredRole && session?.user.role !== requiredRole` */
  predicate RoleMismatch(role: Option<string>, required: Option<RequiredRole>)
  {
    required.Some? && role != Some(RoleString(required.value))
  }

  /** The effect: where the guard sends the browser, if anywhere. */
  function RedirectTarget(status: SessionStatus, role: Option<string>, required: Option<RequiredRole>,
                          fallback: Option<string>): (to: Option<string>)
    ensures status == Loading ==> to.None?
    ensures status == Unauthenticated ==> to == Some(FallbackUrl(fallback))
    ensures status == Authenticated ==>
      (to.Some? <==> required == Some(AdminRole) && role != Some("admin"))
    ensures to.Some? && status == Authenticated ==> to == Some("/dashboard")
  {
    if status == Loading then None
    else if status == Unauthenticated then Some(FallbackUrl(fallback))
    else if RoleMismatch(role, required) && required.value == AdminRole && role != Some("admin") then Some("/dashboard")
    else None
  }

  datatype View = Spinner | Nothing | Children

  /** What the guard renders. */
  function Render(status: SessionStatus, role: Option<string>, required: Option<RequiredRole>): (v: View)
    ensures v == Spinner <==> status == Loading
    ensures v == Children <==> status == Authenticated && (required.None? || role == Some(RoleString(required.value)))
  {
    if status == Loading then Spinner
    else if status == Unauthenticated then Nothing
    else if RoleMismatch(role, required) then Nothing
    else
      assert status == Authenticated && (required.None? || role == Some(RoleString(required.value)));
      Children
  }

  /**
   * After loading, a page that does not render always redirects, except
   * for one case: a session whose role is not "user" on a page that requires
   * "user" sees nothing and stays where it is.
   */
  lemma NothingMeansRedirectOrStuck(status: SessionStatus, role: Option<string>, required: Option<RequiredRole>,
                                    fallback: Option<string>)
    requires Render(status, role, required) == Nothing
    ensures RedirectTarget(status, role, required, fallback).None? <==>
      status == Authenticated && required == Some(UserRole) && role != Some("user")
  {
  }

  /** The page renders and the guard redirects never both happen. */
  lemma RenderExcludesRedirect(status: SessionStatus, role: Option<string>, required: Option<RequiredRole>,
                               fallback: Option<string>)
    requires Render(status, role, required) == Children
    ensures RedirectTarget(status, role, required, fallback).None?
  {
  }

  /** An admin sees admin pages; a page without a required role admits every signed-in session. */
  lemma AdminPassesAdminPages(role: Option<string>)
    ensures Render(Authenticated, Some("admin"), Some(AdminRole)) == Children
    ensures Render(Authenticated, role, None) == Children
  {
  }
}
