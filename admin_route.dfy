/** The admin route guard (components/admin-protected-route.tsx): what it renders and where it
    redirects, for the session's loading flag and user. */
module AdminRoute {
  import opened Wrappers
  import opened Types

  const LoginPath: string := "/login"
  const HomePath: string := "/"

  /** What the guard renders. */
  datatype View = Spinner | NothingShown | Children

  /** The effect's redirect: none while loading, the login page without a user, the home page for
      a user who is not an admin. */
  function Redirect(isLoading: bool, user: Option<User>): (target: Option<string>)
    ensures isLoading ==> target.None?
    ensures !isLoading && user.None? ==> target == Some(LoginPath)
    ensures !isLoading && user.Some? && !user.value.isAdmin ==> target == Some(HomePath)
    ensures target.None? <==> isLoading || (user.Some? && user.value.isAdmin)
  {
    if isLoading then None
    else if user.None? then Some(LoginPath)
    else if !user.value.isAdmin then Some(HomePath)
    else None
  }

  /** What is rendered: the spinner while loading, the children for an admin, nothing otherwise. */
  function Render(isLoading: bool, user: Option<User>): (v: View)
    ensures v == Spinner <==> isLoading
    ensures v == Children <==> !isLoading && user.Some? && user.value.isAdmin
  {
    if isLoading then Spinner
    else if user.None? || !user.value.isAdmin then NothingShown
    else Children
  }

  /** An admin is never redirected, and whoever is redirected does not see the children. */
  lemma AdminNeverRedirected(isLoading: bool, user: Option<User>)
    ensures user.Some? && user.value.isAdmin ==> Redirect(isLoading, user).None?
    ensures Redirect(isLoading, user).Some? ==> Render(isLoading, user) == NothingShown
  {
  }
}
