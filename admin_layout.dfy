/** The guard in front of every admin page (app/admin/layout.tsx). */
module AdminLayout {
  import opened Wrappers
  import opened Store
  import opened Auth

  const HomePath: string := "/"

  /** What the layout does with a request: redirect elsewhere, or render the
      admin shell with the caller's email shown in the sidebar. */
  datatype Outcome = Redirect(location: string) | Render(sidebarEmail: string)

  /** AdminLayout: anonymous callers go to the login page before any role is
      looked at; signed-in non-admins go home; admins get the admin area. */
  function Guard(user: Option<User>, roles: map<Id, string>): (r: Outcome)
    ensures user.None? ==> r == Redirect(LoginPath)
    ensures user.Some? && !IsAdmin(user, roles) ==> r == Redirect(HomePath)
    ensures r.Render? <==> user.Some? && user.value.id in roles && roles[user.value.id] == AdminRole
    ensures r.Render? ==> r.sidebarEmail == OrElse(user.value.email, "")
  {
    if user.None? then Redirect(LoginPath)
    else if !IsAdmin(user, roles) then Redirect(HomePath)
    else Render(OrElse(user.value.email, ""))
  }

  /** For an anonymous caller the role table plays no part in the outcome. */
  lemma AnonymousIgnoresRoles(roles1: map<Id, string>, roles2: map<Id, string>)
    ensures Guard(None, roles1) == Guard(None, roles2) == Redirect(LoginPath)
  {
  }

  /** A caller without a role row never reaches the admin area, whatever the
      other rows say. */
  lemma NoRowNoAdminArea(u: User, roles: map<Id, string>)
    requires u.id !in roles
    ensures Guard(Some(u), roles) == Redirect(HomePath)
  {
  }
}
