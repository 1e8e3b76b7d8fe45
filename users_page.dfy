/** The admin users list (app/admin/users/page.tsx): profiles joined with
    their role rows, newest first, each shown with a role and a badge. */
module UsersPage {
  import opened Wrappers
  import opened Store
  import opened Auth
  import opened Ordering

  /** A profile with the `user_roles (role)` embedding: an array of roles,
      or null. */
  datatype ProfileRow = ProfileRow(profile: Profile, userRoles: Option<seq<string>>)

  datatype Badge = Default | Secondary

  /** One line of the table as shown. */
  datatype UserLine = UserLine(name: string, email: string, phone: string, role: string, badge: Badge)

  const Placeholder: string := "—"

  /** `user_roles?.[0]?.role || "user"`: the first role row's role, or
      "user" when there is no row, no array, or an empty role. */
  function DisplayedRole(userRoles: Option<seq<string>>): (r: string)
    ensures r != ""
    ensures userRoles.None? || userRoles.value == [] ==> r == DefaultRole
    ensures userRoles.Some? && userRoles.value != [] && userRoles.value[0] != "" ==> r == userRoles.value[0]
    ensures userRoles.Some? && userRoles.value != [] && userRoles.value[0] == "" ==> r == DefaultRole
  {
    match userRoles
    case None => DefaultRole
    case Some(rs) => if rs == [] then DefaultRole else OrElse(Some(rs[0]), DefaultRole)
  }

  /** The badge is "default" for admins and "secondary" for everyone else. */
  function BadgeFor(role: string): (b: Badge)
    ensures b == Default <==> role == AdminRole
  {
    if role == AdminRole then Default else Secondary
  }

  function Line(row: ProfileRow): (l: UserLine)
    ensures l.name == OrElse(row.profile.fullName, Placeholder)
    ensures l.phone == OrElse(row.profile.phone, Placeholder)
    ensures l.email == row.profile.email
    ensures l.role == DisplayedRole(row.userRoles) && l.badge == BadgeFor(l.role)
  {
    var role := DisplayedRole(row.userRoles);
    UserLine(OrElse(row.profile.fullName, Placeholder), row.profile.email,
             OrElse(row.profile.phone, Placeholder), role, BadgeFor(role))
  }

  /** The embedding the store builds from the role table: one row at most. */
  function RolesOf(p: Profile, roles: map<Id, string>): (r: Option<seq<string>>)
    ensures r.Some? && |r.value| <= 1
    ensures |r.value| == 1 <==> p.id in roles
    ensures p.id in roles ==> r.value[0] == roles[p.id]
  {
    Some(if p.id in roles then [roles[p.id]] else [])
  }

  function JoinRoles(profiles: seq<Profile>, roles: map<Id, string>): (r: seq<ProfileRow>)
    ensures |r| == |profiles|
    ensures forall i :: 0 <= i < |r| ==> r[i] == ProfileRow(profiles[i], RolesOf(profiles[i], roles))
  {
    seq(|profiles|, i requires 0 <= i < |profiles| => ProfileRow(profiles[i], RolesOf(profiles[i], roles)))
  }

  function CreatedAt(row: ProfileRow): int { row.profile.createdAt }

  /** getUsers: the profile rows the query returns, each with its roles,
      newest first; null data (an unanswered query) gives the empty list. */
  function GetUsers(profiles: seq<Profile>, roles: map<Id, string>, answered: bool): (r: seq<ProfileRow>)
    ensures !answered ==> r == []
    ensures answered ==> multiset(r) == multiset(JoinRoles(profiles, roles))
    ensures NewestFirst(r, CreatedAt)
  {
    if answered then SortNewestFirst(JoinRoles(profiles, roles), CreatedAt) else []
  }

  /** The table body: one line per row, in the order given. */
  function UsersTable(rows: seq<ProfileRow>): (r: seq<UserLine>)
    ensures |r| == |rows|
    ensures forall i :: 0 <= i < |r| ==> r[i] == Line(rows[i])
  {
    seq(|rows|, i requires 0 <= i < |rows| => Line(rows[i]))
  }

  /** The role the users list shows for a profile is the role the resolver
      gives that user, and the admin badge appears exactly for admins. */
  lemma ListedRoleIsResolvedRole(p: Profile, roles: map<Id, string>, u: User)
    requires u.id == p.id
    ensures DisplayedRole(RolesOf(p, roles)) == UserRole(Some(u), roles).value
    ensures BadgeFor(DisplayedRole(RolesOf(p, roles))) == Default <==> IsAdmin(Some(u), roles)
  {
  }
}
