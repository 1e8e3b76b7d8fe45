/** Role and profile resolution for the current caller (lib/auth.ts). The
    caller the identity provider reports is a parameter: `None` is an
    anonymous visitor. Nothing here writes to the store. */
module Auth {
  import opened Wrappers
  import opened Store

  const LoginPath: string := "/auth/login"
  const DefaultRole: string := "user"
  const AdminRole: string := "admin"

  /** getUserRole: no role for an anonymous caller; otherwise the stored role,
      with a missing row or an empty role read as "user". */
  function UserRole(user: Option<User>, roles: map<Id, string>): (r: Option<string>)
    ensures r.None? <==> user.None?
    ensures r.Some? ==> r.value != ""
    ensures r.Some? ==> r.value == DefaultRole || (user.value.id in roles && roles[user.value.id] == r.value)
  {
    match user
    case None => None
    case Some(u) => Some(if u.id in roles then OrElse(Some(roles[u.id]), DefaultRole) else DefaultRole)
  }

  /** isAdmin: the resolved role is exactly "admin". */
  predicate IsAdmin(user: Option<User>, roles: map<Id, string>)
    ensures IsAdmin(user, roles) ==> user.Some? && user.value.id in roles
  {
    UserRole(user, roles) == Some(AdminRole)
  }

  /** getUserProfile: no profile for an anonymous caller; otherwise the row of
      `profiles` whose id is the caller's, or none when there is no such row. */
  function UserProfile(user: Option<User>, profiles: map<Id, Profile>): (r: Option<Profile>)
    ensures user.None? ==> r.None?
    ensures user.Some? ==> (r.Some? <==> user.value.id in profiles)
    ensures r.Some? ==> r.value == profiles[user.value.id]
  {
    match user
    case None => None
    case Some(u) => if u.id in profiles then Some(profiles[u.id]) else None
  }

  /** Admin means a stored role row that says exactly "admin"; an anonymous
      caller, a caller without a row and a caller with any other role are not. */
  lemma IsAdminIff(user: Option<User>, roles: map<Id, string>)
    ensures IsAdmin(user, roles) <==> user.Some? && user.value.id in roles && roles[user.value.id] == AdminRole
  {
  }

  /** A signed-in caller with no row, or with an empty role, resolves to "user". */
  lemma MissingRoleIsUser(u: User, roles: map<Id, string>)
    requires u.id !in roles || roles[u.id] == ""
    ensures UserRole(Some(u), roles) == Some(DefaultRole)
    ensures !IsAdmin(Some(u), roles)
  {
  }

  /** A signed-in caller with a stored non-empty role gets exactly that role. */
  lemma StoredRoleResolves(u: User, roles: map<Id, string>)
    requires u.id in roles && roles[u.id] != ""
    ensures UserRole(Some(u), roles) == Some(roles[u.id])
  {
  }

  /** The resolved profile is the caller's own: its id is the caller's id. */
  lemma ProfileIsCallers(user: Option<User>, profiles: map<Id, Profile>)
    requires ProfilesKeyed(profiles)
    requires UserProfile(user, profiles).Some?
    ensures UserProfile(user, profiles).value.id == user.value.id
  {
  }
}
