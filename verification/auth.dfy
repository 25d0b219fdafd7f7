/** The role gates: the caller's identity comes from the `x-user` and `x-role`
    headers, passed in here as optional strings. */
module Auth {
  import opened Wrappers
  import opened Text
  import opened Feedback

  const UserRole: string := "user"
  const ModeratorRole: string := "moderator"

  /** The authenticated caller. */
  datatype User = User(username: string, role: string)

  predicate KnownRole(role: string) {
    role == UserRole || role == ModeratorRole
  }

  /** `get_current_user`: both headers must be present and non-empty, and the
      role must be one of the two known roles. */
  function GetCurrentUser(xUser: Option<string>, xRole: Option<string>): (r: Result<User, Error>)
    ensures r == Err(MissingAuthentication) <==> !Truthy(xUser) || !Truthy(xRole)
    ensures r == Err(InvalidRole) <==> Truthy(xUser) && Truthy(xRole) && !KnownRole(xRole.value)
    ensures Truthy(xUser) && Truthy(xRole) && KnownRole(xRole.value) ==>
      r == Ok(User(xUser.value, xRole.value))
    ensures r.Ok? ==> r.value.username == xUser.value && r.value.username != ""
    ensures r.Ok? ==> r.value.role == xRole.value && KnownRole(r.value.role)
  {
    if !Truthy(xUser) || !Truthy(xRole) then Err(MissingAuthentication)
    else if !KnownRole(xRole.value) then Err(InvalidRole)
    else Ok(User(xUser.value, xRole.value))
  }

  /** `moderator_required`: passes the user through exactly when the role is "moderator". */
  function ModeratorRequired(u: User): (r: Result<User, Error>)
    ensures r.Ok? <==> u.role == ModeratorRole
    ensures r.Ok? ==> r.value == u
    ensures r.Err? ==> r.error == ModeratorRoleRequired
  {
    if u.role != ModeratorRole then Err(ModeratorRoleRequired) else Ok(u)
  }

  /** Both gates in sequence, as every moderation endpoint applies them. The
      gate admits exactly a non-empty user name with role "moderator", and
      reports every other caller with the first check that fails. */
  function Moderator(xUser: Option<string>, xRole: Option<string>): (r: Result<User, Error>)
    ensures r.Ok? <==> Truthy(xUser) && xRole == Some(ModeratorRole)
    ensures r.Ok? ==> r.value == User(xUser.value, ModeratorRole)
    ensures Truthy(xUser) && xRole == Some(UserRole) ==> r == Err(ModeratorRoleRequired)
    ensures !Truthy(xUser) || !Truthy(xRole) ==> r == Err(MissingAuthentication)
    ensures Truthy(xUser) && Truthy(xRole) && !KnownRole(xRole.value) ==> r == Err(InvalidRole)
  {
    var u :- GetCurrentUser(xUser, xRole);
    ModeratorRequired(u)
  }
}
