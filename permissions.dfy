/**
 * The role allow-list gate (`require_roles`): the dependency returns the
 * caller unchanged when its role is listed, and raises 403 otherwise.
 */
module Permissions {
  import opened Http

  function RequireRoles(allowedRoles: set<string>, user: User): (r: Result<User>)
    ensures r.Ok? <==> user.role in allowedRoles
    ensures r.Ok? ==> r.value == user
    ensures r.Err? ==> r.error == Forbidden
  {
    if user.role !in allowedRoles then Err(Forbidden) else Ok(user)
  }

  /** With no allowed roles, every caller is rejected. */
  lemma EmptyAllowListRejectsAll(user: User)
    ensures RequireRoles({}, user) == Err(Forbidden)
  {
  }

  /** Only the role decides: two callers with the same role get the same verdict. */
  lemma OnlyRoleMatters(allowedRoles: set<string>, u1: User, u2: User)
    requires u1.role == u2.role
    ensures RequireRoles(allowedRoles, u1).Ok? == RequireRoles(allowedRoles, u2).Ok?
    ensures RequireRoles(allowedRoles, u1).Err? ==> RequireRoles(allowedRoles, u1) == RequireRoles(allowedRoles, u2)
  {
  }
}
