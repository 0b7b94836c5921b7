/**
 * The role gate (middlewares/role.middleware.js): `authorizeRoles(...roles)`
 * lets a request through exactly when the caller's role is one of the
 * listed roles, compared as exact strings; otherwise it answers 403.
 */
module Roles {
  import opened Common

  /** What the gate does with a request: pass it on, or answer it. */
  datatype Gate = Next | Deny(code: int, message: string)

  /** `roles.includes(role)`: the role occurs in the list, by exact string equality. */
  function Includes(roles: seq<string>, role: Option<string>): (b: bool)
    ensures b <==> role.Some? && exists i :: 0 <= i < |roles| && roles[i] == role.value
  {
    match role
    case None => false
    case Some(name) => name in roles
  }

  /**
   * The middleware `authorizeRoles(...roles)` builds, applied to a caller
   * whose role is `role` (None when the user record carries none).
   */
  function AuthorizeRoles(roles: seq<string>, role: Option<string>): (g: Gate)
    ensures g.Next? <==> role.Some? && role.value in roles
    ensures g.Deny? ==> g == Deny(403, "Access denied")
  {
    if !Includes(roles, role) then Deny(403, "Access denied") else Next
  }

  /** An empty list of roles denies every caller. */
  lemma EmptyRolesDenyAll(role: Option<string>)
    ensures AuthorizeRoles([], role) == Deny(403, "Access denied")
  {
  }

  /**
   * The comparison is exact, so case matters: a role that differs from
   * every listed role, even only in case, is turned away.
   */
  lemma RoleCaseMatters(roles: seq<string>, role: string)
    requires forall i :: 0 <= i < |roles| ==> roles[i] != role
    ensures AuthorizeRoles(roles, Some(role)) == Deny(403, "Access denied")
    ensures AuthorizeRoles(roles + [role], Some(role)) == Next
  {
  }

  /** Listing more roles never turns away a caller who was let in. */
  lemma MoreRolesKeepAccess(roles: seq<string>, extra: seq<string>, role: Option<string>)
    requires AuthorizeRoles(roles, role) == Next
    ensures AuthorizeRoles(roles + extra, role) == Next
    ensures AuthorizeRoles(extra + roles, role) == Next
  {
  }
}
