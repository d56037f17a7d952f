/** The route guard: who may see a protected page. */
module ProtectedRoute {
  import opened Wrappers

  /** Where the guard sends the user. */
  datatype Decision = ToLogin | ToUnauthorized | ShowOutlet

  /**
   * The guard's decision. Whether the user is logged in and the role are
   * parameters (the authentication helpers are not part of this model); a
   * missing role is `None`, which no list of role names includes.
   */
  function Decide(isAuth: bool, role: Option<string>, allowedRoles: seq<string>): (d: Decision)
    ensures !isAuth ==> d == ToLogin
    ensures isAuth ==> (d == ShowOutlet <==> role.Some? && role.value in allowedRoles)
    ensures isAuth ==> d != ToLogin
  {
    if !isAuth then ToLogin
    else if role.None? || role.value !in allowedRoles then ToUnauthorized
    else ShowOutlet
  }

  /** The login check wins over the roles, and an empty list of roles lets no one through. */
  lemma GuardOrder(role: Option<string>, allowedRoles: seq<string>)
    ensures Decide(false, role, allowedRoles) == ToLogin
    ensures Decide(true, role, []) == ToUnauthorized
    ensures Decide(true, role, allowedRoles) == ShowOutlet ==> Decide(true, role, allowedRoles + ["X"]) == ShowOutlet
  {
  }
}
