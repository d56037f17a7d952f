/**
 * The two role permissions of the personne API. The request's user is
 * either anonymous or an authenticated person with a role; the role is read
 * only once the user is known to be authenticated.
 */
module PersonnePermissions {
  datatype RequestUser = Anonymous | Authenticated(role: string)

  /** The roles `IsTeamLeader` lets through. */
  const TEAM_LEADER_ROLES: seq<string> := ["TL1", "TL2", "CL", "UDL"]

  /** The role choices declared on the Personne model. */
  const DECLARED_ROLES: seq<string> := ["N1", "N2", "COLLABORATEUR"]

  /** `IsCollaborateur.has_permission`. */
  predicate IsCollaborateur(user: RequestUser)
  {
    user.Authenticated? && user.role == "COLLABORATEUR"
  }

  /** `IsTeamLeader.has_permission`. */
  predicate IsTeamLeader(user: RequestUser)
  {
    user.Authenticated? && user.role in TEAM_LEADER_ROLES
  }

  /**
   * An anonymous user passes neither permission, no user passes both, and
   * a team leader is exactly an authenticated user with one of the four roles.
   */
  lemma PermissionsExclusive(user: RequestUser)
    ensures user.Anonymous? ==> !IsCollaborateur(user) && !IsTeamLeader(user)
    ensures !(IsCollaborateur(user) && IsTeamLeader(user))
    ensures IsTeamLeader(user) <==>
      user.Authenticated? && (user.role == "TL1" || user.role == "TL2" || user.role == "CL" || user.role == "UDL")
  {
    if IsTeamLeader(user) {
      assert user.role in TEAM_LEADER_ROLES;
      assert user.role != "COLLABORATEUR" by {
        assert forall k :: 0 <= k < |TEAM_LEADER_ROLES| ==> TEAM_LEADER_ROLES[k] != "COLLABORATEUR";
      }
    }
  }

  /** None of the roles declared on the Personne model is a team-leader role. */
  lemma {:induction false} DeclaredRolesAreNotTeamLeaders(role: string)
    requires role in DECLARED_ROLES
    ensures !IsTeamLeader(Authenticated(role))
    ensures IsCollaborateur(Authenticated(role)) <==> role == "COLLABORATEUR"
  {
    assert role == "N1" || role == "N2" || role == "COLLABORATEUR";
    assert forall k :: 0 <= k < |TEAM_LEADER_ROLES| ==> TEAM_LEADER_ROLES[k] != role;
  }
}
