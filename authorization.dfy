/**
 * Resource-scoped access to one interview: administrators always pass;
 * anyone else needs a participant row for (interview id, email), and its
 * absence is reported as "not found" so that outsiders cannot learn that the
 * interview exists. The participant collection is only read.
 */
module Authorization {
  import opened Http

  /** The (interview id, user email) pairs of the participant collection. */
  type Memberships = set<(string, string)>

  function RequireInterviewAccess(members: Memberships, interviewId: string, userEmail: string, userRole: string): (r: Check)
    ensures r == Pass <==> userRole == "admin" || (interviewId, userEmail) in members
    ensures r.Fail? ==> r.error == NotFound
  {
    if userRole == "admin" then Pass
    else if (interviewId, userEmail) in members then Pass
    else Fail(NotFound)
  }

  /** An administrator passes whatever the participant collection holds. */
  lemma AdminBypass(members: Memberships, interviewId: string, userEmail: string)
    ensures RequireInterviewAccess(members, interviewId, userEmail, "admin") == Pass
  {
  }

  /** A non-participant who is not an administrator gets 404, never 403. */
  lemma OutsiderSeesNotFound(members: Memberships, interviewId: string, userEmail: string, userRole: string)
    requires userRole != "admin" && (interviewId, userEmail) !in members
    ensures RequireInterviewAccess(members, interviewId, userEmail, userRole) == Fail(NotFound)
    ensures StatusCode(RequireInterviewAccess(members, interviewId, userEmail, userRole).error) == 404
  {
  }

  /** Every role other than "admin" is treated the same way. */
  lemma NonAdminRolesAlike(members: Memberships, interviewId: string, userEmail: string, role1: string, role2: string)
    requires role1 != "admin" && role2 != "admin"
    ensures RequireInterviewAccess(members, interviewId, userEmail, role1)
         == RequireInterviewAccess(members, interviewId, userEmail, role2)
  {
  }

  /** Only the exact pair matters: rows of other interviews or other users grant nothing. */
  lemma OtherRowsIrrelevant(members: Memberships, extra: Memberships, interviewId: string, userEmail: string, userRole: string)
    requires (interviewId, userEmail) !in extra
    ensures RequireInterviewAccess(members + extra, interviewId, userEmail, userRole)
         == RequireInterviewAccess(members, interviewId, userEmail, userRole)
  {
  }
}
