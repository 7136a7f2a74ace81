/**
 * The check sequence that every handler scoped to one interview runs before
 * doing anything else: the path id must parse as an ObjectId (400), the
 * interview must exist (404), and the caller must pass the resource access
 * check (404 for outsiders).
 */
module Guards {
  import opened Http
  import opened Store
  import Authorization

  /** The caller may act on the interview: it exists and the caller is an administrator or one of its participants. */
  predicate MayAccess(interviews: map<string, Interview>, members: set<(string, string)>, interviewId: string, user: User)
  {
    interviewId in interviews && (user.role == "admin" || (interviewId, user.email) in members)
  }

  function RequireAccessibleInterview(
    interviews: map<string, Interview>, members: set<(string, string)>, interviewId: string, user: User): (r: Check)
    ensures r == Pass <==> ValidId(interviewId) && MayAccess(interviews, members, interviewId, user)
    ensures !ValidId(interviewId) ==> r == Fail(BadRequest)
    ensures ValidId(interviewId) && interviewId !in interviews ==> r == Fail(NotFound)
    ensures ValidId(interviewId) && r.Fail? ==> r.error == NotFound
  {
    if !ValidId(interviewId) then Fail(BadRequest)
    else if interviewId !in interviews then Fail(NotFound)
    else Authorization.RequireInterviewAccess(members, interviewId, user.email, user.role)
  }

  /**
   * An outsider gets the same answer whether or not the interview exists, so
   * the guard does not reveal which ids are in use.
   */
  lemma OutsiderCannotProbe(
    interviews: map<string, Interview>, members: set<(string, string)>, interviewId: string, user: User, doc: Interview)
    requires user.role != "admin" && (interviewId, user.email) !in members
    ensures RequireAccessibleInterview(interviews[interviewId := doc], members, interviewId, user)
         == RequireAccessibleInterview(interviews - {interviewId}, members, interviewId, user)
  {
  }
}
