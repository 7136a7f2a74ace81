/**
 * Adding a participant to an interview (administrators only): the id must
 * parse, the interview must exist, and the user must not already be one of
 * its participants; then exactly one participant row is appended.
 */
module ParticipantRoutes {
  import opened Http
  import opened Store
  import Permissions
  import Authorization

  datatype ParticipantCreate = ParticipantCreate(userEmail: string, participantRole: string)

  /** The checks before the insert, in the order the handler runs them. */
  function AddParticipantCheck(
    interviews: map<string, Interview>, rows: seq<Participant>, interviewId: string, payload: ParticipantCreate, user: User)
    : (r: Check)
    ensures r == Pass <==>
      && user.role == "admin"
      && ValidId(interviewId)
      && interviewId in interviews
      && (interviewId, payload.userEmail) !in MembershipsOf(rows)
    ensures user.role != "admin" ==> r == Fail(Forbidden)
    ensures user.role == "admin" && !ValidId(interviewId) ==> r == Fail(BadRequest)
    ensures user.role == "admin" && ValidId(interviewId) && interviewId !in interviews ==> r == Fail(NotFound)
    ensures (user.role == "admin" && ValidId(interviewId) && interviewId in interviews
             && (interviewId, payload.userEmail) in MembershipsOf(rows)) ==> r == Fail(BadRequest)
  {
    var gate := Permissions.RequireRoles({"admin"}, user);
    if gate.Err? then Fail(gate.error)
    else if !ValidId(interviewId) then Fail(BadRequest)
    else if interviewId !in interviews then Fail(NotFound)
    else if (interviewId, payload.userEmail) in MembershipsOf(rows) then Fail(BadRequest)
    else Pass
  }

  /** Appending a row adds exactly its key to the memberships. */
  lemma MembershipsAfterAppend(rows: seq<Participant>, row: Participant)
    ensures MembershipsOf(rows + [row]) == MembershipsOf(rows) + {MemberKey(row)}
  {
  }

  /**
   * Once added, the user passes the access check of that interview, and
   * every other (interview, user) pair is as it was.
   */
  lemma AddedParticipantGainsAccess(rows: seq<Participant>, row: Participant, interviewId: string, email: string, role: string)
    ensures Authorization.RequireInterviewAccess(MembershipsOf(rows + [row]), row.interviewId, row.userEmail, role) == Pass
    ensures (interviewId, email) != MemberKey(row) ==>
      Authorization.RequireInterviewAccess(MembershipsOf(rows + [row]), interviewId, email, role)
      == Authorization.RequireInterviewAccess(MembershipsOf(rows), interviewId, email, role)
  {
    MembershipsAfterAppend(rows, row);
  }

  /**
   * Adds a participant stamped with the time `now`. On success the
   * collection gains exactly that row; on failure nothing changes. The
   * collection keeps at most one row per (interview id, email).
   */
  method AddParticipant(db: Database, interviewId: string, payload: ParticipantCreate, user: User, now: int)
    returns (r: Result<Participant>)
    requires db.Valid()
    modifies db
    ensures db.Valid()
    ensures var check := AddParticipantCheck(old(db.interviews), old(db.participants), interviewId, payload, user);
            (r.Err? <==> check.Fail?) && (r.Err? ==> r.error == check.error)
    ensures r.Ok? ==> r.value == Participant(interviewId, payload.userEmail, payload.participantRole, now)
    ensures r.Ok? ==> db.participants == old(db.participants) + [r.value]
    ensures r.Err? ==> db.participants == old(db.participants)
    ensures db.interviews == old(db.interviews) && db.messages == old(db.messages) && db.message == old(db.message)
  {
    var check := AddParticipantCheck(db.interviews, db.participants, interviewId, payload, user);
    if check.Fail? {
      return Err(check.error);
    }
    var row := Participant(interviewId, payload.userEmail, payload.participantRole, now);
    AppendKeepsUnique(db.participants, row);
    db.participants := db.participants + [row];
    return Ok(row);
  }
}
