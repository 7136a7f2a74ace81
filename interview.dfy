/**
 * The interview handlers: creation and listing (administrators only),
 * reading one interview, and changing its status. A status change runs the
 * interview guard, then the transition table, then the role rules, and only
 * then writes the new status.
 */
module InterviewRoutes {
  import opened Wrappers
  import opened Http
  import opened Store
  import Lifecycle
  import Permissions
  import Guards
  import Ordering

  datatype InterviewCreate = InterviewCreate(title: string, interviewType: string, scheduledAt: Option<int>)

  /** An interview as the handlers return it: its id and its document. */
  datatype InterviewOut = InterviewOut(id: string, interview: Interview)

  /** The response to a successful status change: the old and the new status. */
  datatype StatusChange = StatusChange(from: string, to: string)

  // ---------------------------------------------------------------- creation

  /**
   * Stores a new interview under the id the database assigns (`newId`),
   * stamped with the creation time `now`.
   */
  method CreateInterview(db: Database, payload: InterviewCreate, user: User, newId: string, now: int)
    returns (r: Result<InterviewOut>)
    requires db.Valid()
    requires ValidId(newId) && newId !in db.interviews
    modifies db
    ensures db.Valid()
    ensures r.Err? <==> user.role != "admin"
    ensures r.Err? ==> r.error == Forbidden && db.interviews == old(db.interviews)
    ensures r.Ok? ==> r.value.id == newId
    ensures r.Ok? ==> r.value.interview.status == "scheduled" && r.value.interview.createdBy == user.email
    ensures r.Ok? ==> r.value.interview == Interview(payload.title, payload.interviewType, "scheduled", payload.scheduledAt, user.email, now)
    ensures r.Ok? ==> db.interviews == old(db.interviews)[newId := r.value.interview]
    ensures db.participants == old(db.participants) && db.messages == old(db.messages) && db.message == old(db.message)
  {
    var gate := Permissions.RequireRoles({"admin"}, user);
    if gate.Err? {
      return Err(gate.error);
    }
    var doc := Interview(payload.title, payload.interviewType, "scheduled", payload.scheduledAt, user.email, now);
    db.interviews := db.interviews[newId := doc];
    return Ok(InterviewOut(newId, doc));
  }

  // ----------------------------------------------------------------- listing

  /** The sort key of the interview listing: newer interviews have smaller keys. */
  function NewestKey(o: InterviewOut): int
  {
    -o.interview.createdAt
  }

  /** Newest first: creation times never increase along the list. */
  predicate NewestFirst(s: seq<InterviewOut>)
  {
    Ordering.Ascending(s, NewestKey)
  }

  /** The stored interviews with the given ids, each paired with its id. */
  function EntriesOf(interviews: map<string, Interview>, ids: set<string>): set<InterviewOut>
    requires ids <= interviews.Keys
  {
    set id | id in ids :: InterviewOut(id, interviews[id])
  }

  lemma EntriesGrow(interviews: map<string, Interview>, done: set<string>, id: string)
    requires done <= interviews.Keys && id in interviews && id !in done
    ensures multiset(EntriesOf(interviews, done + {id}))
         == multiset(EntriesOf(interviews, done)) + multiset{InterviewOut(id, interviews[id])}
  {
  }

  /**
   * Every stored interview exactly once, newest first; the role gate admits
   * administrators only.
   */
  method ListInterviews(db: Database, user: User) returns (r: Result<seq<InterviewOut>>)
    ensures r.Err? <==> user.role != "admin"
    ensures r.Err? ==> r.error == Forbidden
    ensures r.Ok? ==> NewestFirst(r.value)
    ensures r.Ok? ==> multiset(r.value) == multiset(EntriesOf(db.interviews, db.interviews.Keys))
  {
    var gate := Permissions.RequireRoles({"admin"}, user);
    if gate.Err? {
      return Err(gate.error);
    }
    var interviews := db.interviews;
    var remaining := interviews.Keys;
    var listed: seq<InterviewOut> := [];
    while remaining != {}
      invariant remaining <= interviews.Keys
      invariant NewestFirst(listed)
      invariant multiset(listed) == multiset(EntriesOf(interviews, interviews.Keys - remaining))
      decreases remaining
    {
      var id :| id in remaining;
      EntriesGrow(interviews, interviews.Keys - remaining, id);
      assert (interviews.Keys - remaining) + {id} == interviews.Keys - (remaining - {id});
      listed := Ordering.InsertAscending(listed, InterviewOut(id, interviews[id]), NewestKey);
      remaining := remaining - {id};
    }
    return Ok(listed);
  }

  // ----------------------------------------------------------------- reading

  /** One interview, returned only once the id parses, the interview exists and the caller may access it. */
  function GetInterview(interviews: map<string, Interview>, members: set<(string, string)>, interviewId: string, user: User)
    : (r: Result<InterviewOut>)
    ensures r.Ok? <==> ValidId(interviewId) && Guards.MayAccess(interviews, members, interviewId, user)
    ensures r.Ok? ==> r.value == InterviewOut(interviewId, interviews[interviewId])
    ensures !ValidId(interviewId) ==> r == Err(BadRequest)
    ensures ValidId(interviewId) && r.Err? ==> r.error == NotFound
  {
    var guard := Guards.RequireAccessibleInterview(interviews, members, interviewId, user);
    if guard.Fail? then Err(guard.error) else Ok(InterviewOut(interviewId, interviews[interviewId]))
  }

  // ----------------------------------------------------------- status change

  /**
   * The role policy for a status change that the table allows: candidates
   * may change nothing, interviewers may only start or complete an
   * interview, and every other role may make any allowed change.
   */
  predicate RoleMayDrive(role: string, current: string, next: string)
  {
    && role != "candidate"
    && (role == "interviewer" ==> (current, next) in {("scheduled", "ongoing"), ("ongoing", "completed")})
  }

  /** The role rules as the handler applies them, after the table check. */
  function RoleGate(role: string, current: string, next: string): (r: Check)
    requires Lifecycle.IsValidTransition(current, next)
    ensures r == Pass <==> RoleMayDrive(role, current, next)
    ensures r.Fail? ==> r.error == Forbidden
  {
    if role == "candidate" then Fail(Forbidden)
    else if role == "interviewer" && current == "scheduled" && next != "ongoing" then Fail(Forbidden)
    else if role == "interviewer" && current == "ongoing" && next != "completed" then Fail(Forbidden)
    else Pass
  }

  /** The decision of the status-change handler, with the defects at its id check and interviewer rule corrected. */
  function UpdateStatus(
    interviews: map<string, Interview>, members: set<(string, string)>, interviewId: string, newStatus: string, user: User)
    : (r: Result<StatusChange>)
    ensures r.Ok? <==>
      && ValidId(interviewId)
      && Guards.MayAccess(interviews, members, interviewId, user)
      && Lifecycle.IsValidTransition(interviews[interviewId].status, newStatus)
      && RoleMayDrive(user.role, interviews[interviewId].status, newStatus)
    ensures r.Ok? ==> r.value == StatusChange(interviews[interviewId].status, newStatus)
    ensures !ValidId(interviewId) ==> r == Err(BadRequest)
    ensures ValidId(interviewId) && !Guards.MayAccess(interviews, members, interviewId, user) ==> r == Err(NotFound)
  {
    var guard := Guards.RequireAccessibleInterview(interviews, members, interviewId, user);
    if guard.Fail? then Err(guard.error)
    else
      var current := interviews[interviewId].status;
      if !Lifecycle.IsValidTransition(current, newStatus) then Err(BadRequest)
      else
        var gate := RoleGate(user.role, current, newStatus);
        if gate.Fail? then Err(gate.error) else Ok(StatusChange(current, newStatus))
  }

  /**
   * The decision of the status-change handler as written: the 400 for a bad
   * id is raised with the keyword `details`, which `HTTPException` does not
   * accept, so the request ends in a 500; and the interviewer's second rule
   * compares the current status with the misspelt "onging".
   */
  function UpdateStatusAsWritten(
    interviews: map<string, Interview>, members: set<(string, string)>, interviewId: string, newStatus: string, user: User)
    : (r: Result<StatusChange>)
    ensures !ValidId(interviewId) ==> r == Err(InternalServerError)
  {
    if !ValidId(interviewId) then Err(InternalServerError)
    else if interviewId !in interviews then Err(NotFound)
    else if user.role != "admin" && (interviewId, user.email) !in members then Err(NotFound)
    else
      var current := interviews[interviewId].status;
      if !Lifecycle.IsValidTransition(current, newStatus) then Err(BadRequest)
      else if user.role == "candidate" then Err(Forbidden)
      else if user.role == "interviewer" && current == "scheduled" && newStatus != "ongoing" then Err(Forbidden)
      else if user.role == "interviewer" && current == "onging" && newStatus != "completed" then Err(Forbidden)
      else Ok(StatusChange(current, newStatus))
  }

  /**
   * The handler as written answers every malformed id with 500 where 400 was
   * meant; "Invalid" is such an id.
   */
  lemma MalformedIdAnswersServerError(
    interviews: map<string, Interview>, members: set<(string, string)>, interviewId: string, newStatus: string, user: User)
    ensures !ValidId("Invalid")
    ensures !ValidId(interviewId) ==>
      && UpdateStatusAsWritten(interviews, members, interviewId, newStatus, user) == Err(InternalServerError)
      && UpdateStatus(interviews, members, interviewId, newStatus, user) == Err(BadRequest)
  {
  }

  /**
   * On every well-formed id the code as written decides exactly as the
   * corrected handler: the misspelt "onging" rule is dead, because the table
   * allows nothing but `completed` after `ongoing`.
   */
  lemma MisspeltStatusIsHarmless(
    interviews: map<string, Interview>, members: set<(string, string)>, interviewId: string, newStatus: string, user: User)
    requires ValidId(interviewId)
    ensures UpdateStatusAsWritten(interviews, members, interviewId, newStatus, user)
         == UpdateStatus(interviews, members, interviewId, newStatus, user)
  {
  }

  /** A change the table rejects is a 400 whatever the caller's role, candidates included. */
  lemma TableCheckPrecedesRoles(
    interviews: map<string, Interview>, members: set<(string, string)>, interviewId: string, newStatus: string, user: User)
    requires ValidId(interviewId) && Guards.MayAccess(interviews, members, interviewId, user)
    requires !Lifecycle.IsValidTransition(interviews[interviewId].status, newStatus)
    ensures UpdateStatus(interviews, members, interviewId, newStatus, user) == Err(BadRequest)
  {
  }

  /** A candidate who asks for a change the table allows gets 403. */
  lemma CandidateForbidden(
    interviews: map<string, Interview>, members: set<(string, string)>, interviewId: string, newStatus: string, user: User)
    requires user.role == "candidate"
    requires ValidId(interviewId) && Guards.MayAccess(interviews, members, interviewId, user)
    requires Lifecycle.IsValidTransition(interviews[interviewId].status, newStatus)
    ensures UpdateStatus(interviews, members, interviewId, newStatus, user) == Err(Forbidden)
  {
  }

  /** An interviewer on the interview may start it and complete it, but gets 403 on cancelling it. */
  lemma InterviewerStartsAndCompletesOnly(
    interviews: map<string, Interview>, members: set<(string, string)>, interviewId: string, newStatus: string, user: User)
    requires user.role == "interviewer"
    requires ValidId(interviewId) && Guards.MayAccess(interviews, members, interviewId, user)
    requires Lifecycle.IsValidTransition(interviews[interviewId].status, newStatus)
    ensures newStatus != "cancelled" ==> UpdateStatus(interviews, members, interviewId, newStatus, user).Ok?
    ensures newStatus == "cancelled" ==> UpdateStatus(interviews, members, interviewId, newStatus, user) == Err(Forbidden)
  {
  }

  /** An administrator succeeds on every change the table allows, participant or not. */
  lemma AdminMayDriveAnyValidChange(
    interviews: map<string, Interview>, members: set<(string, string)>, interviewId: string, newStatus: string, user: User)
    requires user.role == "admin"
    requires ValidId(interviewId) && interviewId in interviews
    requires Lifecycle.IsValidTransition(interviews[interviewId].status, newStatus)
    ensures UpdateStatus(interviews, members, interviewId, newStatus, user)
         == Ok(StatusChange(interviews[interviewId].status, newStatus))
  {
  }

  /**
   * A participant whose role is none of admin, interviewer and candidate is
   * held to no role rule: it may make every change the table allows,
   * cancelling included.
   */
  lemma UnlistedRoleUnrestricted(
    interviews: map<string, Interview>, members: set<(string, string)>, interviewId: string, newStatus: string, user: User)
    requires user.role !in {"admin", "interviewer", "candidate"}
    requires ValidId(interviewId) && interviewId in interviews && (interviewId, user.email) in members
    requires Lifecycle.IsValidTransition(interviews[interviewId].status, newStatus)
    ensures UpdateStatus(interviews, members, interviewId, newStatus, user).Ok?
  {
  }

  /**
   * Applies a status change: on success only the status of that one
   * interview changes, to the requested status; on failure nothing changes.
   */
  method UpdateInterviewStatus(db: Database, interviewId: string, newStatus: string, user: User)
    returns (r: Result<StatusChange>)
    requires db.Valid()
    modifies db
    ensures db.Valid()
    ensures r == UpdateStatus(old(db.interviews), old(db.Memberships()), interviewId, newStatus, user)
    ensures r.Ok? ==> db.interviews == old(db.interviews)[interviewId := old(db.interviews)[interviewId].(status := newStatus)]
    ensures r.Err? ==> db.interviews == old(db.interviews)
    ensures db.participants == old(db.participants) && db.messages == old(db.messages) && db.message == old(db.message)
  {
    r := UpdateStatus(db.interviews, db.Memberships(), interviewId, newStatus, user);
    if r.Ok? {
      db.interviews := db.interviews[interviewId := db.interviews[interviewId].(status := newStatus)];
    }
  }
}
