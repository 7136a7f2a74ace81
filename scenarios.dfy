/**
 * Request sequences through the handlers, starting from an empty database:
 * the lifecycle of one interview driven by its participants, and a message
 * posted and then listed, both with the code as written and corrected.
 */
module Scenarios {
  import opened Wrappers
  import opened Http
  import opened Store
  import InterviewRoutes
  import ParticipantRoutes
  import MessageRoutes

  const InterviewId: string := "65f0a1b2c3d4e5f601234567"

  const Admin: User := User("admin@example.com", "h0", "admin", 0)
  const Interviewer: User := User("lead@example.com", "h1", "interviewer", 0)
  const Candidate: User := User("applicant@example.com", "h2", "candidate", 0)

  lemma InterviewIdParses()
    ensures ValidId(InterviewId)
  {
    HexIdsAreValid(InterviewId);
  }

  /** A fresh database holding one interview, created by the administrator at time 1. */
  method WithOneInterview() returns (db: Database)
    ensures fresh(db) && db.Valid()
    ensures db.interviews == map[InterviewId := Interview("Backend", "backend", "scheduled", None, Admin.email, 1)]
    ensures db.participants == [] && db.messages == [] && db.message == []
  {
    db := new Database();
    InterviewIdParses();
    var created := InterviewRoutes.CreateInterview(db, InterviewRoutes.InterviewCreate("Backend", "backend", None), Admin, InterviewId, 1);
  }

  /**
   * The administrator adds an interviewer and a candidate. The interviewer
   * may not cancel the scheduled interview (403); the candidate asking for
   * scheduled to completed is refused by the table (400), not by the role
   * rule; the interviewer then starts the interview, which becomes ongoing.
   */
  method InterviewLifecycle() returns (cancel: Result<InterviewRoutes.StatusChange>,
                                       skip: Result<InterviewRoutes.StatusChange>,
                                       start: Result<InterviewRoutes.StatusChange>,
                                       finalStatus: string)
    ensures cancel == Err(Forbidden)
    ensures skip == Err(BadRequest)
    ensures start == Ok(InterviewRoutes.StatusChange("scheduled", "ongoing"))
    ensures finalStatus == "ongoing"
  {
    var db := WithOneInterview();
    InterviewIdParses();
    var added := ParticipantRoutes.AddParticipant(db, InterviewId, ParticipantRoutes.ParticipantCreate(Interviewer.email, "interviewer"), Admin, 2);
    var lead := added.value;
    added := ParticipantRoutes.AddParticipant(db, InterviewId, ParticipantRoutes.ParticipantCreate(Candidate.email, "candidate"), Admin, 3);
    var applicant := added.value;
    assert db.participants == [lead, applicant];
    assert lead in db.participants && applicant in db.participants;
    cancel := InterviewRoutes.UpdateInterviewStatus(db, InterviewId, "cancelled", Interviewer);
    skip := InterviewRoutes.UpdateInterviewStatus(db, InterviewId, "completed", Candidate);
    start := InterviewRoutes.UpdateInterviewStatus(db, InterviewId, "ongoing", Interviewer);
    finalStatus := db.interviews[InterviewId].status;
  }

  /**
   * As written: a message the administrator posts is stored in the `message`
   * collection, the post answers 500, and the interview's listing is empty.
   */
  method PostedMessageLostAsWritten() returns (posted: Result<Message>, stored: seq<Message>, listed: Result<seq<Message>>)
    ensures posted == Err(InternalServerError)
    ensures stored == [Message(InterviewId, Admin.email, Admin.role, "hello", 2)]
    ensures listed == Ok([])
  {
    var db := WithOneInterview();
    InterviewIdParses();
    posted := MessageRoutes.CreateMessageAsWritten(db, InterviewId, MessageRoutes.MessageCreate("hello"), Admin, 2);
    stored := db.message;
    listed := MessageRoutes.ListMessages(db.interviews, db.Memberships(), db.messages, InterviewId, Admin);
  }

  /**
   * With the message stored where the listing reads, the listing as written
   * still fails: the one document on the page carries an ObjectId the
   * response encoder rejects, so the answer is 500.
   */
  method StoredMessageUnlistableAsWritten() returns (posted: Result<Message>, listed: Result<seq<Message>>)
    ensures posted.Ok?
    ensures listed == Err(InternalServerError)
  {
    var db := WithOneInterview();
    InterviewIdParses();
    posted := MessageRoutes.CreateMessage(db, InterviewId, MessageRoutes.MessageCreate("hello"), Admin, 2);
    var m := posted.value;
    assert db.messages == [m];
    assert MessageRoutes.OfInterview([m], InterviewId) == [m];
    assert MessageRoutes.SortOldestFirst([m]) == [m];
    listed := MessageRoutes.ListMessagesAsWritten(db.interviews, db.Memberships(), db.messages, InterviewId, Admin);
  }

  /** Corrected in both respects: the posted message is the one message the listing returns. */
  method PostedMessageListed() returns (posted: Result<Message>, listed: Result<seq<Message>>)
    ensures posted.Ok?
    ensures listed == Ok([posted.value])
  {
    var db := WithOneInterview();
    InterviewIdParses();
    posted := MessageRoutes.CreateMessage(db, InterviewId, MessageRoutes.MessageCreate("hello"), Admin, 2);
    var m := posted.value;
    assert db.messages == [m];
    assert MessageRoutes.OfInterview([m], InterviewId) == [m];
    assert MessageRoutes.SortOldestFirst([m]) == [m];
    listed := MessageRoutes.ListMessages(db.interviews, db.Memberships(), db.messages, InterviewId, Admin);
  }
}
