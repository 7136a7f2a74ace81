/**
 * Posting a message to an interview and listing an interview's messages.
 * Both run the interview guard first; the listing then filters the message
 * collection by interview, sorts it oldest first and cuts one page out of it.
 */
module MessageRoutes {
  import opened Http
  import opened Store
  import Guards
  import Ordering

  datatype MessageCreate = MessageCreate(content: string)

  /** The page size when the caller gives none. */
  const DefaultLimit: int := 20
  /** The largest page size the query parameter admits. */
  const MaxLimit: int := 50

  // ---------------------------------------------------------------- creation

  /**
   * Posts a message stamped with the time `now`, with the corrected target
   * collection `messages`, the one the listing reads, and the stored message
   * as the response.
   */
  method CreateMessage(db: Database, interviewId: string, payload: MessageCreate, user: User, now: int)
    returns (r: Result<Message>)
    requires db.Valid()
    modifies db
    ensures db.Valid()
    ensures var guard := Guards.RequireAccessibleInterview(old(db.interviews), old(db.Memberships()), interviewId, user);
            (r.Err? <==> guard.Fail?) && (r.Err? ==> r.error == guard.error)
    ensures r.Ok? ==> r.value == Message(interviewId, user.email, user.role, payload.content, now)
    ensures r.Ok? ==> db.messages == old(db.messages) + [r.value]
    ensures r.Err? ==> db.messages == old(db.messages)
    ensures db.interviews == old(db.interviews) && db.participants == old(db.participants) && db.message == old(db.message)
  {
    var guard := Guards.RequireAccessibleInterview(db.interviews, db.Memberships(), interviewId, user);
    if guard.Fail? {
      return Err(guard.error);
    }
    var doc := Message(interviewId, user.email, user.role, payload.content, now);
    db.messages := db.messages + [doc];
    return Ok(doc);
  }

  /**
   * Posts a message as the code stands. The insert goes to the `message`
   * collection, which nothing reads. The response then fails: the document
   * holds its creation time as a timestamp where the response schema
   * declares text, so a post that passes the guard is stored and answered
   * with a server error.
   */
  method CreateMessageAsWritten(db: Database, interviewId: string, payload: MessageCreate, user: User, now: int)
    returns (r: Result<Message>)
    requires db.Valid()
    modifies db
    ensures db.Valid()
    ensures var guard := Guards.RequireAccessibleInterview(old(db.interviews), old(db.Memberships()), interviewId, user);
            && (guard.Fail? ==> r == Err(guard.error) && db.message == old(db.message))
            && (guard.Pass? ==>
                  r == Err(InternalServerError)
                  && db.message == old(db.message) + [Message(interviewId, user.email, user.role, payload.content, now)])
    ensures db.interviews == old(db.interviews) && db.participants == old(db.participants) && db.messages == old(db.messages)
  {
    var guard := Guards.RequireAccessibleInterview(db.interviews, db.Memberships(), interviewId, user);
    if guard.Fail? {
      return Err(guard.error);
    }
    var doc := Message(interviewId, user.email, user.role, payload.content, now);
    db.message := db.message + [doc];
    return Err(InternalServerError);
  }

  // ----------------------------------------------------------------- listing

  /** The messages of one interview, in collection order. */
  function OfInterview(msgs: seq<Message>, interviewId: string): (r: seq<Message>)
    ensures forall m :: multiset(r)[m] == if m.interviewId == interviewId then multiset(msgs)[m] else 0
    ensures forall m :: m in r ==> m in msgs && m.interviewId == interviewId
  {
    if msgs == [] then []
    else
      var rest := OfInterview(msgs[1..], interviewId);
      assert msgs == [msgs[0]] + msgs[1..];
      if msgs[0].interviewId == interviewId then [msgs[0]] + rest else rest
  }

  /** Every message listed is one of `msgs` and belongs to the interview. */
  predicate AllFrom(listed: seq<Message>, msgs: seq<Message>, interviewId: string)
  {
    forall m :: m in listed ==> m in msgs && m.interviewId == interviewId
  }

  /** The sort key of the message listing. */
  function CreatedAt(m: Message): int
  {
    m.createdAt
  }

  /** Oldest first: creation times never decrease along the list. */
  predicate OldestFirst(s: seq<Message>)
  {
    Ordering.Ascending(s, CreatedAt)
  }

  /** The messages sorted by creation time, oldest first. */
  function SortOldestFirst(msgs: seq<Message>): (r: seq<Message>)
    ensures OldestFirst(r)
    ensures multiset(r) == multiset(msgs)
  {
    if msgs == [] then []
    else
      assert msgs == msgs[..|msgs| - 1] + [msgs[|msgs| - 1]];
      Ordering.InsertAscending(SortOldestFirst(msgs[..|msgs| - 1]), msgs[|msgs| - 1], CreatedAt)
  }

  function Abs(n: int): nat
  {
    if n < 0 then -n else n
  }

  /**
   * The page after skipping `offset` items, holding at most `limit` of them.
   * The database reads a limit of 0 as "no limit" and a negative limit as
   * its absolute value.
   */
  function Page(s: seq<Message>, offset: nat, limit: int): (r: seq<Message>)
    ensures offset >= |s| ==> r == []
    ensures offset < |s| ==> offset + |r| <= |s| && r == s[offset..offset + |r|]
    ensures limit != 0 ==> |r| <= Abs(limit)
    ensures offset < |s| && |r| < |s| - offset ==> limit != 0 && |r| == Abs(limit)
  {
    if offset >= |s| then []
    else
      var rest := s[offset..];
      if limit == 0 || Abs(limit) >= |rest| then rest else rest[..Abs(limit)]
  }

  /** One page of the interview's messages, oldest first. */
  function InterviewPage(msgs: seq<Message>, interviewId: string, offset: nat, limit: int): (page: seq<Message>)
    ensures OldestFirst(page)
    ensures AllFrom(page, msgs, interviewId)
    ensures limit != 0 ==> |page| <= Abs(limit)
  {
    PageOfInterview(msgs, interviewId, offset, limit);
    Page(SortOldestFirst(OfInterview(msgs, interviewId)), offset, limit)
  }

  /**
   * The listing handler: the query bounds are validated first (422), then
   * the interview guard runs, then one page of the interview's messages,
   * oldest first, is returned from the collection `msgs`.
   */
  function ListMessages(
    interviews: map<string, Interview>, members: set<(string, string)>, msgs: seq<Message>,
    interviewId: string, user: User, limit: int := DefaultLimit, offset: int := 0)
    : (r: Result<seq<Message>>)
    ensures (limit > MaxLimit || offset < 0) ==> r == Err(UnprocessableEntity)
    ensures r.Ok? <==> limit <= MaxLimit && offset >= 0 && ValidId(interviewId) && Guards.MayAccess(interviews, members, interviewId, user)
    ensures r.Ok? ==> AllFrom(r.value, msgs, interviewId) && OldestFirst(r.value)
    ensures r.Ok? && limit > 0 ==> |r.value| <= limit
    ensures r.Ok? ==> r.value == InterviewPage(msgs, interviewId, offset, limit)
    ensures limit <= MaxLimit && offset >= 0 && !ValidId(interviewId) ==> r == Err(BadRequest)
    ensures (limit <= MaxLimit && offset >= 0 && ValidId(interviewId)
             && !Guards.MayAccess(interviews, members, interviewId, user)) ==> r == Err(NotFound)
  {
    if limit > MaxLimit || offset < 0 then Err(UnprocessableEntity)
    else
      var guard := Guards.RequireAccessibleInterview(interviews, members, interviewId, user);
      if guard.Fail? then Err(guard.error) else Ok(InterviewPage(msgs, interviewId, offset, limit))
  }

  /**
   * The listing as the code stands: it returns the raw documents, each with
   * its ObjectId `_id`, and the response encoder cannot turn an ObjectId into
   * JSON. Every non-empty page therefore answers 500; errors and an empty
   * page go back as the corrected listing gives them.
   */
  function ListMessagesAsWritten(
    interviews: map<string, Interview>, members: set<(string, string)>, msgs: seq<Message>,
    interviewId: string, user: User, limit: int := DefaultLimit, offset: int := 0)
    : (r: Result<seq<Message>>)
    ensures r.Ok? ==> r.value == []
    ensures var listed := ListMessages(interviews, members, msgs, interviewId, user, limit, offset);
            && (listed.Err? ==> r == listed)
            && (listed.Ok? && listed.value != [] ==> r == Err(InternalServerError))
            && (r.Ok? <==> listed == Ok([]))
  {
    var listed := ListMessages(interviews, members, msgs, interviewId, user, limit, offset);
    if listed.Ok? && listed.value != [] then Err(InternalServerError) else listed
  }

  lemma PageOfInterview(msgs: seq<Message>, interviewId: string, offset: nat, limit: int)
    ensures OldestFirst(Page(SortOldestFirst(OfInterview(msgs, interviewId)), offset, limit))
    ensures AllFrom(Page(SortOldestFirst(OfInterview(msgs, interviewId)), offset, limit), msgs, interviewId)
  {
    var matching := OfInterview(msgs, interviewId);
    var all := SortOldestFirst(matching);
    var page := Page(all, offset, limit);
    if offset < |all| {
      OldestFirstSlice(all, offset, |page|);
      forall m | m in page
        ensures m in msgs && m.interviewId == interviewId
      {
        assert m in all;
        assert m in multiset(all);
        assert m in multiset(matching);
      }
    }
  }

  lemma OldestFirstSlice(s: seq<Message>, from: nat, len: nat)
    requires OldestFirst(s) && from + len <= |s|
    ensures OldestFirst(s[from..from + len])
  {
  }

  /**
   * With the corrected target collection, a posted message is among the
   * interview's sorted messages that every page is cut from.
   */
  lemma PostedMessageIsListed(msgs: seq<Message>, m: Message)
    ensures m in SortOldestFirst(OfInterview(msgs + [m], m.interviewId))
  {
  }

  /** An item of the list appears on the page that starts at its position. */
  lemma OnSomePage(s: seq<Message>, x: Message, limit: int)
    requires x in s
    ensures exists offset: nat :: x in Page(s, offset, limit)
  {
    var k :| 0 <= k < |s| && s[k] == x;
    assert Page(s, k, limit)[0] == x;
  }

  /** Whatever the page size, some offset gives a page holding the posted message. */
  lemma PostedMessageIsOnAPage(msgs: seq<Message>, m: Message, limit: int)
    ensures exists offset: nat :: m in InterviewPage(msgs + [m], m.interviewId, offset, limit)
  {
    var all := SortOldestFirst(OfInterview(msgs + [m], m.interviewId));
    PostedMessageIsListed(msgs, m);
    OnSomePage(all, m, limit);
    var k: nat :| m in Page(all, k, limit);
    assert InterviewPage(msgs + [m], m.interviewId, k, limit) == Page(all, k, limit);
  }
}
