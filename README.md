# Interview backend: authorization, lifecycle and cache core in Dafny

This project models the authorization and lifecycle layer of an
interview-management backend (FastAPI over MongoDB), together with its
in-process TTL cache, and proves properties of the model.

- **Cache** (`cache.dfy`): `SimpleCache` is a class whose `store` field maps
  each key to a (value, expiry) pair. `Get` expires entries lazily and deletes
  the stale entry it finds. `Set` overwrites. `InvalidatePrefix` collects the
  matching keys and deletes them in a loop. Each method is tied to a function
  of the old store, and lemmas state the round trip, the strict expiry, and the
  completeness and idempotence of invalidation.
- **Lifecycle** (`lifecycle.dfy`): the constant transition table and the
  membership test on it. Lemmas cover terminal states, self-loops, transitions
  into `scheduled`, unknown statuses, and the length of any run of
  transitions.
- **Authorization** (`authorization.dfy`, `permissions.dfy`): the admin bypass
  and the participant-membership check. A missing membership is reported as
  404, never 403. A separate gate checks the role against an allow-list.
- **Handlers** (`guards.dfy`, `interview.dfy`, `participants.dfy`,
  `messages.dfy`):
  - Each handler's checks are a pure decision function over the collections.
  - The MongoDB collections are the fields of a `Store.Database` object, and
    each writing handler is a method that modifies it.
  - Contracts state the order of the checks, the error for each failing
    check, and that a successful write changes exactly one thing.
  - `Database.Valid()` keeps two invariants: at most one participant row per
    (interview, email), and every stored status is one the state machine
    knows.
- **Scenarios** (`scenarios.dfy`): request sequences from an empty database,
  namely the lifecycle of one interview and a message posted and then listed.

The wall clock is an integer `now` parameter. Statuses and roles stay
strings, as in the source. A path id is well formed (`Store.ValidId`) when it
has 24 characters and Python's `bytes.fromhex` accepts it: the check the bson
library applies to a string. Every 24-digit hexadecimal id passes. So do some
ids with whitespace between digit pairs, which `Store.SpacedIdIsValid` shows.

Two consequences of the code as it stands:
- The cache compares with a strict `<` (`app/core/cache.py:13`). An entry is
  still served at its expiry time and is gone only one tick later.
- No handler calls the cache, so no write invalidates cached entries. The
  model states no such property of the handlers.

## Model

| member | source | states |
|---|---|---|
| Cache.WithoutPrefix | app/core/cache.py:22-25 | no key with the prefix remains; every other key keeps its value and expiry; no key is added |
| Cache.SimpleCache.constructor | app/core/cache.py:4-5 | a new cache has an empty store |
| Cache.SimpleCache.Get | app/core/cache.py:7-17 | returns the value of a live entry, else nothing; deletes the entry only when it has expired |
| Cache.SimpleCache.Set | app/core/cache.py:19-20 | the key's entry becomes (value, now + ttl), ttl defaulting to 60; other keys untouched |
| Cache.SimpleCache.InvalidatePrefix | app/core/cache.py:22-25 | the collect-then-delete loop leaves exactly the store without the prefixed keys |
| Cache.SetThenGet | app/core/cache.py:12-20 | a value set at time t with ttl d is returned, and nothing is deleted, by every read at a time up to t + d |
| Cache.ExpiryIsStrict | app/core/cache.py:13 | an entry is still served at its expiry time and gone one tick later |
| Cache.GetMissing | app/core/cache.py:8-10 | reading a key never set returns nothing and leaves the store unchanged |
| Cache.GetExpired | app/core/cache.py:12-15 | reading an expired key returns nothing and removes that key only |
| Cache.GetLive | app/core/cache.py:12-17 | reading a live key returns its value and changes nothing |
| Cache.SetOverwrites | app/core/cache.py:19-20 | set replaces any existing entry for the key and keeps every other entry |
| Cache.InvalidateThenGet | app/core/cache.py:22-25 | after invalidation no prefixed key is retrievable; other keys read exactly as before |
| Cache.InvalidateIdempotent | app/core/cache.py:22-25 | invalidating a prefix twice equals invalidating it once |
| Cache.InvalidateListPages | app/core/cache.py:22-25 | a cached list page "interviews:20:0:None:None" is dropped by invalidating "interviews:", while "interview:42" survives |
| Lifecycle.IsValidTransition | app/core/interview_lifecycle.py:1-17 | the table lookup allows exactly the three edges scheduled→ongoing, scheduled→cancelled and ongoing→completed, all between known statuses |
| Lifecycle.KnownStatusesAreTableKeys | app/core/interview_lifecycle.py:1-6 | the table has exactly the four statuses as keys |
| Lifecycle.ListedTransitions | app/core/interview_lifecycle.py:12-15 | the documented valid transitions hold and scheduled→completed is invalid |
| Lifecycle.TerminalStatesHaveNoExit | app/core/interview_lifecycle.py:4-5 | nothing leaves completed or cancelled |
| Lifecycle.NoSelfTransition | app/core/interview_lifecycle.py:1-6 | no status may transition to itself |
| Lifecycle.NothingEntersScheduled | app/core/interview_lifecycle.py:1-6 | no transition leads into scheduled |
| Lifecycle.UnknownStatusIsStuck | app/core/interview_lifecycle.py:17 | a current status missing from the table allows no target |
| Lifecycle.RunClimbs | app/core/interview_lifecycle.py:1-6 | along any run of valid transitions the stage strictly increases and the run ends in a known status |
| Lifecycle.RunsAreShort | app/core/interview_lifecycle.py:1-6 | any run makes at most two steps, and the only two-step run is scheduled, ongoing, completed |
| Lifecycle.RunsDoNotRepeat | app/core/interview_lifecycle.py:1-6 | a run never revisits a status |
| Authorization.RequireInterviewAccess | app/core/authorization.py:5-23 | passes exactly for role "admin" or when the (interview id, email) pair is a membership; otherwise 404 |
| Authorization.AdminBypass | app/core/authorization.py:11-12 | an admin passes whatever the membership collection holds |
| Authorization.OutsiderSeesNotFound | app/core/authorization.py:14-23 | a non-admin without the membership row gets 404, never 403 |
| Authorization.NonAdminRolesAlike | app/core/authorization.py:11 | all non-admin roles get the same answer |
| Authorization.OtherRowsIrrelevant | app/core/authorization.py:14-17 | only the exact (interview id, email) pair matters; other rows grant nothing |
| Permissions.RequireRoles | app/core/permissions.py:5-11 | returns the caller unchanged iff its role is allowed; otherwise 403 |
| Permissions.EmptyAllowListRejectsAll | app/core/permissions.py:5-9 | with no allowed roles every caller gets 403 |
| Permissions.OnlyRoleMatters | app/core/permissions.py:7 | two callers with the same role get the same verdict |
| Store.UniqueIffOneKeyPerRow | app/scripts/created_indexes.py:10-13 | the unique index read as a count: keys are unique exactly when there are as many (interview id, email) memberships as rows, and there are never more |
| Store.HexIdsAreValid | app/api/v1/messages.py:21-24 | every 24-digit hexadecimal string parses as an ObjectId |
| Store.ValidIdsAreHexOrSpace | app/api/v1/messages.py:21-24 | an id that parses holds only hexadecimal digits and whitespace |
| Store.AcceptedTextsConcatenate | app/api/v1/messages.py:21-24 | parsing is pair by pair, so two accepted texts concatenate to an accepted text |
| Store.SpacedIdIsValid | app/api/v1/messages.py:21-24 | a 24-character id with whitespace between digit pairs also parses |
| Store.AppendKeepsUnique | app/scripts/created_indexes.py:10-13 | appending a row whose key is new keeps (interview id, email) unique |
| Guards.RequireAccessibleInterview | app/api/v1/interview.py:63-76 | malformed id → 400 first, then missing interview → 404, then the access check (404); passes exactly when the id parses, the interview exists and the caller may access it |
| Guards.OutsiderCannotProbe | app/core/authorization.py:19-23 | an outsider gets the same answer for an existing interview as for a missing one |
| InterviewRoutes.CreateInterview | app/api/v1/interview.py:16-39 | admin only (403 otherwise); stores one interview with status "scheduled", created_by the caller's email, created_at now; nothing else changes |
| InterviewRoutes.ListInterviews | app/api/v1/interview.py:41-56 | admin only (403 otherwise); every stored interview exactly once, ordered by created_at descending |
| InterviewRoutes.GetInterview | app/api/v1/interview.py:58-85 | data is returned only once the id parses, the interview exists and access passes; 400 before any 404 |
| InterviewRoutes.RoleGate | app/api/v1/interview.py:118-130 | on a table-valid change: candidates 403, interviewers only start or complete, others pass |
| InterviewRoutes.UpdateStatus | app/api/v1/interview.py:87-139 | succeeds exactly when the guard passes, the table allows the change and the role policy allows it; reports the old and new status; a malformed id gets 400, a missing interview or an outsider 404 |
| InterviewRoutes.UpdateStatusAsWritten | app/api/v1/interview.py:93-130 | as written, a malformed id ends in 500 |
| InterviewRoutes.MalformedIdAnswersServerError | app/api/v1/interview.py:93-96 | every malformed id, "Invalid" among them, gets 500 as written and 400 when corrected |
| InterviewRoutes.MisspeltStatusIsHarmless | app/api/v1/interview.py:112-130 | on every well-formed id, the "onging" comparison changes no decision |
| InterviewRoutes.TableCheckPrecedesRoles | app/api/v1/interview.py:112-120 | a table-invalid change is 400 for every role, candidates included |
| InterviewRoutes.CandidateForbidden | app/api/v1/interview.py:119-120 | a candidate asking for a table-valid change gets 403 |
| InterviewRoutes.InterviewerStartsAndCompletesOnly | app/api/v1/interview.py:123-130 | an interviewer may do scheduled→ongoing and ongoing→completed, and gets 403 on cancelling |
| InterviewRoutes.AdminMayDriveAnyValidChange | app/api/v1/interview.py:103-136 | an admin succeeds on every table-valid change on an existing interview |
| InterviewRoutes.UnlistedRoleUnrestricted | app/api/v1/interview.py:118-136 | a participant whose role is not admin, interviewer or candidate may make any table-valid change, cancelling included |
| InterviewRoutes.UpdateInterviewStatus | app/api/v1/interview.py:87-139 | on success only that interview's status changes, to the new status; on failure nothing changes; the stored-status invariant is kept |
| ParticipantRoutes.AddParticipantCheck | app/api/v1/participants.py:21-52 | checks in order: non-admin 403, malformed id 400, missing interview 404, existing participant 400 |
| ParticipantRoutes.MembershipsAfterAppend | app/api/v1/participants.py:55-62 | appending a row adds exactly its (interview id, email) pair to the memberships |
| ParticipantRoutes.AddedParticipantGainsAccess | app/api/v1/participants.py:55-62 | the added user then passes the access check for that interview; every other pair is unaffected |
| ParticipantRoutes.AddParticipant | app/api/v1/participants.py:21-63 | on success exactly one row (interview id, email, role, now) is appended; on failure nothing changes; keys stay unique |
| MessageRoutes.CreateMessage | app/api/v1/messages.py:15-44 | after the guard passes, exactly one message with the path's interview id and the caller's email and role is stored where the listing reads, and returned |
| MessageRoutes.CreateMessageAsWritten | app/api/v1/messages.py:15-44 | as written, once the guard passes the message goes to the `message` collection, `messages` is unchanged, and the response is 500 |
| MessageRoutes.OfInterview | app/api/v1/messages.py:69-71 | keeps exactly the messages of the interview, with their multiplicities |
| Ordering.InsertAscending | app/api/v1/messages.py:72 | inserting into a list sorted by a key keeps it sorted and adds exactly one element; both listings sort with it |
| MessageRoutes.SortOldestFirst | app/api/v1/messages.py:72 | the result is sorted by created_at ascending and is a permutation of the input |
| MessageRoutes.Page | app/api/v1/messages.py:73-74 | the page is the contiguous slice after `offset`, at most the limit long and full when enough items remain; limit 0 means no limit |
| MessageRoutes.InterviewPage | app/api/v1/messages.py:69-75 | a page holds only messages of the interview, oldest first, at most the limit long |
| MessageRoutes.ListMessages | app/api/v1/messages.py:47-77 | limit above 50 or negative offset → 422; then a malformed id → 400, a missing interview or an outsider → 404; on success one oldest-first page of the interview's messages, at most `limit` long (default 20) |
| MessageRoutes.ListMessagesAsWritten | app/api/v1/messages.py:69-77 | as written, every non-empty page answers 500; errors and the empty page are as in the corrected listing |
| MessageRoutes.PostedMessageIsListed | app/api/v1/messages.py:43 | a message stored where the listing reads is among the interview's sorted messages that every page is cut from |
| MessageRoutes.OnSomePage | app/api/v1/messages.py:73-74 | every item of a list appears on the page at some offset, whatever the limit |
| MessageRoutes.PostedMessageIsOnAPage | app/api/v1/messages.py:43-75 | for every page size, some offset's page of the interview holds the posted message |
| Scenarios.InterviewLifecycle | app/api/v1/interview.py:87-136 | interviewer cancelling gets 403; candidate asking scheduled→completed gets 400; interviewer starting succeeds and the status becomes ongoing |
| Scenarios.PostedMessageLostAsWritten | app/api/v1/messages.py:36-75 | as written, a message the admin posts is stored in `message`, the post answers 500, and the listing returns an empty page |
| Scenarios.StoredMessageUnlistableAsWritten | app/api/v1/messages.py:69-77 | with the message stored in `messages`, the listing as written answers 500 |
| Scenarios.PostedMessageListed | app/api/v1/messages.py:36-77 | with the insert, the response and the listing corrected, the posted message is the one message listed |

## Findings

| source | as written | input that shows it | evidently intended | confidence | as-written member | corrected member |
|---|---|---|---|---|---|---|
| app/api/v1/interview.py:96 | the 400 for a malformed id is raised with the keyword `details`. `HTTPException` rejects that keyword, so the request ends in a 500 (shown by `MalformedIdAnswersServerError`) | PATCH a status to the interview id `Invalid` | 400 "Invalid interview ID", as in the other handlers | high; not executed | InterviewRoutes.UpdateStatusAsWritten | InterviewRoutes.UpdateStatus |
| app/api/v1/messages.py:43 | `create_message` inserts into `db.message`, but `list_message` reads `db.messages` (line 70), so posted messages are never listed (shown by `Scenarios.PostedMessageLostAsWritten`) | an admin posts "hello" to an existing interview, then lists its messages: the result is `[]` | the posted message is among the messages the pages are cut from (`PostedMessageIsListed`) and on the page at some offset (`PostedMessageIsOnAPage`) | high; not executed | MessageRoutes.CreateMessageAsWritten | MessageRoutes.CreateMessage |
| app/schemas/message.py:13 | `MessageOut.created_at` is declared `str`, but `create_message` returns the document whose `created_at` is the `datetime` built at `app/api/v1/messages.py:41`. Response validation then fails, so a post that passes every check is stored and answered with 500 (shown by `Scenarios.PostedMessageLostAsWritten`) | an admin posts "hello" to an existing interview | 200 with the stored message (`Scenarios.PostedMessageListed`) | medium (rests on the response validation of the web framework); not executed | MessageRoutes.CreateMessageAsWritten | MessageRoutes.CreateMessage |
| app/api/v1/messages.py:77 | `list_message` returns the raw documents (`list(cursor)`) with no response model. Each document keeps its `_id` ObjectId, which the framework's JSON encoder cannot encode, so every non-empty page answers 500 (shown by `Scenarios.StoredMessageUnlistableAsWritten`). Renaming the collection alone therefore does not make a posted message listable | an admin lists the messages of an interview that has one message in `messages` | the page of messages (`Scenarios.PostedMessageListed`) | medium (rests on the JSON encoding of the web framework); not executed | MessageRoutes.ListMessagesAsWritten | MessageRoutes.ListMessages |

Other defects in the code:
- `app/api/v1/interview.py:10` imports `is_valid_transition`, but
  `app/core/interview_lifecycle.py:8` declares it as `is_vaild_transition`.
  As written, the interview module fails to import. The model binds the
  intended function.
- `app/api/v1/interview.py:126` compares the current status with `"onging"`.
  `InterviewRoutes.MisspeltStatusIsHarmless` proves the typo changes no
  decision, because the table check at line 112 already forces
  `ongoing → completed`.

## Left out

- Authentication (`get_current_user`, JWT decoding, password hashing): every handler receives an already-resolved `User`; 401 responses are not modelled.
- HTTP routing and response shaping: `str(ObjectId)` conversion, `detail` texts and the status-change message text are not modelled. The status change returns the (old, new) pair instead.
- `list_message` carries no route decorator, and `app/main.py` mounts only the auth and users routers. The model treats every handler as reachable.
- MessageRoutes.ListMessages: takes the evidently intended integer `offset`, and answers 422 for a negative one. As written, `list_message` declares `offset` as `str` (`app/api/v1/messages.py:51`). Only the default offset then works: a supplied value reaches `.skip()` (line 73) as a string, which pymongo rejects.
- Ties: MongoDB may return messages or interviews with equal `created_at` in any order, and the contracts promise only sortedness and permutation. `Ordering.InsertAscending` keeps arrival order among equal messages. The interview listing takes ids from a set in no fixed order, so its ties are unordered too.
- ObjectId identity: ids are compared as strings. Two strings that parse to the same ObjectId, through hex case or whitespace, count as different ids. A 24-character id with whitespace parses to fewer than 12 bytes. MongoDB stores no interview under such an id, while the model finds an interview only if `interviews` holds that very string.
- The id MongoDB assigns to a new interview is a parameter of `CreateInterview`, required to be well formed and unused.
- Wall-clock time: `time.time()` floats and `datetime.now` become integer `now` parameters.
- The module-level singleton `cache = SimpleCache()` is not modelled as global state; the class is constructed explicitly.
- Concurrency: the source has no locking, and the model is single-threaded.
- Pydantic validation of payloads (e-mail syntax, required fields) is library behaviour and is not modelled.
- `app/api/v1/auth.py`, `app/core/auth_dependencies.py`, `app/core/config.py`, `app/core/errors.py`, `app/api/v1/users.py`, `test.py` and the schemas are not part of this model.
