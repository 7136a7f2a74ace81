/**
 * The documents the handlers read and write, and the database that holds
 * them as in-memory collections: interviews by id, participant rows and
 * message documents in insertion order.
 */
module Store {
  import opened Wrappers
  import Lifecycle

  datatype Interview = Interview(
    title: string,
    interviewType: string,
    status: string,
    scheduledAt: Option<int>,
    createdBy: string,
    createdAt: int)

  datatype Participant = Participant(interviewId: string, userEmail: string, participantRole: string, addedAt: int)

  datatype Message = Message(interviewId: string, senderEmail: string, senderRole: string, content: string, createdAt: int)

  predicate IsHexDigit(c: char)
  {
    ('0' <= c <= '9') || ('a' <= c <= 'f') || ('A' <= c <= 'F')
  }

  /** The ASCII whitespace Python's `bytes.fromhex` skips: space, and tab through carriage return. */
  predicate IsSpace(c: char)
  {
    c == ' ' || ('\t' <= c <= '\r')
  }

  /**
   * Whether `bytes.fromhex` accepts the text: pairs of hexadecimal digits,
   * with whitespace allowed before each pair but not inside one.
   */
  predicate FromHexAccepts(s: string)
    decreases |s|
  {
    if s == [] then true
    else if IsSpace(s[0]) then FromHexAccepts(s[1..])
    else 2 <= |s| && IsHexDigit(s[0]) && IsHexDigit(s[1]) && FromHexAccepts(s[2..])
  }

  /**
   * Whether a path parameter parses as an ObjectId: a 24-character string
   * that `bytes.fromhex` accepts, the test the bson library applies to text.
   */
  predicate ValidId(s: string)
  {
    |s| == 24 && FromHexAccepts(s)
  }

  /** An even number of hexadecimal digits always parses. */
  lemma {:induction false} HexPairsParse(s: string)
    requires |s| % 2 == 0
    requires forall i :: 0 <= i < |s| ==> IsHexDigit(s[i])
    ensures FromHexAccepts(s)
    decreases |s|
  {
    if s != [] {
      HexPairsParse(s[2..]);
    }
  }

  /** Whatever parses is made of hexadecimal digits and whitespace only. */
  lemma {:induction false} ParsedTextIsHexOrSpace(s: string)
    requires FromHexAccepts(s)
    ensures forall i :: 0 <= i < |s| ==> IsHexDigit(s[i]) || IsSpace(s[i])
    decreases |s|
  {
    if s != [] {
      if IsSpace(s[0]) {
        ParsedTextIsHexOrSpace(s[1..]);
        assert forall i :: 1 <= i < |s| ==> s[i] == s[1..][i - 1];
      } else {
        ParsedTextIsHexOrSpace(s[2..]);
        assert forall i :: 2 <= i < |s| ==> s[i] == s[2..][i - 2];
      }
    }
  }

  /** Every 24-digit hexadecimal string is a well-formed id. */
  lemma HexIdsAreValid(s: string)
    requires |s| == 24 && forall i :: 0 <= i < |s| ==> IsHexDigit(s[i])
    ensures ValidId(s)
  {
    HexPairsParse(s);
  }

  /** A well-formed id holds nothing but hexadecimal digits and whitespace. */
  lemma ValidIdsAreHexOrSpace(s: string)
    requires ValidId(s)
    ensures forall i :: 0 <= i < |s| ==> IsHexDigit(s[i]) || IsSpace(s[i])
  {
    ParsedTextIsHexOrSpace(s);
  }

  /** Parsing proceeds pair by pair, so accepted texts concatenate. */
  lemma {:induction false} AcceptedTextsConcatenate(a: string, b: string)
    requires FromHexAccepts(a) && FromHexAccepts(b)
    ensures FromHexAccepts(a + b)
    decreases |a|
  {
    if a == [] {
      assert a + b == b;
    } else {
      assert (a + b)[0] == a[0];
      if IsSpace(a[0]) {
        assert (a + b)[1..] == a[1..] + b;
        AcceptedTextsConcatenate(a[1..], b);
      } else {
        assert (a + b)[1] == a[1];
        assert (a + b)[2..] == a[2..] + b;
        AcceptedTextsConcatenate(a[2..], b);
      }
    }
  }

  /**
   * The bson check lets whitespace between digit pairs through: this
   * 24-character string with two spaces, 22 digits, is a well-formed id.
   */
  lemma SpacedIdIsValid()
    ensures ValidId("65f0a1b2c3d4 e5f6012345 ")
  {
    var front, back, space := "65f0a1b2c3d4", "e5f6012345", " ";
    HexPairsParse(front);
    HexPairsParse(back);
    assert FromHexAccepts(space) by {
      assert space[1..] == [];
    }
    AcceptedTextsConcatenate(back, space);
    AcceptedTextsConcatenate(space, back + space);
    AcceptedTextsConcatenate(front, space + (back + space));
    assert front + (space + (back + space)) == "65f0a1b2c3d4 e5f6012345 ";
  }

  /** The key of the unique index on the participant collection. */
  function MemberKey(p: Participant): (string, string)
  {
    (p.interviewId, p.userEmail)
  }

  /** The (interview id, email) pairs present in a participant collection. */
  function MembershipsOf(rows: seq<Participant>): set<(string, string)>
  {
    set p | p in rows :: MemberKey(p)
  }

  /** At most one participant row per (interview id, email). */
  ghost predicate UniqueMemberships(rows: seq<Participant>)
  {
    forall i, j :: 0 <= i < j < |rows| ==> MemberKey(rows[i]) != MemberKey(rows[j])
  }

  /** The memberships of the rows before `n` and of the one row at `n`. */
  lemma MembershipsOfPrefix(rows: seq<Participant>, n: nat)
    requires n < |rows|
    ensures MembershipsOf(rows[..n + 1]) == MembershipsOf(rows[..n]) + {MemberKey(rows[n])}
  {
    assert rows[..n + 1] == rows[..n] + [rows[n]];
  }

  /** A prefix of rows with unique keys has unique keys. */
  lemma UniquePrefix(rows: seq<Participant>, n: nat)
    requires n <= |rows| && UniqueMemberships(rows)
    ensures UniqueMemberships(rows[..n])
  {
    forall i, j | 0 <= i < j < n
      ensures MemberKey(rows[..n][i]) != MemberKey(rows[..n][j])
    {
      assert rows[..n][i] == rows[i] && rows[..n][j] == rows[j];
    }
  }

  /** A last row repeating a key of the rows before it breaks uniqueness. */
  lemma RepeatedKeyNotUnique(rows: seq<Participant>)
    requires rows != [] && MemberKey(rows[|rows| - 1]) in MembershipsOf(rows[..|rows| - 1])
    ensures !UniqueMemberships(rows)
  {
    var n := |rows| - 1;
    var p :| p in rows[..n] && MemberKey(p) == MemberKey(rows[n]);
    var i :| 0 <= i < n && rows[..n][i] == p;
    assert rows[i] == p;
  }

  /**
   * The unique index read as a count: the keys are unique exactly when there
   * are as many memberships as rows, and there are never more.
   */
  lemma {:induction false} UniqueIffOneKeyPerRow(rows: seq<Participant>)
    ensures |MembershipsOf(rows)| <= |rows|
    ensures UniqueMemberships(rows) <==> |MembershipsOf(rows)| == |rows|
    decreases |rows|
  {
    if rows != [] {
      var n := |rows| - 1;
      var init := rows[..n];
      UniqueIffOneKeyPerRow(init);
      MembershipsOfPrefix(rows, n);
      assert rows[..n + 1] == rows;
      var key := MemberKey(rows[n]);
      if key in MembershipsOf(init) {
        assert MembershipsOf(rows) == MembershipsOf(init);
        RepeatedKeyNotUnique(rows);
      } else {
        assert |MembershipsOf(rows)| == |MembershipsOf(init)| + 1;
        if UniqueMemberships(init) {
          AppendKeepsUnique(init, rows[n]);
          assert init + [rows[n]] == rows;
        }
        if UniqueMemberships(rows) {
          UniquePrefix(rows, n);
        }
      }
    }
  }

  /** Appending a row whose key is new keeps the keys unique. */
  lemma AppendKeepsUnique(rows: seq<Participant>, row: Participant)
    requires UniqueMemberships(rows)
    requires MemberKey(row) !in MembershipsOf(rows)
    ensures UniqueMemberships(rows + [row])
  {
  }

  /** The document database the handlers share. */
  class Database {
    var interviews: map<string, Interview>
    var participants: seq<Participant>
    /** The `messages` collection, which the message listing reads. */
    var messages: seq<Message>
    /** The `message` collection, which message creation writes as the code stands. */
    var message: seq<Message>

    /** Participant keys are unique and every stored status is one the state machine knows. */
    ghost predicate Valid()
      reads this
    {
      && UniqueMemberships(participants)
      && forall id :: id in interviews ==> interviews[id].status in Lifecycle.Statuses
    }

    function Memberships(): set<(string, string)>
      reads this
    {
      MembershipsOf(participants)
    }

    constructor ()
      ensures Valid()
      ensures interviews == map[] && participants == [] && messages == [] && message == []
    {
      interviews := map[];
      participants := [];
      messages := [];
      message := [];
    }
  }
}
