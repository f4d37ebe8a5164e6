/** `UserService.getUserScore`: looks up the score of a user in an array of
    "email:score" records. Each exception the Java method can end in is an
    `Outcome` value here. */
module UserService {
  import opened JavaString
  import opened JavaInteger

  /** The message `UserNotFoundException` is constructed with. */
  const NotFoundMessage: string := "User with given email doesn't exist"

  /** How a call ends: with a score, or with one of the exceptions it throws. */
  datatype Outcome =
    | Found(score: int32)
      /** `UserNotFoundException(message)`: every record has a ':' and none
          has the email before its first ':'. */
    | UserNotFound(message: string)
      /** `StringIndexOutOfBoundsException` from `substring(0, -1)`: a record
          without ':' was reached before any match. */
    | IndexOutOfBounds
      /** `NumberFormatException` from `Integer.valueOf`: the matching
          record's score is not an `int` literal. */
    | NumberFormat

  /** A record the scan passes over: it has a ':' and the text before its
      first ':' is not `email`. */
  predicate Unmatched(record: string, email: string) {
    ':' in record && record[..IndexOf(record, ':')] != email
  }

  /** `Integer.valueOf(text)` unboxed to `int`, or the exception it throws. */
  function ParseScore(text: string): (r: Outcome)
    ensures r.Found? || r == NumberFormat
    ensures r.Found? <==> IsIntLiteral(text) && MinInt32 <= LiteralValue(text) <= MaxInt32
    ensures r.Found? ==> r.score as int == LiteralValue(text)
  {
    match ParseInt(text)
    case Some(n) => Found(n)
    case None => NumberFormat
  }

  /** What `getUserScore(records, email)` does, record by record. */
  function Lookup(records: seq<string>, email: string): (r: Outcome)
    ensures r.UserNotFound? ==> r.message == NotFoundMessage
  {
    if |records| == 0 then UserNotFound(NotFoundMessage)
    else
      var record := records[0];
      var colon := IndexOf(record, ':');
      if colon == -1 then IndexOutOfBounds
      else if record[..colon] == email then ParseScore(record[colon + 1..])
      else Lookup(records[1..], email)
  }

  /** `getUserScore(String[] records, String email)`: scans the records in
      order and stops at the first whose text before its first ':' is
      `email`. The array is only read. */
  method GetUserScore(records: array<string>, email: string) returns (r: Outcome)
    ensures r == Lookup(records[..], email)
  {
    for i := 0 to records.Length
      invariant forall k :: 0 <= k < i ==> Unmatched(records[k], email)
    {
      var record := records[i];
      var colon := IndexOf(record, ':');
      if colon == -1 {
        MissingColonFaults(records[..], i, email);
        return IndexOutOfBounds;
      }
      if record[..colon] == email {
        IndexOfSplit(record[..colon], ':', record[colon + 1..]);
        assert record == record[..colon] + [':'] + record[colon + 1..];
        FirstMatchWins(records[..], i, email, record[colon + 1..]);
        return ParseScore(record[colon + 1..]);
      }
    }
    NotFoundIff(records[..], email);
    return UserNotFound(NotFoundMessage);
  }

  // ---------------------------------------------------------------------
  // Properties of the lookup

  /** Running over two batches of records is running over the first, and
      over the second only when the first ended in "not found". */
  lemma {:induction false} LookupAppend(s: seq<string>, t: seq<string>, email: string)
    ensures Lookup(s + t, email)
            == if Lookup(s, email).UserNotFound? then Lookup(t, email) else Lookup(s, email)
  {
    if |s| == 0 {
      assert s + t == t;
    } else {
      assert (s + t)[0] == s[0];
      assert (s + t)[1..] == s[1..] + t;
      LookupAppend(s[1..], t, email);
    }
  }

  /** The lookup ends in `UserNotFound`, always with the fixed message, exactly
      when every record has a ':' and none has `email` before its first ':'
      (in particular when there are no records). */
  lemma {:induction false} NotFoundIff(s: seq<string>, email: string)
    ensures Lookup(s, email) == UserNotFound(NotFoundMessage)
            <==> forall k :: 0 <= k < |s| ==> Unmatched(s[k], email)
  {
    if |s| > 0 {
      NotFoundIff(s[1..], email);
      assert forall k :: 1 <= k < |s| ==> s[k] == s[1..][k - 1];
    }
  }

  /** The first record `email:text` decides the outcome: `text` (everything
      after the first ':', further ':' included) is parsed, and no later
      record is looked at. */
  lemma {:induction false} FirstMatchWins(s: seq<string>, k: nat, email: string, text: string)
    requires ':' !in email
    requires k < |s| && s[k] == email + ":" + text
    requires forall j :: 0 <= j < k ==> Unmatched(s[j], email)
    ensures Lookup(s, email) == ParseScore(text)
  {
    NotFoundIff(s[..k], email);
    LookupAppend(s[..k], s[k..], email);
    assert s[..k] + s[k..] == s;
    IndexOfSplit(email, ':', text);
    assert s[k..][0] == email + [':'] + text;
    assert (email + [':'] + text)[..|email|] == email;
    assert (email + [':'] + text)[|email| + 1..] == text;
  }

  /** A record without ':' reached before any match makes the call fail with
      an index fault, not with "not found"; later records do not matter. */
  lemma {:induction false} MissingColonFaults(s: seq<string>, k: nat, email: string)
    requires k < |s| && ':' !in s[k]
    requires forall j :: 0 <= j < k ==> Unmatched(s[j], email)
    ensures Lookup(s, email) == IndexOutOfBounds
  {
    NotFoundIff(s[..k], email);
    LookupAppend(s[..k], s[k..], email);
    assert s[..k] + s[k..] == s;
    assert s[k..][0] == s[k];
  }

  /** The text before a record's first ':' never holds a ':', so an email that
      holds one matches no record: the call ends in "not found", or in an
      index fault when some record lacks a ':'. */
  lemma {:induction false} ColonInEmailNeverMatches(s: seq<string>, email: string)
    requires ':' in email
    ensures Lookup(s, email)
            == if forall k :: 0 <= k < |s| ==> ':' in s[k]
               then UserNotFound(NotFoundMessage) else IndexOutOfBounds
  {
    if |s| > 0 {
      ColonInEmailNeverMatches(s[1..], email);
      assert forall k :: 1 <= k < |s| ==> s[k] == s[1..][k - 1];
    }
  }

  /** A score text that still holds a ':' (the record "a:1:2" looked up as
      "a") is not an `int` literal. */
  lemma ColonInScoreIsNumberFormat(text: string)
    requires ':' in text
    ensures ParseScore(text) == NumberFormat
  {
    ParseIntRejectsColon(text);
  }

  /** The score of a record that does not match is never parsed: replacing it
      with any other text leaves the outcome unchanged. */
  lemma {:induction false} UnmatchedScoreIgnored(s: seq<string>, k: nat, prefix: string, text: string, text': string, email: string)
    requires ':' !in prefix && prefix != email
    requires k < |s| && s[k] == prefix + ":" + text
    ensures Lookup(s[k := prefix + ":" + text'], email) == Lookup(s, email)
  {
    var s' := s[k := prefix + ":" + text'];
    IndexOfSplit(prefix, ':', text);
    IndexOfSplit(prefix, ':', text');
    assert (prefix + [':'] + text)[..|prefix|] == prefix;
    assert (prefix + [':'] + text')[..|prefix|] == prefix;
    LookupAppend(s[..k], s[k..], email);
    LookupAppend(s'[..k], s'[k..], email);
    assert s[..k] + s[k..] == s;
    assert s'[..k] + s'[k..] == s';
    assert s'[..k] == s[..k];
    assert s'[k..][1..] == s[k..][1..];
  }

  /** A record written as `email + ":" + Integer.toString(n)` yields `n`. */
  lemma RecordRoundTrip(s: seq<string>, k: nat, email: string, n: int32)
    requires ':' !in email
    requires k < |s| && s[k] == email + ":" + FormatInt(n)
    requires forall j :: 0 <= j < k ==> Unmatched(s[j], email)
    ensures Lookup(s, email) == Found(n)
  {
    FirstMatchWins(s, k, email, FormatInt(n));
    ParseFormatRoundTrip(n);
  }
}
