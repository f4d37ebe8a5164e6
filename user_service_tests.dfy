/** The behavioural scenarios of `UserServiceTest`, stated about the lookup. */
module UserServiceTests {
  import opened JavaString
  import opened JavaInteger
  import opened UserService

  const BasicRecords: seq<string> := [
    "john@gmail.com:78", "rick@yahoo.com:99", "greg@gmail.com:20", "russell@mail.us:141",
    "jerry@mail.us:0", "mortimer@mail.us:53", "test@gmail.com:2", "bob@mail.com:141986"]

  /** The same records, cut at their first ':'. `BasicRecords` keeps the
      array exactly as the test writes it; `BasicRecordsShape` proves that
      the two spellings agree, and the proofs use the cut form. */
  const Emails: seq<string> := [
    "john@gmail.com", "rick@yahoo.com", "greg@gmail.com", "russell@mail.us",
    "jerry@mail.us", "mortimer@mail.us", "test@gmail.com", "bob@mail.com"]
  const ScoreTexts: seq<string> := ["78", "99", "20", "141", "0", "53", "2", "141986"]

  lemma BasicRecordsShape()
    ensures |BasicRecords| == |Emails| == |ScoreTexts| == 8
    ensures forall i :: 0 <= i < 8 ==>
              BasicRecords[i] == Emails[i] + ":" + ScoreTexts[i] && ':' !in Emails[i]
  {
  }

  /** Looking up the k-th user of the basic records parses the k-th score. */
  lemma BasicLookup(k: nat, email: string)
    requires k < 8 && Emails[k] == email
    requires forall j :: 0 <= j < k ==> Emails[j] != email
    ensures Lookup(BasicRecords, email) == ParseScore(ScoreTexts[k])
  {
    BasicRecordsShape();
    forall j | 0 <= j < k
      ensures Unmatched(BasicRecords[j], email)
    {
      IndexOfSplit(Emails[j], ':', ScoreTexts[j]);
      assert BasicRecords[j][..|Emails[j]|] == Emails[j];
    }
    FirstMatchWins(BasicRecords, k, email, ScoreTexts[k]);
  }

  /** The k-th user of the basic records gets the score the k-th record
      spells out. */
  lemma BasicScore(k: nat, email: string, n: int32)
    requires k < 8 && Emails[k] == email
    requires forall j :: 0 <= j < k ==> Emails[j] != email
    requires ScoreTexts[k] == FormatInt(n)
    ensures Lookup(BasicRecords, email) == Found(n)
  {
    BasicLookup(k, email);
    ParseFormatRoundTrip(n);
  }

  // `getUserScore_validCase`: each user's own score is returned.

  lemma ValidCaseMortimer()
    ensures Lookup(BasicRecords, "mortimer@mail.us") == Found(53)
  {
    assert ScoreTexts[5] == FormatInt(53);
    BasicScore(5, "mortimer@mail.us", 53);
  }

  lemma ValidCaseRick()
    ensures Lookup(BasicRecords, "rick@yahoo.com") == Found(99)
  {
    assert ScoreTexts[1] == FormatInt(99);
    BasicScore(1, "rick@yahoo.com", 99);
  }

  lemma ValidCaseGreg()
    ensures Lookup(BasicRecords, "greg@gmail.com") == Found(20)
  {
    assert ScoreTexts[2] == FormatInt(20);
    BasicScore(2, "greg@gmail.com", 20);
  }

  lemma ValidCaseJerry()
    ensures Lookup(BasicRecords, "jerry@mail.us") == Found(0)
  {
    assert ScoreTexts[4] == FormatInt(0);
    BasicScore(4, "jerry@mail.us", 0);
  }

  lemma ValidCaseBob()
    ensures Lookup(BasicRecords, "bob@mail.com") == Found(141986)
  {
    assert ScoreTexts[7] == FormatInt(141986);
    BasicScore(7, "bob@mail.com", 141986);
  }

  lemma ValidCaseTest()
    ensures Lookup(BasicRecords, "test@gmail.com") == Found(2)
  {
    assert ScoreTexts[6] == FormatInt(2);
    BasicScore(6, "test@gmail.com", 2);
  }

  /** `getUserScore_exceptionExpected`: no records, so no user. */
  lemma EmptyRecords()
    ensures Lookup([], "vincent@mail.us") == UserNotFound(NotFoundMessage)
  {
  }

  // `getUserScore_wrongEmailFormatInput*`: a whole record, or a record with
  // extra text, given as the email matches nothing.

  lemma WrongEmailFormatFirstCase()
    ensures Lookup(["carl@mail.com:30"], "carl@mail.com:30") == UserNotFound(NotFoundMessage)
  {
    assert "carl@mail.com:30"[13] == ':';
    ColonInEmailNeverMatches(["carl@mail.com:30"], "carl@mail.com:30");
  }

  lemma WrongEmailFormatSecondCase()
    ensures Lookup(BasicRecords, "jerry@mail.us:0$@") == UserNotFound(NotFoundMessage)
  {
    BasicRecordsShape();
    assert "jerry@mail.us:0$@"[13] == ':';
    ColonInEmailNeverMatches(BasicRecords, "jerry@mail.us:0$@");
  }

  lemma WrongEmailFormatThirdCase()
    ensures Lookup(BasicRecords, "bob@mail.com:1419") == UserNotFound(NotFoundMessage)
  {
    BasicRecordsShape();
    assert "bob@mail.com:1419"[12] == ':';
    ColonInEmailNeverMatches(BasicRecords, "bob@mail.com:1419");
  }

  /** Only the first ':' splits: "a:1:2" looked up as "a" parses "1:2". */
  lemma SecondColonInScore()
    ensures Lookup(["a:1:2"], "a") == NumberFormat
  {
    assert "a:1:2" == "a" + ":" + "1:2";
    FirstMatchWins(["a:1:2"], 0, "a", "1:2");
    assert "1:2"[1] == ':';
    ColonInScoreIsNumberFormat("1:2");
  }
}
