/**
 * The score authoriser (cgi-bin/request/handlers/score/ScoreAuthoriser.php):
 * issues the PBX key of a score, or checks a key the client sends back.  The
 * key is made over the pairs `playerName`, `score` (in that order) under the
 * purpose SCORE_AUTHORISATION_KEY, salted with the client's `dateTime`; the
 * inputs are not trimmed.
 */
module ScoreAuth {

  import opened Outcome
  import opened Request
  import KeyCodec

  const Id: string := "authScore"
  const Purpose: string := "SCORE_AUTHORISATION_KEY"
  const Unauthorised: string := "PBX602:Score that was submitted was not authorised by PBX"

  /** The key data: `array("playerName" => ..., "score" => ...)`. */
  function Payload(playerName: string, score: string): (r: seq<KeyCodec.Pair>)
  {
    [KeyCodec.Pair("playerName", playerName), KeyCodec.Pair("score", score)]
  }

  /** `generate_authorisation_key`. */
  function AuthorisationKey(lib: KeyCodec.Env, playerName: string, score: string, dateTime: string): (r: Result<KeyCodec.Key>)
  {
    KeyCodec.NewKeyFromData(lib, Purpose, KeyCodec.At(dateTime), Payload(playerName, score))
  }

  /** The purpose is already upper case, so it is stored as written. */
  lemma PurposeKept()
    ensures PhpText.Upper(Purpose) == Purpose
  {
    PhpText.UpperKeeps(Purpose);
  }

  /** The digest of an issued score key is SHA-256 over
   *  `SCORE_AUTHORISATION_KEY:` + the pairs + `:` + the salt of the time. */
  lemma AuthorisationKeyText(lib: KeyCodec.Env, playerName: string, score: string, dateTime: string, t: KeyCodec.Stamp)
    requires lib.parse(dateTime) == Ok(t) && KeyCodec.Admitted(lib, t)
    ensures AuthorisationKey(lib, playerName, score, dateTime) ==
      Ok(KeyCodec.Key(Some(Purpose), Some(KeyCodec.SaltValue(t)),
        lib.sha256(KeyCodec.HashInput(Purpose, Payload(playerName, score), lib.saltText(KeyCodec.SaltValue(t))))))
  {
    PurposeKept();
    KeyCodec.IssuedKeyContents(lib, Purpose, KeyCodec.At(dateTime), Payload(playerName, score), t);
  }

  /** The pairs are `playerName=<name>&score=<score>&`, in that order. */
  lemma PayloadText(playerName: string, score: string)
    ensures KeyCodec.Fields(Payload(playerName, score)) == "playerName=" + playerName + "&score=" + score + "&"
  {
    var a := KeyCodec.Pair("playerName", playerName);
    var b := KeyCodec.Pair("score", score);
    KeyCodec.FieldsAppend([a], [b]);
    KeyCodec.FieldsSingle(a);
    KeyCodec.FieldsSingle(b);
    assert [a] + [b] == Payload(playerName, score);
    var x := "playerName" + "=" + playerName + "&";
    var y := "score" + "=" + score + "&";
    assert x == "playerName=" + playerName + "&";
    assert y == "score=" + score + "&";
    assert x + y == "playerName=" + playerName + "&score=" + score + "&";
  }

  /** `validate_score_with_key`: the supplied key is wrapped first (PBX603
   *  before anything else), then the expected key is generated again. */
  function ValidateWithKey(lib: KeyCodec.Env, key: string, playerName: string, score: string, dateTime: string): (r: Result<bool>)
    ensures r.Ok? ==> r.value
    ensures |key| != 64 ==> r == Fail("PBX603")
    ensures |key| == 64 && AuthorisationKey(lib, playerName, score, dateTime).Fail? ==>
      r == Fail(AuthorisationKey(lib, playerName, score, dateTime).msg)
    ensures |key| == 64 && AuthorisationKey(lib, playerName, score, dateTime).Ok? ==>
      (r.Ok? <==> key == AuthorisationKey(lib, playerName, score, dateTime).value.digest) &&
      (r.Fail? ==> r.msg == Unauthorised)
  {
    var supplied :- KeyCodec.NewKeyFromSource(key);
    var expected :- AuthorisationKey(lib, playerName, score, dateTime);
    if KeyCodec.ValidateKeys(supplied, expected) then Ok(true) else Fail(Unauthorised)
  }

  /** `validate_data`: PBX401 unless the player name, time and score are
   *  all given. */
  function ValidateData(data: Data): (r: Result<bool>)
    ensures r.Ok? <==> PlayerName in data && DateTime in data && Score in data
    ensures r.Fail? ==> r.msg == "PBX401"
  {
    if PlayerName in data && DateTime in data && Score in data then Ok(true) else Fail("PBX401")
  }

  /** The key `execute` generates from the request. */
  function Issue(lib: KeyCodec.Env, data: Data): (r: Result<KeyCodec.Key>)
  {
    AuthorisationKey(lib, Get(data, PlayerName), Get(data, Score), Get(data, DateTime))
  }

  /** `execute`. */
  function Execute(lib: KeyCodec.Env, data: Data): (r: Result<Reply>)
  {
    var valid :- ValidateData(data);
    var key :- Issue(lib, data);
    if ScoreAuthKey !in data then Ok(Text(key.digest))
    else
      var checked :- ValidateWithKey(lib, data[ScoreAuthKey], Get(data, PlayerName), Get(data, Score), Get(data, DateTime));
      Ok(Yes)
  }

  /** A missing player name, time or score is PBX401, before any key work. */
  lemma MissingField(lib: KeyCodec.Env, data: Data)
    requires PlayerName !in data || DateTime !in data || Score !in data
    ensures Execute(lib, data) == Fail("PBX401")
  {
  }

  /** The key is generated before anything else, so a time the date parser
   *  refuses or the clock window rejects fails first, key or no key. */
  lemma KeyFailureFirst(lib: KeyCodec.Env, data: Data)
    requires ValidateData(data).Ok? && Issue(lib, data).Fail?
    ensures Execute(lib, data) == Fail(Issue(lib, data).msg)
  {
  }

  /** Without `scoreAuthKey` the digest of the generated key is returned. */
  lemma IssuesDigest(lib: KeyCodec.Env, data: Data)
    requires ValidateData(data).Ok? && Issue(lib, data).Ok? && ScoreAuthKey !in data
    ensures Execute(lib, data) == Ok(Text(Issue(lib, data).value.digest))
  {
  }

  /** With `scoreAuthKey` the answer is the verdict on the supplied key. */
  lemma JudgesSuppliedKey(lib: KeyCodec.Env, data: Data)
    requires ValidateData(data).Ok? && Issue(lib, data).Ok? && ScoreAuthKey in data
    ensures Execute(lib, data) == Verdict(data[ScoreAuthKey], Issue(lib, data).value.digest, Unauthorised)
  {
  }

  /** The issue and verify round trip: the digest handed out, sent back with
   *  the same fields, is accepted. */
  lemma RoundTrip(lib: KeyCodec.Env, data: Data)
    requires ScoreAuthKey !in data && Execute(lib, data).Ok?
    ensures Execute(lib, data).value.Text?
    ensures Execute(lib, data[ScoreAuthKey := Execute(lib, data).value.s]) == Ok(Yes)
  {
    IssuesDigest(lib, data);
    var d := Execute(lib, data).value.s;
    var data' := data[ScoreAuthKey := d];
    assert Issue(lib, data') == Issue(lib, data);
    JudgesSuppliedKey(lib, data');
  }

  /** Any other 64-character key is refused with PBX602. */
  lemma ForeignKeyRefused(lib: KeyCodec.Env, data: Data)
    requires ValidateData(data).Ok? && Issue(lib, data).Ok?
    requires ScoreAuthKey in data && |data[ScoreAuthKey]| == 64
    requires data[ScoreAuthKey] != Issue(lib, data).value.digest
    ensures Execute(lib, data) == Fail(Unauthorised)
  {
    JudgesSuppliedKey(lib, data);
  }

  /** A time outside the clock window fails with PBX601 whether or not a
   *  key is supplied, since the key is generated first. */
  lemma OutOfWindowFirst(lib: KeyCodec.Env, data: Data)
    requires ValidateData(data).Ok? && lib.parse(data[DateTime]).Ok?
    requires !KeyCodec.Admitted(lib, lib.parse(data[DateTime]).value)
    ensures Execute(lib, data) == Fail("PBX601:Invalid timestamp")
  {
    KeyFailureFirst(lib, data);
  }
}
