/**
 * The achievement authoriser (cgi-bin/request/handlers/achiv/AchivAuthoriser.php):
 * issues the PBX key of an achievement unlock, or checks a key the client
 * sends back.  The key is made over the pairs `playerName`, `achivID`,
 * `gameID` (in that order) under the purpose ACHIEVEMENT_AUTHORISATION_KEY.
 * Before any key work the unlock table is asked whether the player already
 * holds the achievement; a valid TSK proof replaces the client's time by the
 * pinned time.  Also here: `AchivUnlocker::check_if_unlocked`, the lookup
 * that short-circuit uses.
 */
module AchivAuth {

  import opened Outcome
  import opened PhpText
  import opened Request
  import KeyCodec
  import Db

  const Id: string := "authAchiv"
  const Purpose: string := "ACHIEVEMENT_AUTHORISATION_KEY"
  const Unauthorised: string := "PBX602:Achievement that was submitted was not authorised by PBX"

  const UnlockCountCall: string := "CALL UnlockedAchievements_LookupPlayer_ExistingUnlockCount("
  const FindPlayer: string := "(SELECT Player_FindID('"

  /** The statement `check_if_unlocked` sends; none of the three values is
   *  escaped. */
  function UnlockCountSql(achivID: string, gameID: string, playerName: string): (r: string)
  {
    UnlockCountCall + achivID + ", '" + gameID + "', " + FindPlayer + playerName + "')));"
  }

  /** `AchivUnlocker::check_if_unlocked`: the `count` of the first row on a
   *  viewer connection, compared with 0.  A connection or query error
   *  propagates. */
  function CheckIfUnlocked(p: Db.Platform, achivID: string, gameID: string, playerName: string): (r: Result<bool>)
    ensures View(p, UnlockCountSql(achivID, gameID, playerName), Some("array")).Fail? <==> r.Fail?
    ensures r.Fail? ==> r.msg == View(p, UnlockCountSql(achivID, gameID, playerName), Some("array")).msg
    ensures r.Ok? ==>
      (r.value <==> Positive(FirstField(View(p, UnlockCountSql(achivID, gameID, playerName), Some("array")).value, "count")))
  {
    var reply :- View(p, UnlockCountSql(achivID, gameID, playerName), Some("array"));
    Ok(Positive(FirstField(reply, "count")))
  }

  /** A first row whose count is 0, or no row at all, is "not unlocked";
   *  a count above 0 is "unlocked". */
  lemma UnlockedIffCounted(p: Db.Platform, achivID: string, gameID: string, playerName: string, rows: seq<Row>)
    requires View(p, UnlockCountSql(achivID, gameID, playerName), Some("array")) == Ok(Arrays(Single(Some(rows))))
    ensures CheckIfUnlocked(p, achivID, gameID, playerName) ==
      Ok(|rows| > 0 && "count" in rows[0] && IntValue(rows[0]["count"]) > 0)
  {
  }

  /** The fixed parts of the text `tsk_auth` hashes. */
  const TskTag: string := "TSK_AUTH_KEY:dateTime="
  const TskSeparator: string := "&:"

  /** The text `tsk_auth` hashes, from the raw (untrimmed) fields. */
  function TskText(dateTime: string, playerName: string): (r: string)
  {
    TskTag + dateTime + TskSeparator + playerName
  }

  /** `tsk_auth`: the temporary-storage proof is present and strictly equal
   *  to the digest of the raw time and player name. */
  predicate TskAuth(lib: KeyCodec.Env, data: Data)
  {
    TskAuthKey in data && data[TskAuthKey] == lib.tskDigest(TskText(Get(data, DateTime), Get(data, PlayerName)))
  }

  /** The proof for a time and a raw name is accepted, and nothing else
   *  that the digest tells apart from it. */
  lemma TskAuthExactly(lib: KeyCodec.Env, data: Data, proof: string)
    ensures TskAuth(lib, data[TskAuthKey := proof]) <==>
      proof == lib.tskDigest(TskText(Get(data, DateTime), Get(data, PlayerName)))
    ensures TskAuthKey !in data ==> !TskAuth(lib, data)
  {
    var d := data[TskAuthKey := proof];
    assert Get(d, DateTime) == Get(data, DateTime);
    assert Get(d, PlayerName) == Get(data, PlayerName);
  }

  /** `self::tsk_auth($data) ? true : $dateTime`: the time the key is made
   *  with. */
  function Time(lib: KeyCodec.Env, data: Data): (r: KeyCodec.When)
    ensures r.Override? <==> TskAuth(lib, data)
    ensures r.At? ==> r.text == Get(data, DateTime)
  {
    if TskAuth(lib, data) then KeyCodec.Override else KeyCodec.At(Get(data, DateTime))
  }

  /** The key data: `array("playerName" => ..., "achivID" => ..., "gameID" => ...)`. */
  function Payload(playerName: string, achivID: string, gameID: string): (r: seq<KeyCodec.Pair>)
  {
    [KeyCodec.Pair("playerName", playerName), KeyCodec.Pair("achivID", achivID), KeyCodec.Pair("gameID", gameID)]
  }

  /** The pairs are `playerName=<name>&achivID=<id>&gameID=<game>&`, in that
   *  order. */
  lemma PayloadText(playerName: string, achivID: string, gameID: string)
    ensures KeyCodec.Fields(Payload(playerName, achivID, gameID)) ==
      ("playerName=" + playerName + "&") + (("achivID=" + achivID + "&") + ("gameID=" + gameID + "&"))
  {
    KeyCodec.FieldsThree(KeyCodec.Pair("playerName", playerName), KeyCodec.Pair("achivID", achivID),
                         KeyCodec.Pair("gameID", gameID));
    PairText("playerName", "playerName=", playerName);
    PairText("achivID", "achivID=", achivID);
    PairText("gameID", "gameID=", gameID);
  }

  lemma PairText(k: string, tag: string, v: string)
    requires tag == k + "="
    ensures k + "=" + v + "&" == tag + v + "&"
  {
  }

  /** `generate_authorisation_key`. */
  function AuthorisationKey(lib: KeyCodec.Env, playerName: string, achivID: string, gameID: string, when: KeyCodec.When): (r: Result<KeyCodec.Key>)
  {
    KeyCodec.NewKeyFromData(lib, Purpose, when, Payload(playerName, achivID, gameID))
  }

  /** The purpose is already upper case, so it is stored as written. */
  lemma PurposeKept()
    ensures Upper(Purpose) == Purpose
  {
    UpperKeeps(Purpose);
  }

  /** The digest of an issued achievement key is SHA-256 over
   *  `ACHIEVEMENT_AUTHORISATION_KEY:` + the pairs + `:` + the salt. */
  lemma AuthorisationKeyText(lib: KeyCodec.Env, playerName: string, achivID: string, gameID: string,
                             when: KeyCodec.When, t: KeyCodec.Stamp)
    requires lib.parse(KeyCodec.StampText(when)) == Ok(t) && KeyCodec.Admitted(lib, t)
    ensures AuthorisationKey(lib, playerName, achivID, gameID, when) ==
      Ok(KeyCodec.Key(Some(Purpose), Some(KeyCodec.SaltValue(t)),
        lib.sha256(KeyCodec.HashInput(Purpose, Payload(playerName, achivID, gameID), lib.saltText(KeyCodec.SaltValue(t))))))
  {
    PurposeKept();
    KeyCodec.IssuedKeyContents(lib, Purpose, when, Payload(playerName, achivID, gameID), t);
  }

  /** `validate_achiv_with_key`: the supplied key is wrapped first (PBX603
   *  before anything else), then the expected key is generated again. */
  function ValidateWithKey(lib: KeyCodec.Env, key: string, playerName: string, achivID: string, gameID: string,
                           when: KeyCodec.When): (r: Result<bool>)
    ensures r.Ok? ==> r.value
    ensures |key| != 64 ==> r == Fail("PBX603")
    ensures |key| == 64 && AuthorisationKey(lib, playerName, achivID, gameID, when).Fail? ==>
      r == Fail(AuthorisationKey(lib, playerName, achivID, gameID, when).msg)
    ensures |key| == 64 && AuthorisationKey(lib, playerName, achivID, gameID, when).Ok? ==>
      (r.Ok? <==> key == AuthorisationKey(lib, playerName, achivID, gameID, when).value.digest) &&
      (r.Fail? ==> r.msg == Unauthorised)
  {
    var supplied :- KeyCodec.NewKeyFromSource(key);
    var expected :- AuthorisationKey(lib, playerName, achivID, gameID, when);
    if KeyCodec.ValidateKeys(supplied, expected) then Ok(true) else Fail(Unauthorised)
  }

  /** `validate_data`: PBX401 unless the player name, time, game and
   *  achievement are all given. */
  function ValidateData(data: Data): (r: Result<bool>)
    ensures r.Ok? <==> PlayerName in data && DateTime in data && GameID in data && AchivID in data
    ensures r.Fail? ==> r.msg == "PBX401"
  {
    if PlayerName in data && DateTime in data && GameID in data && AchivID in data then Ok(true) else Fail("PBX401")
  }

  /** The "already unlocked" lookup of `execute`: the achievement, the game
   *  id cut to its first four characters and the trimmed name. */
  function Unlocked(p: Db.Platform, data: Data): (r: Result<bool>)
  {
    CheckIfUnlocked(p, Get(data, AchivID), Prefix(Get(data, GameID), 4), Trim(Get(data, PlayerName)))
  }

  /** The key `execute` generates: over the trimmed name, the raw
   *  achievement and the full game id with its version. */
  function Issue(lib: KeyCodec.Env, data: Data): (r: Result<KeyCodec.Key>)
  {
    AuthorisationKey(lib, Trim(Get(data, PlayerName)), Get(data, AchivID), Get(data, GameID), Time(lib, data))
  }

  /** `validate_achiv_with_key` as `execute` calls it: the same fields and
   *  time as the key it has just generated. */
  function Recheck(lib: KeyCodec.Env, data: Data): (r: Result<bool>)
  {
    ValidateWithKey(lib, Get(data, AchivAuthKey), Trim(Get(data, PlayerName)), Get(data, AchivID),
                    Get(data, GameID), Time(lib, data))
  }

  /** What `execute` does once the achievement is known not to be
   *  unlocked: generate the key, then hand out its digest or judge the
   *  supplied one. */
  function Answer(lib: KeyCodec.Env, data: Data): (r: Result<Reply>)
  {
    var key :- Issue(lib, data);
    if AchivAuthKey !in data then Ok(Text(key.digest))
    else
      var checked :- Recheck(lib, data);
      Ok(Yes)
  }

  /** `execute`. */
  function Execute(lib: KeyCodec.Env, p: Db.Platform, data: Data): (r: Result<Reply>)
  {
    var valid :- ValidateData(data);
    var unlocked :- Unlocked(p, data);
    if unlocked then Ok(Text("false")) else Answer(lib, data)
  }

  /** A missing player name, time, game or achievement is PBX401, before
   *  any lookup. */
  lemma MissingField(lib: KeyCodec.Env, p: Db.Platform, data: Data)
    requires PlayerName !in data || DateTime !in data || GameID !in data || AchivID !in data
    ensures Execute(lib, p, data) == Fail("PBX401")
  {
  }

  /** An achievement the player already holds answers the text "false"
   *  before any key work, whatever key or time was sent. */
  lemma AlreadyUnlocked(lib: KeyCodec.Env, p: Db.Platform, data: Data)
    requires ValidateData(data).Ok? && Unlocked(p, data) == Ok(true)
    ensures Execute(lib, p, data) == Ok(Text("false"))
  {
  }

  /** A failed lookup fails the request, before any key work. */
  lemma LookupFailureFirst(lib: KeyCodec.Env, p: Db.Platform, data: Data)
    requires ValidateData(data).Ok? && Unlocked(p, data).Fail?
    ensures Execute(lib, p, data) == Fail(Unlocked(p, data).msg)
  {
  }

  /** Otherwise the key stage decides. */
  lemma NotUnlocked(lib: KeyCodec.Env, p: Db.Platform, data: Data)
    requires ValidateData(data).Ok? && Unlocked(p, data) == Ok(false)
    ensures Execute(lib, p, data) == Answer(lib, data)
  {
  }

  /** A time the key cannot be made with fails the key stage, key or no
   *  key. */
  lemma KeyFailureFirst(lib: KeyCodec.Env, data: Data)
    requires Issue(lib, data).Fail?
    ensures Answer(lib, data) == Fail(Issue(lib, data).msg)
  {
  }

  /** Without `achivAuthKey` the digest of the generated key is returned. */
  lemma IssuesDigest(lib: KeyCodec.Env, data: Data)
    requires Issue(lib, data).Ok? && AchivAuthKey !in data
    ensures Answer(lib, data) == Ok(Text(Issue(lib, data).value.digest))
  {
  }

  /** With `achivAuthKey` the answer is the verdict on the supplied key:
   *  PBX603 for a wrong length, `true` on a match, PBX602 otherwise. */
  lemma JudgesSuppliedKey(lib: KeyCodec.Env, data: Data)
    requires Issue(lib, data).Ok? && AchivAuthKey in data
    ensures Answer(lib, data) == Verdict(data[AchivAuthKey], Issue(lib, data).value.digest, Unauthorised)
  {
    var n, a, g, w := Trim(Get(data, PlayerName)), Get(data, AchivID), Get(data, GameID), Time(lib, data);
    assert Issue(lib, data) == AuthorisationKey(lib, n, a, g, w);
    ValidateVerdict(lib, data[AchivAuthKey], n, a, g, w);
  }

  /** Once the expected key is made, the check is the verdict on the
   *  supplied one. */
  lemma ValidateVerdict(lib: KeyCodec.Env, key: string, playerName: string, achivID: string, gameID: string,
                        when: KeyCodec.When)
    requires AuthorisationKey(lib, playerName, achivID, gameID, when).Ok?
    ensures ValidateWithKey(lib, key, playerName, achivID, gameID, when) ==
      match Verdict(key, AuthorisationKey(lib, playerName, achivID, gameID, when).value.digest, Unauthorised)
      case Ok(_) => Ok(true)
      case Fail(e) => Fail(e)
  {
  }

  /** The issue and verify round trip: the digest handed out, sent back with
   *  the same fields, is accepted. */
  lemma RoundTrip(lib: KeyCodec.Env, data: Data)
    requires AchivAuthKey !in data && Answer(lib, data).Ok?
    ensures Answer(lib, data).value.Text?
    ensures Answer(lib, data[AchivAuthKey := Answer(lib, data).value.s]) == Ok(Yes)
  {
    IssuesDigest(lib, data);
    var d := Answer(lib, data).value.s;
    var data' := data[AchivAuthKey := d];
    assert Get(data', PlayerName) == Get(data, PlayerName);
    assert Get(data', AchivID) == Get(data, AchivID);
    assert Get(data', GameID) == Get(data, GameID);
    assert Get(data', DateTime) == Get(data, DateTime);
    assert TskAuth(lib, data') == TskAuth(lib, data);
    assert Issue(lib, data') == Issue(lib, data);
    JudgesSuppliedKey(lib, data');
  }

  /** The round trip through `execute` itself: a digest it hands out for
   *  an achievement not yet unlocked is accepted when sent back. */
  lemma ExecuteRoundTrip(lib: KeyCodec.Env, p: Db.Platform, data: Data)
    requires ValidateData(data).Ok? && Unlocked(p, data) == Ok(false)
    requires AchivAuthKey !in data && Execute(lib, p, data).Ok?
    ensures Execute(lib, p, data).value.Text?
    ensures Execute(lib, p, data[AchivAuthKey := Execute(lib, p, data).value.s]) == Ok(Yes)
  {
    NotUnlocked(lib, p, data);
    RoundTrip(lib, data);
    var d := Answer(lib, data).value.s;
    KeyIgnored(p, data, d);
    NotUnlocked(lib, p, data[AchivAuthKey := d]);
  }

  /** The supplied key plays no part in validation or in the lookup. */
  lemma KeyIgnored(p: Db.Platform, data: Data, key: string)
    ensures ValidateData(data[AchivAuthKey := key]) == ValidateData(data)
    ensures Unlocked(p, data[AchivAuthKey := key]) == Unlocked(p, data)
  {
    var data' := data[AchivAuthKey := key];
    assert Get(data', PlayerName) == Get(data, PlayerName);
    assert Get(data', AchivID) == Get(data, AchivID);
    assert Get(data', GameID) == Get(data, GameID);
  }

  /** Any other 64-character key is refused with PBX602. */
  lemma ForeignKeyRefused(lib: KeyCodec.Env, data: Data)
    requires Issue(lib, data).Ok? && AchivAuthKey in data && |data[AchivAuthKey]| == 64
    requires data[AchivAuthKey] != Issue(lib, data).value.digest
    ensures Answer(lib, data) == Fail(Unauthorised)
  {
    JudgesSuppliedKey(lib, data);
  }

  /** With a valid TSK proof the key is the pinned-time key: it is always
   *  made, whatever the client's time says, and the clock plays no part. */
  lemma TskPinsTime(lib: KeyCodec.Env, data: Data, window: KeyCodec.Stamp -> bool)
    requires TskAuth(lib, data)
    ensures Issue(lib, data) ==
      AuthorisationKey(lib, Trim(Get(data, PlayerName)), Get(data, AchivID), Get(data, GameID), KeyCodec.Override)
    ensures Issue(lib, data).Ok?
    ensures lib.(inWindow := window).parse(KeyCodec.PinnedText) == Ok(KeyCodec.Pinned)
    ensures Issue(lib.(inWindow := window), data) == Issue(lib, data)
  {
    var lib' := lib.(inWindow := window);
    KeyCodec.OverrideIgnoresClock(lib, window, Purpose, Payload(Trim(Get(data, PlayerName)), Get(data, AchivID), Get(data, GameID)));
    assert TskAuth(lib', data);
  }

  /** Without the proof the client's own time is used. */
  lemma ClientTimeOtherwise(lib: KeyCodec.Env, data: Data)
    requires !TskAuth(lib, data)
    ensures Issue(lib, data) ==
      AuthorisationKey(lib, Trim(Get(data, PlayerName)), Get(data, AchivID), Get(data, GameID), KeyCodec.At(Get(data, DateTime)))
  {
  }
}
