/**
 * The download recorder (cgi-bin/request/handlers/updates/GameDownload.php):
 * a client that downloaded a game sends the game, the platform and a
 * download key.  The key must be the pinned GAME_DOWNLOAD_RECORD key over
 * the game alone, the game must be one the catalogue lists, and then one
 * row is inserted into the download table.
 */
module Download {

  import opened Outcome
  import opened PhpText
  import opened Request
  import KeyCodec
  import Db
  import Games

  const Id: string := "recordGameDownload"
  const Purpose: string := "GAME_DOWNLOAD_RECORD"

  /** The start of the PBX602 message; the message goes on with both
   *  digests. */
  const MismatchHead: string := "PBX602:Invalid download key-"
  const Versus: string := " != "

  /** The statement's fixed opening, in pieces (line breaks and indentation
   *  written as single spaces). */
  const Head1: string := "INSERT INTO Download (gameId, "
  const Head2: string := "gameVersionMajor, gameVersionMinor, "
  const Head3: string := "gameVersionPatch, gameVersionDev, "
  const Head4: string := "platform) VALUES ( '"
  const InsertHead: string := Head1 + Head2 + Head3 + Head4

  /** `validate_data`: PBX401 unless the game, the key and the platform are
   *  all given. */
  function ValidateData(data: Data): (r: Result<bool>)
    ensures r.Ok? <==> GameID in data && DownloadKey in data && Platform in data
    ensures r.Fail? ==> r.msg == "PBX401"
  {
    if GameID in data && DownloadKey in data && Platform in data then Ok(true) else Fail("PBX401")
  }

  /** `$k1`: the key made with the sentinel time over `gameID=<game>`; it
   *  is always issued and depends on nothing but the game. */
  function Expected(lib: KeyCodec.Env, game: string): (r: KeyCodec.Key)
    ensures r.name == Some(Purpose) && |r.digest| == 64
  {
    KeyCodec.PinnedKeyDigest(lib, Purpose, [KeyCodec.Pair("gameID", game)]);
    UpperOfPurpose();
    KeyCodec.NewKeyFromData(lib, Purpose, KeyCodec.Override, [KeyCodec.Pair("gameID", game)]).value
  }

  lemma UpperOfPurpose()
    ensures Upper(Purpose) == Purpose
  {
  }

  /** The expected digest is the hash of `GAME_DOWNLOAD_RECORD:gameID=<game>&:`
   *  followed by the salt of the pinned instant. */
  lemma ExpectedContents(lib: KeyCodec.Env, game: string)
    ensures Expected(lib, game).digest ==
      lib.sha256(Purpose + ":" + ("gameID=" + game + "&") + ":" + lib.saltText(KeyCodec.SaltValue(KeyCodec.Pinned)))
  {
    var pair := KeyCodec.Pair("gameID", game);
    KeyCodec.PinnedKeyDigest(lib, Purpose, [pair]);
    UpperOfPurpose();
    KeyCodec.FieldsSingle(pair);
    assert "gameID" + "=" + game + "&" == "gameID=" + game + "&";
  }

  /** The PBX602 message: the expected digest, then the supplied one. */
  function Mismatch(expected: string, supplied: string): (r: string)
  {
    MismatchHead + (expected + (Versus + supplied))
  }

  /** The key checks of `execute` on the supplied key: PBX603 when it is
   *  not 64 characters long (wrapping it throws), otherwise PBX602 naming
   *  both digests unless they agree. */
  function KeyError(lib: KeyCodec.Env, game: string, key: string): (r: Option<string>)
  {
    match KeyCodec.NewKeyFromSource(key)
    case Fail(e) => Some(e)
    case Ok(k2) =>
      var k1 := Expected(lib, game);
      if KeyCodec.ValidateKeys(k1, k2) then None else Some(Mismatch(k1.digest, k2.digest))
  }

  /** The key is refused exactly when it is not the expected digest: with
   *  PBX603 for a wrong length, and otherwise with a message that names
   *  the expected digest. */
  lemma KeyErrorCases(lib: KeyCodec.Env, game: string, key: string)
    ensures |key| != 64 ==> KeyError(lib, game, key) == Some("PBX603")
    ensures KeyError(lib, game, key).None? <==> key == Expected(lib, game).digest
    ensures |key| == 64 && key != Expected(lib, game).digest ==>
      KeyError(lib, game, key) == Some(Mismatch(Expected(lib, game).digest, key))
  {
  }

  /** The refusal gives the key away: sending back the digest its message
   *  names passes the key check. */
  lemma RefusalRevealsKey(lib: KeyCodec.Env, game: string, key: string, leaked: string)
    requires |key| == 64 && KeyError(lib, game, key) == Some(Mismatch(leaked, key))
    ensures KeyError(lib, game, leaked) == None
  {
    KeyErrorCases(lib, game, key);
    var e := Expected(lib, game).digest;
    assert MismatchHead + (leaked + (Versus + key)) == MismatchHead + (e + (Versus + key));
    SameHead(MismatchHead, leaked + (Versus + key), e + (Versus + key));
    SameTail(leaked, e, Versus + key);
  }

  lemma SameHead(h: string, x: string, y: string)
    requires h + x == h + y
    ensures x == y
  {
    assert x == (h + x)[|h|..];
    assert y == (h + y)[|h|..];
  }

  lemma SameTail(x: string, y: string, t: string)
    requires x + t == y + t
    ensures x == y
  {
    assert |x| == |y|;
    assert x == (x + t)[..|x|];
    assert y == (y + t)[..|y|];
  }

  /** The expected key does not depend on the clock. */
  lemma ExpectedIgnoresClock(lib: KeyCodec.Env, window: KeyCodec.Stamp -> bool, game: string)
    ensures lib.(inWindow := window).parse(KeyCodec.PinnedText) == Ok(KeyCodec.Pinned)
    ensures Expected(lib.(inWindow := window), game) == Expected(lib, game)
  {
    KeyCodec.OverrideIgnoresClock(lib, window, Purpose, [KeyCodec.Pair("gameID", game)]);
  }

  /** The checks of `execute`, in order: validation, the key, then
   *  `verify_game` of the game against the catalogue's list (`games`). */
  function Refusal(lib: KeyCodec.Env, games: seq<string>, data: Data): (r: Option<string>)
  {
    if ValidateData(data).Fail? then Some("PBX401")
    else if KeyError(lib, data[GameID], data[DownloadKey]).Some? then KeyError(lib, data[GameID], data[DownloadKey])
    else if !Games.Verifies(games, data[GameID]) then Some("PBX801")
    else None
  }

  /** The download row: the game's id and four version parts (NULL, so
   *  empty, where it has fewer) and the platform, which the server
   *  upper-cases. */
  function InsertSql(game: (string, seq<string>), platform: string): (r: string)
  {
    InsertHead + game.0 + "', '" + Games.Part(game.1, 0) + "', '" + Games.Part(game.1, 1) + "', '" +
    Games.Part(game.1, 2) + "', '" + Games.Part(game.1, 3) + "', UPPER('" + platform + "'));"
  }

  function Row(data: Data): (r: string)
  {
    InsertSql(Games.GameDetails(Get(data, GameID)), Get(data, Platform))
  }

  /** `execute`: the checks, then the insert on an inserter connection,
   *  whose reply is the answer. */
  function Execute(lib: KeyCodec.Env, p: Db.Platform, games: seq<string>, data: Data): (r: Handled)
  {
    match Refusal(lib, games, data)
    case Some(e) => Stop(e)
    case None => Push(lib, p, Row(data))
  }

  /** A missing field is PBX401. */
  lemma MissingField(lib: KeyCodec.Env, games: seq<string>, data: Data)
    requires GameID !in data || DownloadKey !in data || Platform !in data
    ensures Refusal(lib, games, data) == Some("PBX401")
  {
  }

  /** The key is judged before the game: a wrong key is refused even for
   *  a game the catalogue does not list. */
  lemma KeyBeforeGame(lib: KeyCodec.Env, games: seq<string>, data: Data)
    requires ValidateData(data).Ok? && data[DownloadKey] != Expected(lib, data[GameID]).digest
    ensures Refusal(lib, games, data) == KeyError(lib, data[GameID], data[DownloadKey])
    ensures Refusal(lib, games, data).Some?
  {
    KeyErrorCases(lib, data[GameID], data[DownloadKey]);
  }

  /** With the right key, an unlisted game is PBX801 and a listed one is
   *  accepted. */
  lemma GameDecides(lib: KeyCodec.Env, games: seq<string>, data: Data)
    requires ValidateData(data).Ok? && data[DownloadKey] == Expected(lib, data[GameID]).digest
    ensures Refusal(lib, games, data) == if Games.Verifies(games, data[GameID]) then None else Some("PBX801")
  {
    KeyErrorCases(lib, data[GameID], data[DownloadKey]);
  }

  /** A refused request stops with the refusal and writes nothing. */
  lemma RefusedWritesNothing(lib: KeyCodec.Env, p: Db.Platform, games: seq<string>, data: Data)
    requires Refusal(lib, games, data).Some?
    ensures Execute(lib, p, games, data) == Stop(Refusal(lib, games, data).value)
  {
  }

  /** An accepted one writes the one row once the inserter connection is
   *  made, and answers the reply to it. */
  lemma AcceptedWritesRow(lib: KeyCodec.Env, p: Db.Platform, games: seq<string>, data: Data)
    requires Refusal(lib, games, data).None?
    ensures Execute(lib, p, games, data) == Push(lib, p, Row(data))
    ensures Execute(lib, p, games, data).writes in {[], [Row(data)]}
  {
  }

  /** The key admits any number of records of the game: the same game and
   *  key are judged alike whatever the platform, so a key once known can
   *  be replayed. */
  lemma KeyReplays(lib: KeyCodec.Env, games: seq<string>, data: Data, platform: string)
    requires ValidateData(data).Ok?
    ensures Refusal(lib, games, data[Platform := platform]) == Refusal(lib, games, data)
  {
    var data' := data[Platform := platform];
    assert data'[GameID] == data[GameID] && data'[DownloadKey] == data[DownloadKey];
  }
}
