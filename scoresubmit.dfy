/**
 * The score submitter (cgi-bin/request/handlers/score/ScoreSubmitter.php):
 * re-checks the score key over the trimmed name and score, looks the player
 * up, and inserts the score with the game id and version parts and the
 * player's country.  Nothing is written unless the key checks out and the
 * player exists.
 */
module ScoreSubmit {

  import opened Outcome
  import opened PhpText
  import opened Request
  import KeyCodec
  import Db
  import ScoreAuth
  import Games

  const Id: string := "pushScore"

  /** The statement's fixed opening, in pieces (its line breaks and
   *  indentation are written here as single spaces). */
  const Head1: string := "INSERT INTO HighScore (playerID, score, "
  const Head2: string := "level, dateTime, gameId, "
  const Head3: string := "gameVersionMajor, gameVersionMinor, "
  const Head4: string := "gameVersionPatch, gameVersionDev, "
  const Head5: string := "countryCode) VALUES ( (SELECT "
  const Head6: string := "Player_FindID('"
  const InsertHead: string := Head1 + Head2 + Head3 + Head4 + Head5 + Head6

  /** `validate_data`: PBX401 unless the name, key, score, time, address
   *  and game are all given. */
  function ValidateData(data: Data): (r: Result<bool>)
    ensures r.Ok? <==> PlayerName in data && ScoreAuthKey in data && Score in data && DateTime in data &&
                       PlayerIP in data && GameID in data
    ensures r.Fail? ==> r.msg == "PBX401"
  {
    if PlayerName in data && ScoreAuthKey in data && Score in data && DateTime in data &&
       PlayerIP in data && GameID in data
    then Ok(true) else Fail("PBX401")
  }

  /** The values after the level: the time, the game id, its four version
   *  parts (NULL, so empty, where the id has fewer) and the country. */
  function Values(dateTime: string, game: (string, seq<string>), country: string): (r: string)
  {
    "'" + dateTime + "', '" + game.0 + "', '" + Games.Part(game.1, 0) + "', '" + Games.Part(game.1, 1) +
    "', '" + Games.Part(game.1, 2) + "', '" + Games.Part(game.1, 3) + "', '" + country + "')"
  }

  /** The player and the score. */
  function Opening(playerName: string, score: string): (r: string)
  {
    InsertHead + playerName + "')), " + score + ","
  }

  /** The insert as written: `.` binds tighter than `?:`, so without a
   *  level the text stops at `NULL,`. */
  function InsertSqlAsWritten(playerName: string, score: string, level: Option<string>, dateTime: string,
                              game: (string, seq<string>), country: string): (r: string)
  {
    Opening(playerName, score) +
    (if level.None? then "NULL," else "'" + level.value + "'," + Values(dateTime, game, country) + ";")
  }

  /** The level column: the quoted level, or NULL. */
  function LevelText(level: Option<string>): (r: string)
  {
    if level.None? then "NULL," else "'" + level.value + "',"
  }

  /** The insert as evidently meant: the level (or NULL), then the rest. */
  function InsertSql(playerName: string, score: string, level: Option<string>, dateTime: string,
                     game: (string, seq<string>), country: string): (r: string)
  {
    Opening(playerName, score) + LevelText(level) + Values(dateTime, game, country) + ";"
  }

  /** With a level both texts agree. */
  lemma SameWithLevel(playerName: string, score: string, level: string, dateTime: string,
                      game: (string, seq<string>), country: string)
    ensures InsertSqlAsWritten(playerName, score, Some(level), dateTime, game, country) ==
            InsertSql(playerName, score, Some(level), dateTime, game, country)
  {
    var h := Opening(playerName, score);
    var l := "'" + level + "',";
    var v := Values(dateTime, game, country);
    assert h + (l + v + ";") == h + l + v + ";";
  }

  lemma Head1Free() ensures ';' !in Head1 {}
  lemma Head2Free() ensures ';' !in Head2 {}
  lemma Head3Free() ensures ';' !in Head3 {}
  lemma Head4Free() ensures ';' !in Head4 {}
  lemma Head5Free() ensures ';' !in Head5 {}
  lemma Head6Free() ensures ';' !in Head6 {}

  /** The statement's opening holds no `;` besides those of the values. */
  lemma OpeningFree(playerName: string, score: string)
    requires ';' !in playerName && ';' !in score
    ensures ';' !in Opening(playerName, score)
  {
    Head1Free(); Head2Free(); Head3Free(); Head4Free(); Head5Free(); Head6Free();
    assert ';' !in "')), " && ';' !in ",";
  }

  lemma ValuesFree(dateTime: string, game: (string, seq<string>), country: string)
    requires ';' !in dateTime && ';' !in game.0 && ';' !in country
    requires forall i :: 0 <= i < |game.1| ==> ';' !in game.1[i]
    ensures ';' !in Values(dateTime, game, country)
  {
    var v := game.1;
    assert ';' !in Games.Part(v, 0) && ';' !in Games.Part(v, 1) && ';' !in Games.Part(v, 2) && ';' !in Games.Part(v, 3);
    assert ';' !in "'" && ';' !in "', '" && ';' !in "')";
  }

  /** Text with no `;` in its parts. */
  predicate Clean(playerName: string, score: string, level: Option<string>, dateTime: string,
                  game: (string, seq<string>), country: string)
  {
    ';' !in playerName && ';' !in score && (level.Some? ==> ';' !in level.value) && ';' !in dateTime &&
    ';' !in game.0 && (forall i :: 0 <= i < |game.1| ==> ';' !in game.1[i]) && ';' !in country
  }

  /** The intended insert is exactly one statement when its values hold no
   *  `;`, so the server receives the whole row. */
  lemma InsertIsOneStatement(playerName: string, score: string, level: Option<string>, dateTime: string,
                             game: (string, seq<string>), country: string)
    requires Clean(playerName, score, level, dateTime, game, country)
    ensures Db.Statements(InsertSql(playerName, score, level, dateTime, game, country)) ==
            [InsertSql(playerName, score, level, dateTime, game, country)]
  {
    OpeningFree(playerName, score);
    ValuesFree(dateTime, game, country);
    assert ';' !in LevelText(level) by {
      assert ';' !in "NULL," && ';' !in "'" && ';' !in "',";
    }
    Db.OneStatement(Opening(playerName, score) + LevelText(level) + Values(dateTime, game, country));
  }

  /** As written, a submission without a level holds no `;` at all:
   *  nothing reaches the server, and the caller receives the unset results
   *  field, NULL, instead of `true`. */
  lemma NoLevelSendsNothing(p: Db.Platform, conn: Db.Oracle, playerName: string, score: string, dateTime: string,
                            game: (string, seq<string>), country: string)
    requires ';' !in playerName && ';' !in score
    ensures Db.Statements(InsertSqlAsWritten(playerName, score, None, dateTime, game, country)) == []
    ensures Db.FreshQuery(p, conn, InsertSqlAsWritten(playerName, score, None, dateTime, game, country), None) ==
            Ok(Null)
  {
    OpeningFree(playerName, score);
    assert ';' !in "NULL,";
    Db.FreshQueryNoStatement(p, conn, InsertSqlAsWritten(playerName, score, None, dateTime, game, country), None);
  }

  /** The key check `execute` makes: the score key, over the trimmed name
   *  and score and the raw time. */
  function KeyCheck(lib: KeyCodec.Env, data: Data): (r: Result<bool>)
  {
    ScoreAuth.ValidateWithKey(lib, Get(data, ScoreAuthKey), Trim(Get(data, PlayerName)), Trim(Get(data, Score)),
                              Get(data, DateTime))
  }

  /** The level `execute` reads: the parameter, or `false` (`None`). */
  function LevelOf(data: Data): (r: Option<string>)
  {
    if Level in data then Some(data[Level]) else None
  }

  /** The text `execute` hands to `execute_query`, as written; `countryOf`
   *  is the address lookup made with the trimmed player address. */
  function Row(countryOf: string -> string, data: Data): (r: string)
  {
    InsertSqlAsWritten(Trim(Get(data, PlayerName)), Trim(Get(data, Score)), LevelOf(data),
                       Get(data, DateTime), Games.GameDetails(Get(data, GameID)), countryOf(Trim(Get(data, PlayerIP))))
  }

  /** The row as evidently meant, with the level or NULL and then the
   *  rest of the values. */
  function IntendedRow(countryOf: string -> string, data: Data): (r: string)
  {
    InsertSql(Trim(Get(data, PlayerName)), Trim(Get(data, Score)), LevelOf(data),
              Get(data, DateTime), Games.GameDetails(Get(data, GameID)), countryOf(Trim(Get(data, PlayerIP))))
  }

  /** The corrected row is one whole statement whenever its values hold
   *  no `;`; the text as written agrees with it exactly when a level is
   *  given, and otherwise holds no statement at all. */
  lemma RowAgainstIntended(countryOf: string -> string, data: Data)
    requires var game := Games.GameDetails(Get(data, GameID));
      Clean(Trim(Get(data, PlayerName)), Trim(Get(data, Score)), LevelOf(data), Get(data, DateTime), game,
            countryOf(Trim(Get(data, PlayerIP))))
    ensures Db.Statements(IntendedRow(countryOf, data)) == [IntendedRow(countryOf, data)]
    ensures Level in data ==> Row(countryOf, data) == IntendedRow(countryOf, data)
    ensures Level !in data ==> Db.Statements(Row(countryOf, data)) == [] && Row(countryOf, data) != IntendedRow(countryOf, data)
  {
    var name, score, time := Trim(Get(data, PlayerName)), Trim(Get(data, Score)), Get(data, DateTime);
    var game := Games.GameDetails(Get(data, GameID));
    var country := countryOf(Trim(Get(data, PlayerIP)));
    InsertIsOneStatement(name, score, LevelOf(data), time, game, country);
    if Level in data {
      SameWithLevel(name, score, data[Level], time, game, country);
    } else {
      OpeningFree(name, score);
      assert ';' !in "NULL,";
      var t := InsertSqlAsWritten(name, score, None, time, game, country);
      assert Explode(';', t) == [t];
      var i := IntendedRow(countryOf, data);
      assert i[|i| - 1] == ';';
      assert ';' in i;
    }
  }

  /** The checks of `execute`, in order: validation, the key, then the
   *  player (`players` is the player table); the first error, if any. */
  function Refusal(lib: KeyCodec.Env, players: set<string>, data: Data): (r: Option<string>)
  {
    if ValidateData(data).Fail? then Some("PBX401")
    else if KeyCheck(lib, data).Fail? then Some(KeyCheck(lib, data).msg)
    else if Trim(Get(data, PlayerName)) !in players then Some("PBX702")
    else None
  }

  /** `execute`: the checks, then the insert on an inserter connection. */
  function Execute(lib: KeyCodec.Env, p: Db.Platform, countryOf: string -> string, players: set<string>,
                   data: Data): (r: Handled)
  {
    match Refusal(lib, players, data)
    case Some(e) => Stop(e)
    case None => Push(lib, p, Row(countryOf, data))
  }

  /** A missing field is PBX401. */
  lemma MissingField(lib: KeyCodec.Env, players: set<string>, data: Data)
    requires PlayerName !in data || ScoreAuthKey !in data || Score !in data || DateTime !in data ||
             PlayerIP !in data || GameID !in data
    ensures Refusal(lib, players, data) == Some("PBX401")
  {
  }

  /** A key that does not check out stops the request with its error,
   *  before the player is looked up. */
  lemma KeyFirst(lib: KeyCodec.Env, players: set<string>, data: Data)
    requires ValidateData(data).Ok? && KeyCheck(lib, data).Fail?
    ensures Refusal(lib, players, data) == Some(KeyCheck(lib, data).msg)
  {
  }

  /** An unknown player is PBX702. */
  lemma UnknownPlayer(lib: KeyCodec.Env, players: set<string>, data: Data)
    requires ValidateData(data).Ok? && KeyCheck(lib, data).Ok? && Trim(Get(data, PlayerName)) !in players
    ensures Refusal(lib, players, data) == Some("PBX702")
  {
  }

  /** Otherwise nothing is refused. */
  lemma Accepted(lib: KeyCodec.Env, players: set<string>, data: Data)
    requires ValidateData(data).Ok? && KeyCheck(lib, data).Ok? && Trim(Get(data, PlayerName)) in players
    ensures Refusal(lib, players, data) == None
  {
  }

  /** A refused request stops with the refusal and writes nothing. */
  lemma RefusedWritesNothing(lib: KeyCodec.Env, p: Db.Platform, countryOf: string -> string, players: set<string>,
                             data: Data)
    requires Refusal(lib, players, data).Some?
    ensures Execute(lib, p, countryOf, players, data) == Stop(Refusal(lib, players, data).value)
  {
  }

  /** An accepted one hands the row text, as written, to an inserter
   *  connection, and nothing else. */
  lemma AcceptedWritesRow(lib: KeyCodec.Env, p: Db.Platform, countryOf: string -> string, players: set<string>,
                          data: Data)
    requires Refusal(lib, players, data).None?
    ensures Execute(lib, p, countryOf, players, data) == Push(lib, p, Row(countryOf, data))
    ensures Execute(lib, p, countryOf, players, data).writes in {[], [Row(countryOf, data)]}
  {
  }

  /** Without a level (and with values free of `;`), the text handed over
   *  holds no statement: nothing reaches the server, and once the inserter
   *  connection is made the answer is NULL, not `true`. */
  lemma NoLevelAnswersNull(lib: KeyCodec.Env, p: Db.Platform, countryOf: string -> string, players: set<string>,
                           data: Data)
    requires Refusal(lib, players, data).None? && Level !in data
    requires ';' !in Trim(Get(data, PlayerName)) && ';' !in Trim(Get(data, Score))
    requires Db.SecureConnect(p, lib, Inserter, None, GamesDb).Ok?
    ensures Db.Statements(Row(countryOf, data)) == []
    ensures Execute(lib, p, countryOf, players, data) == Handled(Ok(Null), [Row(countryOf, data)])
  {
    var game := Games.GameDetails(Get(data, GameID));
    NoLevelSendsNothing(p, Db.SecureConnect(p, lib, Inserter, None, GamesDb).value,
                        Trim(Get(data, PlayerName)), Trim(Get(data, Score)), Get(data, DateTime), game,
                        countryOf(Trim(Get(data, PlayerIP))));
  }

  /** A key issued by the score authoriser for an already trimmed name and
   *  score passes the submitter's check when sent back with them. */
  lemma IssuedKeyPasses(lib: KeyCodec.Env, issued: Data, data: Data)
    requires ScoreAuthKey !in issued && ScoreAuth.Execute(lib, issued).Ok?
    requires ScoreAuth.Execute(lib, issued).value.Text?
    requires ValidateData(data).Ok? && data[ScoreAuthKey] == ScoreAuth.Execute(lib, issued).value.s
    requires Trim(data[PlayerName]) == Get(issued, PlayerName) && Trim(data[Score]) == Get(issued, Score)
    requires data[DateTime] == Get(issued, DateTime)
    ensures KeyCheck(lib, data) == Ok(true)
  {
    ScoreAuth.IssuesDigest(lib, issued);
  }
}
