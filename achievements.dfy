/**
 * The achievement reader (cgi-bin/request/handlers/achiv/GetAchievements.php):
 * the unlocked or locked achievements of a player in a game, in the
 * requested format, or the player's statistics for the game (unlocked,
 * locked and total counts).
 */
module Achievements {

  import opened Outcome
  import opened PhpText
  import opened Request
  import Db

  const Id: string := "getAchievements"

  const LookupPlayer: string := "UnlockedAchievements_LookupPlayer_"
  const TotalCall: string := "CALL Achievement_LookupInfo(NULL, '"
  const InvalidScope: string := "PBX401:Invalid scope"

  /** `validate_data`: PBX401 unless the name, format, game and scope are
   *  all given. */
  function ValidateData(data: Data): (r: Result<bool>)
    ensures r.Ok? <==> PlayerName in data && Format in data && GameID in data && Scope in data
    ensures r.Fail? ==> r.msg == "PBX401"
  {
    if PlayerName in data && Format in data && GameID in data && Scope in data then Ok(true) else Fail("PBX401")
  }

  /** The procedure of a listing scope. */
  function Proc(scope: string): (r: Option<string>)
  {
    if scope == "unlocked" then Some(LookupPlayer + "Unlocked")
    else if scope == "locked" then Some(LookupPlayer + "Locked")
    else None
  }

  /** The listing call, with the whole game id (version included). */
  function ListSql(proc: string, gameID: string, playerName: string): (r: string)
  {
    "CALL " + proc + "('" + gameID + "', '" + playerName + "');"
  }

  function UnlockedCountSql(gameID: string, playerName: string): (r: string)
  {
    ListSql(LookupPlayer + "Unlocked_Count", gameID, playerName)
  }

  function TotalSql(gameID: string): (r: string)
  {
    TotalCall + gameID + "');"
  }

  /** `(int)$reply[0][field]`: the leading digits of the looked-up value,
   *  0 when there is none. */
  function Count(reply: Reply, field: string): (r: nat)
  {
    IntValue(TextOf(FirstField(reply, field)))
  }

  /** The statistics: the unlocked count on the first connection, the
   *  total on a second one, and the locked count as their difference. */
  function Stats(p: Db.Platform, conn: Db.Oracle, gameID: string, playerName: string): (r: Result<Reply>)
  {
    var u :- Db.FreshQuery(p, conn, UnlockedCountSql(gameID, playerName), Some("array"));
    var unlocked := Count(u, "unlockedAchievementCount");
    var again :- Db.Connect(p, Viewer, None, GamesDb);
    var t :- Db.FreshQuery(p, again, TotalSql(gameID), Some("array"));
    var total := Count(t, "totalAchievementCount");
    Ok(Text(p.statsJsonOf(unlocked, total - unlocked, total)))
  }

  /** `execute`: validation, the viewer connection (made before the scope
   *  is looked at), then the scope. */
  function Execute(p: Db.Platform, data: Data): (r: Result<Reply>)
  {
    var valid :- ValidateData(data);
    var conn :- Db.Connect(p, Viewer, None, GamesDb);
    Scoped(p, conn, data)
  }

  /** What the scope asks for, on the open connection. */
  function Scoped(p: Db.Platform, conn: Db.Oracle, data: Data): (r: Result<Reply>)
    requires ValidateData(data).Ok?
  {
    var scope := data[Scope];
    if Proc(scope).Some? then
      Db.FreshQuery(p, conn, ListSql(Proc(scope).value, data[GameID], data[PlayerName]), Some(data[Format]))
    else if scope == "stats" then Stats(p, conn, data[GameID], data[PlayerName])
    else Fail(InvalidScope)
  }

  /** A missing field is PBX401, before any connection. */
  lemma MissingField(p: Db.Platform, data: Data)
    requires PlayerName !in data || Format !in data || GameID !in data || Scope !in data
    ensures Execute(p, data) == Fail("PBX401")
  {
  }

  /** The connection comes first: its error is the answer whatever the
   *  scope, and otherwise the scope decides. */
  lemma ConnectionFirst(p: Db.Platform, data: Data)
    requires ValidateData(data).Ok?
    ensures Db.Connect(p, Viewer, None, GamesDb).Fail? ==> Execute(p, data) == Fail(Db.Connect(p, Viewer, None, GamesDb).msg)
    ensures Db.Connect(p, Viewer, None, GamesDb).Ok? ==>
      Execute(p, data) == Scoped(p, Db.Connect(p, Viewer, None, GamesDb).value, data)
  {
  }

  /** The two listing scopes call their procedure with the whole game id,
   *  in the requested format. */
  lemma ListingScopes(p: Db.Platform, conn: Db.Oracle, data: Data)
    requires ValidateData(data).Ok?
    ensures data[Scope] == "unlocked" ==>
      Scoped(p, conn, data) ==
        Db.FreshQuery(p, conn, ListSql(LookupPlayer + "Unlocked", data[GameID], data[PlayerName]), Some(data[Format]))
    ensures data[Scope] == "locked" ==>
      Scoped(p, conn, data) ==
        Db.FreshQuery(p, conn, ListSql(LookupPlayer + "Locked", data[GameID], data[PlayerName]), Some(data[Format]))
  {
  }

  /** Every scope but the three is PBX401. */
  lemma OtherScope(p: Db.Platform, conn: Db.Oracle, data: Data)
    requires ValidateData(data).Ok? && data[Scope] != "unlocked" && data[Scope] != "locked" && data[Scope] != "stats"
    ensures Scoped(p, conn, data) == Fail(InvalidScope)
  {
  }

  /** The statistics fail with the first failure among the unlocked
   *  count, the second connection and the total, in that order. */
  lemma StatsFailures(p: Db.Platform, conn: Db.Oracle, gameID: string, playerName: string)
    ensures var u := Db.FreshQuery(p, conn, UnlockedCountSql(gameID, playerName), Some("array"));
      var again := Db.Connect(p, Viewer, None, GamesDb);
      (u.Fail? ==> Stats(p, conn, gameID, playerName) == Fail(u.msg)) &&
      (u.Ok? && again.Fail? ==> Stats(p, conn, gameID, playerName) == Fail(again.msg)) &&
      (u.Ok? && again.Ok? && Db.FreshQuery(p, again.value, TotalSql(gameID), Some("array")).Fail? ==>
         Stats(p, conn, gameID, playerName) == Fail(Db.FreshQuery(p, again.value, TotalSql(gameID), Some("array")).msg))
  {
  }

  /** The statistics do not depend on the format. */
  lemma StatsIgnoreFormat(p: Db.Platform, conn: Db.Oracle, data: Data, format: string)
    requires ValidateData(data).Ok? && data[Scope] == "stats"
    ensures ValidateData(data[Format := format]).Ok?
    ensures Scoped(p, conn, data[Format := format]) == Scoped(p, conn, data)
  {
    var d := data[Format := format];
    assert d[Scope] == data[Scope] && d[GameID] == data[GameID] && d[PlayerName] == data[PlayerName];
  }
}
