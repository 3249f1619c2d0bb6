/**
 * The leaderboard reader (cgi-bin/request/handlers/leaderboards/GetLeaderboards.php):
 * builds one query from the optional scope, game, player and limit and
 * runs it on a viewer connection in the requested format.  Without a
 * player it reads a `Leaderboards_<view>` view; with one it calls a
 * `Leaderboards_LookupName<suffix>` procedure.
 */
module Leaderboards {

  import opened Outcome
  import opened PhpText
  import opened Request
  import Db

  const Id: string := "getLeaderboards"

  const ViewHead: string := "Leaderboards_"
  const ProcHead: string := "Leaderboards_LookupName"
  const DistinctHead: string := "SELECT DISTINCT gameName, gameID FROM "

  /** PHP's `$x != NULL` on an optional text: given and not empty. */
  predicate Given(data: Data, k: Param)
  {
    k in data && data[k] != ""
  }

  /** The view the scope names; any other scope (none included) reads
   *  the ranked view. */
  function ViewName(scope: string): (r: string)
  {
    ViewHead +
      if scope == "bestAllTime" then "BestAllTime"
      else if scope == "bestToday" then "BestToday"
      else if scope == "bestWeek" then "BestWeek"
      else if scope == "summaryPlayers" then "SummaryPlayers"
      else "Ranked"
  }

  /** The procedure a player lookup calls. */
  function ProcName(scope: string): (r: string)
  {
    ProcHead +
      if scope == "lastEntry" then "_LastEntry"
      else if scope == "bestScore" then "_BestScores"
      else "_Ranked"
  }

  /** `/^top\d$/`: "top" and one digit, where `$` also lets one final
   *  line feed through. */
  predicate TopScope(scope: string)
  {
    (|scope| == 4 || (|scope| == 5 && scope[4] == '\n')) && scope[..3] == "top" && '0' <= scope[3] <= '9'
  }

  /** The limit of a listing: the digit of a `top<d>` scope, otherwise the
   *  `limit` parameter.  A limit of 0 from the scope compares equal to
   *  NULL, so it gives no clause. */
  function LimitText(data: Data): (r: Option<string>)
  {
    var scope := Get(data, Scope);
    if TopScope(scope) then (if scope[3] == '0' then None else Some([scope[3]]))
    else if Given(data, Limit) then Some(data[Limit])
    else None
  }

  /** The `WHERE` clause on the first four characters of the game. */
  function WhereClause(data: Data): (r: string)
  {
    if Given(data, GameID) then "WHERE gameID = '" + Prefix(data[GameID], 4) + "'" else ""
  }

  function LimitClause(data: Data): (r: string)
  {
    if LimitText(data).Some? then "LIMIT 0, " + LimitText(data).value + " " else ""
  }

  /** The query without a player. */
  function ListingSql(data: Data): (r: string)
  {
    var scope := Get(data, Scope);
    if scope == "gamesThatExist" then DistinctHead + ViewName(scope) + " " + ";"
    else "SELECT * FROM " + ViewName(scope) + " " + (WhereClause(data) + (LimitClause(data) + ";"))
  }

  /** The query with a player. */
  function LookupSql(data: Data): (r: string)
    requires PlayerName in data
  {
    "CALL " + ProcName(Get(data, Scope)) + "('" + data[PlayerName] + "');"
  }

  /** The query of `execute`; an empty player name reads as none. */
  function Sql(data: Data): (r: string)
  {
    if Given(data, PlayerName) then LookupSql(data) else ListingSql(data)
  }

  /** `execute`: PBX401 without a format, otherwise the query on a viewer
   *  connection in that format. */
  function Execute(p: Db.Platform, data: Data): (r: Result<Reply>)
  {
    if Format !in data then Fail("PBX401") else View(p, Sql(data), Some(data[Format]))
  }

  /** Without a format nothing is read. */
  lemma MissingFormat(p: Db.Platform, data: Data)
    requires Format !in data
    ensures Execute(p, data) == Fail("PBX401")
  {
  }

  /** With a format the answer is the query's, in that format. */
  lemma ReadsInFormat(p: Db.Platform, data: Data)
    requires Format in data
    ensures Execute(p, data) == View(p, Sql(data), Some(data[Format]))
  {
  }

  /** The five views, and every other scope reads the ranked one. */
  lemma ViewNames(scope: string)
    ensures ViewName("bestAllTime") == "Leaderboards_BestAllTime"
    ensures ViewName("bestToday") == "Leaderboards_BestToday"
    ensures ViewName("bestWeek") == "Leaderboards_BestWeek"
    ensures ViewName("summaryPlayers") == "Leaderboards_SummaryPlayers"
    ensures scope !in {"bestAllTime", "bestToday", "bestWeek", "summaryPlayers"} ==>
      ViewName(scope) == "Leaderboards_Ranked"
  {
  }

  /** The three procedures. */
  lemma ProcNames(scope: string)
    ensures ProcName("lastEntry") == "Leaderboards_LookupName_LastEntry"
    ensures ProcName("bestScore") == "Leaderboards_LookupName_BestScores"
    ensures scope != "lastEntry" && scope != "bestScore" ==> ProcName(scope) == "Leaderboards_LookupName_Ranked"
  {
  }

  /** The list of games ignores the game and the limit. */
  lemma GamesThatExist(data: Data, game: string, limit: string)
    requires !Given(data, PlayerName) && Scope in data && data[Scope] == "gamesThatExist"
    ensures Sql(data) == DistinctHead + "Leaderboards_Ranked ;"
    ensures Sql(data[GameID := game][Limit := limit]) == Sql(data)
  {
    var d := data[GameID := game][Limit := limit];
    assert !Given(d, PlayerName) && Get(d, Scope) == "gamesThatExist";
  }

  /** A digit scope sets the limit whatever `limit` says, and "top0"
   *  drops it. */
  lemma TopOverridesLimit(data: Data, d: char)
    requires Scope in data && data[Scope] == "top" + [d] && '0' <= d <= '9'
    ensures d != '0' ==> LimitClause(data) == "LIMIT 0, " + [d] + " "
    ensures d == '0' ==> LimitClause(data) == ""
  {
    assert TopScope(data[Scope]);
  }

  /** A listing is the view, then the game clause exactly when a game is
   *  given, then the limit clause exactly when a limit is set, then `;`. */
  lemma ListingShape(data: Data)
    requires !Given(data, PlayerName) && Get(data, Scope) != "gamesThatExist"
    ensures Sql(data) == "SELECT * FROM " + ViewName(Get(data, Scope)) + " " + (WhereClause(data) + (LimitClause(data) + ";"))
    ensures WhereClause(data) != "" <==> Given(data, GameID)
    ensures Given(data, GameID) ==> WhereClause(data) == "WHERE gameID = '" + Prefix(data[GameID], 4) + "'"
    ensures LimitClause(data) != "" <==> LimitText(data).Some?
    ensures !TopScope(Get(data, Scope)) ==> (LimitText(data).Some? <==> Given(data, Limit))
  {
  }

  /** A player lookup ignores the game and the limit. */
  lemma LookupIgnoresGameAndLimit(data: Data, game: string, limit: string)
    requires Given(data, PlayerName)
    ensures Sql(data) == "CALL " + ProcName(Get(data, Scope)) + "('" + data[PlayerName] + "');"
    ensures Sql(data[GameID := game][Limit := limit]) == Sql(data)
  {
    var d := data[GameID := game][Limit := limit];
    assert Given(d, PlayerName) && d[PlayerName] == data[PlayerName] && Get(d, Scope) == Get(data, Scope);
  }

  /** Every query ends with `;`. */
  lemma Terminated(data: Data)
    ensures |Sql(data)| > 0 && Sql(data)[|Sql(data)| - 1] == ';'
  {
    var s := Sql(data);
    if Given(data, PlayerName) {
      var h := "CALL " + ProcName(Get(data, Scope)) + "('" + data[PlayerName];
      assert s == h + "');";
    } else if Get(data, Scope) == "gamesThatExist" {
      var h := DistinctHead + ViewName(Get(data, Scope)) + " ";
      assert s == h + ";";
    } else {
      var h := "SELECT * FROM " + ViewName(Get(data, Scope)) + " " + (WhereClause(data) + LimitClause(data));
      assert s == h + ";";
    }
  }
}
