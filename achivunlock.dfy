/**
 * The achievement unlocker (cgi-bin/request/handlers/achiv/AchivUnlocker.php).
 * Its constructor brings the achievement table in line with the live
 * achievement list: every live entry is escaped, and unless that text is
 * already stored for the game it is sent as an update (the id is known) or
 * as a new achievement.  `execute` re-checks the achievement key over the
 * trimmed name and achievement id, looks the player up, inserts the unlock
 * and answers the achievement's title.
 */
module AchivUnlock {

  import opened Outcome
  import opened PhpText
  import opened Request
  import KeyCodec
  import Db
  import AchivAuth
  import Games

  const Id: string := "unlockAchiv"

  /** Achievements of one game: the text `title=description` of each id. */
  type Achivs = map<int, string>

  /** `$achivsForThisGame[$id]`: NULL, so the empty text, for an id the
   *  game does not have. */
  function Entry(achivs: Achivs, id: int): (r: string)
  {
    if id in achivs then achivs[id] else ""
  }

  /** The stored achievements of a game; a game with none has none. */
  function Known(db: map<string, Achivs>, game: string): (r: Achivs)
  {
    if game in db then db[game] else map[]
  }

  /** `substr($rawDesc, 0, strpos($rawDesc, "="))`: the text before the
   *  first `=`; without one `strpos` gives `false`, read as 0. */
  function Title(raw: string): (r: string)
  {
    var pos := IndexOf('=', raw);
    Prefix(raw, if pos < 0 then 0 else pos)
  }

  /** The text after the first `=`; without one, all but the first
   *  character (`false + 1` is 1). */
  function Desc(raw: string): (r: string)
  {
    var pos := IndexOf('=', raw);
    From(raw, if pos < 0 then 1 else pos + 1)
  }

  /** Title and description are the two sides of the first `=`. */
  lemma TitleDesc(raw: string)
    requires '=' in raw
    ensures raw == Title(raw) + "=" + Desc(raw) && '=' !in Title(raw)
  {
    var pos := IndexOf('=', raw);
    assert raw == raw[..pos] + "=" + raw[pos + 1..];
  }

  const UpdateCall: string := "CALL Achievement_UpdateAchievement('"
  const NewCall: string := "CALL Achievement_NewAchievement('"

  /** The arguments of both calls: title, description, id and game. */
  function Arguments(title: string, desc: string, id: int, game: string): (r: string)
  {
    title + "', '" + desc + "', " + IntText(id) + ", '" + game + "');"
  }

  /** PHP's rendering of an integer. */
  function IntText(i: int): (r: string)
  {
    if i < 0 then "-" + NatText(-i) else NatText(i)
  }

  /** The statement the sync sends for one id of a game, if any: none when
   *  the escaped text is among the stored texts of the game; an update
   *  when the id is stored (with another text); otherwise an insert. */
  function Call(game: string, achivs: Achivs, known: Achivs, id: int): (r: seq<string>)
  {
    var raw := DoubleQuotes(Entry(achivs, id));
    if raw in known.Values then []
    else if id in known then [UpdateCall + Arguments(Title(raw), Desc(raw), id, game)]
    else [NewCall + Arguments(Title(raw), Desc(raw), id, game)]
  }

  /** The statements for the ids `0 .. n - 1` of a game, in order. */
  function GameCalls(game: string, achivs: Achivs, known: Achivs, n: nat): (r: seq<string>)
  {
    if n == 0 then [] else GameCalls(game, achivs, known, n - 1) + Call(game, achivs, known, n - 1)
  }

  /** The statements of the whole sync: each live game in order, its ids
   *  from 0 to one less than its number of achievements. */
  function SyncCalls(live: seq<(string, Achivs)>, db: map<string, Achivs>): (r: seq<string>)
  {
    if live == [] then []
    else
      var last := live[|live| - 1];
      SyncCalls(live[..|live| - 1], db) + GameCalls(last.0, last.1, Known(db, last.0), |last.1|)
  }

  /** The stored list once every live game has an entry (an empty one for a
   *  game the table does not have). */
  function Padded(db: map<string, Achivs>, live: seq<(string, Achivs)>): (r: map<string, Achivs>)
  {
    if live == [] then db
    else
      var p := Padded(db, live[..|live| - 1]);
      var game := live[|live| - 1].0;
      if game in p then p else p[game := map[]]
  }

  /** Padding keeps every stored game as it was, adds exactly the live games
   *  that are missing, and adds them empty. */
  lemma {:induction false} PaddedKnown(db: map<string, Achivs>, live: seq<(string, Achivs)>)
    ensures forall g :: g in Padded(db, live) <==> g in db || exists i :: 0 <= i < |live| && live[i].0 == g
    ensures forall g :: g in Padded(db, live) ==> Padded(db, live)[g] == Known(db, g)
  {
    if live != [] {
      var init := live[..|live| - 1];
      PaddedKnown(db, init);
      forall g
        ensures g in Padded(db, live) <==> g in db || exists i :: 0 <= i < |live| && live[i].0 == g
      {
        if exists i :: 0 <= i < |init| && init[i].0 == g {
          var i :| 0 <= i < |init| && init[i].0 == g;
          assert live[i].0 == g;
        }
        if exists i :: 0 <= i < |live| && live[i].0 == g {
          var i :| 0 <= i < |live| && live[i].0 == g;
          if i < |init| {
            assert init[i].0 == g;
          }
        }
      }
    }
  }

  /** A stored entry that already holds the (escaped) live text is not
   *  sent again; a text without quotes that is stored as it is lives in
   *  the table unchanged. */
  lemma InSyncNotSent(game: string, achivs: Achivs, known: Achivs, id: int)
    requires '\'' !in Entry(achivs, id) && Entry(achivs, id) in known.Values
    ensures Call(game, achivs, known, id) == []
  {
    DoubleQuotesChanges(Entry(achivs, id));
  }

  /** The table stores what SQL reads from the quoted literal, so a text
   *  with a quote is stored without the doubling; since the comparison is
   *  with the doubled text, such an achievement is sent as an update on
   *  every sync although the table already holds it. */
  lemma QuotedAlwaysResent(game: string, achivs: Achivs, id: int)
    requires id in achivs && '\'' in achivs[id]
    ensures var raw := DoubleQuotes(achivs[id]);
      Call(game, achivs, map[id := UndoubleQuotes(raw)], id) ==
      [UpdateCall + Arguments(Title(raw), Desc(raw), id, game)]
  {
    var raw := DoubleQuotes(achivs[id]);
    DoubleQuotesRoundTrip(achivs[id]);
    DoubleQuotesChanges(achivs[id]);
    var known := map[id := UndoubleQuotes(raw)];
    assert raw != achivs[id];
    forall v | v in known.Values
      ensures v == achivs[id]
    {
      var k :| k in known && known[k] == v;
    }
  }

  /** Every statement of a game's sync is one of its ids' calls: a game
   *  whose escaped texts are all stored sends nothing. */
  lemma {:induction false} AllStoredSendsNothing(game: string, achivs: Achivs, known: Achivs, n: nat)
    requires forall id :: 0 <= id < n ==> DoubleQuotes(Entry(achivs, id)) in known.Values
    ensures GameCalls(game, achivs, known, n) == []
  {
    if n > 0 {
      AllStoredSendsNothing(game, achivs, known, n - 1);
    }
  }

  /** The three cases of `Call`. */
  lemma CallCases(game: string, achivs: Achivs, known: Achivs, id: int)
    ensures var raw := DoubleQuotes(Entry(achivs, id));
      Call(game, achivs, known, id) ==
        if raw in known.Values then []
        else if id in known then [UpdateCall + Arguments(Title(raw), Desc(raw), id, game)]
        else [NewCall + Arguments(Title(raw), Desc(raw), id, game)]
  {
  }

  /** The statements so far, then the statement for the next id. */
  lemma GameCallsNext(game: string, achivs: Achivs, known: Achivs, id: nat, start: seq<string>,
                      before: seq<string>, after: seq<string>)
    requires before == start + GameCalls(game, achivs, known, id)
    requires after == before + Call(game, achivs, known, id)
    ensures after == start + GameCalls(game, achivs, known, id + 1)
  {
  }

  /** The stored list after one more live game. */
  lemma PadStep(db: map<string, Achivs>, live: seq<(string, Achivs)>, g: nat)
    requires g < |live|
    ensures var p := Padded(db, live[..g]);
      Padded(db, live[..g + 1]) == if live[g].0 in p then p else p[live[g].0 := map[]]
  {
    assert live[..g + 1][..g] == live[..g];
  }

  /** After padding, the game of the next live entry has its stored list
   *  (an empty one when the table had none). */
  lemma PaddedGame(db: map<string, Achivs>, live: seq<(string, Achivs)>, g: nat)
    requires g < |live|
    ensures live[g].0 in Padded(db, live[..g + 1])
    ensures Padded(db, live[..g + 1])[live[g].0] == Known(db, live[g].0)
  {
    PaddedKnown(db, live[..g + 1]);
    assert live[..g + 1][g].0 == live[g].0;
  }

  /** The statements after one more live game. */
  lemma SyncStep(db: map<string, Achivs>, live: seq<(string, Achivs)>, g: nat)
    requires g < |live|
    ensures SyncCalls(live[..g + 1], db) ==
      SyncCalls(live[..g], db) + GameCalls(live[g].0, live[g].1, Known(db, live[g].0), |live[g].1|)
  {
    assert live[..g + 1][..g] == live[..g];
  }

  /** The unlocker and what its constructor did: the live list, the stored
   *  list (padded during the sync, then read again) and the statements sent
   *  on the inserter connection, in order. */
  class Unlocker {
    var liveAchivList: seq<(string, Achivs)>
    var dbAchivList: map<string, Achivs>
    var issued: seq<string>

    /** The sync of `__construct`, given the live list (`live`), the stored
     *  list (`db`) and what reading the table again after the sync gives
     *  (`reread`; the table's contents after the writes are not modelled). */
    constructor (live: seq<(string, Achivs)>, db: map<string, Achivs>, reread: map<string, Achivs>)
      ensures liveAchivList == live
      ensures dbAchivList == reread
      ensures issued == SyncCalls(live, db)
    {
      liveAchivList := live;
      dbAchivList := db;
      issued := [];
      new;
      var g := 0;
      while g < |live|
        invariant 0 <= g <= |live|
        invariant liveAchivList == live
        invariant dbAchivList == Padded(db, live[..g])
        invariant issued == SyncCalls(live[..g], db)
      {
        SyncEntry(db, live, g);
        g := g + 1;
      }
      assert live[..g] == live;
      dbAchivList := reread;
    }

    /** One pass of the outer loop of the sync: the live game `live[g]`
     *  gets a stored list if it had none, and its achievements are
     *  compared with it. */
    method SyncEntry(db: map<string, Achivs>, live: seq<(string, Achivs)>, g: nat)
      requires g < |live|
      requires dbAchivList == Padded(db, live[..g]) && issued == SyncCalls(live[..g], db)
      modifies this
      ensures liveAchivList == old(liveAchivList)
      ensures dbAchivList == Padded(db, live[..g + 1]) && issued == SyncCalls(live[..g + 1], db)
    {
      var gameName := live[g].0;
      var achivsForThisGame := live[g].1;
      PadStep(db, live, g);
      if gameName !in dbAchivList {
        dbAchivList := dbAchivList[gameName := map[]];
      }
      PaddedGame(db, live, g);
      SyncGame(gameName, achivsForThisGame);
      SyncStep(db, live, g);
    }

    /** The inner loop of the sync: one game's ids `0 .. count - 1`, each
     *  compared with the game's stored texts. */
    method SyncGame(gameName: string, achivsForThisGame: Achivs)
      requires gameName in dbAchivList
      modifies this
      ensures liveAchivList == old(liveAchivList) && dbAchivList == old(dbAchivList)
      ensures issued == old(issued) + GameCalls(gameName, achivsForThisGame, dbAchivList[gameName], |achivsForThisGame|)
    {
      var known := dbAchivList[gameName];
      var id := 0;
      while id < |achivsForThisGame|
        invariant 0 <= id <= |achivsForThisGame|
        invariant liveAchivList == old(liveAchivList) && dbAchivList == old(dbAchivList)
        invariant issued == old(issued) + GameCalls(gameName, achivsForThisGame, known, id)
      {
        ghost var before := issued;
        SyncAchiv(gameName, achivsForThisGame, id);
        GameCallsNext(gameName, achivsForThisGame, known, id, old(issued), before, issued);
        id := id + 1;
      }
    }

    /** One pass of the inner loop: the statement for the id, if any. */
    method SyncAchiv(gameName: string, achivsForThisGame: Achivs, id: int)
      requires gameName in dbAchivList
      modifies this
      ensures liveAchivList == old(liveAchivList) && dbAchivList == old(dbAchivList)
      ensures issued == old(issued) + Call(gameName, achivsForThisGame, dbAchivList[gameName], id)
    {
      var rawDesc := DoubleQuotes(Entry(achivsForThisGame, id));
      var theTitle := Title(rawDesc);
      var theDesc := Desc(rawDesc);
      CallCases(gameName, achivsForThisGame, dbAchivList[gameName], id);
      if rawDesc !in dbAchivList[gameName].Values {
        if id in dbAchivList[gameName] {
          issued := issued + [UpdateCall + Arguments(theTitle, theDesc, id, gameName)];
        } else {
          issued := issued + [NewCall + Arguments(theTitle, theDesc, id, gameName)];
        }
      }
    }
  }

  /** `validate_data`: only the game is required. */
  function ValidateData(data: Data): (r: Result<bool>)
    ensures r.Ok? <==> GameID in data
    ensures r.Fail? ==> r.msg == "PBX401"
  {
    if GameID in data then Ok(true) else Fail("PBX401")
  }

  /** The key check of `execute`: the achievement key (NULL, so empty, when
   *  none is sent) over the trimmed name and achievement id, the full game
   *  id, and the pinned time when the TSK proof holds. */
  function KeyCheck(lib: KeyCodec.Env, data: Data): (r: Result<bool>)
  {
    AchivAuth.ValidateWithKey(lib, Get(data, AchivAuthKey), Trim(Get(data, PlayerName)), Trim(Get(data, AchivID)),
                              Get(data, GameID), AchivAuth.Time(lib, data))
  }

  /** The checks of `execute`, in order: validation, the key, then the
   *  player (`players` is the player table); the first error, if any. */
  function Refusal(lib: KeyCodec.Env, players: set<string>, data: Data): (r: Option<string>)
  {
    if ValidateData(data).Fail? then Some("PBX401")
    else if KeyCheck(lib, data).Fail? then Some(KeyCheck(lib, data).msg)
    else if Trim(Get(data, PlayerName)) !in players then Some("PBX702")
    else None
  }

  /** The statement's fixed opening (line breaks and indentation written
   *  as single spaces). */
  const Head1: string := "INSERT INTO UnlockedAchievement "
  const Head2: string := "(playerID, achievementID, dateTime, "
  const Head3: string := "gameId, gameVersionMajor, "
  const Head4: string := "gameVersionMinor, gameVersionPatch, "
  const Head5: string := "gameVersionDev) VALUES ( (SELECT "
  const Head6: string := "Player_FindID('"
  const InsertHead: string := Head1 + Head2 + Head3 + Head4 + Head5 + Head6

  /** The unlock row: the trimmed name and achievement id, the raw time
   *  (never the pinned one) and the id and version parts of the game. */
  function InsertSql(playerName: string, achivID: string, dateTime: string, game: (string, seq<string>)): (r: string)
  {
    InsertHead + playerName + "')), " + achivID + ", '" + dateTime + "', '" + game.0 + "', '" +
    Games.Part(game.1, 0) + "', '" + Games.Part(game.1, 1) + "', '" + Games.Part(game.1, 2) + "', '" +
    Games.Part(game.1, 3) + "');"
  }

  function Row(data: Data): (r: string)
  {
    InsertSql(Trim(Get(data, PlayerName)), Trim(Get(data, AchivID)), Get(data, DateTime),
              Games.GameDetails(Get(data, GameID)))
  }

  const LookupCall: string := "CALL Achievement_LookupInfo("

  /** The lookup of the title after the insert. */
  function LookupSql(data: Data): (r: string)
  {
    LookupCall + Trim(Get(data, AchivID)) + ", '" + Games.GameDetails(Get(data, GameID)).0 + "');"
  }

  /** After the insert: the `title` of the first row the lookup gives on a
   *  viewer connection (NULL, so empty, when there is none). */
  function TitleLookup(p: Db.Platform, data: Data): (r: Result<Reply>)
  {
    var reply :- View(p, LookupSql(data), Some("array"));
    Ok(Text(TextOf(FirstField(reply, "title"))))
  }

  /** `execute`: the checks, the insert on an inserter connection (whose
   *  error stops the request), then the title. */
  function Execute(lib: KeyCodec.Env, p: Db.Platform, players: set<string>, data: Data): (r: Handled)
  {
    match Refusal(lib, players, data)
    case Some(e) => Stop(e)
    case None => Unlock(lib, p, data)
  }

  /** The insert on an inserter connection (whose error is the answer),
   *  then the title lookup. */
  function Unlock(lib: KeyCodec.Env, p: Db.Platform, data: Data): (r: Handled)
  {
    PushThen(lib, p, Row(data), TitleLookup(p, data))
  }

  /** Without the game the request is PBX401. */
  lemma MissingGame(lib: KeyCodec.Env, players: set<string>, data: Data)
    requires GameID !in data
    ensures Refusal(lib, players, data) == Some("PBX401")
  {
  }

  /** A request with the game but no key is PBX603: the missing key reads
   *  as the empty text, which is not 64 characters long. */
  lemma MissingKey(lib: KeyCodec.Env, players: set<string>, data: Data)
    requires GameID in data && AchivAuthKey !in data
    ensures Refusal(lib, players, data) == Some("PBX603")
  {
  }

  /** A key that does not check out stops the request with its error,
   *  before the player is looked up. */
  lemma KeyFirst(lib: KeyCodec.Env, players: set<string>, data: Data)
    requires ValidateData(data).Ok? && KeyCheck(lib, data).Fail?
    ensures Refusal(lib, players, data) == Some(KeyCheck(lib, data).msg)
  {
  }

  /** An unknown player is PBX702. */
  lemma UnknownPlayer(lib: KeyCodec.Env, players: set<string>, data: Data)
    requires ValidateData(data).Ok? && KeyCheck(lib, data).Ok? && Trim(Get(data, PlayerName)) !in players
    ensures Refusal(lib, players, data) == Some("PBX702")
  {
  }

  /** Otherwise nothing is refused. */
  lemma Accepted(lib: KeyCodec.Env, players: set<string>, data: Data)
    requires ValidateData(data).Ok? && KeyCheck(lib, data).Ok? && Trim(Get(data, PlayerName)) in players
    ensures Refusal(lib, players, data) == None
  {
  }

  /** A refused request stops with the refusal and writes nothing. */
  lemma RefusedWritesNothing(lib: KeyCodec.Env, p: Db.Platform, players: set<string>, data: Data)
    requires Refusal(lib, players, data).Some?
    ensures Execute(lib, p, players, data) == Stop(Refusal(lib, players, data).value)
  {
  }

  /** An accepted request goes on to the unlock. */
  lemma AcceptedUnlocks(lib: KeyCodec.Env, p: Db.Platform, players: set<string>, data: Data)
    requires Refusal(lib, players, data).None?
    ensures Execute(lib, p, players, data) == Unlock(lib, p, data)
  {
  }

  /** The unlock writes its row once the inserter connection is made,
   *  whether or not the player already holds the achievement (nothing is
   *  looked up before the insert); a failed insert is the answer,
   *  otherwise the title lookup is. */
  lemma UnlockWritesRow(lib: KeyCodec.Env, p: Db.Platform, data: Data)
    ensures Unlock(lib, p, data).writes == Push(lib, p, Row(data)).writes
    ensures Unlock(lib, p, data).writes in {[], [Row(data)]}
    ensures Push(lib, p, Row(data)).result.Fail? ==> Unlock(lib, p, data) == Push(lib, p, Row(data))
    ensures Push(lib, p, Row(data)).result.Ok? ==> Unlock(lib, p, data).result == TitleLookup(p, data)
  {
    PushThenWrites(lib, p, Row(data), TitleLookup(p, data));
  }

  /** A key handed out by the achievement authoriser passes the unlocker's
   *  check when sent with the same player, game and time, and an
   *  achievement id that trims to the one the key was made for (the
   *  authoriser does not trim the id, the unlocker does). */
  lemma IssuedKeyPasses(lib: KeyCodec.Env, issued: Data, data: Data)
    requires AchivAuthKey !in issued && AchivAuth.Answer(lib, issued).Ok?
    requires AchivAuthKey in data && data[AchivAuthKey] == AchivAuth.Issue(lib, issued).value.digest
    requires Trim(Get(data, PlayerName)) == Trim(Get(issued, PlayerName))
    requires Trim(Get(data, AchivID)) == Get(issued, AchivID)
    requires Get(data, GameID) == Get(issued, GameID)
    requires AchivAuth.Time(lib, data) == AchivAuth.Time(lib, issued)
    ensures KeyCheck(lib, data) == Ok(true)
  {
    var n, a, g, w := Trim(Get(issued, PlayerName)), Get(issued, AchivID), Get(issued, GameID), AchivAuth.Time(lib, issued);
    assert AchivAuth.Issue(lib, issued) == AchivAuth.AuthorisationKey(lib, n, a, g, w);
    AchivAuth.ValidateVerdict(lib, data[AchivAuthKey], n, a, g, w);
  }
}
