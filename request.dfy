/**
 * What every request handler shares: the query-string parameters, the
 * `validate_data` test on them, the database accounts the handlers use and
 * the two ways they reach the database (a read through
 * `new Database(viewer)` and a write through `Database::new_sec_ctn`).
 */
module Request {

  import opened Outcome
  import opened PhpText
  import KeyCodec
  import Db

  /** The query-string parameters the handlers read. */
  datatype Param =
    | RequestType | PlayerName | DateTime | Score | ScoreAuthKey | Level | PlayerIP
    | GameID | AchivID | AchivAuthKey | TskAuthKey | DownloadKey | Platform
    | GetDownloadURL | GetTitle | O | Update | Format | Scope | Limit

  /** The name of a parameter in the query string. */
  function Name(k: Param): (r: string)
  {
    match k
    case RequestType => "requestType"
    case PlayerName => "playerName"
    case DateTime => "dateTime"
    case Score => "score"
    case ScoreAuthKey => "scoreAuthKey"
    case Level => "level"
    case PlayerIP => "playerIP"
    case GameID => "gameID"
    case AchivID => "achivID"
    case AchivAuthKey => "achivAuthKey"
    case TskAuthKey => "tskAuthKey"
    case DownloadKey => "downloadKey"
    case Platform => "platform"
    case GetDownloadURL => "getDownloadURL"
    case GetTitle => "getTitle"
    case O => "o"
    case Update => "update"
    case Format => "format"
    case Scope => "scope"
    case Limit => "limit"
  }

  /** `$_GET` (which is also the `$data` of every handler): the value of
   *  each parameter present.  Other parameters are never read. */
  type Data = map<Param, string>

  /** `$data[k]`.  PHP reads a missing entry as NULL, which is the empty
   *  string wherever the handlers use it as text. */
  function Get(data: Data, k: Param): (r: string)
    ensures k in data ==> r == data[k]
    ensures k !in data ==> r == ""
  {
    if k in data then data[k] else ""
  }

  /** `isset($data[k])` for every name in `keys`. */
  predicate AllSet(data: Data, keys: seq<Param>)
  {
    forall k :: k in keys ==> k in data
  }

  /** The `validate_data` of a handler: PBX401 unless every required
   *  parameter is present. */
  function Validate(data: Data, keys: seq<Param>): (r: Result<bool>)
    ensures r.Ok? <==> AllSet(data, keys)
    ensures r.Ok? ==> r.value
    ensures r.Fail? ==> r.msg == "PBX401"
  {
    if AllSet(data, keys) then Ok(true) else Fail("PBX401")
  }

  /** With one required parameter, validation is a membership test. */
  lemma ValidateOne(data: Data, k: Param)
    ensures Validate(data, [k]) == if k in data then Ok(true) else Fail("PBX401")
  {
    assert k in [k];
  }

  /** What a supplied key is judged against an expected digest: PBX603 for
   *  a key that is not 64 characters long, `true` when the digests agree
   *  and PBX602 otherwise. */
  function Verdict(key: string, expected: string, unauthorised: string): (r: Result<Reply>)
  {
    if |key| != 64 then Fail("PBX603") else if key == expected then Ok(Yes) else Fail(unauthorised)
  }

  /** The database accounts of the handlers; both passwords are `false`. */
  const Viewer: string := "paperbox_viewers"
  const Inserter: string := "paperbox_gameins"
  const GamesDb: string := "paperbox_games"

  /** What a handler returns (or throws), with the SQL texts it handed to
   *  `execute_query` on an inserting connection, in order. */
  datatype Handled = Handled(result: Result<Reply>, writes: seq<string>)

  /** A handler that stops with an exception before writing anything. */
  function Stop(msg: string): (r: Handled)
    ensures r.result == Fail(msg) && r.writes == []
  {
    Handled(Fail(msg), [])
  }

  /** `(new Database(viewer, false, db))->execute_query(sql, format)`. */
  function View(p: Db.Platform, sql: string, format: Option<string>): (r: Result<Reply>)
    ensures Db.Connect(p, Viewer, None, GamesDb).Fail? ==> r == Fail(Db.Connect(p, Viewer, None, GamesDb).msg)
    ensures Db.Connect(p, Viewer, None, GamesDb).Ok? ==>
      r == Db.FreshQuery(p, Db.Connect(p, Viewer, None, GamesDb).value, sql, format)
  {
    var conn :- Db.Connect(p, Viewer, None, GamesDb);
    Db.FreshQuery(p, conn, sql, format)
  }

  /** `Database::new_sec_ctn(inserter, false, db)->execute_query(sql)`: the
   *  text counts as written once the connection is made. */
  function Push(lib: KeyCodec.Env, p: Db.Platform, sql: string): (r: Handled)
    ensures Db.SecureConnect(p, lib, Inserter, None, GamesDb).Fail? ==>
      r == Stop(Db.SecureConnect(p, lib, Inserter, None, GamesDb).msg)
    ensures Db.SecureConnect(p, lib, Inserter, None, GamesDb).Ok? ==>
      r == Handled(Db.FreshQuery(p, Db.SecureConnect(p, lib, Inserter, None, GamesDb).value, sql, None), [sql])
  {
    match Db.SecureConnect(p, lib, Inserter, None, GamesDb)
    case Fail(e) => Stop(e)
    case Ok(conn) => Handled(Db.FreshQuery(p, conn, sql, None), [sql])
  }

  /** A write followed by a read: the write's error is the answer,
   *  otherwise the read's (`next`) is, with the write recorded. */
  function PushThen(lib: KeyCodec.Env, p: Db.Platform, sql: string, next: Result<Reply>): (r: Handled)
  {
    var pushed := Push(lib, p, sql);
    if pushed.result.Fail? then pushed else Handled(next, pushed.writes)
  }

  /** The write is recorded exactly when the connection is made, whatever
   *  the read gives. */
  lemma PushThenWrites(lib: KeyCodec.Env, p: Db.Platform, sql: string, next: Result<Reply>)
    ensures PushThen(lib, p, sql, next).writes == Push(lib, p, sql).writes
    ensures PushThen(lib, p, sql, next).writes in {[], [sql]}
    ensures Push(lib, p, sql).result.Fail? ==> PushThen(lib, p, sql, next) == Push(lib, p, sql)
    ensures Push(lib, p, sql).result.Ok? ==> PushThen(lib, p, sql, next).result == next
  {
  }

  /** `$reply[0][field]` on what `execute_query(sql, "array")` returned:
   *  the field of the first row when the single query gave rows, NULL
   *  (`None`) otherwise. */
  function FirstField(reply: Reply, field: string): (v: Option<string>)
    ensures v.Some? <==>
      (reply.Arrays? && reply.value.Single? && reply.value.entry.Some? &&
       |reply.value.entry.value| > 0 && field in reply.value.entry.value[0])
    ensures v.Some? ==> v.value == reply.value.entry.value[0][field]
  {
    if reply.Arrays? && reply.value.Single? && reply.value.entry.Some? &&
       |reply.value.entry.value| > 0 && field in reply.value.entry.value[0]
    then Some(reply.value.entry.value[0][field])
    else None
  }

  /** A looked-up field as text: NULL reads as "". */
  function TextOf(v: Option<string>): (r: string)
  {
    if v.Some? then v.value else ""
  }

  /** PHP's `$count > 0` on a looked-up count (NULL is not above 0). */
  predicate Positive(v: Option<string>)
  {
    v.Some? && IntValue(v.value) > 0
  }
}
