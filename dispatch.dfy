/**
 * The request manager (cgi-bin/request/RequestManager.php): holds the nine
 * request handlers in the order they are registered and hands a request
 * to the first one whose id is the request type.
 */
module Dispatch {

  import opened Outcome
  import opened Request
  import KeyCodec
  import Db
  import Games
  import Download
  import Names
  import ScoreAuth
  import ScoreSubmit
  import Leaderboards
  import Achievements
  import AchivAuth
  import AchivUnlock
  import Responses

  /** The code of a malformed request. */
  const Refused: string := "PBX401"
  const NoSuchTypeMsg: string := "A request type with this name does not exist"
  const NoSuchType: string := Refused + ":" + NoSuchTypeMsg

  lemma RefusedIsCode()
    ensures Responses.IsCode(Refused) && ':' !in Refused
  {
  }

  /** The registered request handlers. */
  datatype Handler =
    | GameAuthoriser | GameDownloadRecord | NameAuthoriser | ScoreAuthoriser | ScoreSubmitter
    | GetLeaderboards | GetAchievements | AchivAuthoriser | AchivUnlocker

  /** `get_id` of each handler. */
  function IdOf(h: Handler): (r: string)
  {
    match h
    case GameAuthoriser => Games.Id
    case GameDownloadRecord => Download.Id
    case NameAuthoriser => Names.Id
    case ScoreAuthoriser => ScoreAuth.Id
    case ScoreSubmitter => ScoreSubmit.Id
    case GetLeaderboards => Leaderboards.Id
    case GetAchievements => Achievements.Id
    case AchivAuthoriser => AchivAuth.Id
    case AchivUnlocker => AchivUnlock.Id
  }

  /** The handlers `add_request_handlers` pushes, in order. */
  const Registered: seq<Handler> := [
    GameAuthoriser, GameDownloadRecord, NameAuthoriser, ScoreAuthoriser, ScoreSubmitter,
    GetLeaderboards, GetAchievements, AchivAuthoriser, AchivUnlocker
  ]

  /** The first element whose key is `k`. */
  function FirstBy<T>(xs: seq<T>, key: T -> string, k: string): (r: Option<T>)
  {
    if |xs| == 0 then None
    else if key(xs[0]) == k then Some(xs[0])
    else FirstBy(xs[1..], key, k)
  }

  /** Some element is found exactly when one has the key, and then the
   *  first such element. */
  lemma {:induction false} FirstByFirst<T>(xs: seq<T>, key: T -> string, k: string)
    ensures FirstBy(xs, key, k).None? <==> forall i :: 0 <= i < |xs| ==> key(xs[i]) != k
    ensures FirstBy(xs, key, k).Some? ==>
      exists i :: 0 <= i < |xs| && xs[i] == FirstBy(xs, key, k).value &&
        key(xs[i]) == k && forall j :: 0 <= j < i ==> key(xs[j]) != k
  {
    if |xs| > 0 && key(xs[0]) != k {
      FirstByFirst(xs[1..], key, k);
      var r := FirstBy(xs, key, k);
      if r.Some? {
        var i :| 0 <= i < |xs| - 1 && xs[1..][i] == r.value &&
          key(xs[1..][i]) == k && forall j :: 0 <= j < i ==> key(xs[1..][j]) != k;
        assert xs[i + 1] == r.value;
      }
      assert forall i :: 1 <= i < |xs| ==> xs[i] == xs[1..][i - 1];
    }
  }

  /** The handler a request type selects: the first with that id. */
  function Lookup(handlers: seq<Handler>, requestType: string): (r: Result<Handler>)
  {
    match FirstBy(handlers, IdOf, requestType)
    case None => Fail(NoSuchType)
    case Some(h) => Ok(h)
  }

  /** The lookup finds a handler exactly when one has the id, and then the
   *  first such handler. */
  lemma LookupFirst(handlers: seq<Handler>, requestType: string)
    ensures Lookup(handlers, requestType).Fail? <==> forall i :: 0 <= i < |handlers| ==> IdOf(handlers[i]) != requestType
    ensures Lookup(handlers, requestType).Fail? ==> Lookup(handlers, requestType).msg == NoSuchType
    ensures Lookup(handlers, requestType).Ok? ==>
      exists i :: 0 <= i < |handlers| && handlers[i] == Lookup(handlers, requestType).value &&
        IdOf(handlers[i]) == requestType && forall j :: 0 <= j < i ==> IdOf(handlers[j]) != requestType
  {
    FirstByFirst(handlers, IdOf, requestType);
  }

  /** The nine ids are the nine request types, all different. */
  lemma RegisteredIds()
    ensures forall i :: 0 <= i < |Registered| ==> IdOf(Registered[i]) == [
      "authGame", "recordGameDownload", "authName", "authScore", "pushScore",
      "getLeaderboards", "getAchievements", "authAchiv", "unlockAchiv"][i]
    ensures forall i, j :: 0 <= i < j < |Registered| ==> IdOf(Registered[i]) != IdOf(Registered[j])
  {
  }

  /** Each registered handler is reached by its own id, and a request type
   *  that is no handler's id is PBX401. */
  lemma LookupRegistered(h: Handler, requestType: string)
    ensures Lookup(Registered, IdOf(h)) == Ok(h)
    ensures (forall g: Handler :: IdOf(g) != requestType) ==> Lookup(Registered, requestType) == Fail(NoSuchType)
  {
    RegisteredIds();
    LookupFirst(Registered, IdOf(h));
    LookupFirst(Registered, requestType);
    assert h in Registered;
  }

  /** What the handlers see besides the request: the key library, the
   *  database platform, the game list of the game authoriser, the
   *  registered player names, the word filter of the name authoriser and
   *  the country lookup of the score submitter. */
  datatype World = World(
    lib: KeyCodec.Env, p: Db.Platform, games: seq<string>, players: set<string>,
    words: seq<string>, matches: (string, string) -> bool, countryOf: string -> string)

  /** The four handlers that write to the database. */
  predicate Writes(h: Handler)
  {
    h.GameDownloadRecord? || h.NameAuthoriser? || h.ScoreSubmitter? || h.AchivUnlocker?
  }

  /** `execute` of a handler that only reads. */
  function Read(w: World, h: Handler, data: Data): (r: Result<Reply>)
    requires !Writes(h)
  {
    match h
    case GameAuthoriser => Games.AuthOutcome(w.lib, w.p, w.games, data)
    case ScoreAuthoriser => ScoreAuth.Execute(w.lib, data)
    case GetLeaderboards => Leaderboards.Execute(w.p, data)
    case GetAchievements => Achievements.Execute(w.p, data)
    case AchivAuthoriser => AchivAuth.Execute(w.lib, w.p, data)
    case _ => assert false; Fail(Refused)
  }

  /** `execute` of a handler that writes: its answer and the statements
   *  it sent. */
  function Write(w: World, h: Handler, data: Data): (r: Handled)
    requires Writes(h)
  {
    match h
    case GameDownloadRecord => Download.Execute(w.lib, w.p, w.games, data)
    case NameAuthoriser => Names.Execute(w.lib, w.p, w.words, w.matches, w.players, data)
    case ScoreSubmitter => ScoreSubmit.Execute(w.lib, w.p, w.countryOf, w.players, data)
    case AchivUnlocker => AchivUnlock.Execute(w.lib, w.p, w.players, data)
    case _ => assert false; Stop(Refused)
  }

  /** A handler's `execute`. */
  function Run(w: World, h: Handler, data: Data): (r: Handled)
  {
    if Writes(h) then Write(w, h, data) else Handled(Read(w, h, data), [])
  }

  /** `execute` over a list of handlers. */
  function Route(w: World, handlers: seq<Handler>, requestType: string, data: Data): (r: Handled)
  {
    match Lookup(handlers, requestType)
    case Fail(e) => Stop(e)
    case Ok(h) => Run(w, h, data)
  }

  /** On the registered handlers, each request type is served by its own
   *  handler. */
  lemma RouteRegistered(w: World, h: Handler, data: Data)
    ensures Route(w, Registered, IdOf(h), data) == Run(w, h, data)
  {
    LookupRegistered(h, IdOf(h));
  }

  /** Any other request type is PBX401, with nothing written. */
  lemma RouteUnknown(w: World, requestType: string, data: Data)
    requires forall g: Handler :: IdOf(g) != requestType
    ensures Route(w, Registered, requestType, data) == Stop(NoSuchType)
  {
    LookupRegistered(GameAuthoriser, requestType);
  }

  /** Only the four writing handlers can write, each at most its one
   *  statement. */
  lemma ReadersWriteNothing(w: World, h: Handler, data: Data)
    requires !Writes(h)
    ensures Run(w, h, data).writes == []
  {
  }

  class RequestManager {

    /** `$this->requestHandlers`. */
    var requestHandlers: seq<Handler>

    /** `new RequestManager()`: an empty list, then the registrations. */
    constructor ()
      ensures requestHandlers == Registered
    {
      requestHandlers := [];
      new;
      AddRequestHandlers();
    }

    /** `add_request_handlers`: the nine `array_push` calls. */
    method AddRequestHandlers()
      modifies this
      ensures requestHandlers == old(requestHandlers) + Registered
    {
      requestHandlers := requestHandlers + [GameAuthoriser];
      requestHandlers := requestHandlers + [GameDownloadRecord];
      requestHandlers := requestHandlers + [NameAuthoriser];
      requestHandlers := requestHandlers + [ScoreAuthoriser];
      requestHandlers := requestHandlers + [ScoreSubmitter];
      requestHandlers := requestHandlers + [GetLeaderboards];
      requestHandlers := requestHandlers + [GetAchievements];
      requestHandlers := requestHandlers + [AchivAuthoriser];
      requestHandlers := requestHandlers + [AchivUnlocker];
    }

    /** The `foreach` of `execute`: the first handler with the id. */
    method Find(requestType: string) returns (r: Result<Handler>)
      ensures r == Lookup(requestHandlers, requestType)
    {
      var i := 0;
      while i < |requestHandlers|
        invariant 0 <= i <= |requestHandlers|
        invariant FirstBy(requestHandlers[i..], IdOf, requestType) == FirstBy(requestHandlers, IdOf, requestType)
      {
        var handler := requestHandlers[i];
        if IdOf(handler) == requestType {
          return Ok(handler);
        }
        assert requestHandlers[i..][1..] == requestHandlers[i + 1..];
        i := i + 1;
      }
      return Fail(NoSuchType);
    }

    /** `execute(requestType, data)`: the found handler's answer, or
     *  PBX401 when none has the id. */
    method Execute(w: World, requestType: string, data: Data) returns (r: Handled)
      ensures r == Route(w, requestHandlers, requestType, data)
    {
      var found := Find(requestType);
      if found.Fail? {
        return Stop(found.msg);
      }
      return Run(w, found.value, data);
    }
  }
}
