/**
 * The name authoriser (cgi-bin/request/handlers/name/NameAuthoriser.php):
 * registers a new player name, confirms an existing one (the override
 * code) or renames a player, after a word filter and length bounds.  The
 * player table is the set of registered names; `check_player_exists` is
 * membership in it.
 */
module Names {

  import opened Outcome
  import opened PhpText
  import opened Request
  import KeyCodec
  import Db

  const Id: string := "authName"

  /** The value of `o` that turns the override on. */
  const OverrideCode: string := "300594"

  const BothMsg: string := "PBX401:Cannot update and override a name at the same time"
  const MatchMsg: string := "PBX703:A match in the name was found to be unacceptable"
  const LengthMsg: string := "PBX703:Name not long enough or too long"
  const SameMsg: string := "PBX703:Cannot update same name"
  const NoOldMsg: string := "PBX702:Cannot update a player that doesn't exist"
  const TakenMsg: string := "PBX701:Cannot update a name that is currently used by another player"
  const NoOverrideMsg: string := "PBX702:You cannot override a player that doesn't exist"

  /** What a request comes to: a refusal, a confirmed override (nothing to
   *  write), a new name or a rename. */
  datatype Plan = Refuse(msg: string) | Confirm | Insert(name: string) | Rename(from: string, to: string)

  /** `$override`: `o` is given and is the override code. */
  predicate Overriding(data: Data)
  {
    O in data && data[O] == OverrideCode
  }

  /** `$updateName` as a text: the trimmed `update`, or the empty text
   *  (what `false` reads as in a pattern match) when none is given. */
  function UpdateText(data: Data): (r: string)
  {
    Trim(Get(data, Update))
  }

  /** `$updateName != false`: PHP reads the empty text and "0" as false. */
  predicate Updating(data: Data)
  {
    UpdateText(data) != "" && UpdateText(data) != "0"
  }

  /** The word filter: some listed word matches the name or the update
   *  name (`matches(word, name)` stands for the case-insensitive pattern
   *  built from the word). */
  predicate Unacceptable(words: seq<string>, matches: (string, string) -> bool, name: string, update: string)
  {
    exists i :: 0 <= i < |words| && (matches(words[i], name) || matches(words[i], update))
  }

  /** The length bounds of a name. */
  predicate InBounds(name: string)
  {
    3 <= |name| <= 30
  }

  /** `update_player_name`: the checks of a rename, in order. */
  function RenamePlan(players: set<string>, from: string, to: string): (r: Plan)
  {
    if from == to then Refuse(SameMsg)
    else if from !in players then Refuse(NoOldMsg)
    else if to in players then Refuse(TakenMsg)
    else Rename(from, to)
  }

  /** The decision of `execute`, given the word list and the player table. */
  function Decide(words: seq<string>, matches: (string, string) -> bool, players: set<string>, data: Data): (r: Plan)
  {
    if PlayerName !in data then Refuse("PBX401")
    else
      var name := Trim(data[PlayerName]);
      if Overriding(data) && Updating(data) then Refuse(BothMsg)
      else if Unacceptable(words, matches, name, UpdateText(data)) then Refuse(MatchMsg)
      else if !InBounds(name) then Refuse(LengthMsg)
      else if Updating(data) then
        if !InBounds(UpdateText(data)) then Refuse(LengthMsg) else RenamePlan(players, name, UpdateText(data))
      else if !Overriding(data) then
        if name in players then Refuse("PBX701") else Insert(name)
      else if name in players then Confirm
      else Refuse(NoOverrideMsg)
  }

  function InsertSql(name: string): (r: string)
  {
    "INSERT INTO Player (name) VALUES ('" + name + "');"
  }

  function RenameSql(from: string, to: string): (r: string)
  {
    "UPDATE Player SET name = '" + to + "' WHERE name = '" + from + "';"
  }

  /** What the plan answers: a refusal stops, an override is `true`, a
   *  write is sent on an inserter connection and its reply is the answer. */
  function Respond(lib: KeyCodec.Env, p: Db.Platform, plan: Plan): (r: Handled)
  {
    match plan
    case Refuse(e) => Stop(e)
    case Confirm => Handled(Ok(Yes), [])
    case Insert(n) => Push(lib, p, InsertSql(n))
    case Rename(a, b) => Push(lib, p, RenameSql(a, b))
  }

  /** The player table after the plan: a write that succeeds adds the new
   *  name (and drops the old one for a rename); anything else leaves the
   *  table as it was. */
  function Table(players: set<string>, plan: Plan, reply: Handled): (r: set<string>)
  {
    if reply.result.Fail? then players
    else match plan
      case Insert(n) => players + {n}
      case Rename(a, b) => players - {a} + {b}
      case _ => players
  }

  /** Without a name the request is PBX401. */
  lemma MissingName(words: seq<string>, matches: (string, string) -> bool, players: set<string>, data: Data)
    requires PlayerName !in data
    ensures Decide(words, matches, players, data) == Refuse("PBX401")
  {
  }

  /** Asking for an override and an update together is PBX401, before the
   *  word filter. */
  lemma OverrideAndUpdate(words: seq<string>, matches: (string, string) -> bool, players: set<string>, data: Data)
    requires PlayerName in data && O in data && data[O] == OverrideCode && Updating(data)
    ensures Decide(words, matches, players, data) == Refuse(BothMsg)
  {
  }

  /** A filtered word in either name is PBX703, before the lengths are
   *  looked at. */
  lemma FilterFirst(words: seq<string>, matches: (string, string) -> bool, players: set<string>, data: Data, i: int)
    requires PlayerName in data && !(Overriding(data) && Updating(data))
    requires 0 <= i < |words| && (matches(words[i], Trim(data[PlayerName])) || matches(words[i], UpdateText(data)))
    ensures Decide(words, matches, players, data) == Refuse(MatchMsg)
  {
  }

  /** A name that passes the filter but not the bounds is PBX703. */
  lemma OutOfBounds(words: seq<string>, matches: (string, string) -> bool, players: set<string>, data: Data)
    requires PlayerName in data && !(Overriding(data) && Updating(data))
    requires !Unacceptable(words, matches, Trim(data[PlayerName]), UpdateText(data))
    requires !InBounds(Trim(data[PlayerName])) || (Updating(data) && !InBounds(UpdateText(data)))
    ensures Decide(words, matches, players, data) == Refuse(LengthMsg)
  {
  }

  /** Whatever passes all the checks: each name that is written or
   *  confirmed is the trimmed one, within the bounds and free of filtered
   *  words; a new name is not yet registered, a confirmed one is, and a
   *  rename moves a registered name to a different, unregistered one. */
  lemma DecideSound(words: seq<string>, matches: (string, string) -> bool, players: set<string>, data: Data)
    ensures var plan := Decide(words, matches, players, data);
      !plan.Refuse? ==>
        PlayerName in data && !Unacceptable(words, matches, Trim(data[PlayerName]), UpdateText(data)) &&
        InBounds(Trim(data[PlayerName])) &&
        match plan
        case Insert(n) => n == Trim(data[PlayerName]) && n !in players && !Overriding(data) && !Updating(data)
        case Confirm => Trim(data[PlayerName]) in players && Overriding(data) && !Updating(data)
        case Rename(a, b) =>
          a == Trim(data[PlayerName]) && b == UpdateText(data) && InBounds(b) && a != b &&
          a in players && b !in players && !Overriding(data)
        case Refuse(_) => false
  {
  }

  /** The insert path, once the checks pass: PBX701 for a registered name,
   *  otherwise the name is inserted. */
  lemma InsertPath(words: seq<string>, matches: (string, string) -> bool, players: set<string>, data: Data)
    requires PlayerName in data && !Overriding(data) && !Updating(data)
    requires !Unacceptable(words, matches, Trim(data[PlayerName]), UpdateText(data)) && InBounds(Trim(data[PlayerName]))
    ensures Decide(words, matches, players, data) ==
      if Trim(data[PlayerName]) in players then Refuse("PBX701") else Insert(Trim(data[PlayerName]))
  {
  }

  /** The override path: a registered name is confirmed, another is
   *  PBX702. */
  lemma OverridePath(words: seq<string>, matches: (string, string) -> bool, players: set<string>, data: Data)
    requires PlayerName in data && Overriding(data) && !Updating(data)
    requires !Unacceptable(words, matches, Trim(data[PlayerName]), UpdateText(data)) && InBounds(Trim(data[PlayerName]))
    ensures Decide(words, matches, players, data) ==
      if Trim(data[PlayerName]) in players then Confirm else Refuse(NoOverrideMsg)
  {
  }

  /** The rename errors, in order: the same name, an unregistered old
   *  name, a taken new name. */
  lemma RenameErrors(players: set<string>, from: string, to: string)
    ensures from == to ==> RenamePlan(players, from, to) == Refuse(SameMsg)
    ensures from != to && from !in players ==> RenamePlan(players, from, to) == Refuse(NoOldMsg)
    ensures from != to && from in players && to in players ==> RenamePlan(players, from, to) == Refuse(TakenMsg)
    ensures RenamePlan(players, from, to).Rename? <==> from != to && from in players && to !in players
  {
  }

  /** An update of "0" is no update: such a request never renames. */
  lemma ZeroUpdateNeverRenames(words: seq<string>, matches: (string, string) -> bool, players: set<string>, data: Data)
    requires Update in data && Trim(data[Update]) == "0"
    ensures !Decide(words, matches, players, data).Rename?
  {
  }

  /** Applying a plan: an insert adds exactly its name, a rename swaps
   *  exactly one name for another and keeps the table's size, and every
   *  other name keeps its place either way. */
  lemma TableChanges(words: seq<string>, matches: (string, string) -> bool, players: set<string>, data: Data,
                     reply: Handled)
    requires reply.result.Ok?
    ensures var plan := Decide(words, matches, players, data);
      var after := Table(players, plan, reply);
      (plan.Insert? ==> after == players + {plan.name} && |after| == |players| + 1) &&
      (plan.Rename? ==>
         (plan.to in after && plan.from !in after && |after| == |players| &&
          forall n :: n != plan.from && n != plan.to ==> (n in after <==> n in players))) &&
      (plan.Confirm? || plan.Refuse? ==> after == players)
  {
    DecideSound(words, matches, players, data);
    var plan := Decide(words, matches, players, data);
    if plan.Rename? {
      var a, b := plan.from, plan.to;
      assert |players - {a}| == |players| - 1;
      assert |players - {a} + {b}| == |players - {a}| + 1;
    }
  }

  /** The word filter of `execute`: the loop over the words, which stops
   *  at the first match. */
  method Filter(words: seq<string>, matches: (string, string) -> bool, name: string, update: string)
    returns (found: bool)
    ensures found <==> Unacceptable(words, matches, name, update)
  {
    var i := 0;
    while i < |words|
      invariant 0 <= i <= |words|
      invariant forall k :: 0 <= k < i ==> !(matches(words[k], name) || matches(words[k], update))
    {
      var word := words[i];
      if matches(word, name) || matches(word, update) {
        return true;
      }
      i := i + 1;
    }
    return false;
  }

  /** `execute` against the player table `players`: the decision, then
   *  what it answers. */
  function Execute(lib: KeyCodec.Env, p: Db.Platform, words: seq<string>, matches: (string, string) -> bool,
                   players: set<string>, data: Data): (r: Handled)
  {
    Respond(lib, p, Decide(words, matches, players, data))
  }

  /** Only an insert or a rename writes, and then only its own statement,
   *  once the inserter connection is made. */
  lemma WritesOnlyPlan(lib: KeyCodec.Env, p: Db.Platform, plan: Plan)
    ensures plan.Refuse? ==> Respond(lib, p, plan) == Stop(plan.msg)
    ensures plan.Confirm? ==> Respond(lib, p, plan) == Handled(Ok(Yes), [])
    ensures plan.Insert? ==> Respond(lib, p, plan).writes in {[], [InsertSql(plan.name)]}
    ensures plan.Rename? ==> Respond(lib, p, plan).writes in {[], [RenameSql(plan.from, plan.to)]}
  {
  }
}
