# PBX back end, modelled in Dafny

The PBX back end is a PHP web service for the games of Paperbox Studios.
It keeps no login sessions. A client first asks the server for a key: a
SHA-256 digest over a fixed, ordered payload and a salt computed from a
timestamp. It then sends the key back with the data it wants written, and
the server writes only when the key is one it could have issued itself.

This project models the request pipeline of the service and proves what it
does:

- **Front controller** (`index.php`, module `Front`): an error raised while
  the script loaded is answered with PBX100. Otherwise a request type is
  required, the request manager runs the request, and the outcome is
  written as a response. `true` becomes a bare PBX200, any other reply the
  message of a PBX200, and an exception its own coded response.
- **Response writer** (`responses.php`, module `Responses`): parses
  `PBXddd[:message]` and looks up the code's description in the responses
  file.
- **Request manager** (`RequestManager.php`, module `Dispatch`): holds
  nine handlers in registration order. It hands a request to the first
  handler whose id is the request type.
- **Key codec** (`Key.php`, module `KeyCodec`): the key's serialisation,
  its salt rule, its pinned "override" instant, the wrapping of client
  digests and the database password derivation.
- **Handlers**, one module each:
  - the score authoriser, which issues and checks score keys (`ScoreAuth`);
  - the achievement authoriser, with its TSK override proof and
    "already unlocked" short cut (`AchivAuth`);
  - the score submitter (`ScoreSubmit`);
  - the achievement unlocker, with its sync of the achievement table
    (`AchivUnlock`);
  - the download recorder (`Download`);
  - the game catalogue, with version weighting, latest-version selection,
    the release-file filter and the sync of live versions (`Games`);
  - the name authoriser (`Names`);
  - the leaderboard and achievement readers (`Leaderboards`, `Achievements`).
- **Database wrapper** (`Database.php`, module `Db`):
  - it splits a script on `;` and runs the pieces in order;
  - it stops at the first failure;
  - it collapses a run of `true` answers to one `true`;
  - it arranges result sets by format.
- **Shared pieces**: the query-string parameters and the two ways a
  handler reaches the database (`Request`), and the PHP string built-ins
  the code relies on (`PhpText`).

Where the source changes state step by step, the model does too.
`Db.Database`, `Games.GameCatalogue`, `AchivUnlock.Unlocker`,
`Responses.ResponseHandler` and `Dispatch.RequestManager` are classes whose
methods update their fields, with loops, and each method is proved against
a specification function. The request handlers compute an answer from the
request, so `execute` is a function in each handler module. Its result is
`Handled(result, writes)`: the reply or the exception's message, and the
SQL texts handed to `execute_query` on its inserting connection.

`GameDownload.php` carries a copy of `get_game_details` that is the same
as the game catalogue's. Both handlers use `Games.GameDetails`.

## Model

| member | source | states |
|---|---|---|
| KeyCodec.FieldsAppend | src/cgi-bin/auth/Key.php:90-96 | the `k=v&` runs of two consecutive stretches of the data concatenate |
| KeyCodec.FieldsSingle | src/cgi-bin/auth/Key.php:93-95 | one pair contributes exactly `k=v&`, the ampersand after the last pair included |
| KeyCodec.GenerateKey | src/cgi-bin/auth/Key.php:84-102 | the loop builds `NAME:k=v&...&:salt` and the key is its SHA-256 digest, 64 characters long |
| KeyCodec.V1 | src/cgi-bin/auth/Key.php:140-144 | `v1` is never 0; a year or second of 0 makes it 100 |
| KeyCodec.V2 | src/cgi-bin/auth/Key.php:141-145 | `v2` is never 0, and is `(H - Mi) + S` whenever that is not 0 |
| KeyCodec.SaltValue | src/cgi-bin/auth/Key.php:147-150 | the salt is always defined (neither divisor can be 0) and strictly positive |
| KeyCodec.GenerateSalt | src/cgi-bin/auth/Key.php:112-150 | no salt exactly when the stamp is not the pinned instant and lies outside the clock window; otherwise the salt rule's value |
| KeyCodec.NewKeyFromData | src/cgi-bin/auth/Key.php:22-42 | the key is refused exactly when the date does not parse or gives no salt (then PBX601); an issued key has the upper-cased purpose and a 64-character digest |
| KeyCodec.IssuedKeyContents | src/cgi-bin/auth/Key.php:22-42 | an issued key holds the salt of its stamp and the digest of `NAME:k=v&...&:salt` |
| KeyCodec.NewKeyFromSource | src/cgi-bin/auth/Key.php:53-60 | a client string is wrapped exactly when it has 64 characters; otherwise PBX603 |
| KeyCodec.GeneratePwd | src/cgi-bin/auth/Key.php:161-165 | a database password has 25 characters |
| KeyCodec.GeneratePwdContents | src/cgi-bin/auth/Key.php:161-165 | the password is the first 25 characters of the digest of `PBXDB:pwd=<password>&:` and the pinned salt |
| KeyCodec.PinnedKeyDigest | src/cgi-bin/auth/Key.php:30-31 | a key made with `true` for the timestamp is always issued, with the salt of 2013-01-01 01:01:01 |
| KeyCodec.OverrideIsPinnedText | src/cgi-bin/auth/Key.php:31 | passing `true` is the same as passing a text that reads as the pinned instant |
| KeyCodec.OutOfWindowFails | src/cgi-bin/auth/Key.php:115-128 | a stamp other than the pinned one outside the window gives PBX601 |
| KeyCodec.OverrideIgnoresClock | src/cgi-bin/auth/Key.php:114-129 | a key made with `true` does not depend on the clock |
| KeyCodec.GeneratePwdIgnoresClock | src/cgi-bin/auth/Key.php:163 | nor does a database password |
| KeyCodec.IssuedKeyRoundTrip | src/cgi-bin/auth/Key.php:53-73 | an issued key's digest, sent back and wrapped, validates against the issued key |
| KeyCodec.ValidateKeysOnDigestsOnly | src/cgi-bin/auth/Key.php:70-73 | validation compares the digests only and is reflexive |
| Db.Statements | src/cgi-bin/database/Database.php:294-303 | the statements sent are the `;`-separated pieces with `;` put back, the piece after the last `;` dropped |
| Db.ExplodeScript | src/cgi-bin/database/Database.php:294 | cutting a script of `;`-free statements at its `;`s gives the statements and one empty piece |
| Db.StatementsOfScript | src/cgi-bin/database/Database.php:294-303 | a script of statements is cut back into exactly those statements, in order |
| Db.OneStatement | src/cgi-bin/database/Database.php:294-303 | a text whose only `;` is the final one is one statement |
| Db.Overlay | src/cgi-bin/database/Database.php:306 | the results field after a run: new answers from index 0 on, older entries beyond them kept |
| Db.PushPrefixIff | src/cgi-bin/database/Database.php:321-337 | "all-true" is raised exactly when the `true` answers form a non-empty prefix of the answers |
| Db.EntriesShape | src/cgi-bin/database/Database.php:221-257 | each result set gives its rows; any other answer repeats the entry before it, or NULL when first |
| Db.Arrange | src/cgi-bin/database/Database.php:260-264 | the entries are unwrapped exactly when there is one |
| Db.QueryOutcome | src/cgi-bin/database/Database.php:95-148 | an unknown format is PBX401 naming it and sends nothing; a known one stores the raw run and turns "all-true" into `true`; after a successful read in the xml, array, array-printable or json format every stored result set is left consumed, with no rows to give |
| Db.Connect | src/cgi-bin/database/Database.php:26-40 | the connection fails exactly when the server refuses it, with PBX501 and the server's text; a missing password is looked up |
| Db.SecureConnect | src/cgi-bin/database/Database.php:49-57 | the secure connection is refused exactly when the server refuses the derived password (the first 25 characters of the SHA-256 of `PBXDB:pwd=<password>&:` and the pinned salt), with PBX501 and the server's message; otherwise it is the server's connection |
| Db.FreshQueryNoStatement | src/cgi-bin/database/Database.php:294-306 | a text without `;` sends nothing; the results field is never set, so the reply in the raw formats is NULL |
| Db.RawReply | src/cgi-bin/database/Database.php:291-340 | the raw results of a run: NULL when no statement ran (the field is unset), otherwise the results; stated through `FreshQueryNoStatement` and `RunOutcomeRuns` |
| Db.SecurePassword | src/cgi-bin/database/Database.php:55 | the password `generate_pwd` derives; stated through `SecureConnect` and `SecureConnectIgnoresClock` |
| Db.SecureConnectIgnoresClock | src/cgi-bin/database/Database.php:49-57 | the secure connection does not depend on the clock: the derived password uses the pinned instant, whatever the time window |
| Db.FreshPushScript | src/cgi-bin/database/Database.php:318-331 | on a fresh connection, a script whose statements all answer `true` gives `true` in every known format |
| Db.PushScriptAllTrue | src/cgi-bin/database/Database.php:321-331 | the raw run of such a script raises "all-true" |
| Db.AllPushedRun | src/cgi-bin/database/Database.php:321-331 | any non-empty run of `true` answers raises "all-true" |
| Db.RunOutcomeFails | src/cgi-bin/database/Database.php:303-315 | the first failing statement ends the run with PBX502 and the server's error, the answers before it stored |
| Db.RunOutcomeRuns | src/cgi-bin/database/Database.php:301-340 | when no statement fails, all answers are stored, and the outcome is "all-true" or the results field |
| Db.TruthIsPushPrefix | src/cgi-bin/database/Database.php:321-337 | the second loop's test on the indices of the `true` answers is the prefix condition |
| Db.Database.constructor | src/cgi-bin/database/Database.php:26-40 | a new database object holds its connection and no results |
| Db.Database.Open | src/cgi-bin/database/Database.php:26-40 | the constructor fails with the connection's PBX501, or gives an object on the connection |
| Db.Database.NewSecCtn | src/cgi-bin/database/Database.php:49-57 | likewise with the derived password |
| Db.Database.RawQuery | src/cgi-bin/database/Database.php:291-341 | the new results field and outcome are those of the statement run, and exactly the statements up to the first failure are sent |
| Db.Database.Send | src/cgi-bin/database/Database.php:301-340 | the two loops over the statements meet the same run |
| Db.Database.ArrayQuery | src/cgi-bin/database/Database.php:211-265 | a failure propagates; otherwise the arranged entries of the stored results, after which every stored result set is consumed (its fetch loop has run to the end) |
| Db.Database.ExecuteQuery | src/cgi-bin/database/Database.php:95-148 | the new results field and reply are those of `QueryOutcome`, so a later read on the same object finds the result sets of earlier reads empty (`ReusedArrayRead`) |
| Db.Reads | src/cgi-bin/database/Database.php:101-120 | the formats whose path fetches the rows of every stored result set: xml, array, array-printable and json |
| Db.Consumed | src/cgi-bin/database/Database.php:159-265 | the stored answers after the fetch loops: the same kinds of answer, every result set with no rows left |
| Db.ReadConsumes | src/cgi-bin/database/Database.php:159-265 | a read in one of those formats keeps the number and kind of the stored answers and leaves every result set without rows |
| Db.StaleResultSetEmpty | src/cgi-bin/database/Database.php:221-257 | once the stored result sets are consumed, a stored result set beyond the statements of a new run gives an empty entry |
| Db.SetsRun | src/cgi-bin/database/Database.php:301-340 | a run whose every statement answers with a result set stores those sets over the older entries and gives them as its outcome |
| Db.ScriptOfTwo | src/cgi-bin/database/Database.php:294-303 | the text "a;b;" is cut into the two statements "a;" and "b;" |
| Db.ScriptOfOne | src/cgi-bin/database/Database.php:294-303 | the text "c;" is cut into the one statement "c;" |
| Db.ArrayRead | src/cgi-bin/database/Database.php:211-265 | an array read of a run that gives its results gives their arranged entries and leaves the results consumed |
| Db.ReadOfTwo | src/cgi-bin/database/Database.php:95-148 | an array read of "a;b;" on a new object gives the two result sets' rows and stores them consumed |
| Db.ReadAfterTwo | src/cgi-bin/database/Database.php:95-148 | an array read of "c;" after that gives c's rows and, for the second stored set, no rows |
| Db.ReusedArrayRead | src/cgi-bin/database/Database.php:95-265 | on one object, "SELECT a; SELECT b;" then "SELECT c;" in the array format give [a-rows, b-rows] and then [c-rows, []] |
| Db.Collect | src/cgi-bin/database/Database.php:217-264 | the collecting loop gives the arranged entries |
| Db.TruthRun | src/cgi-bin/database/Database.php:321-337 | the loop signals "all-true" exactly when the `true` indices are 0 to k-1 for their count k >= 1 |
| Request.Validate | src/cgi-bin/request/handlers/updates/GameDownload.php:108-117 | `validate_data` passes exactly when every required parameter is set, and is PBX401 otherwise |
| Request.View | src/cgi-bin/request/handlers/leaderboards/GetLeaderboards.php:117-119 | a read fails with the viewer connection's error, or is the query's reply on that connection |
| Request.Push | src/cgi-bin/request/handlers/updates/GameDownload.php:78-97 | a write fails with the inserter connection's error and writes nothing, or hands its one text to `execute_query` on that connection |
| Request.PushThenWrites | src/cgi-bin/request/handlers/achiv/AchivUnlocker.php:145-172 | a write followed by a read records the write exactly when the connection is made; its failure is the answer, otherwise the read's is |
| Request.FirstField | src/cgi-bin/request/handlers/achiv/AchivUnlocker.php:171-172 | `$reply[0][field]` is defined exactly when the single query gave a first row holding the field, and is that field |
| ScoreAuth.PurposeKept | src/cgi-bin/request/handlers/score/ScoreAuthoriser.php:92 | the purpose SCORE_AUTHORISATION_KEY is stored as written |
| ScoreAuth.AuthorisationKeyText | src/cgi-bin/request/handlers/score/ScoreAuthoriser.php:87-93 | an issued score key is the digest of the purpose, the pairs and the salt of the time |
| ScoreAuth.PayloadText | src/cgi-bin/request/handlers/score/ScoreAuthoriser.php:90 | the pairs are `playerName=<name>&score=<score>&`, in that order |
| ScoreAuth.ValidateWithKey | src/cgi-bin/request/handlers/score/ScoreAuthoriser.php:106-117 | PBX603 for a key that is not 64 characters long, before the expected key is made; then a key failure; otherwise accepted exactly when the digests agree, else PBX602 |
| ScoreAuth.ValidateData | src/cgi-bin/request/handlers/score/ScoreAuthoriser.php:65-72 | passes exactly when the player name, time and score are all set, else PBX401 |
| ScoreAuth.MissingField | src/cgi-bin/request/handlers/score/ScoreAuthoriser.php:39-41 | a missing field is PBX401 |
| ScoreAuth.KeyFailureFirst | src/cgi-bin/request/handlers/score/ScoreAuthoriser.php:47 | a key that cannot be made fails the request, whether or not a key was supplied |
| ScoreAuth.IssuesDigest | src/cgi-bin/request/handlers/score/ScoreAuthoriser.php:51 | without `scoreAuthKey` the answer is the digest of the generated key |
| ScoreAuth.JudgesSuppliedKey | src/cgi-bin/request/handlers/score/ScoreAuthoriser.php:53-54 | with it, the answer is the verdict on the supplied key against that digest |
| ScoreAuth.RoundTrip | src/cgi-bin/request/handlers/score/ScoreAuthoriser.php:47-54 | a digest handed out and sent back with the same fields is accepted |
| ScoreAuth.ForeignKeyRefused | src/cgi-bin/request/handlers/score/ScoreAuthoriser.php:106-116 | any other 64-character key is PBX602 |
| ScoreAuth.OutOfWindowFirst | src/cgi-bin/request/handlers/score/ScoreAuthoriser.php:47 | a time outside the clock window is PBX601 with or without a key |
| ScoreAuth.Execute | src/cgi-bin/request/handlers/score/ScoreAuthoriser.php:39-55 | `execute`; `MissingField`, `KeyFailureFirst`, `IssuesDigest`, `JudgesSuppliedKey` and `RoundTrip` state its answers |
| AchivAuth.CheckIfUnlocked | src/cgi-bin/request/handlers/achiv/AchivUnlocker.php:262-267 | the lookup fails exactly when the viewer read fails, with its error; otherwise it is whether the first row's count is above 0 |
| AchivAuth.UnlockedIffCounted | src/cgi-bin/request/handlers/achiv/AchivUnlocker.php:265-266 | no row or a count of 0 is "not unlocked", a count above 0 is "unlocked" |
| AchivAuth.TskAuthExactly | src/cgi-bin/request/handlers/achiv/AchivAuthoriser.php:134-148 | the proof is accepted exactly when it is given and equals the digest of the raw time and player name |
| AchivAuth.Time | src/cgi-bin/request/handlers/achiv/AchivAuthoriser.php:53 | the key is made with the pinned time exactly when the proof is accepted, otherwise with the client's time |
| AchivAuth.PayloadText | src/cgi-bin/request/handlers/achiv/AchivAuthoriser.php:99 | the pairs are `playerName=<name>&achivID=<id>&gameID=<game>&`, in that order |
| AchivAuth.PurposeKept | src/cgi-bin/request/handlers/achiv/AchivAuthoriser.php:101 | the purpose ACHIEVEMENT_AUTHORISATION_KEY is stored as written |
| AchivAuth.AuthorisationKeyText | src/cgi-bin/request/handlers/achiv/AchivAuthoriser.php:96-102 | an issued achievement key is the digest of the purpose, the pairs and the salt |
| AchivAuth.ValidateWithKey | src/cgi-bin/request/handlers/achiv/AchivAuthoriser.php:116-127 | PBX603 for a key that is not 64 characters, before the expected key is made; then a key failure; otherwise accepted exactly when the digests agree, else PBX602 |
| AchivAuth.ValidateData | src/cgi-bin/request/handlers/achiv/AchivAuthoriser.php:72-80 | passes exactly when the player name, time, game and achievement are all set, else PBX401 |
| AchivAuth.MissingField | src/cgi-bin/request/handlers/achiv/AchivAuthoriser.php:40-42 | a missing field is PBX401, before any lookup |
| AchivAuth.AlreadyUnlocked | src/cgi-bin/request/handlers/achiv/AchivAuthoriser.php:50 | an achievement already held answers "false" before any key work |
| AchivAuth.LookupFailureFirst | src/cgi-bin/request/handlers/achiv/AchivAuthoriser.php:50 | a failed lookup fails the request before any key work |
| AchivAuth.NotUnlocked | src/cgi-bin/request/handlers/achiv/AchivAuthoriser.php:50-61 | otherwise the key stage decides |
| AchivAuth.KeyFailureFirst | src/cgi-bin/request/handlers/achiv/AchivAuthoriser.php:54 | a key that cannot be made fails the key stage, with or without a supplied key |
| AchivAuth.IssuesDigest | src/cgi-bin/request/handlers/achiv/AchivAuthoriser.php:58 | without `achivAuthKey` the answer is the digest of the generated key |
| AchivAuth.JudgesSuppliedKey | src/cgi-bin/request/handlers/achiv/AchivAuthoriser.php:60-61 | with it, the answer is the verdict on the supplied key |
| AchivAuth.ValidateVerdict | src/cgi-bin/request/handlers/achiv/AchivAuthoriser.php:116-127 | once the expected key is made, the check is PBX603, acceptance or PBX602 on the supplied key |
| AchivAuth.RoundTrip | src/cgi-bin/request/handlers/achiv/AchivAuthoriser.php:53-61 | a digest handed out and sent back with the same fields is accepted |
| AchivAuth.ExecuteRoundTrip | src/cgi-bin/request/handlers/achiv/AchivAuthoriser.php:40-62 | the same through the whole request for an achievement not yet held |
| AchivAuth.KeyIgnored | src/cgi-bin/request/handlers/achiv/AchivAuthoriser.php:42-50 | the supplied key plays no part in validation or in the lookup |
| AchivAuth.ForeignKeyRefused | src/cgi-bin/request/handlers/achiv/AchivAuthoriser.php:116-126 | any other 64-character key is PBX602 |
| AchivAuth.TskPinsTime | src/cgi-bin/request/handlers/achiv/AchivAuthoriser.php:53-54 | with an accepted proof the key is the pinned-time key: always made, whatever the client's time and the clock |
| AchivAuth.ClientTimeOtherwise | src/cgi-bin/request/handlers/achiv/AchivAuthoriser.php:53-54 | without it the client's own time is used |
| AchivAuth.Execute | src/cgi-bin/request/handlers/achiv/AchivAuthoriser.php:40-62 | `execute`; `MissingField`, `AlreadyUnlocked`, `NotUnlocked` and `ExecuteRoundTrip` state its answers |
| Games.GameDetailsOfId | src/cgi-bin/request/handlers/updates/GameAuthoriser.php:313-328 | a name `id-v1.v2...` (no `-` in the id, no `-` or `.` in the parts) splits back into the id and exactly its version parts |
| Games.Weights | src/cgi-bin/request/handlers/updates/GameAuthoriser.php:229-233 | the four weights `pow(10, i*i + 3*i)` are 1, 10^4, 10^10 and 10^18 |
| Games.ValueWeights | src/cgi-bin/request/handlers/updates/GameAuthoriser.php:222-235 | the value of a name is major·10^18 + minor·10^10 + patch·10^4 + dev, a missing part counting as 0 |
| Games.WeighedIsLexicographic | src/cgi-bin/request/handlers/updates/GameAuthoriser.php:229-233 | while minor < 10^8, patch < 10^6 and dev < 10^4, a larger value is exactly a later version in (major, minor, patch, dev) order |
| Games.LatestNone | src/cgi-bin/request/handlers/updates/GameAuthoriser.php:196-213 | the latest version is NULL exactly when no listed game has the id |
| Games.LatestIsLastHeaviest | src/cgi-bin/request/handlers/updates/GameAuthoriser.php:201-210 | otherwise it is a listed game with the id of greatest value, and of those the last one (`>=` lets later ties win) |
| Games.LiveGamesAreExeNames | src/cgi-bin/request/handlers/updates/GameAuthoriser.php:253-259 | every kept entry is a matching file name without its last four characters, and every matching file name is kept |
| Games.ReleaseFileKept | src/cgi-bin/request/handlers/updates/GameAuthoriser.php:257-258 | a file `XXXX-a.b.c.d.exe` (digits in each part, any non-newline character in the unescaped dot places) matches and is kept as `XXXX-a.b.c.d` |
| Games.ReadInLiveGames | src/cgi-bin/request/handlers/updates/GameAuthoriser.php:244-266 | the loop over the listing returns exactly the kept names, in order |
| Games.AddedExactly | src/cgi-bin/request/handlers/updates/GameAuthoriser.php:49-86 | the sync adds exactly the live games the database list lacked, each once |
| Games.NewVersionCalls | src/cgi-bin/request/handlers/updates/GameAuthoriser.php:80-81 | one `Game_NewVersion` call per added game, in the same order |
| Games.GameCatalogue.constructor | src/cgi-bin/request/handlers/updates/GameAuthoriser.php:40-87 | the live list is the kept listing; the database list grows by the added games, and one call is issued for each |
| Games.GameCatalogue.VerifyGame | src/cgi-bin/request/handlers/updates/GameAuthoriser.php:170-186 | true exactly when some listed game is the name, or the name is `XXXX-*.*.*.*` and a listed game has that id |
| Games.GameCatalogue.GameValue | src/cgi-bin/request/handlers/updates/GameAuthoriser.php:222-235 | the loop from i = 3 down to 0 computes the weighted value; NULL is 0 |
| Games.GameCatalogue.FindLatestVersion | src/cgi-bin/request/handlers/updates/GameAuthoriser.php:196-213 | the loop computes the latest version of the id, as described by the lemmas above |
| Games.GameCatalogue.Execute | src/cgi-bin/request/handlers/updates/GameAuthoriser.php:112-140 | the handler's answer on the catalogue's database list: the download address, the title or the update check |
| Games.AuthErrors | src/cgi-bin/request/handlers/updates/GameAuthoriser.php:127 | a missing id is PBX401; an unlisted game on a plain check is PBX801 |
| Games.AuthLatest | src/cgi-bin/request/handlers/updates/GameAuthoriser.php:130-139 | on a plain check of a listed game the answer is `true` exactly when the game is the latest version, and otherwise "Update available: latest version is v" and the latest version |
| Games.VerifiedHasLatest | src/cgi-bin/request/handlers/updates/GameAuthoriser.php:127-130 | a game that passes the check always has a latest version |
| Games.GameDetails | src/cgi-bin/request/handlers/updates/GameAuthoriser.php:313-328 | the id before the first `-` and at least one version part, cut at `.`; `GameDetailsOfId` states that a well-formed id splits back into its id and parts |
| Games.Term | src/cgi-bin/request/handlers/updates/GameAuthoriser.php:232 | the term for index i: part 3 - i times 10^(i·i + 3·i); `ValueWeights` gives the four terms together, `MajorTenOverflows` and `ValueStaysInt` bound them |
| Games.Value | src/cgi-bin/request/handlers/updates/GameAuthoriser.php:222-235 | `game_value`: 0 for NULL and ""; `ValueWeights` states the weighted sum, `WeighedIsLexicographic` the order it gives |
| Games.Weight | src/cgi-bin/request/handlers/updates/GameAuthoriser.php:208 | the weight `find_latest_version` compares; `LatestIsLastHeaviest` states the result in terms of it |
| Games.LatestBy | src/cgi-bin/request/handlers/updates/GameAuthoriser.php:196-213 | the scan of `find_latest_version` for any weight; `LatestNone` and `LatestIsLastHeaviest` state its result |
| Games.ExeName | src/cgi-bin/request/handlers/updates/GameAuthoriser.php:257 | the file-name pattern of the listing; `LiveGamesAreExeNames` and `ReleaseFileKept` state what passes it |
| Games.LiveGames | src/cgi-bin/request/handlers/updates/GameAuthoriser.php:253-259 | the kept names of a listing; `LiveGamesAreExeNames` states that those are exactly the matching names without `.exe` |
| Games.Added | src/cgi-bin/request/handlers/updates/GameAuthoriser.php:49-86 | the live games the sync adds; `AddedExactly` states that they are the ones the database lacked, each once |
| Games.NewVersionSql | src/cgi-bin/request/handlers/updates/GameAuthoriser.php:80 | the `Game_NewVersion` call for a live game; `NewVersionCalls` and the constructor state that one is sent per added game |
| Games.Checked | src/cgi-bin/request/handlers/updates/GameAuthoriser.php:116-124 | the name checked: the game, or `XXXX-*.*.*.*` when a download address or title is asked for; used by `AuthErrors` and `AuthLatest` |
| Games.Reported | src/cgi-bin/request/handlers/updates/GameAuthoriser.php:130-139 | the answer once the checked name is listed; `AuthLatest` states it for a plain check |
| Games.AuthOutcome | src/cgi-bin/request/handlers/updates/GameAuthoriser.php:112-140 | `execute` against the database list; `AuthErrors` states its errors and `AuthLatest` its answers |
| Games.ValueStaysInt | src/cgi-bin/request/handlers/updates/GameAuthoriser.php:222-235 | where the value is at most PHP's largest integer, every part, term and running sum of the loop is too, so PHP computes it in integers exactly as the model does |
| Games.MajorTenOverflows | src/cgi-bin/request/handlers/updates/GameAuthoriser.php:232 | a major version of 10 or more makes the first term, and the value, larger than PHP's largest integer |
| Games.BoundedPartsFit | src/cgi-bin/request/handlers/updates/GameAuthoriser.php:229-233 | a major version up to 8 with minor < 10^8, patch < 10^6 and dev < 10^4 gives a value that fits in PHP's integers |
| ScoreSubmit.ValidateData | src/cgi-bin/request/handlers/score/ScoreSubmitter.php:115-125 | accepted exactly when the name, key, score, time, address and game are all given; otherwise PBX401 |
| ScoreSubmit.SameWithLevel | src/cgi-bin/request/handlers/score/ScoreSubmitter.php:94-101 | with a level, the statement as written and the intended one are the same text |
| ScoreSubmit.InsertIsOneStatement | src/cgi-bin/request/handlers/score/ScoreSubmitter.php:80-104 | the intended insert, over values without `;`, is sent as exactly one statement |
| ScoreSubmit.NoLevelSendsNothing | src/cgi-bin/request/handlers/score/ScoreSubmitter.php:94 | as written, without a level the text has no `;`: no statement is sent and the reply is NULL |
| ScoreSubmit.MissingField | src/cgi-bin/request/handlers/score/ScoreSubmitter.php:45 | a missing field is refused with PBX401 |
| ScoreSubmit.KeyFirst | src/cgi-bin/request/handlers/score/ScoreSubmitter.php:56 | a key that does not match the trimmed name and score and the raw time refuses with the key's error, before the player is looked up |
| ScoreSubmit.UnknownPlayer | src/cgi-bin/request/handlers/score/ScoreSubmitter.php:72-73 | a valid key for a player not in the table is PBX702 |
| ScoreSubmit.Accepted | src/cgi-bin/request/handlers/score/ScoreSubmitter.php:45-73 | with all fields, a matching key and a known player, nothing is refused |
| ScoreSubmit.RefusedWritesNothing | src/cgi-bin/request/handlers/score/ScoreSubmitter.php:43-73 | a refused submission answers the refusal and writes nothing |
| ScoreSubmit.AcceptedWritesRow | src/cgi-bin/request/handlers/score/ScoreSubmitter.php:76-104 | an accepted submission hands the text as written (`Row`) to an inserter connection, and nothing else |
| ScoreSubmit.IssuedKeyPasses | src/cgi-bin/request/handlers/score/ScoreSubmitter.php:47-56 | a key issued by the score authoriser passes when sent back with the same trimmed name and score and the same time |
| ScoreSubmit.NoLevelAnswersNull | src/cgi-bin/request/handlers/score/ScoreSubmitter.php:94-104 | an accepted submission without a level hands over a text with no statement; once the inserter connection is made the answer is NULL, with that text as the only text handed to `execute_query` |
| ScoreSubmit.RowAgainstIntended | src/cgi-bin/request/handlers/score/ScoreSubmitter.php:80-101 | the corrected row is one whole statement; the text as written equals it exactly when a level is given, and otherwise holds no statement |
| ScoreSubmit.InsertSqlAsWritten | src/cgi-bin/request/handlers/score/ScoreSubmitter.php:80-101 | the text as written; `NoLevelSendsNothing`, `SameWithLevel` and `RowAgainstIntended` state what it holds |
| ScoreSubmit.InsertSql | src/cgi-bin/request/handlers/score/ScoreSubmitter.php:80-101 | the insert as evidently meant; `InsertIsOneStatement` states that it is one whole statement |
| ScoreSubmit.Row | src/cgi-bin/request/handlers/score/ScoreSubmitter.php:47-101 | the text `execute` hands over, from the trimmed name and score, the level, the time, the game and the country; stated by `AcceptedWritesRow`, `NoLevelAnswersNull` and `RowAgainstIntended` |
| ScoreSubmit.IntendedRow | src/cgi-bin/request/handlers/score/ScoreSubmitter.php:47-101 | the same fields through the corrected insert; stated by `RowAgainstIntended` |
| ScoreSubmit.KeyCheck | src/cgi-bin/request/handlers/score/ScoreSubmitter.php:56 | the score key over the trimmed name and score and the raw time; `IssuedKeyPasses` states that an issued key passes it |
| ScoreSubmit.Refusal | src/cgi-bin/request/handlers/score/ScoreSubmitter.php:45-73 | the checks in order; `MissingField`, `KeyFirst`, `UnknownPlayer` and `Accepted` state each case |
| ScoreSubmit.Execute | src/cgi-bin/request/handlers/score/ScoreSubmitter.php:43-105 | `execute`; `RefusedWritesNothing`, `AcceptedWritesRow` and `NoLevelAnswersNull` state its answers and writes |
| AchivUnlock.TitleDesc | src/cgi-bin/request/handlers/achiv/AchivUnlocker.php:66-70 | a text with `=` is its title, `=`, then its description, and the title holds no `=` |
| AchivUnlock.PaddedKnown | src/cgi-bin/request/handlers/achiv/AchivUnlocker.php:50-55 | padding keeps every stored game as it was and adds exactly the missing live games, each with an empty list |
| AchivUnlock.InSyncNotSent | src/cgi-bin/request/handlers/achiv/AchivUnlocker.php:72-73 | a live text without quotes that is stored for the game sends no statement |
| AchivUnlock.QuotedAlwaysResent | src/cgi-bin/request/handlers/achiv/AchivUnlocker.php:63-79 | a text with a quote, stored as SQL reads the quoted literal, is sent as an update once more, because the comparison uses the doubled text |
| AchivUnlock.AllStoredSendsNothing | src/cgi-bin/request/handlers/achiv/AchivUnlocker.php:58-87 | a game whose escaped texts are all stored sends nothing |
| AchivUnlock.Unlocker.constructor | src/cgi-bin/request/handlers/achiv/AchivUnlocker.php:37-92 | keeps the live list; sends, in game order and then id order, one update or insert for each id whose escaped text is not stored; then keeps the list read again |
| AchivUnlock.Unlocker.SyncEntry | src/cgi-bin/request/handlers/achiv/AchivUnlocker.php:48-87 | one game of the outer loop: the game gets an empty stored list when it had none, and exactly its statements are added |
| AchivUnlock.Unlocker.SyncAchiv | src/cgi-bin/request/handlers/achiv/AchivUnlocker.php:60-85 | one id of the inner loop: nothing when the escaped text is stored for the game, else an update when the id is stored, else an insert, and no list changes |
| AchivUnlock.Unlocker.SyncGame | src/cgi-bin/request/handlers/achiv/AchivUnlocker.php:58-87 | the inner loop adds exactly that game's statements for ids 0 to count - 1, and changes no list |
| AchivUnlock.ValidateData | src/cgi-bin/request/handlers/achiv/AchivUnlocker.php:184-189 | accepted exactly when the game is given; otherwise PBX401 |
| AchivUnlock.MissingGame | src/cgi-bin/request/handlers/achiv/AchivUnlocker.php:119 | without the game the request is PBX401 |
| AchivUnlock.MissingKey | src/cgi-bin/request/handlers/achiv/AchivUnlocker.php:124-137 | with the game but no key the request is PBX603 (the empty key has the wrong length) |
| AchivUnlock.KeyFirst | src/cgi-bin/request/handlers/achiv/AchivUnlocker.php:137 | a key that does not check out refuses with its error, before the player is looked up |
| AchivUnlock.UnknownPlayer | src/cgi-bin/request/handlers/achiv/AchivUnlocker.php:141-142 | a valid key for a player not in the table is PBX702 |
| AchivUnlock.Accepted | src/cgi-bin/request/handlers/achiv/AchivUnlocker.php:119-142 | with the game, a matching key and a known player, nothing is refused |
| AchivUnlock.RefusedWritesNothing | src/cgi-bin/request/handlers/achiv/AchivUnlocker.php:117-142 | a refused request answers the refusal and writes nothing |
| AchivUnlock.AcceptedUnlocks | src/cgi-bin/request/handlers/achiv/AchivUnlocker.php:144-172 | an accepted request goes on to the unlock |
| AchivUnlock.UnlockWritesRow | src/cgi-bin/request/handlers/achiv/AchivUnlocker.php:145-172 | the unlock writes at most its one row, without checking for an earlier unlock; a failed insert is the answer, otherwise the title lookup is |
| AchivUnlock.IssuedKeyPasses | src/cgi-bin/request/handlers/achiv/AchivUnlocker.php:121-137 | a key issued by the achievement authoriser passes for the same player, game and time and an id that trims to the one it was made for |
| AchivUnlock.Entry | src/cgi-bin/request/handlers/achiv/AchivUnlocker.php:61 | the text of an id, empty where the game has none; used by `Call` |
| AchivUnlock.Known | src/cgi-bin/request/handlers/achiv/AchivUnlocker.php:51-55 | the stored list of a game, empty when the table has none; `PaddedKnown` states that padding gives it |
| AchivUnlock.Title | src/cgi-bin/request/handlers/achiv/AchivUnlocker.php:66-69 | the text before the first `=`; `TitleDesc` states that title and description are the two sides of it |
| AchivUnlock.Desc | src/cgi-bin/request/handlers/achiv/AchivUnlocker.php:66-70 | the text after the first `=`; stated by `TitleDesc` |
| AchivUnlock.Call | src/cgi-bin/request/handlers/achiv/AchivUnlocker.php:61-85 | the statement for one id; `CallCases`, `InSyncNotSent` and `QuotedAlwaysResent` state when it is none, an update or an insert |
| AchivUnlock.GameCalls | src/cgi-bin/request/handlers/achiv/AchivUnlocker.php:58-87 | the statements for one game's ids in order; `AllStoredSendsNothing` and `GameCallsNext` state them |
| AchivUnlock.SyncCalls | src/cgi-bin/request/handlers/achiv/AchivUnlocker.php:46-88 | the statements of the whole sync; the constructor states that it sends exactly these |
| AchivUnlock.Padded | src/cgi-bin/request/handlers/achiv/AchivUnlocker.php:50-55 | the stored list with an entry for every live game; `PaddedKnown` states which games it holds and that each keeps its stored list |
| AchivUnlock.KeyCheck | src/cgi-bin/request/handlers/achiv/AchivUnlocker.php:137 | the achievement key check with the pinned time when the TSK proof holds; `IssuedKeyPasses` and `MissingKey` state it |
| AchivUnlock.Refusal | src/cgi-bin/request/handlers/achiv/AchivUnlocker.php:119-142 | the checks in order; `MissingGame`, `MissingKey`, `KeyFirst`, `UnknownPlayer` and `Accepted` state each case |
| AchivUnlock.Row | src/cgi-bin/request/handlers/achiv/AchivUnlocker.php:121-164 | the unlock row from the trimmed name and achievement, the raw time and the game's parts; `UnlockWritesRow` states that it is the only text written |
| AchivUnlock.LookupSql | src/cgi-bin/request/handlers/achiv/AchivUnlocker.php:171 | the title lookup; used by `TitleLookup` |
| AchivUnlock.TitleLookup | src/cgi-bin/request/handlers/achiv/AchivUnlocker.php:170-172 | the `title` of the first row on a viewer connection; `UnlockWritesRow` states that it is the answer after a successful insert |
| AchivUnlock.Unlock | src/cgi-bin/request/handlers/achiv/AchivUnlocker.php:145-172 | the insert then the lookup; stated by `UnlockWritesRow` |
| AchivUnlock.Execute | src/cgi-bin/request/handlers/achiv/AchivUnlocker.php:117-173 | `execute`; `RefusedWritesNothing` and `AcceptedUnlocks` state its answers |
| Download.ValidateData | src/cgi-bin/request/handlers/updates/GameDownload.php:108-115 | accepted exactly when the game, key and platform are all given; otherwise PBX401 |
| Download.Expected | src/cgi-bin/request/handlers/updates/GameDownload.php:52 | the expected key is always issued, is named GAME_DOWNLOAD_RECORD and has a 64-character digest |
| Download.ExpectedContents | src/cgi-bin/request/handlers/updates/GameDownload.php:52 | its digest is the hash of `GAME_DOWNLOAD_RECORD:gameID=<game>&:` and the salt of the pinned instant |
| Download.KeyErrorCases | src/cgi-bin/request/handlers/updates/GameDownload.php:52-63 | a key of the wrong length is PBX603; the key passes exactly when it is the expected digest; any other 64-character key is PBX602 naming both digests |
| Download.RefusalRevealsKey | src/cgi-bin/request/handlers/updates/GameDownload.php:63 | the PBX602 message names the expected digest, and sending that digest back passes |
| Download.ExpectedIgnoresClock | src/cgi-bin/request/handlers/updates/GameDownload.php:52 | the expected key is the same whatever the clock window |
| Download.MissingField | src/cgi-bin/request/handlers/updates/GameDownload.php:46 | a missing field is PBX401 |
| Download.KeyBeforeGame | src/cgi-bin/request/handlers/updates/GameDownload.php:52-66 | a wrong key is refused with its key error whether or not the game is listed |
| Download.GameDecides | src/cgi-bin/request/handlers/updates/GameDownload.php:66 | with the right key, an unlisted game is PBX801 and a listed one is accepted |
| Download.RefusedWritesNothing | src/cgi-bin/request/handlers/updates/GameDownload.php:44-66 | a refused request answers the refusal and writes nothing |
| Download.AcceptedWritesRow | src/cgi-bin/request/handlers/updates/GameDownload.php:75-97 | an accepted request sends the one download row on an inserter connection and answers its reply |
| Download.KeyReplays | src/cgi-bin/request/handlers/updates/GameDownload.php:52-66 | the checks do not depend on the platform, so one key admits any number of records |
| Download.KeyError | src/cgi-bin/request/handlers/updates/GameDownload.php:52-63 | the key checks; `KeyErrorCases` states that the key is refused exactly when it is not the expected digest, and with which message |
| Download.Refusal | src/cgi-bin/request/handlers/updates/GameDownload.php:46-66 | the checks in order; `MissingField`, `KeyBeforeGame` and `GameDecides` state each case |
| Download.Row | src/cgi-bin/request/handlers/updates/GameDownload.php:75-93 | the download row from the game's id and parts and the platform; `AcceptedWritesRow` states that it is the only text written |
| Download.Execute | src/cgi-bin/request/handlers/updates/GameDownload.php:44-98 | `execute`; `RefusedWritesNothing` and `AcceptedWritesRow` state its answers and writes |
| Names.MissingName | src/cgi-bin/request/handlers/name/NameAuthoriser.php:140-145 | without a name the request is PBX401 |
| Names.OverrideAndUpdate | src/cgi-bin/request/handlers/name/NameAuthoriser.php:77-81 | the override code together with an update is PBX401, before the word filter |
| Names.FilterFirst | src/cgi-bin/request/handlers/name/NameAuthoriser.php:84-90 | a filtered word matching the trimmed name or the update name is PBX703, before the lengths |
| Names.OutOfBounds | src/cgi-bin/request/handlers/name/NameAuthoriser.php:93-101 | a name, or an update name, shorter than 3 or longer than 30 characters is PBX703 |
| Names.DecideSound | src/cgi-bin/request/handlers/name/NameAuthoriser.php:69-130 | whatever passes the checks is a trimmed, filtered name within bounds: a new name is unregistered, a confirmed one registered, and a rename moves a registered name to a different unregistered one |
| Names.InsertPath | src/cgi-bin/request/handlers/name/NameAuthoriser.php:109-116 | without override or update, a registered name is PBX701 and any other is inserted |
| Names.OverridePath | src/cgi-bin/request/handlers/name/NameAuthoriser.php:119-128 | with the override code, a registered name is confirmed with `true` and any other is PBX702 |
| Names.RenameErrors | src/cgi-bin/request/handlers/name/NameAuthoriser.php:160-173 | the same name is PBX703, an unregistered old name PBX702, a taken new name PBX701; otherwise, and only then, the rename is made |
| Names.ZeroUpdateNeverRenames | src/cgi-bin/request/handlers/name/NameAuthoriser.php:79-97 | an update that trims to "0" counts as none, so it never renames |
| Names.TableChanges | src/cgi-bin/request/handlers/name/NameAuthoriser.php:113-173 | a successful insert adds exactly its name; a rename swaps exactly one name for another and keeps the table's size; nothing else changes the table |
| Names.Filter | src/cgi-bin/request/handlers/name/NameAuthoriser.php:84-90 | the loop over the words finds a match exactly when some word matches either name |
| Names.WritesOnlyPlan | src/cgi-bin/request/handlers/name/NameAuthoriser.php:111-127 | a refusal stops, the override answers `true` with no write, and an insert or rename writes at most its own statement |
| Names.Execute | src/cgi-bin/request/handlers/name/NameAuthoriser.php:69-130 | `execute`: the decision, then its answer; `DecideSound`, `InsertPath`, `OverridePath` and `WritesOnlyPlan` state it |
| Leaderboards.MissingFormat | src/cgi-bin/request/handlers/leaderboards/GetLeaderboards.php:133-137 | without a format the request is PBX401 and nothing is read |
| Leaderboards.ReadsInFormat | src/cgi-bin/request/handlers/leaderboards/GetLeaderboards.php:116-122 | with a format the answer is the built query on a viewer connection, in that format |
| Leaderboards.ViewNames | src/cgi-bin/request/handlers/leaderboards/GetLeaderboards.php:63-74 | the four named scopes read their views, and every other scope (none included) reads `Leaderboards_Ranked` |
| Leaderboards.ProcNames | src/cgi-bin/request/handlers/leaderboards/GetLeaderboards.php:101-110 | `lastEntry` and `bestScore` call their procedures, every other scope the ranked one |
| Leaderboards.GamesThatExist | src/cgi-bin/request/handlers/leaderboards/GetLeaderboards.php:77-80 | the list of games is the distinct names and ids of the ranked view, whatever the game and the limit |
| Leaderboards.TopOverridesLimit | src/cgi-bin/request/handlers/leaderboards/GetLeaderboards.php:84-91 | a `top<d>` scope sets the limit to d whatever `limit` says, and `top0` gives no limit clause |
| Leaderboards.ListingShape | src/cgi-bin/request/handlers/leaderboards/GetLeaderboards.php:86-95 | a listing is the view, the game clause exactly when a game is given (on its first four characters), the limit clause exactly when a limit is set, then `;` |
| Leaderboards.LookupIgnoresGameAndLimit | src/cgi-bin/request/handlers/leaderboards/GetLeaderboards.php:98-114 | with a player the query is the procedure call on the name, whatever the game and the limit |
| Leaderboards.Terminated | src/cgi-bin/request/handlers/leaderboards/GetLeaderboards.php:95-113 | every query ends with `;` |
| Leaderboards.Execute | src/cgi-bin/request/handlers/leaderboards/GetLeaderboards.php:43-123 | `execute`; `MissingFormat` and `ReadsInFormat` state its answers |
| Achievements.ValidateData | src/cgi-bin/request/handlers/achiv/GetAchievements.php:97-105 | accepted exactly when the name, format, game and scope are all given; otherwise PBX401 |
| Achievements.MissingField | src/cgi-bin/request/handlers/achiv/GetAchievements.php:45 | a missing field is PBX401, before any connection |
| Achievements.ConnectionFirst | src/cgi-bin/request/handlers/achiv/GetAchievements.php:52-54 | the viewer connection is made before the scope is looked at: its error is the answer whatever the scope |
| Achievements.ListingScopes | src/cgi-bin/request/handlers/achiv/GetAchievements.php:56-57 | `unlocked` and `locked` call their procedure with the whole game id and the name, in the requested format |
| Achievements.OtherScope | src/cgi-bin/request/handlers/achiv/GetAchievements.php:81 | any other scope is "PBX401:Invalid scope" |
| Achievements.StatsFailures | src/cgi-bin/request/handlers/achiv/GetAchievements.php:58-79 | the statistics fail with the first failure among the unlocked count, the second connection and the total, in that order |
| Achievements.StatsIgnoreFormat | src/cgi-bin/request/handlers/achiv/GetAchievements.php:58-79 | the statistics are the same whatever format is asked for |
| Achievements.Execute | src/cgi-bin/request/handlers/achiv/GetAchievements.php:43-87 | `execute`; `MissingField`, `ConnectionFirst`, `ListingScopes`, `OtherScope` and `StatsFailures` state its answers |
| Responses.CodeOfFirstPart | src/responses.php:44-47 | the part before the first colon starts with a code exactly when the whole text does |
| Responses.ParseForeign | src/responses.php:47-51 | a text that does not start with `PBX` and three digits is PBX500 with the whole text as its message |
| Responses.ParseCoded | src/responses.php:54-60 | a code, a colon and a message (possibly empty) give that code and message; a code alone gives no message |
| Responses.ParseRoundTrip | src/responses.php:44-60 | a coded text is rebuilt from its code and, when present, a colon and its message, and the code holds no colon |
| Responses.DescribeFirst | src/responses.php:85-95 | the description is the text of the first entry with the code, whatever follows it |
| Responses.DescribeMissing | src/responses.php:97-98 | a code no entry has is "Unknown error!" |
| Responses.GenerateCases | src/responses.php:27-77 | without the responses file the answer is PBX503 with a message; with it, the code and message are the parsed ones and the description is looked up by the code |
| Responses.ResponseHandler.constructor | src/responses.php:101 | no responses file is loaded before the first response |
| Responses.ResponseHandler.GenerateResponse | src/responses.php:27-77 | keeps what loading the file gave, and answers the response described above |
| Responses.ResponseHandler.GetResponseDescription | src/responses.php:85-99 | the search loop returns the description of the code in the loaded file |
| Responses.Parse | src/responses.php:44-60 | the code and message of a text; `ParseForeign`, `ParseCoded` and `ParseRoundTrip` state it |
| Responses.Describe | src/responses.php:85-99 | the description of a code; `DescribeFirst` and `DescribeMissing` state it |
| Responses.Generate | src/responses.php:27-77 | `generate_response`; `GenerateCases` states it |
| Dispatch.LookupFirst | src/cgi-bin/request/RequestManager.php:83-88 | the lookup fails exactly when no handler has the id, with "PBX401:A request type with this name does not exist"; otherwise it gives the first handler with the id |
| Dispatch.RegisteredIds | src/cgi-bin/request/RequestManager.php:53-67 | the nine registered handlers have the ids authGame, recordGameDownload, authName, authScore, pushScore, getLeaderboards, getAchievements, authAchiv and unlockAchiv, in that order, all different |
| Dispatch.LookupRegistered | src/cgi-bin/request/RequestManager.php:77-89 | each registered handler is found by its own id, and a type that is no handler's id is PBX401 |
| Dispatch.RouteRegistered | src/cgi-bin/request/RequestManager.php:83-85 | the request goes to the handler its type names, and the answer is that handler's |
| Dispatch.RouteUnknown | src/cgi-bin/request/RequestManager.php:88 | any other request type is PBX401 and writes nothing |
| Dispatch.ReadersWriteNothing | src/cgi-bin/request/RequestManager.php:77-89 | only the download, name, score-submit and unlock handlers can write |
| Dispatch.RequestManager.constructor | src/cgi-bin/request/RequestManager.php:23-43 | the manager starts with exactly the nine registered handlers |
| Dispatch.RequestManager.AddRequestHandlers | src/cgi-bin/request/RequestManager.php:53-67 | the nine handlers are appended in order and nothing else changes |
| Dispatch.RequestManager.Find | src/cgi-bin/request/RequestManager.php:83-88 | the loop finds the handler the lookup describes |
| Dispatch.RequestManager.Execute | src/cgi-bin/request/RequestManager.php:77-89 | the answer is the found handler's, or PBX401 when none has the id |
| Dispatch.Lookup | src/cgi-bin/request/RequestManager.php:83-88 | the handler of a request type; `LookupFirst` and `LookupRegistered` state it |
| Dispatch.Run | src/cgi-bin/request/RequestManager.php:85 | a handler's `execute`; `ReadersWriteNothing` states what each can write |
| Dispatch.Route | src/cgi-bin/request/RequestManager.php:77-89 | `execute` over the handlers; `RouteRegistered` and `RouteUnknown` state it |
| Front.FinishPush | src/index.php:62-63 | a reply of `true` is a PBX200 without a message |
| Front.FinishReply | src/index.php:66-67 | any other reply is a PBX200 whose message is `"$response"` of the reply (the text itself, empty for NULL, "Array" for an array), colons included |
| Front.FinishError | src/index.php:54-57 | an exception with a coded message answers that code and message; any other is PBX500 with the whole message |
| Front.NoRequestType | src/index.php:48-49 | without a request type the page is "PBX401" with "Missing a request type", whatever the handlers would say |
| Front.NoSuchTypePage | src/index.php:52-57 | an unknown request type is PBX401 with "A request type with this name does not exist" |
| Front.EarlierError | src/index.php:78-79 | an error raised before `main()` is answered with PBX100 and its message, and the request is not run |
| Front.NoResponsesFile | src/index.php:79-80 | without the responses file every page is the fixed PBX503 response |
| Front.InterpolateCases | src/index.php:67 | `"$response"`: empty for NULL and for an empty single result, the text for a string, "Array" for any other array |
| Front.FinishNull | src/index.php:66-67 | a NULL reply, such as the one a text with no statement gets, is a PBX200 with an empty message |
| Front.Interpolate | src/index.php:67 | `"$response"` of a reply; stated by `InterpolateCases` |
| Front.Finish | src/index.php:54-67 | the text after a handler answers; `FinishPush`, `FinishReply` and `FinishError` state it |
| Front.MainText | src/index.php:39-68 | the text of `main()`; `NoRequestType` and `NoSuchTypePage` state it |
| Front.Page | src/index.php:78-80 | the page; `EarlierError` states that an earlier error wins |
| Front.Serve | src/index.php:39-80 | the whole script; `NoSuchTypePage` and `NoResponsesFile` state it |
| PhpText.TrimStartSound | src/cgi-bin/request/handlers/score/ScoreSubmitter.php:47-48 | `trim` cuts only blanks from the front, and stops at the first non-blank |
| PhpText.TrimEndSound | src/cgi-bin/request/handlers/score/ScoreSubmitter.php:47-48 | `trim` cuts only blanks from the back, and stops at the last non-blank |
| PhpText.TrimIdempotent | src/cgi-bin/request/handlers/name/NameAuthoriser.php:73-79 | a trimmed name has no blank at either end, and trimming it again changes nothing |
| PhpText.Upper | src/cgi-bin/auth/Key.php:28 | `strtoupper` keeps the length and upper-cases each ASCII letter in place |
| PhpText.UpperKeeps | src/cgi-bin/auth/Key.php:28 | a name with no lower-case letter is left as it is |
| PhpText.Prefix | src/cgi-bin/request/handlers/updates/GameAuthoriser.php:55 | `substr(s, 0, n)` is the first n characters, or the whole text when it is shorter |
| PhpText.From | src/cgi-bin/request/handlers/updates/GameAuthoriser.php:137 | `substr(s, n)` is what follows the first n characters, empty when there is nothing there |
| PhpText.IndexOf | src/cgi-bin/request/handlers/achiv/AchivUnlocker.php:66 | `strpos` gives the first position of the character, and `false` exactly when it does not occur |
| PhpText.ExplodeSound | src/cgi-bin/request/handlers/updates/GameAuthoriser.php:227 | the pieces of `explode` hold no separator, and gluing them with it gives the text back |
| PhpText.ExplodeImplode | src/cgi-bin/request/handlers/updates/GameAuthoriser.php:313-318 | splitting the gluing of separator-free pieces gives the pieces back |
| PhpText.SplitFirst | src/responses.php:44 | `explode(":", s, 2)` gives one piece exactly when there is no colon; otherwise the text is the first piece, a colon and the rest, and the first piece holds no colon |
| PhpText.DoubleQuotesRoundTrip | src/cgi-bin/request/handlers/achiv/AchivUnlocker.php:64 | SQL's reading of the escaped literal restores the text |
| PhpText.DoubleQuotesChanges | src/cgi-bin/request/handlers/achiv/AchivUnlocker.php:64 | the escaping leaves a text without a quote alone and lengthens one with a quote |
| PhpText.NatText | src/cgi-bin/request/handlers/achiv/AchivUnlocker.php:79 | the rendering of a number is a non-empty run of digits |
| PhpText.NatTextRoundTrip | src/cgi-bin/request/handlers/achiv/AchivUnlocker.php:221 | reading the rendered number back gives the number |
| PhpText.LeadingDigits | src/cgi-bin/request/handlers/achiv/GetAchievements.php:62 | for a digit-leading text, the digits `(int)` reads: the longest run of digits at the front, up to the first non-digit |
| PhpText.IntValueOfText | src/cgi-bin/request/handlers/achiv/GetAchievements.php:62 | in the model's digit-leading reading, a number's text followed by anything not starting with a digit gives the number |

## Left out

- SHA-256, SHA-1 and Base64 are parameters of `KeyCodec.Env`. Only the 64-character length of a SHA-256 digest is known about them.
- The wall-clock window of `generate_salt` (the `DateTime::diff` against two time zones) is the parameter `inWindow`, and PHP's date parsing is the parameter `parse`.
- The salt rule is computed over `real`. PHP's rendering of the float is the parameter `saltText`, so floating-point rounding is not modelled.
- PHP's loose `==` on digests, names and the name authoriser's override code `o` is plain string equality. Two different numeric strings that PHP would call equal (such as "1e3" and "1000") compare unequal in the model.
- PHP strings are byte strings; the model uses one `char` per byte, so `strlen` counts characters.
- MySQL is an oracle: a connection answers each statement with `true`, a result set or an error. The tables after a write are not modelled; a write shows only as the statement text sent. The SQL texts write each line break and indentation of the source as one space.
- The XML, JSON and `print_r` renderings of results, and `json_encode` of the response and of the achievement statistics, are parameters of `Db.Platform`. The `number_format` percentages and their division by a total of 0 are inside `statsJsonOf`. `Responses.Response` stands for the encoded response.
- The files the service reads are inputs of the classes' constructors: the FTP directory listing of the game catalogue, the achievements file of the unlocker and the responses file of the response writer. FTP login errors, a missing achievements file and `mail()` alerts are not modelled.
- The handler constructors' own database connections, and the statements the game catalogue's and the unlocker's constructors send to sync their tables, are assumed to succeed. Their errors, which PHP raises inside `new RequestManager()` before the request type is checked, are not modelled: a refused statement throws PBX502 (Database.php:311-314) and stops the sync.
- The player table is the set `players` for the name authoriser, the score submitter and the unlocker. `check_player_exists` and `Player_FindID` are membership in it, and the connection that looks the player up and its queries are assumed to succeed: the `COUNT` query of `check_player_exists` (NameAuthoriser.php:189-190), which fails with PBX502 for a name holding a quote such as O'Neil, is not modelled.
- The word filter's regular expressions, built from the lines of the bad-words file, are the parameter `matches(word, name)`. The `NameAuthoriser` object is not a class: its one field, the word list, is only set by its constructor, so it is the parameter `words`.
- The cURL country lookup of the score submitter is the parameter `countryOf`.
- The name authoriser's constructor throws "PBX503:Naughty Words File" when the bad-words file is missing, inside `new RequestManager()` and so before the request type is checked (NameAuthoriser.php:41, RequestManager.php:57). The model assumes the file exists and takes its lines as `words`.
- Games.Value: PHP's integers are 64 bits wide, and `game_value` goes on in floating point once a sum passes 9223372036854775807, which a major version of 10 or more already does (`MajorTenOverflows`). The model's value is exact, so it is PHP's value only where that value fits (`ValueStaysInt`, `BoundedPartsFit`). For ABCD-10.0.0.1 and ABCD-10.0.0.0, PHP gives both 1.0E19 and the model does not.
- Games.Term: exact, like `Value`. PHP's term for index 3 is a float for a major version of 10 or more.
- Games.Weight: exact, like `Value`.
- Games.ValueWeights: holds for PHP only where the value fits in 64 bits, as under `Games.Value`.
- Games.WeighedIsLexicographic: states the order of exact values. PHP's float values tie where they differ only below the float's precision, so the order is PHP's only where the values fit.
- Games.GameCatalogue.GameValue: returns the exact value, as under `Games.Value`.
- Games.GameCatalogue.FindLatestVersion: compares exact values. With major versions of 10 or more PHP compares floats instead. For the list ABCD-10.0.0.1, ABCD-10.0.0.0, PHP's `>=` picks ABCD-10.0.0.0 and the model picks ABCD-10.0.0.1.
- Games.AuthLatest: the latest version it names is the one found by the exact values, as under `Games.GameCatalogue.FindLatestVersion`.
- `Games.GameCatalogue.constructor`: the database list is updated in place from the calls it sends, rather than by reading `Game_ListAll_ID` again after each one; the two agree when each call adds exactly its game. The `Game_GetTitle` lookup and the alert mail for a game without a title are not modelled. Every call is issued: in PHP the first refused `Game_NewVersion` call (GameAuthoriser.php:80-81), a failed `read_in_database_games` query or a failed `Game_GetTitle` lookup throws PBX502 out of `new RequestManager()`, no later call is sent, and no request is answered.
- `AchivUnlock.Unlocker.constructor`: the table read again after the sync is an input (`reread`), since the table's contents after the writes are not modelled. Every call is issued: in PHP the first refused sync call (AchivUnlocker.php:79 and 84) or a failed `read_in_db_achievements` query throws PBX502 out of `new RequestManager()`, no later call is sent, and no request is answered.
- Names.Overriding: the override code must be exactly the text "300594"; PHP's loose `==` (NameAuthoriser.php:77) also accepts other numeric texts of the same number, such as "300594.0", "0300594" or "3.00594e5".
- Names.OverridePath: holds for the exact text "300594" only, as under `Names.Overriding`.
- Names.Execute: takes the override only for the exact text "300594", as under `Names.Overriding`; and the player lookup is membership in `players`, so the PBX502 of the `COUNT` query of `check_player_exists` (NameAuthoriser.php:189-190) for a name with a quote is not an answer it gives.
- PhpText.IntValue: reads only a text's leading digits. PHP's `(int)` also skips leading whitespace, reads a sign and, in arithmetic, an exponent: `" 5"` is 5, `"-3"` is -3 and `"1e3"` is 1000 in PHP, and 0, 0 and 1 in the model. The texts cast in the model are database values and digit-checked version parts.
- PhpText.LeadingDigits: no whitespace or sign is skipped before the digits, as under `PhpText.IntValue`.
- PhpText.IntValueOfText: states the model's reading; PHP agrees only when the rest does not continue the number, which an exponent such as "e3" or a fraction does.
- The `urldecode` loop of `index.php` discards its results, so the request parameters are used as received; `header()` and `require` have no counterpart.
- The unused request id of the request manager's constructor (a hash of `rand`) is not modelled.
- `iRequestHandler.php` only declares the three handler methods; the `Dispatch.Handler` datatype plays its part.
- The checks-then-insert sequences (a name taken or an achievement unlocked between the check and the write) are sequential here; concurrency is not modelled.

## Findings

| source | as written | input that shows it | evidently intended | confidence | as-written member | corrected member |
|---|---|---|---|---|---|---|
| src/cgi-bin/request/handlers/score/ScoreSubmitter.php:94-101 | `.` binds tighter than `?:`, so without a level the statement stops at `NULL,` and holds no `;`; the wrapper then sends nothing, the results field stays unset and the submission is answered with NULL, so the page is a PBX200 with an empty message; the handler (`ScoreSubmit.Row`) sends this text | a valid submission with no `level` parameter | the level column is NULL and the time, game, version parts and country follow, as with a level | high (not executed) | ScoreSubmit.NoLevelAnswersNull | ScoreSubmit.RowAgainstIntended |
