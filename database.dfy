/**
 * The database wrapper (cgi-bin/database/Database.php).  The MySQL server is
 * an oracle: a connection answers each statement text with `Pushed`, a
 * result set or a failure.  A script is cut at every `;`, the pieces before
 * the last cut are sent in order with the `;` put back, the first failure
 * stops the run, and a run whose `true` answers form a non-empty prefix is
 * reported as the single value `true` through the "all-true" signal.
 */
module Db {

  import opened Outcome
  import opened PhpText
  import KeyCodec

  /** A live connection: the answer the server gives to a statement. */
  type Oracle = string -> Answer

  /** The services around the database that the model does not look into. */
  datatype Platform = Platform(
    /** The configuration's `pwd` helper: the password of a user name. */
    pwdOf: string -> string,
    /** `new mysqli(host, user, password, db)`; `Fail` holds `connect_error`. */
    connect: (string, string, string) -> Result<Oracle>,
    /** `xml_query` rendering of a result list. */
    xmlOf: seq<Answer> -> string,
    /** `json_encode` of an `array_query` value. */
    jsonOf: ArrayValue -> string,
    /** `print_r(..., true)` of an `array_query` value. */
    printOf: ArrayValue -> string,
    /** `json_encode` of the achievement statistics (unlocked, locked,
     *  total and the two `number_format` percentages). */
    statsJsonOf: (int, int, int) -> string)

  /** The statements of a script: every `;`-terminated piece, in order; the
   *  text after the last `;` is dropped. */
  function Statements(sql: string): (r: seq<string>)
    ensures |r| == |Explode(';', sql)| - 1
    ensures forall i :: 0 <= i < |r| ==> r[i] == Explode(';', sql)[i] + ";"
  {
    var all := Explode(';', sql);
    seq(|all| - 1, i requires 0 <= i < |all| - 1 => all[i] + ";")
  }

  /** `;`-terminated statements without inner `;` glued together. */
  function Script(parts: seq<string>): (r: string)
  {
    if parts == [] then "" else parts[0] + ";" + Script(parts[1..])
  }

  lemma {:induction false} ScriptImplode(parts: seq<string>)
    ensures Script(parts) == Implode(';', parts + [""])
    decreases |parts|
  {
    if parts != [] {
      ScriptImplode(parts[1..]);
      assert (parts + [""])[1..] == parts[1..] + [""];
    }
  }

  /** Cutting a script at its `;`s gives its statements, and an empty
   *  piece after the last one. */
  lemma ExplodeScript(parts: seq<string>)
    requires forall i :: 0 <= i < |parts| ==> ';' !in parts[i]
    ensures Explode(';', Script(parts)) == parts + [""]
  {
    ScriptImplode(parts);
    var pieces := parts + [""];
    forall i | 0 <= i < |pieces|
      ensures ';' !in pieces[i]
    {
      if i < |parts| {
        assert pieces[i] == parts[i];
      }
    }
    ExplodeImplode(';', pieces);
  }

  /** A script made of statements is cut back into exactly those
   *  statements, in order. */
  lemma StatementsOfScript(parts: seq<string>)
    requires forall i :: 0 <= i < |parts| ==> ';' !in parts[i]
    ensures Statements(Script(parts)) == seq(|parts|, i requires 0 <= i < |parts| => parts[i] + ";")
  {
    ExplodeScript(parts);
    var r := Statements(Script(parts));
    forall i | 0 <= i < |parts|
      ensures r[i] == parts[i] + ";"
    {
      assert (parts + [""])[i] == parts[i];
    }
  }

  /** A text with no `;` but a final one is one statement. */
  lemma OneStatement(t: string)
    requires ';' !in t
    ensures Statements(t + ";") == [t + ";"]
  {
    StatementsOfScript([t]);
    assert Script([t]) == t + ";";
  }

  /** The answers the connection gives to the statements, one each. */
  function Answers(conn: Oracle, stmts: seq<string>): (r: seq<Answer>)
    ensures |r| == |stmts|
    ensures forall i :: 0 <= i < |stmts| ==> r[i] == conn(stmts[i])
  {
    seq(|stmts|, i requires 0 <= i < |stmts| => conn(stmts[i]))
  }

  /** How many answers come before the first failure. */
  function Succeeded(a: seq<Answer>): (n: nat)
    ensures n <= |a|
    ensures forall j :: 0 <= j < n ==> !a[j].Failed?
    ensures n < |a| ==> a[n].Failed?
  {
    if a == [] || a[0].Failed? then 0 else 1 + Succeeded(a[1..])
  }

  /** The results field after storing `recent` from index 0 on: entries
   *  beyond it survive from earlier runs. */
  function Overlay(stored: seq<Answer>, recent: seq<Answer>): (r: seq<Answer>)
    ensures |r| == if |recent| < |stored| then |stored| else |recent|
    ensures forall i :: 0 <= i < |r| ==> r[i] == if i < |recent| then recent[i] else stored[i]
  {
    if |recent| >= |stored| then recent else recent + stored[|recent|..]
  }

  /** The number of `true` answers. */
  function CountPushed(a: seq<Answer>): (k: nat)
    ensures k <= |a|
  {
    if a == [] then 0 else CountPushed(a[..|a| - 1]) + if a[|a| - 1].Pushed? then 1 else 0
  }

  /** The test of `raw_query`'s second loop: counting `k` true answers, the
   *  first `k` answers are all true, and `k` is at least one. */
  predicate PushPrefix(a: seq<Answer>)
  {
    var k := CountPushed(a);
    k >= 1 && forall j :: 0 <= j < k ==> a[j].Pushed?
  }

  /** "all-true" is raised exactly when the true answers are a non-empty
   *  prefix: some `k >= 1` answers come first and all others are not
   *  `true`, whatever follows them. */
  lemma PushPrefixIff(a: seq<Answer>)
    ensures PushPrefix(a) <==> exists k :: 1 <= k <= |a| && IsPushRun(a, k)
  {
    if PushPrefix(a) {
      var k := CountPushed(a);
      CountPrefix(a, k);
      assert IsPushRun(a, k);
    }
    if exists k :: 1 <= k <= |a| && IsPushRun(a, k) {
      var k :| 1 <= k <= |a| && IsPushRun(a, k);
      CountPrefix(a, k);
    }
  }

  /** Exactly the first `k` answers are `true`. */
  predicate IsPushRun(a: seq<Answer>, k: nat)
  {
    forall j :: 0 <= j < |a| ==> (a[j].Pushed? <==> j < k)
  }

  lemma {:induction false} CountPrefix(a: seq<Answer>, k: nat)
    requires k <= |a|
    ensures (forall j :: 0 <= j < k ==> a[j].Pushed?) && k == CountPushed(a) ==> IsPushRun(a, k)
    ensures IsPushRun(a, k) ==> k == CountPushed(a)
    decreases |a|
  {
    if a != [] {
      var b := a[..|a| - 1];
      if k == |a| {
        CountAtMost(a);
        if forall j :: 0 <= j < k ==> a[j].Pushed? {
          CountAll(a);
        }
        if IsPushRun(a, k) {
          CountAll(a);
        }
      } else {
        assert forall j :: 0 <= j < |b| ==> b[j] == a[j];
        CountPrefix(b, k);
        if (forall j :: 0 <= j < k ==> a[j].Pushed?) && k == CountPushed(a) {
          assert forall j :: 0 <= j < k ==> b[j].Pushed?;
          CountAtLeast(b, k);
          assert !a[|a| - 1].Pushed?;
          assert k == CountPushed(b);
        }
      }
    }
  }

  /** With all answers true the count is the length. */
  lemma {:induction false} CountAll(a: seq<Answer>)
    requires forall j :: 0 <= j < |a| ==> a[j].Pushed?
    ensures CountPushed(a) == |a|
    decreases |a|
  {
    if a != [] {
      CountAll(a[..|a| - 1]);
    }
  }

  /** A count equal to the length means all answers are true. */
  lemma {:induction false} CountAtMost(a: seq<Answer>)
    ensures CountPushed(a) == |a| ==> forall j :: 0 <= j < |a| ==> a[j].Pushed?
    decreases |a|
  {
    if a != [] {
      var b := a[..|a| - 1];
      CountAtMost(b);
      assert forall j :: 0 <= j < |b| ==> b[j] == a[j];
    }
  }

  /** The true answers among the first `k` are counted. */
  lemma {:induction false} CountAtLeast(a: seq<Answer>, k: nat)
    requires k <= |a|
    requires forall j :: 0 <= j < k ==> a[j].Pushed?
    ensures CountPushed(a) >= k
    decreases |a|
  {
    if a != [] {
      if k == |a| {
        CountAll(a);
      } else {
        CountAtLeast(a[..|a| - 1], k);
      }
    }
  }

  /** `raw_query` on the stored results: the new results field and the
   *  outcome.  `Fail("all-true")` is the signal `execute_query` catches. */
  function RawOutcome(conn: Oracle, stored: seq<Answer>, sql: string): (r: (seq<Answer>, Result<seq<Answer>>))
  {
    RunOutcome(conn, stored, Statements(sql))
  }

  /** Sending a list of statements in order, as `raw_query` does. */
  function RunOutcome(conn: Oracle, stored: seq<Answer>, stmts: seq<string>): (r: (seq<Answer>, Result<seq<Answer>>))
  {
    var a := Answers(conn, stmts);
    var n := Succeeded(a);
    var results := Overlay(stored, a[..n]);
    if n < |a| then (results, Fail("PBX502:" + a[n].error))
    else if PushPrefix(a) then (results, Fail("all-true"))
    else (results, Ok(results))
  }

  /** The rows `array_query` records for the i-th stored result: its own
   *  rows for a result set, otherwise whatever the previous entry held. */
  function LastRows(results: seq<Answer>): (r: Option<seq<Row>>)
  {
    if results == [] then None
    else if results[|results| - 1].ResultSet? then Some(results[|results| - 1].rows)
    else LastRows(results[..|results| - 1])
  }

  function Entries(results: seq<Answer>): (r: seq<Option<seq<Row>>>)
    ensures |r| == |results|
  {
    if results == [] then [] else Entries(results[..|results| - 1]) + [LastRows(results)]
  }

  /** Each stored result set yields its rows; a `true` answer repeats the
   *  entry before it, or NULL when it comes first. */
  lemma {:induction false} EntriesShape(results: seq<Answer>)
    ensures forall i :: 0 <= i < |results| && results[i].ResultSet? ==> Entries(results)[i] == Some(results[i].rows)
    ensures forall i {:trigger results[i]} :: 0 <= i < |results| && !results[i].ResultSet? ==>
      Entries(results)[i] == if i == 0 then None else Entries(results)[i - 1]
    decreases |results|
  {
    if results != [] {
      var b := results[..|results| - 1];
      EntriesShape(b);
      var e := Entries(results);
      var eb := Entries(b);
      assert e == eb + [LastRows(results)];
      forall i | 0 <= i < |results|
        ensures results[i].ResultSet? ==> e[i] == Some(results[i].rows)
        ensures !results[i].ResultSet? ==> e[i] == if i == 0 then None else e[i - 1]
      {
        if i < |b| {
          assert results[i] == b[i];
          assert e[i] == eb[i];
          if !b[i].ResultSet? {
            assert eb[i] == if i == 0 then None else eb[i - 1];
            if i > 0 {
              assert e[i - 1] == eb[i - 1];
            }
          }
        } else {
          assert e[i] == LastRows(results);
          assert results[..|results| - 1] == b;
          if !results[i].ResultSet? {
            assert LastRows(results) == LastRows(b);
            if i > 0 {
              assert LastRows(b) == eb[|b| - 1];
              assert e[i - 1] == eb[|b| - 1];
              assert e[i] == e[i - 1];
            } else {
              assert e[i] == None;
            }
          }
        }
      }
    }
  }

  /** The entries list, unwrapped when it has exactly one entry. */
  function Arrange(results: seq<Answer>): (r: ArrayValue)
    ensures |results| == 1 <==> r.Single?
    ensures r.Several? ==> r.entries == Entries(results)
    ensures r.Single? ==> r.entry == Entries(results)[0]
  {
    var e := Entries(results);
    if |e| == 1 then Single(e[0]) else Several(e)
  }

  /** `execute_query(sql, format)` on the stored results: the new results
   *  field and what the caller receives. */
  function QueryOutcome(p: Platform, conn: Oracle, stored: seq<Answer>, sql: string, format: Option<string>): (r: (seq<Answer>, Result<Reply>))
    ensures !KnownFormat(format) ==> r == (stored, Fail("PBX401:" + format.value + " is not a valid result format"))
    ensures KnownFormat(format) && !(Reads(format) && RawOutcome(conn, stored, sql).1.Ok?) ==>
      r.0 == RawOutcome(conn, stored, sql).0
    ensures Reads(format) && RawOutcome(conn, stored, sql).1.Ok? ==> r.0 == Consumed(RawOutcome(conn, stored, sql).0)
    ensures KnownFormat(format) && RawOutcome(conn, stored, sql).1 == Fail("all-true") ==> r.1 == Ok(Yes)
  {
    if !KnownFormat(format) then (stored, Fail("PBX401:" + format.value + " is not a valid result format"))
    else
      var (results, raw) := RawOutcome(conn, stored, sql);
      match raw
      case Fail(m) => (results, if m == "all-true" then Ok(Yes) else Fail(m))
      case Ok(res) => (if Reads(format) then Consumed(results) else results, Ok(Present(p, format, res)))
  }

  /** The formats whose reply is built by fetching every row of every
   *  stored result set (`xml_query` and `array_query`). */
  predicate Reads(format: Option<string>)
  {
    format.Some? && format.value in {"xml", "array", "array-printable", "json"}
  }

  /** The results field once its rows have all been fetched: each result
   *  set's cursor is at its end, so a later fetch from it gives no rows. */
  function Consumed(results: seq<Answer>): (r: seq<Answer>)
  {
    seq(|results|, i requires 0 <= i < |results| => if results[i].ResultSet? then ResultSet([]) else results[i])
  }

  /** A read leaves the field's answers in place, each result set in it
   *  with no rows left to fetch. */
  lemma ReadConsumes(p: Platform, conn: Oracle, stored: seq<Answer>, sql: string, format: Option<string>)
    requires Reads(format) && RawOutcome(conn, stored, sql).1.Ok?
    ensures var before := RawOutcome(conn, stored, sql).0;
      var after := QueryOutcome(p, conn, stored, sql, format).0;
      |after| == |before| &&
      (forall i :: 0 <= i < |after| ==> (after[i].ResultSet? <==> before[i].ResultSet?)) &&
      (forall i :: 0 <= i < |after| && after[i].ResultSet? ==> after[i].rows == []) &&
      (forall i :: 0 <= i < |after| && !after[i].ResultSet? ==> after[i] == before[i])
  {
  }

  /** On an object whose result sets have been read through, a later run
   *  that leaves a stored result set in place gets no rows from it. */
  lemma StaleResultSetEmpty(conn: Oracle, stored: seq<Answer>, sql: string, i: nat)
    requires forall j :: 0 <= j < |stored| && stored[j].ResultSet? ==> stored[j].rows == []
    requires RawOutcome(conn, stored, sql).1.Ok?
    requires |Statements(sql)| <= i < |stored| && stored[i].ResultSet?
    ensures Entries(RawOutcome(conn, stored, sql).1.value)[i] == Some([])
  {
    var res := RawOutcome(conn, stored, sql).1.value;
    var a := Answers(conn, Statements(sql));
    assert Succeeded(a) == |a|;
    assert res == Overlay(stored, a[..|a|]);
    assert res[i] == stored[i];
    EntriesShape(res);
  }

  /** Statements that all answer with a result set run to the end, and
   *  the field is the outcome. */
  lemma SetsRun(conn: Oracle, stored: seq<Answer>, stmts: seq<string>)
    requires |stmts| >= 1 && forall j :: 0 <= j < |stmts| ==> conn(stmts[j]).ResultSet?
    ensures var res := Overlay(stored, Answers(conn, stmts));
      RunOutcome(conn, stored, stmts) == (res, Ok(res))
  {
    RunOutcomeRuns(conn, stored, stmts);
    assert Answers(conn, stmts)[0].ResultSet?;
  }

  /** The statements of scripts of one and of two statements. */
  lemma ScriptOfTwo(a: string, b: string)
    requires ';' !in a && ';' !in b
    ensures Statements(Script([a, b])) == [a + ";", b + ";"]
  {
    StatementsOfScript([a, b]);
  }

  lemma ScriptOfOne(c: string)
    requires ';' !in c
    ensures Statements(Script([c])) == [c + ";"]
  {
    StatementsOfScript([c]);
  }

  /** An array read whose run succeeds answers the arranged entries of the
   *  field it left, and consumes it. */
  lemma ArrayRead(p: Platform, conn: Oracle, stored: seq<Answer>, sql: string, res: seq<Answer>)
    requires RawOutcome(conn, stored, sql) == (res, Ok(res))
    ensures QueryOutcome(p, conn, stored, sql, Some("array")) == (Consumed(res), Ok(Arrays(Arrange(res))))
  {
  }

  /** The first read: both result sets' rows, and both consumed. */
  lemma ReadOfTwo(p: Platform, conn: Oracle, a: string, b: string, rowsA: seq<Row>, rowsB: seq<Row>)
    requires ';' !in a && ';' !in b
    requires conn(a + ";") == ResultSet(rowsA) && conn(b + ";") == ResultSet(rowsB)
    ensures QueryOutcome(p, conn, [], Script([a, b]), Some("array")) ==
      ([ResultSet([]), ResultSet([])], Ok(Arrays(Several([Some(rowsA), Some(rowsB)]))))
  {
    ScriptOfTwo(a, b);
    var s1 := [a + ";", b + ";"];
    SetsRun(conn, [], s1);
    var a1 := Answers(conn, s1);
    assert a1 == [ResultSet(rowsA), ResultSet(rowsB)];
    ArrayRead(p, conn, [], Script([a, b]), a1);
    assert Entries(a1) == [Some(rowsA), Some(rowsB)];
    assert Consumed(a1) == [ResultSet([]), ResultSet([])];
  }

  /** The second read, on the consumed field: its own rows, then none. */
  lemma ReadAfterTwo(p: Platform, conn: Oracle, c: string, rowsC: seq<Row>)
    requires ';' !in c && conn(c + ";") == ResultSet(rowsC)
    ensures QueryOutcome(p, conn, [ResultSet([]), ResultSet([])], Script([c]), Some("array")).1 ==
      Ok(Arrays(Several([Some(rowsC), Some([])])))
  {
    var f := [ResultSet([]), ResultSet([])];
    ScriptOfOne(c);
    var s2 := [c + ";"];
    SetsRun(conn, f, s2);
    var r2 := Overlay(f, Answers(conn, s2));
    assert r2 == [ResultSet(rowsC), ResultSet([])];
    ArrayRead(p, conn, f, Script([c]), r2);
    assert Entries(r2) == [Some(rowsC), Some([])];
  }

  /** Two array reads on one object: `a; b;` answers the rows of both, and
   *  a later `c;` answers the rows of `c` and none for `b`, whose rows the
   *  first read fetched. */
  lemma ReusedArrayRead(p: Platform, conn: Oracle, a: string, b: string, c: string,
                        rowsA: seq<Row>, rowsB: seq<Row>, rowsC: seq<Row>)
    requires ';' !in a && ';' !in b && ';' !in c
    requires conn(a + ";") == ResultSet(rowsA) && conn(b + ";") == ResultSet(rowsB) && conn(c + ";") == ResultSet(rowsC)
    ensures var first := QueryOutcome(p, conn, [], Script([a, b]), Some("array"));
      first.1 == Ok(Arrays(Several([Some(rowsA), Some(rowsB)]))) &&
      QueryOutcome(p, conn, first.0, Script([c]), Some("array")).1 == Ok(Arrays(Several([Some(rowsC), Some([])])))
  {
    ReadOfTwo(p, conn, a, b, rowsA, rowsB);
    ReadAfterTwo(p, conn, c, rowsC);
  }

  /** The formats `execute_query` accepts; `switch` compares loosely, so
   *  the empty string matches `case NULL`. */
  predicate KnownFormat(format: Option<string>)
  {
    format.None? || format.value in {"xml", "array", "array-printable", "json", "raw", ""}
  }

  /** The results field as `raw_query` returns it: it stays unset (NULL)
   *  until a statement succeeds, and from then on holds at least one
   *  answer, so the empty list stands for NULL. */
  function RawReply(res: seq<Answer>): (r: Reply)
  {
    if res == [] then Null else Raw(res)
  }

  /** The reply `execute_query` gives for the results in a known format. */
  function Present(p: Platform, format: Option<string>, res: seq<Answer>): (r: Reply)
  {
    match format
    case None => RawReply(res)
    case Some(f) =>
      if f == "xml" then Text(p.xmlOf(res))
      else if f == "array" then Arrays(Arrange(res))
      else if f == "array-printable" then Text(p.printOf(Arrange(res)))
      else if f == "json" then Text(p.jsonOf(Arrange(res)))
      else RawReply(res)
  }

  /** `new Database(user, password, db)` as seen by a caller: the password
   *  `false` (`None`) is looked up with `pwd`; a connection error is PBX501. */
  function Connect(p: Platform, user: string, password: Option<string>, db: string): (r: Result<Oracle>)
    ensures r.Fail? <==> p.connect(user, Password(p, user, password), db).Fail?
    ensures r.Fail? ==> r.msg == "PBX501:" + p.connect(user, Password(p, user, password), db).msg
  {
    match p.connect(user, Password(p, user, password), db)
    case Fail(e) => Fail("PBX501:" + e)
    case Ok(c) => Ok(c)
  }

  function Password(p: Platform, user: string, password: Option<string>): string
  {
    if password.None? then p.pwdOf(user) else password.value
  }

  /** The password `new_sec_ctn` hands to the server for a stored
   *  password: the first 25 characters of the pinned-salt SHA-256 of
   *  `PBXDB:pwd=<password>&`. */
  function SecurePassword(lib: KeyCodec.Env, password: string): (r: string)
  {
    lib.sha256("PBXDB:pwd=" + password + "&:" + lib.saltText(KeyCodec.SaltValue(KeyCodec.Pinned)))[..25]
  }

  /** `new_sec_ctn(user, password, db)`: connects with the PBX password
   *  derived from the given (or looked-up) password; it is refused, with
   *  PBX501, exactly when the server refuses that derived password. */
  function SecureConnect(p: Platform, lib: KeyCodec.Env, user: string, password: Option<string>, db: string): (r: Result<Oracle>)
    ensures r.Fail? <==> p.connect(user, SecurePassword(lib, Password(p, user, password)), db).Fail?
    ensures r.Fail? ==> r.msg == "PBX501:" + p.connect(user, SecurePassword(lib, Password(p, user, password)), db).msg
    ensures r.Ok? ==> r.value == p.connect(user, SecurePassword(lib, Password(p, user, password)), db).value
  {
    KeyCodec.GeneratePwdContents(lib, Password(p, user, password));
    Connect(p, user, Some(KeyCodec.GeneratePwd(lib, Password(p, user, password))), db)
  }

  /** The secure connection does not depend on the clock: the derived
   *  password uses the pinned instant. */
  lemma SecureConnectIgnoresClock(p: Platform, lib: KeyCodec.Env, window: KeyCodec.Stamp -> bool,
                                  user: string, password: Option<string>, db: string)
    ensures lib.(inWindow := window).parse(KeyCodec.PinnedText) == Ok(KeyCodec.Pinned)
    ensures SecureConnect(p, lib.(inWindow := window), user, password, db) == SecureConnect(p, lib, user, password, db)
  {
    KeyCodec.GeneratePwdIgnoresClock(lib, window, Password(p, user, password));
  }

  /** One `execute_query` call on a freshly made connection, as every
   *  handler issues it. */
  function FreshQuery(p: Platform, conn: Oracle, sql: string, format: Option<string>): (r: Result<Reply>)
  {
    QueryOutcome(p, conn, [], sql, format).1
  }

  /** A text without `;` holds no statement: nothing reaches the server
   *  and the caller receives the empty results in its format, which for
   *  the raw formats is the unset results field, NULL. */
  lemma FreshQueryNoStatement(p: Platform, conn: Oracle, sql: string, format: Option<string>)
    requires ';' !in sql && KnownFormat(format)
    ensures Statements(sql) == []
    ensures FreshQuery(p, conn, sql, format) == Ok(Present(p, format, []))
    ensures format.None? || format.value in {"raw", ""} ==> FreshQuery(p, conn, sql, format) == Ok(Null)
  {
    assert Explode(';', sql) == [sql];
    assert |Statements(sql)| == 0;
    var a := Answers(conn, []);
    assert a == [];
    assert CountPushed(a) == 0;
  }

  /** On a fresh connection, a script of statements that all answer `true`
   *  gives `true`, whatever the (known) result format. */
  lemma FreshPushScript(p: Platform, conn: Oracle, parts: seq<string>, format: Option<string>)
    requires KnownFormat(format) && |parts| >= 1
    requires forall i :: 0 <= i < |parts| ==> ';' !in parts[i] && conn(parts[i] + ";").Pushed?
    ensures FreshQuery(p, conn, Script(parts), format) == Ok(Yes)
  {
    PushScriptAllTrue(conn, parts);
  }

  /** The raw run of such a script raises the "all-true" signal. */
  lemma PushScriptAllTrue(conn: Oracle, parts: seq<string>)
    requires |parts| >= 1
    requires forall i :: 0 <= i < |parts| ==> ';' !in parts[i] && conn(parts[i] + ";").Pushed?
    ensures RawOutcome(conn, [], Script(parts)).1 == Fail("all-true")
  {
    StatementsOfScript(parts);
    var stmts := Statements(Script(parts));
    forall j | 0 <= j < |stmts|
      ensures conn(stmts[j]).Pushed?
    {
      assert stmts[j] == parts[j] + ";";
    }
    AllPushedRun(conn, [], stmts);
  }

  /** Statements that all answer `true` raise the "all-true" signal. */
  lemma AllPushedRun(conn: Oracle, stored: seq<Answer>, stmts: seq<string>)
    requires |stmts| >= 1
    requires forall j :: 0 <= j < |stmts| ==> conn(stmts[j]).Pushed?
    ensures RunOutcome(conn, stored, stmts).1 == Fail("all-true")
  {
    var a := Answers(conn, stmts);
    CountAll(a);
    SucceededAt(a, |a|);
    assert PushPrefix(a);
  }

  class Database {
    const conn: Oracle
    /** `$this->results`: written at the executed indices, never cleared;
     *  its keys are always 0, 1, ..., so it is kept as a sequence. */
    var results: seq<Answer>
    /** The statements sent to the server so far. */
    ghost var sent: seq<string>

    constructor (conn: Oracle)
      ensures this.conn == conn && results == [] && sent == []
    {
      this.conn := conn;
      results := [];
      sent := [];
    }

    /** The constructor's connection step: PBX501 on a connection error. */
    static method Open(p: Platform, user: string, password: Option<string>, db: string) returns (r: Result<Database>)
      ensures Connect(p, user, password, db).Fail? ==> r == Fail(Connect(p, user, password, db).msg)
      ensures Connect(p, user, password, db).Ok? ==>
        r.Ok? && fresh(r.value) && r.value.conn == Connect(p, user, password, db).value &&
        r.value.results == [] && r.value.sent == []
    {
      var pw := if password.None? then p.pwdOf(user) else password.value;
      var ctn := p.connect(user, pw, db);
      if ctn.Fail? {
        return Fail("PBX501:" + ctn.msg);
      }
      var d := new Database(ctn.value);
      return Ok(d);
    }

    /** `new_sec_ctn`. */
    static method NewSecCtn(p: Platform, lib: KeyCodec.Env, user: string, password: Option<string>, db: string) returns (r: Result<Database>)
      ensures SecureConnect(p, lib, user, password, db).Fail? ==> r == Fail(SecureConnect(p, lib, user, password, db).msg)
      ensures SecureConnect(p, lib, user, password, db).Ok? ==>
        r.Ok? && fresh(r.value) && r.value.conn == SecureConnect(p, lib, user, password, db).value &&
        r.value.results == [] && r.value.sent == []
    {
      var pw := if password.None? then p.pwdOf(user) else password.value;
      var key := KeyCodec.GeneratePwd(lib, pw);
      r := Open(p, user, Some(key), db);
    }

    /** `raw_query`: sends the statements in order until one fails. */
    method RawQuery(sql: string) returns (r: Result<seq<Answer>>)
      modifies this
      ensures (results, r) == RawOutcome(conn, old(results), sql)
      ensures var stmts := Statements(sql); var n := Succeeded(Answers(conn, stmts));
        sent == old(sent) + stmts[..if n < |stmts| then n + 1 else n]
    {
      // explode(";", sql) with the ";" put back on every piece but the last
      var stmts := Statements(sql);
      r := Send(stmts);
    }

    /** The two loops of `raw_query` over the statement list. */
    method Send(stmts: seq<string>) returns (r: Result<seq<Answer>>)
      modifies this
      ensures (results, r) == RunOutcome(conn, old(results), stmts)
      ensures var n := Succeeded(Answers(conn, stmts));
        sent == old(sent) + stmts[..if n < |stmts| then n + 1 else n]
    {
      ghost var a := Answers(conn, stmts);
      var stored := results;
      var res := stored;
      var truth: set<int> := {};
      var i := 0;
      while i < |stmts|
        invariant 0 <= i <= |stmts| == |a|
        invariant Sending(stored, a, i, res, truth)
        invariant results == stored && sent == old(sent)
      {
        var answer := conn(stmts[i]);
        assert answer == a[i];
        if answer.Failed? {
          RunOutcomeFails(conn, stored, stmts, i);
          sent := sent + stmts[..i + 1];
          results := res;
          return Fail("PBX502:" + answer.error);
        }
        SendStep(stored, a, i, res, truth);
        res := if i < |res| then res[i := answer] else res + [answer];
        truth := if answer.Pushed? then truth + {i} else truth;
        i := i + 1;
      }
      assert a[..i] == a;
      sent := sent + stmts[..i];
      results := res;
      RunOutcomeRuns(conn, stored, stmts);
      var allTrue := TruthRun(truth);
      TruthIsPushPrefix(a, truth);
      if allTrue {
        return Fail("all-true");
      }
      return Ok(results);
    }

    /** `array_query`: one entry per stored result, the row list of the
     *  latest result set seen so far. */
    method ArrayQuery(sql: string) returns (r: Result<ArrayValue>)
      modifies this
      ensures var out := RawOutcome(conn, old(results), sql);
        results == if out.1.Ok? then Consumed(out.0) else out.0
      ensures var raw := RawOutcome(conn, old(results), sql).1;
        r == if raw.Fail? then Fail(raw.msg) else Ok(Arrange(raw.value))
    {
      var raw := RawQuery(sql);
      if raw.Fail? {
        return Fail(raw.msg);
      }
      var value := Collect(raw.value);
      // the fetch loops leave every result set at its end
      results := Consumed(results);
      return Ok(value);
    }

    /** `execute_query`: dispatches on the result format and turns the
     *  "all-true" signal into `true`; other errors propagate. */
    method ExecuteQuery(p: Platform, sql: string, format: Option<string>) returns (r: Result<Reply>)
      modifies this
      ensures (results, r) == QueryOutcome(p, conn, old(results), sql, format)
    {
      if !KnownFormat(format) {
        return Fail("PBX401:" + format.value + " is not a valid result format");
      }
      var f := if format.None? then "" else format.value;
      if f == "array" || f == "array-printable" || f == "json" {
        var v := ArrayQuery(sql);
        if v.Fail? {
          r := if v.msg == "all-true" then Ok(Yes) else Fail(v.msg);
        } else if f == "array" {
          r := Ok(Arrays(v.value));
        } else if f == "array-printable" {
          r := Ok(Text(p.printOf(v.value)));
        } else {
          r := Ok(Text(p.jsonOf(v.value)));
        }
      } else {
        var raw := RawQuery(sql);
        if raw.Fail? {
          r := if raw.msg == "all-true" then Ok(Yes) else Fail(raw.msg);
        } else if f == "xml" {
          r := Ok(Text(p.xmlOf(raw.value)));
          results := Consumed(results);
        } else {
          r := Ok(RawReply(raw.value));
        }
      }
    }
  }

  /** The collecting loop of `array_query`: one entry per stored answer,
   *  the rows of the latest result set seen so far (`NULL` before the
   *  first), each set copied row by row; a single entry is unwrapped. */
  method Collect(res: seq<Answer>) returns (value: ArrayValue)
    ensures value == Arrange(res)
  {
    var queryArray: seq<Option<seq<Row>>> := [];
    var resultArray: Option<seq<Row>> := None;
    var i := 0;
    while i < |res|
      invariant 0 <= i <= |res|
      invariant queryArray == Entries(res[..i])
      invariant resultArray == LastRows(res[..i])
    {
      assert res[..i + 1][..i] == res[..i];
      if res[i].ResultSet? {
        var rows := res[i].rows;
        var records: seq<Row> := [];
        var j := 0;
        while j < |rows|
          invariant 0 <= j <= |rows|
          invariant records == rows[..j]
        {
          records := records + [rows[j]];
          j := j + 1;
        }
        assert rows[..j] == rows;
        resultArray := Some(records);
      }
      queryArray := queryArray + [resultArray];
      i := i + 1;
    }
    assert res[..i] == res;
    if |queryArray| == 1 {
      return Single(queryArray[0]);
    }
    return Several(queryArray);
  }

  /** The second loop of `raw_query` over the indices of the `true`
   *  answers: it signals "all-true" when they are exactly 0, 1, ..., k-1
   *  for their count k >= 1. */
  method TruthRun(truth: set<int>) returns (allTrue: bool)
    ensures allTrue <==> |truth| >= 1 && forall j :: 0 <= j < |truth| ==> j in truth
  {
    var k := |truth|;
    var i := 0;
    while i < k
      invariant 0 <= i <= k
      invariant i < k || k == 0
      invariant forall j :: 0 <= j < i ==> j in truth
    {
      if i in truth {
        if i == k - 1 {
          return true;
        }
      } else {
        break;
      }
      i := i + 1;
    }
    return false;
  }

  lemma RunOutcomeFails(conn: Oracle, stored: seq<Answer>, stmts: seq<string>, i: nat)
    requires var a := Answers(conn, stmts);
      i < |a| && a[i].Failed? && forall j :: 0 <= j < i ==> !a[j].Failed?
    ensures var a := Answers(conn, stmts);
      RunOutcome(conn, stored, stmts) == (Overlay(stored, a[..i]), Fail("PBX502:" + a[i].error))
      && Succeeded(a) == i
  {
    SucceededAt(Answers(conn, stmts), i);
  }

  lemma RunOutcomeRuns(conn: Oracle, stored: seq<Answer>, stmts: seq<string>)
    requires var a := Answers(conn, stmts); forall j :: 0 <= j < |a| ==> !a[j].Failed?
    ensures var a := Answers(conn, stmts);
      Succeeded(a) == |a| &&
      RunOutcome(conn, stored, stmts) ==
        (Overlay(stored, a), if PushPrefix(a) then Fail("all-true") else Ok(Overlay(stored, a)))
  {
    var a := Answers(conn, stmts);
    SucceededAt(a, |a|);
    assert a[..|a|] == a;
  }

  lemma TruthIsPushPrefix(a: seq<Answer>, truth: set<int>)
    requires forall j :: j in truth <==> 0 <= j < |a| && a[j].Pushed?
    requires |truth| == CountPushed(a)
    ensures (|truth| >= 1 && forall j :: 0 <= j < |truth| ==> j in truth) <==> PushPrefix(a)
  {
  }

  /** One step of `raw_query`'s first loop on `$truthArray`. */
  lemma TruthStep(a: seq<Answer>, i: nat, truth: set<int>)
    requires i < |a|
    requires forall j :: j in truth <==> 0 <= j < i && a[j].Pushed?
    requires |truth| == CountPushed(a[..i])
    ensures var t := if a[i].Pushed? then truth + {i} else truth;
      (forall j :: j in t <==> 0 <= j < i + 1 && a[j].Pushed?) && |t| == CountPushed(a[..i + 1])
  {
    assert a[..i + 1][..i] == a[..i];
    assert i !in truth;
  }

  /** The state of `raw_query`'s first loop after `i` statements: none
   *  failed, the results field holds their answers over the stored ones,
   *  and `truth` holds the indices of the `true` answers. */
  ghost predicate Sending(stored: seq<Answer>, a: seq<Answer>, i: nat, results: seq<Answer>, truth: set<int>)
  {
    i <= |a| &&
    (forall j :: 0 <= j < i ==> !a[j].Failed?) &&
    results == Overlay(stored, a[..i]) &&
    (forall j :: j in truth <==> 0 <= j < i && a[j].Pushed?) &&
    |truth| == CountPushed(a[..i])
  }

  /** One more answer that is not a failure keeps the loop state. */
  lemma SendStep(stored: seq<Answer>, a: seq<Answer>, i: nat, results: seq<Answer>, truth: set<int>)
    requires i < |a| && !a[i].Failed?
    requires Sending(stored, a, i, results, truth)
    ensures Sending(stored, a, i + 1,
      if i < |results| then results[i := a[i]] else results + [a[i]],
      if a[i].Pushed? then truth + {i} else truth)
  {
    OverlayStep(stored, a, i);
    TruthStep(a, i, truth);
  }

  /** Storing one more answer at index i of the results field. */
  lemma OverlayStep(stored: seq<Answer>, a: seq<Answer>, i: nat)
    requires i < |a|
    ensures var r := Overlay(stored, a[..i]);
      Overlay(stored, a[..i + 1]) == if i < |r| then r[i := a[i]] else r + [a[i]]
  {
    var r := Overlay(stored, a[..i]);
    var r' := Overlay(stored, a[..i + 1]);
    var q := if i < |r| then r[i := a[i]] else r + [a[i]];
    assert |r'| == |q|;
    forall j | 0 <= j < |q|
      ensures r'[j] == q[j]
    {
    }
  }

  lemma {:induction false} SucceededAt(a: seq<Answer>, n: nat)
    requires n <= |a|
    requires forall j :: 0 <= j < n ==> !a[j].Failed?
    requires n < |a| ==> a[n].Failed?
    ensures Succeeded(a) == n
    decreases n
  {
    if n > 0 {
      SucceededAt(a[1..], n - 1);
    }
  }
}
