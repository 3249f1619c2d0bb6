/**
 * The game catalogue (cgi-bin/request/handlers/updates/GameAuthoriser.php).
 * Games are named `XXXX-a.b.c.d`: a four-letter id and four version parts.
 * The catalogue holds two lists: the live games found in the download
 * directory and the versions known to the database.  Its constructor
 * records every live version the database lacks; its handler checks a game
 * against the database list and reports whether an update exists.
 */
module Games {

  import opened Outcome
  import opened PhpText
  import opened Request
  import KeyCodec
  import Db

  const Id: string := "authGame"
  const VersionsLoc: string := "ftp.games.paperboxstudios.net"
  const Wildcard: string := "*.*.*.*"

  /** `get_game_details`: the text before the first `-`, and the text after
   *  it (up to a second `-`) cut at every `.`; a missing part is NULL, and
   *  `explode` of NULL is a single empty piece. */
  function GameDetails(gameID: string): (r: (string, seq<string>))
    ensures |r.1| >= 1
  {
    var parts := Explode('-', gameID);
    (parts[0], Explode('.', if |parts| > 1 then parts[1] else ""))
  }

  /** `$versions[i]` as text: NULL (the empty string) past the end. */
  function Part(versions: seq<string>, i: nat): (r: string)
  {
    if i < |versions| then versions[i] else ""
  }

  /** A well-formed id splits into its id and its version parts. */
  lemma GameDetailsOfId(id: string, versions: seq<string>)
    requires '-' !in id && |versions| >= 1
    requires forall i :: 0 <= i < |versions| ==> '-' !in versions[i] && '.' !in versions[i]
    ensures GameDetails(id + "-" + Implode('.', versions)) == (id, versions)
  {
    var v := Implode('.', versions);
    ExplodeImplode('.', versions);
    ImplodeFree('.', '-', versions);
    ExplodeImplode('-', [id, v]);
  }

  /** Gluing pieces that lack a character with another one keeps it out. */
  lemma {:induction false} ImplodeFree(c: char, x: char, parts: seq<string>)
    requires c != x && |parts| >= 1
    requires forall i :: 0 <= i < |parts| ==> x !in parts[i]
    ensures x !in Implode(c, parts)
    decreases |parts|
  {
    if |parts| > 1 {
      ImplodeFree(c, x, parts[1..]);
    }
  }

  // ----- verify_game -----

  /** One step of `verify_game`: the listed game is the given one, or the
   *  given one asks for any version (`XXXX-*.*.*.*`) of the listed id. */
  predicate Matches(listed: string, g: string)
  {
    listed == g || (From(g, 5) == Wildcard && Prefix(g, 4) == Prefix(listed, 4))
  }

  predicate Verifies(list: seq<string>, g: string)
  {
    exists i :: 0 <= i < |list| && Matches(list[i], g)
  }

  // ----- game_value -----

  function Pow10(n: nat): (r: nat)
  {
    if n == 0 then 1 else 10 * Pow10(n - 1)
  }

  /** The weights `pow(10, i*i + 3*i)` for i = 0, 1, 2, 3. */
  lemma Weights()
    ensures Pow10(0) == 1 && Pow10(4) == 10000
    ensures Pow10(10) == 10000000000 && Pow10(18) == 1000000000000000000
  {
    assert Pow10(4) == 10000;
    assert Pow10(8) == 100000000;
    assert Pow10(10) == 10000000000;
    assert Pow10(14) == 100000000000000;
    assert Pow10(18) == 1000000000000000000;
  }

  /** The term of `game_value`'s loop for index i: the part `3 - i` times
   *  its weight. */
  function Term(versions: seq<string>, i: nat): (r: nat)
    requires i <= 3
  {
    IntValue(Part(versions, 3 - i)) * Pow10(i * i + 3 * i)
  }

  /** The sum of the terms for the indices above `i`, up to 3. */
  function Above(versions: seq<string>, i: int): (r: nat)
    requires -1 <= i <= 3
    decreases 3 - i
  {
    if i == 3 then 0 else Above(versions, i + 1) + Term(versions, i + 1)
  }

  /** The version parts of a game name: what follows `XXXX-`, cut at `.`. */
  function Versions(g: string): (r: seq<string>)
  {
    Explode('.', From(g, 5))
  }

  /** `game_value`: 0 for NULL (and for "", which equals NULL loosely). */
  function Value(g: Option<string>): (r: nat)
  {
    if g.None? || g.value == "" then 0 else Above(Versions(g.value), -1)
  }

  /** A version `major.minor.patch.dev` weighs
   *  `major*10^18 + minor*10^10 + patch*10^4 + dev`. */
  function Weighed(major: nat, minor: nat, patch: nat, dev: nat): (r: nat)
  {
    major * 1000000000000000000 + minor * 10000000000 + patch * 10000 + dev
  }

  lemma ValueWeights(g: string)
    requires g != ""
    ensures var v := Versions(g);
      Value(Some(g)) == Weighed(IntValue(Part(v, 0)), IntValue(Part(v, 1)), IntValue(Part(v, 2)), IntValue(Part(v, 3)))
  {
    Weights();
  }

  /** With the minor part below 10^8, the patch below 10^6 and the dev
   *  part below 10^4, a larger weight is a later version in the order of
   *  (major, minor, patch, dev). */
  lemma WeighedIsLexicographic(a: nat, b: nat, c: nat, d: nat, a': nat, b': nat, c': nat, d': nat)
    requires b < 100000000 && b' < 100000000
    requires c < 1000000 && c' < 1000000
    requires d < 10000 && d' < 10000
    ensures Weighed(a, b, c, d) < Weighed(a', b', c', d') <==>
      a < a' || (a == a' && (b < b' || (b == b' && (c < c' || (c == c' && d < d')))))
  {
  }

  /** PHP's largest integer on a 64-bit build; past it, arithmetic goes
   *  on in floating point. */
  const PhpIntMax: int := 9223372036854775807

  /** Where the value fits in PHP's integers, every part, term and running
   *  sum of `game_value`'s loop does too, so PHP computes it exactly. */
  lemma ValueStaysInt(g: string)
    requires g != "" && Value(Some(g)) <= PhpIntMax
    ensures var v := Versions(g);
      Above(v, 3) <= PhpIntMax && Above(v, 2) <= PhpIntMax && Above(v, 1) <= PhpIntMax &&
      Above(v, 0) <= PhpIntMax && Above(v, -1) <= PhpIntMax
    ensures var v := Versions(g);
      Term(v, 0) <= PhpIntMax && Term(v, 1) <= PhpIntMax && Term(v, 2) <= PhpIntMax && Term(v, 3) <= PhpIntMax
    ensures var v := Versions(g);
      IntValue(Part(v, 0)) <= PhpIntMax && IntValue(Part(v, 1)) <= PhpIntMax &&
      IntValue(Part(v, 2)) <= PhpIntMax && IntValue(Part(v, 3)) <= PhpIntMax
  {
    var v := Versions(g);
    assert Above(v, 2) == Term(v, 3);
    assert Above(v, 1) == Above(v, 2) + Term(v, 2);
    assert Above(v, 0) == Above(v, 1) + Term(v, 1);
    assert Above(v, -1) == Above(v, 0) + Term(v, 0);
    TermCoversPart(v, 0);
    TermCoversPart(v, 1);
    TermCoversPart(v, 2);
    TermCoversPart(v, 3);
  }

  /** A term is at least the part it weighs. */
  lemma TermCoversPart(v: seq<string>, i: nat)
    requires i <= 3
    ensures IntValue(Part(v, 3 - i)) <= Term(v, i)
  {
    Pow10Positive(i * i + 3 * i);
    AtMostMultiple(IntValue(Part(v, 3 - i)), Pow10(i * i + 3 * i));
  }

  lemma {:induction false} Pow10Positive(n: nat)
    ensures Pow10(n) >= 1
  {
    if n > 0 {
      Pow10Positive(n - 1);
    }
  }

  lemma AtMostMultiple(x: nat, w: nat)
    requires w >= 1
    ensures x <= x * w
  {
  }

  /** A major version of 10 or more already overflows the first term: PHP
   *  leaves its integers there, and the model's exact value is no longer
   *  PHP's. */
  lemma MajorTenOverflows(g: string)
    requires g != "" && IntValue(Part(Versions(g), 0)) >= 10
    ensures Term(Versions(g), 3) > PhpIntMax
    ensures Value(Some(g)) > PhpIntMax
  {
    var v := Versions(g);
    Weights();
    assert Term(v, 3) == IntValue(Part(v, 0)) * 1000000000000000000;
    assert Above(v, -1) >= Above(v, 2) == Term(v, 3);
  }

  /** Major versions up to 8 with the parts inside their weights fit. */
  lemma BoundedPartsFit(a: nat, b: nat, c: nat, d: nat)
    requires a <= 8 && b < 100000000 && c < 1000000 && d < 10000
    ensures Weighed(a, b, c, d) <= PhpIntMax
  {
  }

  // ----- find_latest_version -----

  /** The weight of a listed game. */
  function Weight(g: string): (r: nat)
  {
    Value(Some(g))
  }

  /** `find_latest_version`, entry by entry: a listed game with the id
   *  replaces the running result when it weighs at least as much (a NULL
   *  result weighs 0). */
  function Latest(list: seq<string>, id: string): (r: Option<string>)
  {
    LatestBy(list, id, Weight)
  }

  /** The same scan for any weight `w`. */
  function LatestBy(list: seq<string>, id: string, w: string -> nat): (r: Option<string>)
    decreases |list|
  {
    if list == [] then None
    else
      var prev := LatestBy(list[..|list| - 1], id, w);
      var g := list[|list| - 1];
      if Prefix(g, 4) == id && (prev.None? || w(g) >= w(prev.value)) then Some(g) else prev
  }

  predicate HasId(list: seq<string>, k: int, id: string)
  {
    0 <= k < |list| && Prefix(list[k], 4) == id
  }

  /** NULL exactly when no listed game has the id. */
  lemma {:induction false} LatestNone(list: seq<string>, id: string, w: string -> nat)
    ensures LatestBy(list, id, w).None? <==> forall k :: 0 <= k < |list| ==> !HasId(list, k, id)
    decreases |list|
  {
    if list != [] {
      var n := |list| - 1;
      var b := list[..n];
      LatestNone(b, id, w);
      assert forall j :: 0 <= j < n ==> (HasId(b, j, id) <==> HasId(list, j, id));
      if HasId(list, n, id) {
        assert LatestBy(list, id, w).Some?;
      }
    }
  }

  /** The last heaviest listed game with the id, at index `k`. */
  predicate LastHeaviest(list: seq<string>, id: string, w: string -> nat, k: int)
  {
    HasId(list, k, id) &&
    (forall j :: 0 <= j < |list| && HasId(list, j, id) ==> w(list[j]) <= w(list[k])) &&
    (forall j :: 0 <= j < |list| && HasId(list, j, id) && j > k ==> w(list[j]) < w(list[k]))
  }

  /** Otherwise the result is a listed game with the id that weighs the
   *  most, and the last such one: ties go to the later entry. */
  lemma {:induction false} LatestIsLastHeaviest(list: seq<string>, id: string, w: string -> nat)
    requires LatestBy(list, id, w).Some?
    ensures exists k :: LastHeaviest(list, id, w, k) && list[k] == LatestBy(list, id, w).value
    decreases |list|
  {
    var n := |list| - 1;
    var b := list[..n];
    var prev := LatestBy(b, id, w);
    if HasId(list, n, id) && (prev.None? || w(list[n]) >= w(prev.value)) {
      if prev.Some? {
        LatestIsLastHeaviest(b, id, w);
        var k :| LastHeaviest(b, id, w, k) && b[k] == prev.value;
        HeaviestTaken(list, id, w, k);
      } else {
        HeaviestFirst(list, id, w);
      }
      assert LastHeaviest(list, id, w, n);
    } else {
      LatestIsLastHeaviest(b, id, w);
      var k :| LastHeaviest(b, id, w, k) && b[k] == prev.value;
      HeaviestKept(list, id, w, k);
    }
  }

  /** A last entry with the id that weighs at least the heaviest before it
   *  becomes the last heaviest. */
  lemma HeaviestTaken(list: seq<string>, id: string, w: string -> nat, k: int)
    requires |list| > 0 && LastHeaviest(list[..|list| - 1], id, w, k)
    requires HasId(list, |list| - 1, id) && w(list[|list| - 1]) >= w(list[k])
    ensures LastHeaviest(list, id, w, |list| - 1)
  {
    var b := list[..|list| - 1];
    assert forall j :: 0 <= j < |b| ==> b[j] == list[j];
    assert forall j :: 0 <= j < |b| && HasId(list, j, id) ==> HasId(b, j, id);
  }

  /** The first entry with the id is the heaviest so far. */
  lemma HeaviestFirst(list: seq<string>, id: string, w: string -> nat)
    requires |list| > 0 && LatestBy(list[..|list| - 1], id, w).None?
    requires HasId(list, |list| - 1, id)
    ensures LastHeaviest(list, id, w, |list| - 1)
  {
    var b := list[..|list| - 1];
    LatestNone(b, id, w);
    assert forall j :: 0 <= j < |b| ==> b[j] == list[j] && !HasId(b, j, id);
  }

  /** A last entry that is lighter (or has another id) changes nothing. */
  lemma HeaviestKept(list: seq<string>, id: string, w: string -> nat, k: int)
    requires |list| > 0 && LastHeaviest(list[..|list| - 1], id, w, k)
    requires !(HasId(list, |list| - 1, id) && w(list[|list| - 1]) >= w(list[k]))
    ensures LastHeaviest(list, id, w, k) && list[k] == list[..|list| - 1][k]
  {
    var b := list[..|list| - 1];
    assert forall j :: 0 <= j < |b| ==> b[j] == list[j];
    assert forall j :: 0 <= j < |b| && HasId(list, j, id) ==> HasId(b, j, id);
  }

  // ----- the live-game file filter of read_in_live_games -----

  /** `(\d+.){n}exe$` on the rest of a file name.  `.` is any character
   *  but a newline (the dots are not escaped), and `$` also accepts a
   *  final newline. */
  predicate Groups(s: string, n: nat)
    decreases |s|
  {
    if n == 0 then s == "exe" || s == "exe\n"
    else exists j :: 1 <= j < |s| && AllDigits(s[..j]) && s[j] != '\n' && Groups(s[j + 1..], n - 1)
  }

  /** `preg_match("/^[A-Z]{4}-\d+.\d+.\d+.\d+.exe$/", name)`. */
  predicate ExeName(s: string)
  {
    |s| >= 5 && IsUpper(s[0]) && IsUpper(s[1]) && IsUpper(s[2]) && IsUpper(s[3]) && s[4] == '-' &&
    Groups(s[5..], 4)
  }

  /** The kept entries of a directory listing, `.exe` cut off. */
  function LiveGames(contents: seq<string>): (r: seq<string>)
  {
    Kept(contents, ExeName)
  }

  /** The entries that pass `keep`, in order, without their last four
   *  characters. */
  function Kept(contents: seq<string>, keep: string -> bool): (r: seq<string>)
    decreases |contents|
  {
    if contents == [] then []
    else
      var rest := Kept(contents[..|contents| - 1], keep);
      var name := contents[|contents| - 1];
      if keep(name) && |name| >= 4 then rest + [name[..|name| - 4]] else rest
  }

  /** Every kept entry comes from a matching file name, and every matching
   *  file name is kept without its last four characters. */
  lemma LiveGamesAreExeNames(contents: seq<string>)
    ensures forall k :: 0 <= k < |LiveGames(contents)| ==> KeptFrom(contents, ExeName, LiveGames(contents)[k])
    ensures forall i :: 0 <= i < |contents| && ExeName(contents[i]) ==> contents[i][..|contents[i]| - 4] in LiveGames(contents)
  {
    KeptSound(contents, ExeName);
  }

  lemma {:induction false} KeptSound(contents: seq<string>, keep: string -> bool)
    ensures forall k :: 0 <= k < |Kept(contents, keep)| ==> KeptFrom(contents, keep, Kept(contents, keep)[k])
    ensures forall i :: 0 <= i < |contents| && keep(contents[i]) && |contents[i]| >= 4 ==>
      contents[i][..|contents[i]| - 4] in Kept(contents, keep)
    decreases |contents|
  {
    if contents != [] {
      var b := contents[..|contents| - 1];
      var n := |contents| - 1;
      KeptSound(b, keep);
      assert forall i :: 0 <= i < |b| ==> b[i] == contents[i];
      forall k | 0 <= k < |Kept(contents, keep)|
        ensures KeptFrom(contents, keep, Kept(contents, keep)[k])
      {
        if k < |Kept(b, keep)| {
          var i :| 0 <= i < |b| && keep(b[i]) && |b[i]| >= 4 && Kept(b, keep)[k] == b[i][..|b[i]| - 4];
          assert contents[i] == b[i];
        } else {
          assert keep(contents[n]);
        }
      }
    }
  }

  /** `kept` is an entry of the listing that passes `keep`, without its
   *  last four characters. */
  predicate KeptFrom(contents: seq<string>, keep: string -> bool, kept: string)
  {
    exists i :: 0 <= i < |contents| && keep(contents[i]) && |contents[i]| >= 4 && kept == contents[i][..|contents[i]| - 4]
  }

  /** A release file `XXXX-a.b.c.d.exe` is kept as `XXXX-a.b.c.d`; since
   *  the dots of the pattern are not escaped, any character but a newline
   *  may stand in each of their places (`x` holds those four characters). */
  lemma ReleaseFileKept(id: string, a: string, b: string, c: string, d: string, x: string)
    requires |id| == 4 && forall i :: 0 <= i < 4 ==> IsUpper(id[i])
    requires |a| >= 1 && |b| >= 1 && |c| >= 1 && |d| >= 1
    requires AllDigits(a) && AllDigits(b) && AllDigits(c) && AllDigits(d)
    requires |x| == 4 && '\n' !in x
    ensures var kept := id + "-" + (a + [x[0]] + (b + [x[1]] + (c + [x[2]] + d)));
      var name := kept + [x[3]] + "exe";
      ExeName(name) && LiveGames([name]) == [kept]
  {
    var s1 := a + [x[0]] + (b + [x[1]] + (c + [x[2]] + (d + [x[3]] + "exe")));
    ReleaseGroups(a, b, c, d, x);
    var kept := id + "-" + (a + [x[0]] + (b + [x[1]] + (c + [x[2]] + d)));
    var name := kept + [x[3]] + "exe";
    var tail := [x[3]] + "exe";
    Glue(c, [x[2]], d, tail);
    Glue(b, [x[1]], c + [x[2]] + d, tail);
    Glue(a, [x[0]], b + [x[1]] + (c + [x[2]] + d), tail);
    Glue(id, "-", a + [x[0]] + (b + [x[1]] + (c + [x[2]] + d)), tail);
    assert name == id + "-" + s1;
    assert name[5..] == s1;
    assert name[..|name| - 4] == kept;
    LiveGamesOne(name);
  }

  /** The version part `a.b.c.d.exe` of a release file name. */
  lemma ReleaseGroups(a: string, b: string, c: string, d: string, x: string)
    requires |a| >= 1 && |b| >= 1 && |c| >= 1 && |d| >= 1
    requires AllDigits(a) && AllDigits(b) && AllDigits(c) && AllDigits(d)
    requires |x| == 4 && '\n' !in x
    ensures Groups(a + [x[0]] + (b + [x[1]] + (c + [x[2]] + (d + [x[3]] + "exe"))), 4)
  {
    assert x[3] in x && x[2] in x && x[1] in x && x[0] in x;
    var s4 := d + [x[3]] + "exe";
    var s3 := c + [x[2]] + s4;
    var s2 := b + [x[1]] + s3;
    GroupStep(d, x[3], "exe", 0);
    GroupStep(c, x[2], s4, 1);
    GroupStep(b, x[1], s3, 2);
    GroupStep(a, x[0], s2, 3);
  }

  lemma LiveGamesOne(name: string)
    requires ExeName(name)
    ensures LiveGames([name]) == [name[..|name| - 4]]
  {
    var one: seq<string> := [name];
    assert one[..0] == [];
    assert Kept(one[..0], ExeName) == [];
  }

  /** Digits and one more character in front of `n` groups make `n + 1`. */
  lemma GroupStep(digits: string, sep: char, rest: string, n: nat)
    requires |digits| >= 1 && AllDigits(digits) && sep != '\n'
    requires Groups(rest, n)
    ensures Groups(digits + [sep] + rest, n + 1)
  {
    var s := digits + [sep] + rest;
    var j := |digits|;
    assert s[..j] == digits;
    assert s[j] == sep;
    assert s[j + 1..] == rest;
  }

  /** Regrouping `u + sep + v + tail`. */
  lemma Glue(u: string, sep: string, v: string, tail: string)
    ensures u + sep + v + tail == u + sep + (v + tail)
  {
  }

  /** `read_in_live_games` after the directory listing: keeps the matching
   *  names, in order, without `.exe`. */
  method ReadInLiveGames(contents: seq<string>) returns (theList: seq<string>)
    ensures theList == LiveGames(contents)
  {
    theList := [];
    var i := 0;
    while i < |contents|
      invariant 0 <= i <= |contents|
      invariant theList == Kept(contents[..i], ExeName)
    {
      assert contents[..i + 1][..i] == contents[..i];
      var name := contents[i];
      if ExeName(name) {
        theList := theList + [name[..|name| - 4]];
      }
      i := i + 1;
    }
    assert contents[..i] == contents;
  }

  // ----- the constructor's sync of the live list into the database -----

  /** `CALL Game_NewVersion('XXXX', a, b, c, d);` for a live game. */
  function NewVersionSql(g: string): (r: string)
  {
    var v := Versions(g);
    "CALL Game_NewVersion('" + Prefix(g, 4) + "', " + Part(v, 0) + ", " + Part(v, 1) + ", " +
      Part(v, 2) + ", " + Part(v, 3) + ");"
  }

  /** The live games the sync adds, in order: each live game not yet in
   *  the database list (which grows as they are added). */
  function Added(live: seq<string>, db: seq<string>): (r: seq<string>)
    decreases |live|
  {
    if live == [] then []
    else if live[0] in db then Added(live[1..], db)
    else [live[0]] + Added(live[1..], db + [live[0]])
  }

  /** The sync adds exactly the live games the database list lacked, each
   *  once. */
  lemma {:induction false} AddedExactly(live: seq<string>, db: seq<string>)
    ensures forall g :: g in Added(live, db) <==> g in live && g !in db
    ensures forall i, j :: 0 <= i < j < |Added(live, db)| ==> Added(live, db)[i] != Added(live, db)[j]
    decreases |live|
  {
    if live != [] {
      var g := live[0];
      assert live == [g] + live[1..];
      if g in db {
        AddedExactly(live[1..], db);
      } else {
        AddedExactly(live[1..], db + [g]);
        var rest := Added(live[1..], db + [g]);
        assert g !in rest;
        var r := [g] + rest;
        forall i, j | 0 <= i < j < |r|
          ensures r[i] != r[j]
        {
          if i > 0 {
            assert r[i] == rest[i - 1] && r[j] == rest[j - 1];
          } else {
            assert r[j] == rest[j - 1];
          }
        }
      }
    }
  }

  /** The calls that record the added games. */
  function NewVersionCalls(added: seq<string>): (r: seq<string>)
    ensures |r| == |added|
    ensures forall i :: 0 <= i < |added| ==> r[i] == NewVersionSql(added[i])
  {
    seq(|added|, i requires 0 <= i < |added| => NewVersionSql(added[i]))
  }

  lemma AddedStep(live: seq<string>, db: seq<string>, i: nat)
    requires i < |live|
    ensures Added(live[i..], db) ==
      if live[i] in db then Added(live[i + 1..], db) else [live[i]] + Added(live[i + 1..], db + [live[i]])
  {
    assert live[i..][1..] == live[i + 1..];
  }

  class GameCatalogue {
    /** `self::$liveGameList`: the release names found in the directory. */
    var liveGameList: seq<string>
    /** `self::$dbGameList`: the versions the database knows. */
    var dbGameList: seq<string>
    /** The `Game_NewVersion` calls the constructor sent, in order. */
    var issued: seq<string>

    /** The constructor, from the directory listing and the database's
     *  `Game_ListAll_ID` list.  Each live game the database list lacks is
     *  recorded with one call, after which the list holds it. */
    constructor (contents: seq<string>, stored: seq<string>)
      ensures liveGameList == LiveGames(contents)
      ensures dbGameList == stored + Added(LiveGames(contents), stored)
      ensures issued == NewVersionCalls(Added(LiveGames(contents), stored))
    {
      var live := ReadInLiveGames(contents);
      liveGameList := live;
      var db := stored;
      var calls: seq<string> := [];
      ghost var added: seq<string> := [];
      var i := 0;
      while i < |live|
        invariant 0 <= i <= |live|
        invariant db == stored + added
        invariant added + Added(live[i..], db) == Added(live, stored)
        invariant calls == NewVersionCalls(added)
      {
        AddedStep(live, db, i);
        var g := live[i];
        if g !in db {
          calls := calls + [NewVersionSql(g)];
          added := added + [g];
          db := db + [g];
        }
        i := i + 1;
      }
      assert live[i..] == [];
      assert added == Added(live, stored);
      dbGameList := db;
      issued := calls;
    }

    /** `verify_game`: the first listed game that matches decides. */
    method VerifyGame(g: string) returns (r: bool)
      ensures r <==> Verifies(dbGameList, g)
    {
      var i := 0;
      while i < |dbGameList|
        invariant 0 <= i <= |dbGameList|
        invariant forall k :: 0 <= k < i ==> !Matches(dbGameList[k], g)
      {
        var aGame := dbGameList[i];
        var wildcardCheck := From(g, 5) == Wildcard;
        var idCheck := Prefix(g, 4) == Prefix(aGame, 4);
        if aGame == g {
          return true;
        } else if wildcardCheck && idCheck {
          return true;
        }
        i := i + 1;
      }
      return false;
    }

    /** `game_value`, with its loop from i = 3 down to 0. */
    static method GameValue(g: Option<string>) returns (res: nat)
      ensures res == Value(g)
    {
      if g.None? || g.value == "" {
        return 0;
      }
      var versions := Versions(g.value);
      res := 0;
      var i := 3;
      while i >= 0
        invariant -1 <= i <= 3
        invariant res == Above(versions, i)
      {
        var term := IntValue(Part(versions, 3 - i)) * Pow10(i * i + 3 * i);
        assert term == Term(versions, i);
        assert Above(versions, i - 1) == Above(versions, i) + Term(versions, i);
        res := res + term;
        i := i - 1;
      }
    }

    /** `find_latest_version`. */
    method FindLatestVersion(id: string) returns (result: Option<string>)
      ensures result == Latest(dbGameList, id)
    {
      result := None;
      var i := 0;
      while i < |dbGameList|
        invariant 0 <= i <= |dbGameList|
        invariant result == Latest(dbGameList[..i], id)
      {
        assert dbGameList[..i + 1][..i] == dbGameList[..i];
        var aGame := dbGameList[i];
        if Prefix(aGame, 4) == id {
          var v := GameValue(Some(aGame));
          var w := GameValue(result);
          assert result.Some? ==> w == Weight(result.value);
          if v >= w {
            result := Some(aGame);
          }
        }
        i := i + 1;
      }
      assert dbGameList[..i] == dbGameList;
    }

    /** `execute`: checks the game (or, for a download address or a title,
     *  any version of its id) and reports the latest version. */
    method Execute(lib: KeyCodec.Env, p: Db.Platform, data: Data) returns (r: Result<Reply>)
      ensures r == AuthOutcome(lib, p, dbGameList, data)
    {
      var ok := Validate(data, [GameID]);
      ValidateOne(data, GameID);
      if ok.Fail? {
        return Fail(ok.msg);
      }

      var theGameID := Prefix(data[GameID], 4);
      var theGameIDVer := data[GameID];
      var returnFTPURL := GetDownloadURL in data;
      var returnTitle := GetTitle in data;
      if returnFTPURL || returnTitle {
        theGameIDVer := theGameID + "-" + Wildcard;
      }
      assert theGameIDVer == Checked(data);
      var verified := VerifyGame(theGameIDVer);
      if !verified {
        return Fail("PBX801");
      }
      var latestVersion := FindLatestVersion(theGameID);
      ghost var answer := Reported(lib, p, data, theGameIDVer, latestVersion);
      assert AuthOutcome(lib, p, dbGameList, data) == answer;
      if returnFTPURL {
        return Ok(Text(VersionsLoc + "/" + TextOf(latestVersion) + ".exe"));
      }
      if returnTitle {
        return LookupTitle(lib, p, TextOf(latestVersion));
      }
      var again := FindLatestVersion(theGameID);
      if LooseDiffers(theGameIDVer, again) {
        return Ok(Text("Update available: latest version is v" + From(TextOf(latestVersion), 5)));
      }
      return Ok(Yes);
    }
  }

  /** PHP's `$text != $value` where the value may be NULL (equal to ""). */
  predicate LooseDiffers(text: string, value: Option<string>)
  {
    if value.None? then text != "" else text != value.value
  }

  /** `get_title`: the `Game_GetTitle` lookup of the id on an inserting
   *  connection; NULL when no title comes back. */
  function LookupTitle(lib: KeyCodec.Env, p: Db.Platform, game: string): (r: Result<Reply>)
  {
    var conn :- Db.SecureConnect(p, lib, Inserter, None, GamesDb);
    var reply :- Db.FreshQuery(p, conn, "SELECT Game_GetTitle('" + Prefix(game, 4) + "') AS \"title\";", Some("array"));
    Ok(Text(TextOf(FirstField(reply, "title"))))
  }

  /** The name `execute` checks: the game itself, or any version of its
   *  id when a download address or a title is asked for. */
  function Checked(data: Data): (r: string)
    requires GameID in data
  {
    if GetDownloadURL in data || GetTitle in data then Prefix(data[GameID], 4) + "-" + Wildcard
    else data[GameID]
  }

  /** What `execute` answers once the checked name is listed, given the
   *  latest listed version of the id. */
  function Reported(lib: KeyCodec.Env, p: Db.Platform, data: Data, ver: string, latest: Option<string>): (r: Result<Reply>)
  {
    if GetDownloadURL in data then Ok(Text(VersionsLoc + "/" + TextOf(latest) + ".exe"))
    else if GetTitle in data then LookupTitle(lib, p, TextOf(latest))
    else if LooseDiffers(ver, latest) then Ok(Text("Update available: latest version is v" + From(TextOf(latest), 5)))
    else Ok(Yes)
  }

  /** What `execute` gives against the database list of the catalogue. */
  function AuthOutcome(lib: KeyCodec.Env, p: Db.Platform, db: seq<string>, data: Data): (r: Result<Reply>)
  {
    if GameID !in data then Fail("PBX401")
    else if !Verifies(db, Checked(data)) then Fail("PBX801")
    else Reported(lib, p, data, Checked(data), Latest(db, Prefix(data[GameID], 4)))
  }

  /** A missing id is PBX401; a game the database does not list (with no
   *  listed version of its id when asking for any version) is PBX801. */
  lemma AuthErrors(lib: KeyCodec.Env, p: Db.Platform, db: seq<string>, data: Data)
    ensures GameID !in data ==> AuthOutcome(lib, p, db, data) == Fail("PBX401")
    ensures GameID in data && GetDownloadURL !in data && GetTitle !in data && !Verifies(db, data[GameID]) ==>
      AuthOutcome(lib, p, db, data) == Fail("PBX801")
  {
  }

  /** For a plain check the answer is `true` exactly when the game is the
   *  last heaviest listed version of its id, and otherwise names the
   *  latest version. */
  lemma AuthLatest(lib: KeyCodec.Env, p: Db.Platform, db: seq<string>, data: Data)
    requires GameID in data && GetDownloadURL !in data && GetTitle !in data
    requires Verifies(db, data[GameID])
    ensures var latest := Latest(db, Prefix(data[GameID], 4));
      latest.Some? &&
      (AuthOutcome(lib, p, db, data) == Ok(Yes) <==> data[GameID] == latest.value) &&
      (data[GameID] != latest.value ==>
        AuthOutcome(lib, p, db, data) == Ok(Text("Update available: latest version is v" + From(latest.value, 5))))
  {
    VerifiedHasLatest(db, data[GameID]);
  }

  /** A game that verifies has a listed version of its id. */
  lemma VerifiedHasLatest(db: seq<string>, g: string)
    requires Verifies(db, g)
    ensures Latest(db, Prefix(g, 4)).Some?
  {
    var i :| 0 <= i < |db| && Matches(db[i], g);
    assert HasId(db, i, Prefix(g, 4));
    LatestNone(db, Prefix(g, 4), Weight);
  }
}
