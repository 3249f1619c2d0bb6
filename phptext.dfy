/**
 * The PHP string built-ins the back end relies on, on `string` (PHP strings
 * there are byte strings; the model uses `char` per byte):
 * `trim`, `strtoupper`, `substr` with a non-negative start, `explode`,
 * `str_replace("'", "''", ...)`, `strpos` and the digit class of the
 * regular expressions.
 */
module PhpText {

  import opened Outcome

  /** The characters that PHP's `trim` strips by default. */
  predicate IsBlank(c: char)
  {
    c == ' ' || c == '\t' || c == '\n' || c == '\r' || c == '\0' || c == '\U{0B}'
  }

  predicate IsDigit(c: char)
  {
    '0' <= c <= '9'
  }

  predicate IsUpper(c: char)
  {
    'A' <= c <= 'Z'
  }

  predicate AllDigits(s: string)
  {
    forall i :: 0 <= i < |s| ==> IsDigit(s[i])
  }

  /** `ltrim`: drops the blank characters at the front. */
  function TrimStart(s: string): (r: string)
  {
    if s == [] || !IsBlank(s[0]) then s else TrimStart(s[1..])
  }

  /** `ltrim` removes a run of blanks at the front and stops at the first
   *  character that is not blank. */
  lemma {:induction false} TrimStartSound(s: string)
    ensures var r := TrimStart(s);
      |r| <= |s| && r == s[|s| - |r|..] &&
      (forall k :: 0 <= k < |s| - |r| ==> IsBlank(s[k])) &&
      (r == [] || !IsBlank(r[0]))
  {
    if s != [] && IsBlank(s[0]) {
      TrimStartSound(s[1..]);
    }
  }

  /** `rtrim`: drops the blank characters at the back. */
  function TrimEnd(s: string): (r: string)
  {
    if s == [] || !IsBlank(s[|s| - 1]) then s else TrimEnd(s[..|s| - 1])
  }

  /** `rtrim` removes a run of blanks at the back and stops at the last
   *  character that is not blank. */
  lemma {:induction false} TrimEndSound(s: string)
    ensures var r := TrimEnd(s);
      |r| <= |s| && r == s[..|r|] &&
      (forall k :: |r| <= k < |s| ==> IsBlank(s[k])) &&
      (r == [] || !IsBlank(r[|r| - 1]))
  {
    if s != [] && IsBlank(s[|s| - 1]) {
      TrimEndSound(s[..|s| - 1]);
    }
  }

  /** `trim`. */
  function Trim(s: string): (r: string)
  {
    TrimEnd(TrimStart(s))
  }

  /** A trimmed string is a piece of the original with no blank at either
   *  end; only blanks were cut away; trimming once more changes nothing. */
  lemma TrimIdempotent(s: string)
    ensures var t := Trim(s); t == [] || (!IsBlank(t[0]) && !IsBlank(t[|t| - 1]))
    ensures Trim(Trim(s)) == Trim(s)
  {
    var u := TrimStart(s);
    var t := TrimEnd(u);
    TrimStartSound(s);
    TrimEndSound(u);
    if t != [] {
      assert t[0] == u[0];
      assert TrimStart(t) == t;
      assert TrimEnd(t) == t;
    } else {
      assert TrimStart(t) == t;
    }
  }

  function UpperChar(c: char): (r: char)
  {
    if 'a' <= c <= 'z' then (c as int - 'a' as int + 'A' as int) as char else c
  }

  /** `strtoupper` on ASCII letters. */
  function Upper(s: string): (r: string)
    ensures |r| == |s|
    ensures forall i :: 0 <= i < |s| ==> r[i] == UpperChar(s[i])
  {
    seq(|s|, i requires 0 <= i < |s| => UpperChar(s[i]))
  }

  /** `strtoupper` leaves a string without lower-case letters alone. */
  lemma UpperKeeps(s: string)
    requires forall i :: 0 <= i < |s| ==> !('a' <= s[i] <= 'z')
    ensures Upper(s) == s
  {
    assert forall i :: 0 <= i < |s| ==> Upper(s)[i] == s[i];
  }

  /** `substr(s, 0, n)` for `n >= 0`: at most the first `n` characters. */
  function Prefix(s: string, n: nat): (r: string)
    ensures |r| == if |s| < n then |s| else n
    ensures r == s[..|r|]
  {
    if |s| <= n then s else s[..n]
  }

  /** `substr(s, n)` for `n >= 0`: what follows the first `n` characters,
   *  the empty string when there is nothing there. */
  function From(s: string, n: nat): (r: string)
    ensures |s| <= n ==> r == []
    ensures n <= |s| ==> r == s[n..]
  {
    if |s| <= n then [] else s[n..]
  }

  /** `strpos`: the index of the first `c` in `s`, or -1 where PHP gives `false`. */
  function IndexOf(c: char, s: string): (r: int)
    ensures -1 <= r < |s|
    ensures r == -1 <==> c !in s
    ensures r >= 0 ==> s[r] == c && c !in s[..r]
  {
    if s == [] then -1
    else if s[0] == c then 0
    else
      var i := IndexOf(c, s[1..]);
      assert s[1..][..if i < 0 then 0 else i] == s[1..if i < 0 then 1 else i + 1];
      if i < 0 then -1 else i + 1
  }

  /** The inverse of `Explode`: the pieces glued with `c`. */
  function Implode(c: char, parts: seq<string>): (r: string)
    requires |parts| >= 1
  {
    if |parts| == 1 then parts[0] else parts[0] + [c] + Implode(c, parts[1..])
  }

  /** `explode(c, s)`: the pieces of `s` between occurrences of `c`. */
  function Explode(c: char, s: string): (r: seq<string>)
    ensures |r| >= 1
    decreases |s|
  {
    var i := IndexOf(c, s);
    if i < 0 then [s] else [s[..i]] + Explode(c, s[i + 1..])
  }

  /** The pieces hold no separator, and gluing them with it gives the
   *  string back: there is one more piece than there are separators. */
  lemma {:induction false} ExplodeSound(c: char, s: string)
    ensures forall i :: 0 <= i < |Explode(c, s)| ==> c !in Explode(c, s)[i]
    ensures Implode(c, Explode(c, s)) == s
    decreases |s|
  {
    var i := IndexOf(c, s);
    var r := Explode(c, s);
    if i < 0 {
      assert r == [s];
    } else {
      var tail := s[i + 1..];
      var rest := Explode(c, tail);
      ExplodeSound(c, tail);
      assert r == [s[..i]] + rest;
      assert c !in s[..i];
      assert r[1..] == rest;
      assert Implode(c, r) == s[..i] + [c] + Implode(c, rest);
      assert s == s[..i] + [c] + tail;
      forall k | 0 <= k < |r|
        ensures c !in r[k]
      {
        if k > 0 {
          assert r[k] == rest[k - 1];
        }
      }
    }
  }

  /** `explode` is determined by its two ensures above: splitting the gluing
   *  of separator-free pieces gives the pieces back. */
  lemma {:induction false} ExplodeImplode(c: char, parts: seq<string>)
    requires |parts| >= 1
    requires forall i :: 0 <= i < |parts| ==> c !in parts[i]
    ensures Explode(c, Implode(c, parts)) == parts
    decreases |parts|
  {
    if |parts| == 1 {
    } else {
      var head, tail := parts[0], parts[1..];
      var s := Implode(c, parts);
      var rest := Implode(c, tail);
      assert s == head + [c] + rest;
      assert c !in head;
      IndexOfAfterFree(c, head, rest);
      assert s[..|head|] == head;
      assert s[|head| + 1..] == rest;
      assert Explode(c, s) == [head] + Explode(c, rest);
      assert forall i :: 0 <= i < |tail| ==> tail[i] == parts[i + 1];
      ExplodeImplode(c, tail);
      assert [head] + tail == parts;
    }
  }

  lemma {:induction false} IndexOfAfterFree(c: char, a: string, b: string)
    requires c !in a
    ensures IndexOf(c, a + [c] + b) == |a|
    decreases |a|
  {
    if a != [] {
      assert a[0] in a;
      assert (a + [c] + b)[1..] == a[1..] + [c] + b;
      IndexOfAfterFree(c, a[1..], b);
    }
  }

  /** `explode(c, s, 2)`: split at the first `c` only. */
  function SplitFirst(c: char, s: string): (r: (string, Option<string>))
    ensures r.1.None? <==> c !in s
    ensures r.1.None? ==> r.0 == s
    ensures r.1.Some? ==> s == r.0 + [c] + r.1.value && c !in r.0
  {
    var i := IndexOf(c, s);
    if i < 0 then (s, None)
    else
      assert s == s[..i] + [c] + s[i + 1..];
      (s[..i], Some(s[i + 1..]))
  }

  /** `str_replace("'", "''", s)`: every single quote doubled. */
  function DoubleQuotes(s: string): (r: string)
  {
    if s == [] then []
    else if s[0] == '\'' then "''" + DoubleQuotes(s[1..])
    else [s[0]] + DoubleQuotes(s[1..])
  }

  /** How SQL reads a quoted literal back: each doubled quote is one. */
  function UndoubleQuotes(s: string): (r: string)
  {
    if |s| >= 2 && s[0] == '\'' && s[1] == '\'' then "'" + UndoubleQuotes(s[2..])
    else if s == [] then []
    else [s[0]] + UndoubleQuotes(s[1..])
  }

  /** Doubling the quotes loses nothing: SQL's reading restores the text. */
  lemma {:induction false} DoubleQuotesRoundTrip(s: string)
    ensures UndoubleQuotes(DoubleQuotes(s)) == s
  {
    if s == [] {
    } else if s[0] == '\'' {
      DoubleQuotesRoundTrip(s[1..]);
      assert ("''" + DoubleQuotes(s[1..]))[2..] == DoubleQuotes(s[1..]);
    } else {
      DoubleQuotesRoundTrip(s[1..]);
      var d := [s[0]] + DoubleQuotes(s[1..]);
      assert d[1..] == DoubleQuotes(s[1..]);
      assert d[0] == s[0];
    }
  }

  /** Doubling changes exactly the texts that hold a quote: a text without
   *  one is left alone, and one with a quote comes out longer. */
  lemma {:induction false} DoubleQuotesChanges(s: string)
    ensures '\'' !in s ==> DoubleQuotes(s) == s
    ensures '\'' in s ==> |DoubleQuotes(s)| > |s|
    ensures |DoubleQuotes(s)| >= |s|
  {
    if s != [] {
      DoubleQuotesChanges(s[1..]);
      assert s == [s[0]] + s[1..];
    }
  }

  /** PHP's `(int)` on a string of decimal digits. */
  function DigitsValue(s: string): (r: nat)
    requires AllDigits(s)
  {
    if s == [] then 0 else 10 * DigitsValue(s[..|s| - 1]) + (s[|s| - 1] as int - '0' as int)
  }

  /** The decimal rendering of a natural number (PHP's int-to-string). */
  function NatText(n: nat): (r: string)
    ensures |r| >= 1 && AllDigits(r)
  {
    if n < 10 then [('0' as int + n) as char] else NatText(n / 10) + [('0' as int + n % 10) as char]
  }

  /** Rendering and reading back a natural number are inverse. */
  lemma {:induction false} NatTextRoundTrip(n: nat)
    ensures DigitsValue(NatText(n)) == n
  {
    if n >= 10 {
      NatTextRoundTrip(n / 10);
      var t := NatText(n);
      assert t[..|t| - 1] == NatText(n / 10);
    }
  }

  /** The run of digits a string starts with; no whitespace or sign is
   *  skipped before it. */
  function LeadingDigits(s: string): (r: string)
    ensures AllDigits(r) && |r| <= |s| && r == s[..|r|]
    ensures |r| < |s| ==> !IsDigit(s[|r|])
  {
    if s == [] || !IsDigit(s[0]) then []
    else
      var t := LeadingDigits(s[1..]);
      assert [s[0]] + t == s[..|t| + 1];
      [s[0]] + t
  }

  /** PHP's `(int)` cast of a string that starts with a digit or with no
   *  number at all: the value of its leading digits, 0 when there are none.
   *  Leading whitespace, a sign, a fraction and an exponent are not read
   *  (PHP reads `" 5"` as 5, `"-3"` as -3 and `"1e3"` in arithmetic as
   *  1000); the texts cast here are database values and digit-checked
   *  version parts, which start with a digit or are empty. */
  function IntValue(s: string): (r: nat)
  {
    DigitsValue(LeadingDigits(s))
  }

  /** The digits of a string that is all digits are the whole string. */
  lemma {:induction false} LeadingDigitsAll(s: string)
    requires AllDigits(s)
    ensures LeadingDigits(s) == s
  {
    if s != [] {
      LeadingDigitsAll(s[1..]);
    }
  }

  /** In the model's digit-leading reading, casting the decimal text of a
   *  number gives the number back, and digits followed by a non-digit are
   *  read up to that character. PHP agrees unless the rest continues the
   *  number, as an exponent `e3` or a fraction does. */
  lemma IntValueOfText(n: nat, rest: string)
    requires rest == [] || !IsDigit(rest[0])
    ensures IntValue(NatText(n) + rest) == n
  {
    var t := NatText(n);
    NatTextRoundTrip(n);
    LeadingDigitsStop(t, rest);
  }

  lemma {:induction false} LeadingDigitsStop(t: string, rest: string)
    requires AllDigits(t)
    requires rest == [] || !IsDigit(rest[0])
    ensures LeadingDigits(t + rest) == t
    decreases |t|
  {
    if t != [] {
      assert (t + rest)[1..] == t[1..] + rest;
      LeadingDigitsStop(t[1..], rest);
    } else {
      assert t + rest == rest;
    }
  }
}
