/**
 * The PBX key (cgi-bin/auth/Key.php): a SHA-256 digest over
 *
 *     NAME ":" (k "=" v "&")* ":" salt
 *
 * where NAME is the upper-cased purpose of the key, the pairs are the data
 * in insertion order and the salt is computed from a timestamp.  The library
 * pieces the key relies on are parameters gathered in `Env`: the SHA-256
 * function (only its 64-character output is known), PHP's date parser, the
 * wall-clock window of `generate_salt`, PHP's rendering of a float and the
 * composition `sha1(base64_encode(...))` used by the TSK override.
 */
module KeyCodec {

  import opened Outcome
  import opened PhpText

  const Zeros: string := "0000000000000000000000000000000000000000000000000000000000000000"

  /** A hex SHA-256 implementation: 64 characters for every input. */
  type Sha256 = f: string -> string | forall s :: |f(s)| == 64 witness (s: string) => Zeros

  /** The six fields of a PHP `DateTime` that `generate_salt` reads. */
  datatype Moment = Moment(year: int, month: int, day: int, hour: int, minute: int, second: int)

  predicate ValidMoment(m: Moment)
  {
    0 <= m.year && 1 <= m.month <= 12 && 1 <= m.day <= 31
    && 0 <= m.hour <= 23 && 0 <= m.minute <= 59 && 0 <= m.second <= 59
  }

  /** A moment a `DateTime` can hold.  Two of them format alike under
   *  'Y-m-d H:i:s' exactly when they are equal. */
  type Stamp = m: Moment | ValidMoment(m) witness Moment(2013, 1, 1, 1, 1, 1)

  const PinnedText: string := "2013-01-01 01:01:01"
  const Pinned: Stamp := Moment(2013, 1, 1, 1, 1, 1)

  /** PHP's `true` (skip the clock) or a timestamp string from the client. */
  datatype When = Override | At(text: string)

  datatype Library = Library(
    sha256: Sha256,
    /** `new DateTime(text)`; `Fail` carries the message of its exception. */
    parse: string -> Result<Stamp>,
    /** false when `generate_salt` finds the stamp too early or too late
     *  against the current time in the Midway and Tongatapu time zones. */
    inWindow: Stamp -> bool,
    /** PHP's string conversion of the float salt. */
    saltText: real -> string,
    /** `sha1(base64_encode(text))`. */
    tskDigest: string -> string)

  /** The one fact assumed of PHP's date parser: it reads the pinned text. */
  type Env = l: Library | l.parse(PinnedText) == Ok(Pinned)
    witness Library((s: string) => Zeros, (s: string) => Ok(Pinned), (m: Stamp) => true,
                    (x: real) => "", (s: string) => "")

  datatype Pair = Pair(k: string, v: string)

  /** A `Key` object: the purpose and salt are unset (`None`) when the key
   *  was wrapped from a client string. */
  datatype Key = Key(name: Option<string>, salt: Option<real>, digest: string)

  /** The `k=v&` run of the hash input, pairs in order. */
  function Fields(data: seq<Pair>): (r: string)
  {
    if data == [] then ""
    else Fields(data[..|data| - 1]) + data[|data| - 1].k + "=" + data[|data| - 1].v + "&"
  }

  /** The text that is hashed. */
  function HashInput(tag: string, data: seq<Pair>, salt: string): (r: string)
  {
    tag + ":" + Fields(data) + ":" + salt
  }

  /** The runs of consecutive pieces of the data simply concatenate. */
  lemma {:induction false} FieldsAppend(a: seq<Pair>, b: seq<Pair>)
    ensures Fields(a + b) == Fields(a) + Fields(b)
    decreases |b|
  {
    if b == [] {
      assert a + b == a;
    } else {
      var b' := b[..|b| - 1];
      assert (a + b)[..|a + b| - 1] == a + b';
      FieldsAppend(a, b');
    }
  }

  /** One pair contributes exactly `k=v&`, the last one included. */
  lemma FieldsSingle(p: Pair)
    ensures Fields([p]) == p.k + "=" + p.v + "&"
  {
    assert [p][..0] == [];
  }

  /** Three pairs give their three `k=v&` runs in order. */
  lemma FieldsThree(a: Pair, b: Pair, c: Pair)
    ensures Fields([a, b, c]) == (a.k + "=" + a.v + "&") + ((b.k + "=" + b.v + "&") + (c.k + "=" + c.v + "&"))
  {
    FieldsAppend([a], [b, c]);
    FieldsAppend([b], [c]);
    FieldsSingle(a);
    FieldsSingle(b);
    FieldsSingle(c);
    assert [a] + [b, c] == [a, b, c];
    assert [b] + [c] == [b, c];
  }

  /** The loop step: appending the next pair to the text built so far. */
  lemma FieldsStep(head: string, data: seq<Pair>, i: nat, pair: string)
    requires i < |data| && pair == data[i].k + "=" + data[i].v
    ensures head + Fields(data[..i + 1]) == head + Fields(data[..i]) + pair + "&"
  {
    assert data[..i + 1][..i] == data[..i];
    var f := Fields(data[..i]);
    assert Fields(data[..i + 1]) == f + data[i].k + "=" + data[i].v + "&";
    assert f + data[i].k + "=" + data[i].v + "&" == f + pair + "&";
  }

  /** `generate_key`: builds the hash input with a `foreach` and hashes it. */
  method GenerateKey(lib: Env, tag: string, salt: real, data: seq<Pair>) returns (digest: string)
    ensures digest == lib.sha256(HashInput(tag, data, lib.saltText(salt)))
    ensures |digest| == 64
  {
    var result := tag + ":";
    var i := 0;
    while i < |data|
      invariant 0 <= i <= |data|
      invariant result == tag + ":" + Fields(data[..i])
    {
      FieldsStep(tag + ":", data, i, data[i].k + "=" + data[i].v);
      result := result + (data[i].k + "=" + data[i].v);
      result := result + "&";
      i := i + 1;
    }
    assert data[..i] == data;
    result := result + ":" + lib.saltText(salt);
    digest := lib.sha256(result);
  }

  /** `v1 = Y*Mo/D*S` with PHP's float division, 100 in place of 0. */
  function V1(t: Stamp): (r: real)
    ensures r != 0.0
    ensures t.year == 0 || t.second == 0 ==> r == 100.0
  {
    var v := (t.year * t.month) as real / t.day as real * t.second as real;
    if v == 0.0 then 100.0 else v
  }

  /** `v2 = (H - Mi) + S`, 100 in place of 0. */
  function V2(t: Stamp): (r: real)
    ensures r != 0.0
    ensures t.hour - t.minute + t.second != 0 ==> r == (t.hour - t.minute + t.second) as real
  {
    var v := (t.hour - t.minute + t.second) as real;
    if v == 0.0 then 100.0 else v
  }

  function Abs(x: real): real
  {
    if x < 0.0 then -x else x
  }

  /** The salt rule of a stamp: `|v1/v2|` on an even second and
   *  `|v2/v1 * 10000|` on an odd one.  Both divisors are non-zero, so the
   *  salt is always defined, and it is strictly positive. */
  function SaltValue(t: Stamp): (r: real)
    ensures r > 0.0
  {
    if t.second % 2 == 0 then Quotient(V1(t), V2(t), 1.0) else Quotient(V2(t), V1(t), 10000.0)
  }

  /** `abs(a / b * m)` for non-zero `a` and `b`. */
  function Quotient(a: real, b: real, m: real): (r: real)
    requires a != 0.0 && b != 0.0 && m > 0.0
    ensures r > 0.0
  {
    var q := a / b;
    assert q * b == a;
    Abs(q * m)
  }

  /** `generate_salt`: `None` (PHP's NULL) when the stamp is not the
   *  pinned instant and lies outside the clock window. */
  function GenerateSalt(lib: Env, t: Stamp): (r: Option<real>)
    ensures r.None? <==> t != Pinned && !lib.inWindow(t)
    ensures r.Some? ==> r.value == SaltValue(t)
  {
    if t != Pinned && !lib.inWindow(t) then None else Some(SaltValue(t))
  }

  /** `new_key_from_data`: fails when the date parser fails, and with
   *  PBX601 when the stamp gives no salt; otherwise the purpose is stored
   *  upper-cased and the digest has 64 characters. */
  function NewKeyFromData(lib: Env, name: string, when: When, data: seq<Pair>): (r: Result<Key>)
    ensures r.Ok? ==> r.value.name == Some(Upper(name)) && |r.value.digest| == 64
    ensures r.Fail? <==> lib.parse(StampText(when)).Fail? || !Admitted(lib, lib.parse(StampText(when)).value)
    ensures r.Fail? && lib.parse(StampText(when)).Ok? ==> r.msg == "PBX601:Invalid timestamp"
  {
    var t :- lib.parse(StampText(when));
    var salt := GenerateSalt(lib, t);
    if salt.None? then Fail("PBX601:Invalid timestamp")
    else Ok(Key(Some(Upper(name)), salt, lib.sha256(HashInput(Upper(name), data, lib.saltText(salt.value)))))
  }

  /** What an issued key holds: the salt of the parsed stamp and the digest
   *  of `NAME:k=v&...&:salt`. */
  lemma IssuedKeyContents(lib: Env, name: string, when: When, data: seq<Pair>, t: Stamp)
    requires lib.parse(StampText(when)) == Ok(t) && Admitted(lib, t)
    ensures NewKeyFromData(lib, name, when, data) ==
      Ok(Key(Some(Upper(name)), Some(SaltValue(t)), lib.sha256(HashInput(Upper(name), data, lib.saltText(SaltValue(t))))))
  {
  }

  /** The text handed to `new DateTime`: the pinned one for `true`. */
  function StampText(when: When): (r: string)
  {
    if when.Override? then PinnedText else when.text
  }

  /** Stamps that give a salt: the pinned instant and those in the window. */
  predicate Admitted(lib: Env, t: Stamp)
  {
    t == Pinned || lib.inWindow(t)
  }

  /** `new_key_from_source`: only 64-character strings are wrapped. */
  function NewKeyFromSource(s: string): (r: Result<Key>)
    ensures r.Fail? <==> |s| != 64
    ensures r.Fail? ==> r.msg == "PBX603"
    ensures r.Ok? ==> r.value == Key(None, None, s)
  {
    if |s| != 64 then Fail("PBX603") else Ok(Key(None, None, s))
  }

  /** `validate_keys`: only the two digests are compared. */
  function ValidateKeys(a: Key, b: Key): (r: bool)
  {
    a.digest == b.digest
  }

  /** `generate_pwd`: the first 25 characters of the pinned "PBXDB" key
   *  over `{"pwd": password}`. */
  function GeneratePwd(lib: Env, password: string): (r: string)
    ensures |r| == 25
  {
    PinnedKeyDigest(lib, "PBXDB", [Pair("pwd", password)]);
    Prefix(NewKeyFromData(lib, "PBXDB", Override, [Pair("pwd", password)]).value.digest, 25)
  }

  /** The password is a prefix of the pinned digest over `pwd=<password>&`. */
  lemma GeneratePwdContents(lib: Env, password: string)
    ensures GeneratePwd(lib, password) ==
      lib.sha256("PBXDB:pwd=" + password + "&:" + lib.saltText(SaltValue(Pinned)))[..25]
  {
    PinnedKeyDigest(lib, "PBXDB", [Pair("pwd", password)]);
    FieldsSingle(Pair("pwd", password));
    assert Upper("PBXDB") == "PBXDB";
    assert HashInput("PBXDB", [Pair("pwd", password)], lib.saltText(SaltValue(Pinned))) ==
      "PBXDB:pwd=" + password + "&:" + lib.saltText(SaltValue(Pinned));
  }

  /** A key with the sentinel timestamp is always issued, with the salt of
   *  the pinned instant. */
  lemma PinnedKeyDigest(lib: Env, name: string, data: seq<Pair>)
    ensures NewKeyFromData(lib, name, Override, data) ==
      Ok(Key(Some(Upper(name)), Some(SaltValue(Pinned)),
             lib.sha256(HashInput(Upper(name), data, lib.saltText(SaltValue(Pinned))))))
  {
    assert StampText(Override) == PinnedText;
  }

  /** Passing `true` is the same as passing a timestamp that the date
   *  parser reads as 2013-01-01 01:01:01; neither consults the clock. */
  lemma OverrideIsPinnedText(lib: Env, name: string, text: string, data: seq<Pair>)
    requires lib.parse(text) == Ok(Pinned)
    ensures NewKeyFromData(lib, name, At(text), data) == NewKeyFromData(lib, name, Override, data)
    ensures NewKeyFromData(lib, name, At(PinnedText), data) == NewKeyFromData(lib, name, Override, data)
  {
  }

  /** A stamp outside the window gives PBX601 and no key. */
  lemma OutOfWindowFails(lib: Env, name: string, text: string, data: seq<Pair>)
    requires lib.parse(text).Ok? && lib.parse(text).value != Pinned
    requires !lib.inWindow(lib.parse(text).value)
    ensures NewKeyFromData(lib, name, At(text), data) == Fail("PBX601:Invalid timestamp")
  {
  }

  /** Keys from the sentinel timestamp do not depend on the clock. */
  lemma OverrideIgnoresClock(lib: Env, window: Stamp -> bool, name: string, data: seq<Pair>)
    ensures lib.(inWindow := window).parse(PinnedText) == Ok(Pinned)
    ensures NewKeyFromData(lib.(inWindow := window), name, Override, data) == NewKeyFromData(lib, name, Override, data)
  {
    PinnedKeyDigest(lib, name, data);
    PinnedKeyDigest(lib.(inWindow := window), name, data);
  }

  /** Hence neither does a database password. */
  lemma GeneratePwdIgnoresClock(lib: Env, window: Stamp -> bool, password: string)
    ensures lib.(inWindow := window).parse(PinnedText) == Ok(Pinned)
    ensures GeneratePwd(lib.(inWindow := window), password) == GeneratePwd(lib, password)
  {
  }

  /** A key issued by the server, sent back by a client and wrapped again,
   *  validates against the original; wrapping is the inverse of `get_key`. */
  lemma IssuedKeyRoundTrip(lib: Env, name: string, when: When, data: seq<Pair>)
    requires NewKeyFromData(lib, name, when, data).Ok?
    ensures var k := NewKeyFromData(lib, name, when, data).value;
      NewKeyFromSource(k.digest) == Ok(Key(None, None, k.digest)) &&
      ValidateKeys(NewKeyFromSource(k.digest).value, k)
  {
  }

  /** Determinism: the same name, timestamp and data give keys that
   *  validate against each other, and validation ignores name and salt. */
  lemma ValidateKeysOnDigestsOnly(a: Key, b: Key, n1: Option<string>, s1: Option<real>, n2: Option<string>, s2: Option<real>)
    ensures ValidateKeys(a, b) == ValidateKeys(a.(name := n1, salt := s1), b.(name := n2, salt := s2))
    ensures ValidateKeys(a, a)
  {
  }
}
