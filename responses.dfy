/**
 * The response writer (responses.php): turns the text of a finished
 * request (an exception message such as "PBX602:Invalid key", or the
 * success text "PBX200:...") into the response record the client reads,
 * with the description of its code looked up in the responses file.
 */
module Responses {

  import opened Outcome
  import opened PhpText

  /** One `response` element of the responses file: its `id` attribute and
   *  its text content. */
  datatype Entry = Entry(id: string, text: string)

  /** The object `generate_response` encodes as JSON: `responseCode`,
   *  `responseDesc` and, when set, `responseMsg`. */
  datatype Response = Response(code: string, desc: string, msg: Option<string>)

  const Unknown: string := "Unknown error!"
  const Foreign: string := "PBX500"

  /** The fixed response when the responses file cannot be loaded. */
  const MissingCode: string := "PBX503"
  const MissingDesc: string := "Missing Internal File"
  const MissingMsg1: string := "Failed to load error descriptions! "
  const MissingMsg2: string := "Check responses.xml immediately!"

  /** `/^PBX\d{3}/`: the text starts with "PBX" and three digits. */
  predicate IsCode(s: string)
  {
    |s| >= 6 && s[..3] == "PBX" && IsDigit(s[3]) && IsDigit(s[4]) && IsDigit(s[5])
  }

  /** The code and optional message of a text: split at the first colon; a
   *  first part that is not a code makes the code PBX500 and the whole
   *  text the message. */
  function Parse(data: string): (r: (string, Option<string>))
  {
    var parts := SplitFirst(':', data);
    if !IsCode(parts.0) then (Foreign, Some(data)) else parts
  }

  /** The first part is a code exactly when the whole text starts with
   *  one: the six characters of a code hold no colon. */
  lemma CodeOfFirstPart(data: string)
    ensures IsCode(SplitFirst(':', data).0) <==> IsCode(data)
  {
    var parts := SplitFirst(':', data);
    var head := parts.0;
    assert head == data[..|head|];
    if IsCode(data) && parts.1.Some? {
      assert forall k :: 0 <= k < 6 ==> data[k] != ':' by {
        forall k | 0 <= k < 6 ensures data[k] != ':' {
          assert data[k] == data[..6][k];
        }
      }
      assert data[|head|] == ':';
      assert head[..6] == data[..6];
    }
    if IsCode(head) {
      assert data[..6] == head[..6];
    }
  }

  /** A text that does not start with a code is answered with PBX500 and
   *  itself as the message. */
  lemma ParseForeign(data: string)
    requires !IsCode(data)
    ensures Parse(data) == (Foreign, Some(data))
  {
    CodeOfFirstPart(data);
  }

  /** A code followed by a colon and a message (possibly empty) gives that
   *  code and message; a code alone gives no message. */
  lemma ParseCoded(code: string, msg: string)
    requires IsCode(code) && ':' !in code
    ensures Parse(code + ":" + msg) == (code, Some(msg))
    ensures Parse(code) == (code, None)
  {
    var s := code + ":" + msg;
    assert s == code + [':'] + msg;
    IndexOfAfterFree(':', code, msg);
    assert s[..|code|] == code;
    assert s[|code| + 1..] == msg;
  }

  /** A coded text is its code, then (when there is one) a colon and the
   *  message, and the code holds no colon. */
  lemma ParseRoundTrip(data: string)
    requires IsCode(data)
    ensures var r := Parse(data);
      IsCode(r.0) && ':' !in r.0 &&
      data == if r.1.Some? then r.0 + ":" + r.1.value else r.0
  {
    CodeOfFirstPart(data);
  }

  /** `get_response_description`: the text of the first entry with the
   *  code, or "Unknown error!". */
  function Describe(entries: seq<Entry>, code: string): (r: string)
  {
    if |entries| == 0 then Unknown
    else if entries[0].id == code then entries[0].text
    else Describe(entries[1..], code)
  }

  /** The first entry with the code gives the description, whatever comes
   *  after it. */
  lemma {:induction false} DescribeFirst(entries: seq<Entry>, code: string, i: int)
    requires 0 <= i < |entries| && entries[i].id == code
    requires forall j :: 0 <= j < i ==> entries[j].id != code
    ensures Describe(entries, code) == entries[i].text
  {
    if i > 0 {
      DescribeFirst(entries[1..], code, i - 1);
    }
  }

  /** A code that no entry has is "Unknown error!". */
  lemma {:induction false} DescribeMissing(entries: seq<Entry>, code: string)
    requires forall j :: 0 <= j < |entries| ==> entries[j].id != code
    ensures Describe(entries, code) == Unknown
  {
    if |entries| > 0 {
      DescribeMissing(entries[1..], code);
    }
  }

  /** `generate_response` on the loaded responses file (`None` when it
   *  could not be loaded). */
  function Generate(database: Option<seq<Entry>>, data: string): (r: Response)
  {
    match database
    case None => Response(MissingCode, MissingDesc, Some(MissingMsg1 + MissingMsg2))
    case Some(entries) =>
      var parsed := Parse(data);
      Response(parsed.0, Describe(entries, parsed.0), parsed.1)
  }

  /** Without the responses file the answer is PBX503 whatever the text;
   *  with it, the code and message are the parsed ones and the
   *  description is looked up by the code. */
  lemma GenerateCases(database: Option<seq<Entry>>, data: string)
    ensures database.None? ==> Generate(database, data).code == MissingCode && Generate(database, data).msg.Some?
    ensures database.Some? ==> (Generate(database, data).code, Generate(database, data).msg) == Parse(data)
    ensures database.Some? ==> Generate(database, data).desc == Describe(database.value, Parse(data).0)
  {
  }

  /** The handler with its static responses database. */
  class ResponseHandler {

    /** `$responseDatabase`: the entries of the last file loaded, `None`
     *  when loading failed or before the first load. */
    var responseDatabase: Option<seq<Entry>>

    constructor ()
      ensures responseDatabase == None
    {
      responseDatabase := None;
    }

    /** `generate_response(data)`, where `loaded` is what loading the
     *  responses file gave. */
    method GenerateResponse(data: string, loaded: Option<seq<Entry>>) returns (r: Response)
      modifies this
      ensures responseDatabase == loaded
      ensures r == Generate(loaded, data)
    {
      responseDatabase := loaded;
      if responseDatabase.None? {
        r := Response(MissingCode, MissingDesc, Some(MissingMsg1 + MissingMsg2));
      } else {
        var parsed := Parse(data);
        var desc := GetResponseDescription(parsed.0);
        r := Response(parsed.0, desc, parsed.1);
      }
    }

    /** `get_response_description(code)`: the search loop over the
     *  entries, which returns at the first match. */
    method GetResponseDescription(code: string) returns (desc: string)
      requires responseDatabase.Some?
      ensures desc == Describe(responseDatabase.value, code)
    {
      var entries := responseDatabase.value;
      var i := 0;
      while i < |entries|
        invariant 0 <= i <= |entries|
        invariant Describe(entries[i..], code) == Describe(entries, code)
      {
        if entries[i].id == code {
          return entries[i].text;
        }
        assert entries[i..][1..] == entries[i + 1..];
        i := i + 1;
      }
      return Unknown;
    }
  }
}
