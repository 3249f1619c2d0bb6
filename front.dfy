/**
 * The front controller (index.php): an error already raised while the
 * script loaded is answered with PBX100; otherwise the request type is
 * required, the request manager runs it, and the outcome is written by
 * the response writer: an exception's message as it is, `true` as a bare
 * PBX200, and any other reply as the message of a PBX200.
 */
module Front {

  import opened Outcome
  import opened Request
  import Responses
  import Dispatch

  const MissingTypeMsg: string := "Missing a request type"
  const MissingType: string := Dispatch.Refused + ":" + MissingTypeMsg
  const Success: string := "PBX200"
  const Earlier: string := "PBX100"

  /** `"$response"` for a reply that is not `true`: a string is itself,
   *  PHP's NULL is empty, and an array prints as "Array". */
  function Interpolate(reply: Reply): (r: string)
  {
    match reply
    case Text(s) => s
    case Null => ""
    case Arrays(Single(None)) => ""
    case _ => "Array"
  }

  /** The text handed to `generate_response` once a handler has answered. */
  function Finish(result: Result<Reply>): (r: string)
  {
    match result
    case Fail(e) => e
    case Ok(Yes) => Success
    case Ok(reply) => Success + ":" + Interpolate(reply)
  }

  /** `main()`: the text handed to `generate_response`, where `answer`
   *  is what the request manager gives for the request type (it is only
   *  asked when a request type is given). */
  function MainText(data: Data, answer: Result<Reply>): (r: string)
  {
    if RequestType !in data then MissingType else Finish(answer)
  }

  /** The page: the response to an earlier error, or to the text of
   *  `main()`. */
  function Page(database: Option<seq<Responses.Entry>>, lastError: Option<string>, main: string): (r: Responses.Response)
  {
    match lastError
    case Some(m) => Responses.Generate(database, Earlier + ":" + m)
    case None => Responses.Generate(database, main)
  }

  /** The whole script on a request: the registered handlers answer the
   *  request type. */
  function Serve(w: Dispatch.World, database: Option<seq<Responses.Entry>>, lastError: Option<string>,
                 data: Data): (r: Responses.Response)
  {
    Page(database, lastError,
         MainText(data, Dispatch.Route(w, Dispatch.Registered, Get(data, RequestType), data).result))
  }

  lemma SuccessIsCode()
    ensures Responses.IsCode(Success) && ':' !in Success
  {
  }

  /** A push answered `true` is a PBX200 without a message. */
  lemma FinishPush(entries: seq<Responses.Entry>)
    ensures Responses.Generate(Some(entries), Finish(Ok(Yes))) ==
      Responses.Response(Success, Responses.Describe(entries, Success), None)
  {
    SuccessIsCode();
    Responses.ParseCoded(Success, "");
  }

  /** Any other reply is a PBX200 whose message is the whole reply text,
   *  colons included. */
  lemma FinishReply(entries: seq<Responses.Entry>, reply: Reply)
    requires reply != Yes
    ensures Responses.Generate(Some(entries), Finish(Ok(reply))) ==
      Responses.Response(Success, Responses.Describe(entries, Success), Some(Interpolate(reply)))
  {
    SuccessIsCode();
    Responses.ParseCoded(Success, Interpolate(reply));
  }

  /** `"$response"` by kind of reply: NULL (an unset results field, or a
   *  single entry with no rows) is empty, a string is itself, and every
   *  other array is "Array". */
  lemma InterpolateCases(reply: Reply)
    requires reply != Yes
    ensures reply == Null || reply == Arrays(Single(None)) ==> Interpolate(reply) == ""
    ensures reply.Text? ==> Interpolate(reply) == reply.s
    ensures reply.Raw? || (reply.Arrays? && reply != Arrays(Single(None))) ==> Interpolate(reply) == "Array"
  {
  }

  /** A NULL reply, such as the one a text with no statement gets, is a
   *  PBX200 with an empty message. */
  lemma FinishNull(entries: seq<Responses.Entry>)
    ensures Responses.Generate(Some(entries), Finish(Ok(Null))) ==
      Responses.Response(Success, Responses.Describe(entries, Success), Some(""))
  {
    FinishReply(entries, Null);
  }

  /** An exception with a coded message answers that code and message; any
   *  other exception is PBX500 with the whole message. */
  lemma FinishError(entries: seq<Responses.Entry>, code: string, msg: string, e: string)
    ensures Responses.IsCode(code) && ':' !in code ==>
      Responses.Generate(Some(entries), Finish(Fail(code + ":" + msg))) ==
        Responses.Response(code, Responses.Describe(entries, code), Some(msg))
    ensures !Responses.IsCode(e) ==>
      Responses.Generate(Some(entries), Finish(Fail(e))) ==
        Responses.Response(Responses.Foreign, Responses.Describe(entries, Responses.Foreign), Some(e))
  {
    if Responses.IsCode(code) && ':' !in code {
      Responses.ParseCoded(code, msg);
    }
    if !Responses.IsCode(e) {
      Responses.ParseForeign(e);
    }
  }

  /** Without a request type the answer is PBX401, whatever else is
   *  given. */
  lemma NoRequestType(entries: seq<Responses.Entry>, data: Data, answer: Result<Reply>)
    requires RequestType !in data
    ensures Page(Some(entries), None, MainText(data, answer)) ==
      Responses.Response(Dispatch.Refused, Responses.Describe(entries, Dispatch.Refused), Some(MissingTypeMsg))
  {
    Dispatch.RefusedIsCode();
    Responses.ParseCoded(Dispatch.Refused, MissingTypeMsg);
  }

  /** A request type that no handler has (see `Dispatch.RouteUnknown`) is
   *  PBX401 too. */
  lemma NoSuchTypePage(entries: seq<Responses.Entry>, data: Data)
    requires RequestType in data
    ensures Page(Some(entries), None, MainText(data, Fail(Dispatch.NoSuchType))) ==
      Responses.Response(Dispatch.Refused, Responses.Describe(entries, Dispatch.Refused), Some(Dispatch.NoSuchTypeMsg))
  {
    Dispatch.RefusedIsCode();
    Responses.ParseCoded(Dispatch.Refused, Dispatch.NoSuchTypeMsg);
  }

  /** An error raised before `main()` is answered with PBX100 and its text,
   *  and the request is not run. */
  lemma EarlierError(entries: seq<Responses.Entry>, m: string, main: string)
    ensures Page(Some(entries), Some(m), main) ==
      Responses.Response(Earlier, Responses.Describe(entries, Earlier), Some(m))
  {
    Responses.ParseCoded(Earlier, m);
  }

  /** Without the responses file every page is the fixed PBX503 response. */
  lemma NoResponsesFile(lastError: Option<string>, main: string)
    ensures Page(None, lastError, main) ==
      Responses.Response(Responses.MissingCode, Responses.MissingDesc,
                         Some(Responses.MissingMsg1 + Responses.MissingMsg2))
  {
  }
}
