/**
 * Results of the back end's operations.  Every PHP `throw new Exception(m)`
 * of the modelled code becomes `Fail(m)` carrying the exception message
 * verbatim (for instance "PBX602:Score that was submitted was not authorised
 * by PBX"); a value that is returned normally becomes `Ok(v)`.
 */
module Outcome {

  datatype Option<T> = None | Some(value: T)

  datatype Result<T> = Ok(value: T) | Fail(msg: string)
  {
    predicate IsFailure() { Fail? }

    function PropagateFailure<U>(): Result<U>
      requires Fail?
    {
      Fail(msg)
    }

    function Extract(): T
      requires Ok?
    {
      value
    }
  }

  /** One row fetched with `fetch_assoc`: column name to value. */
  type Row = map<string, string>

  /** What `mysqli::query` answers to one statement: `true` for a statement
   *  without a result set, a result set, or `false` with the connection's
   *  error text. */
  datatype Answer = Pushed | ResultSet(rows: seq<Row>) | Failed(error: string)

  /** What `Database::array_query` returns: the single entry when there is
   *  exactly one, otherwise the list; an entry is a list of rows, or PHP's
   *  NULL where no result set had been seen yet. */
  datatype ArrayValue = Single(entry: Option<seq<Row>>) | Several(entries: seq<Option<seq<Row>>>)

  /** What a request handler hands back to the front controller: PHP's
   *  `true`, a string, an `array_query` value, the raw result list, or
   *  PHP's NULL (the unset results field `raw_query` returns when no
   *  statement has succeeded yet). */
  datatype Reply = Yes | Text(s: string) | Arrays(value: ArrayValue) | Raw(results: seq<Answer>) | Null
}
