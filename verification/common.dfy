/** Shared vocabulary of the gateway model: optional values, bytes, JSON
    fields as Python's `dict.get` sees them, and the two ways a call can fail. */
module Common {

  /** A value that may be absent (Python's `None`). */
  datatype Option<+T> = None | Some(value: T)

  /** The text of an optional string, with `None` read as empty: `(s or "")`. */
  function OrEmpty(s: Option<string>): string
  {
    match s
    case None => ""
    case Some(v) => v
  }

  /** A string-valued key of a JSON object: missing, bound to `null`, or bound to a string. */
  datatype Field = Missing | Null | Str(text: string)

  newtype byte = b: int | 0 <= b < 256

  type Bytes = seq<byte>

  /** How an upstream call or a step after it can fail:
      an HTTP error raised by `raise_for_status` (with the error response's JSON
      when it parsed, and the exception's text), or any other exception. */
  datatype Failure =
    | HttpFailure(json: Option<string>, message: string)
    | Exception(message: string)

  /** The result of a call that may fail. */
  datatype Result<+T> = Ok(value: T) | Err(failure: Failure)

  /** The result of a library step that cannot raise an HTTP error: a value or an exception's text. */
  datatype Outcome<+T> = Done(value: T) | Threw(message: string)
}
