/** Error kinds of the application (the exception classes it raises) and the
    Option/Result wrappers the rest of the model uses for its error paths. */
module Errors {

  /** One constructor per exception class the core raises or passes on.
      IndexError stands for Python's own IndexError escaping from a lookup. */
  datatype ErrorKind =
    | UserCancelled
    | NetworkFailure
    | BadURL
    | NoContent
    | CorruptedContent
    | AuthFailure
    | ServiceFailure
    | RateLimitExceeded
    | InternalError
    | RequestError
    | IndexError

  datatype Option<+T> = None | Some(value: T)

  datatype Result<+T> = Ok(value: T) | Err(error: ErrorKind) {
    predicate IsFailure() { Err? }

    function PropagateFailure<U>(): Result<U>
      requires Err?
    {
      Err(error)
    }

    function Extract(): T
      requires Ok?
    {
      value
    }
  }
}
