/** Failure-compatible wrappers shared by every module: `Option` for Python's
    `X | None`, `Result` for "a value or a raised exception", and `Traced` for
    the calls an operation issued to a forge before it returned or raised. */
module Wrappers {
  import opened Errors

  datatype Option<+T> = None | Some(value: T) {
    function GetOr(default: T): T {
      match this
      case Some(v) => v
      case None => default
    }
  }

  datatype Result<+T> = Ok(value: T) | Err(error: Error) {
    predicate IsFailure() {
      Err?
    }

    function PropagateFailure<U>(): Result<U>
      requires Err?
    {
      Err(error)
    }

    function Extract(): T
      requires Ok?
    {
      value
    }
  }

  /** What an operation did to the outside world (`calls`, in issue order) and how
      it ended (`result`). Calls issued before an exception stay in `calls`:
      nothing the core does is rolled back. */
  datatype Traced<C, +T> = Traced(calls: seq<C>, result: Result<T>)
}
