/** The exception kinds forgesync raises or lets escape, as one closed sum.

    The source spreads them over several files: the `SyncError` family lives in
    sync.py, `MirrorError` in mirror.py, `RemirrorSyntaxError` in remirror.py,
    `DestinationError` in dest.py; `ValueError`, `KeyError` and `RuntimeError`
    are Python built-ins the core raises directly (or lets `str.format` raise).
    Each carries the message the source attaches to it.
 */
module Errors {

  datatype Error =
    | SyncError(msg: string)
    | RepositoryError(msg: string)
    | RepositorySkippedError(msg: string)
    | MirrorError(msg: string)
    | RemirrorSyntaxError(msg: string)
    | DestinationError(msg: string)
    | ValueError(msg: string)
    | KeyError(key: string)
    | RuntimeError(msg: string)
    | TypeError(msg: string)

  /** `isinstance(e, RepositoryError)`: the class and its subclass `RepositorySkippedError`. */
  predicate IsRepositoryError(e: Error) {
    e.RepositoryError? || e.RepositorySkippedError?
  }

  /** `isinstance(e, SyncError)`: the base class and everything below it. */
  predicate IsSyncError(e: Error) {
    e.SyncError? || IsRepositoryError(e)
  }

  /** `isinstance(e, RuntimeError)`: every error class of the project derives from it. */
  predicate IsRuntimeError(e: Error) {
    !(e.ValueError? || e.KeyError? || e.TypeError?)
  }

  /** The subclass chain `RepositorySkippedError < RepositoryError < SyncError < RuntimeError`,
      and `MirrorError` sits beside it, not below `SyncError`. */
  lemma Hierarchy(e: Error)
    ensures e.RepositorySkippedError? ==> IsRepositoryError(e)
    ensures IsRepositoryError(e) ==> IsSyncError(e)
    ensures IsSyncError(e) ==> IsRuntimeError(e)
    ensures e.MirrorError? ==> IsRuntimeError(e) && !IsSyncError(e)
  {
  }
}
