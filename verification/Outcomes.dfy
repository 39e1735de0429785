/** The result shapes the other modules share. */
module Outcomes {
  datatype Option<+T> = None | Some(value: T)

  datatype Result<+T, +E> = Ok(value: T) | Err(error: E)

  /** The errors a storage backend reports to its callers. */
  datatype BackendError =
    | NotFound
    | InvalidPath
    | Conflict
    | PreconditionFailed
    | InvalidRange
    | OtherFailure
}
