/** Optional values, outcomes that may be errors, and what becomes of a commit, shared by every module of the project. */
module Wrappers {
  datatype Option<+T> = None | Some(value: T)

  datatype Result<+T, +E> = Ok(value: T) | Err(error: E)

  /** A commit takes effect, or does so while its caller is told of an error, or does not. */
  datatype CommitFate = Durable | DurableUnacknowledged | NotDurable
}
