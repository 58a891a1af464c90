/** Optional values and success/failure results shared by every module of the model. */
module Wrappers {

  /** A value that may be absent (a missing field, a lookup that found nothing). */
  datatype Option<+T> = None | Some(value: T)

  /** The outcome of a server action: a value, or the reason it was refused. */
  datatype Result<+T, +E> = Success(value: T) | Failure(error: E)
}
