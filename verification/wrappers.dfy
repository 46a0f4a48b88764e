/** Optional values and results shared by the loaders, the reconciler and the pipeline. */
module Wrappers {

  /** A value that may be absent: a parser's answer, a map lookup, an optional warning. */
  datatype Option<+T> = None | Some(value: T)

  /** Either the computed value or the reason the computation stopped. */
  datatype Result<+R, +E> = Success(value: R) | Failure(error: E)
}
