/** Optional values and results shared by the models of the three components. */
module Outcomes {

  /** A value that may be absent: Rust's `Option`, JavaScript's `undefined`,
      C++'s empty `std::optional`. */
  datatype Option<+T> = None | Some(value: T) {
    function GetOr(default: T): T {
      match this
      case Some(v) => v
      case None => default
    }
  }

  /** Either a value or the failure that aborted the computation. */
  datatype Result<+T, +E> = Success(value: T) | Failure(error: E)
}
