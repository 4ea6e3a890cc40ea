/** Failure-carrying result types shared by every module of the model. */
module Wrappers {

  /** An optional value: the model of Rust's `Option<T>`. */
  datatype Option<+T> = None | Some(value: T) {
    function GetOr(default: T): T {
      match this
      case Some(v) => v
      case None => default
    }
  }

  /** A value or an error: the model of Rust's `Result<T, E>`; a panic of
      the source is a `Failure` whose error names the panic. */
  datatype Result<+T, +E> = Success(value: T) | Failure(error: E)

  /** A unit result: `Result<(), E>` of the source. */
  datatype Outcome<+E> = Pass | Fail(error: E)
}
