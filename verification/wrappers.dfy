/** Failure-carrying values used for the nullable fields, the thrown exceptions
    and the API outcomes of the modelled code. */
module Wrappers {

  /** A value that may be absent: JavaScript's null/undefined, Java's null. */
  datatype Option<+T> = None | Some(value: T) {
    function GetOr(default: T): T {
      match this
      case Some(v) => v
      case None => default
    }
  }

  /** A call that either returns a value or throws. */
  datatype Result<+R, +E> = Success(value: R) | Failure(error: E)

  /** A call without a result (a Java `void` method) that either returns or throws. */
  datatype Outcome<+E> = Pass | Fail(error: E)
}
