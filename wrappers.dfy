/** Option, Result and Outcome: the absent values and thrown exceptions of
    the service, as values. */
module Wrappers {

  datatype Option<+T> = None | Some(value: T)

  /** A value, or the exception the call would have thrown. */
  datatype Result<+T, +E> = Success(value: T) | Failure(error: E)

  /** A call that returns nothing (Kotlin `Unit`), or the exception it threw. */
  datatype Outcome<+E> = Pass | Fail(error: E) {
    /** The same outcome as a `Result` carrying no value. */
    function ToResult(): Result<(), E> {
      match this
      case Pass => Success(())
      case Fail(e) => Failure(e)
    }
  }
}
