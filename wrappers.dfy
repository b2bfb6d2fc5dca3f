/** Failure-carrying values used wherever the Kotlin code throws or returns null. */
module Wrappers {

  datatype Option<T> = None | Some(value: T)

  /** A computation that either produced a value or threw an exception with a message. */
  datatype Result<T> = Ok(value: T) | Err(message: string) {
    predicate IsFailure() { Err? }
  }
}
