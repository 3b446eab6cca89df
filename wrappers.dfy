/** Kotlin's nullable values and thrown errors, as datatypes. */
module Wrappers {

  /** A Kotlin `T?`: `None` stands for `null`. */
  datatype Option<+T> = None | Some(value: T)

  /** The outcome of a computation that may throw: `Failure` carries what was thrown. */
  datatype Result<+T, +E> = Success(value: T) | Failure(error: E)

  /** A check that either passes or fails with a reason (a JUnit assertion). */
  datatype Outcome<+E> = Pass | Fail(error: E)
}
