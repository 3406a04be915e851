/** Option and Result, the two failure-carrying shapes the course table uses. */
module Wrappers {

  /** A value that may be absent: a missing body member, a path id that does not parse. */
  datatype Option<+T> = None | Some(value: T)

  /** The outcome of a check that either yields a value or names what went wrong. */
  datatype Result<+T, +E> = Success(value: T) | Failure(error: E)
}
