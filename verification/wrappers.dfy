/** Option and Result, the failure-carrying shapes the controllers' early returns map to. */
module Wrappers {

  /** A possibly-absent value: `undefined`/`null` in the controllers become `None`. */
  datatype Option<+T> = None | Some(value: T)

  /** The outcome of a check that either yields a value or an error message. */
  datatype Result<+T> = Success(value: T) | Failure(error: string)
}
