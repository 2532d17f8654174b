/** Option and Result: the two ways an operation of the table builder can
    report "nothing here" and "this failed". */
module Wrappers {

  /** A value that may be absent; stands for a Go pointer that may be nil. */
  datatype Option<+T> = None | Some(value: T)

  /** The outcome of an operation that returns either a value or an error. */
  datatype Result<+R, +E> = Success(value: R) | Failure(error: E)
}
