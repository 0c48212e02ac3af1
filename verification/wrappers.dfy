/** Failure-compatible result types shared by the ledger modules. */
module Wrappers {

  /** An optional value: the ledger's `undefined`. */
  datatype Option<+T> = None | Some(value: T)

  /** Either a value or an error describing why none could be produced. */
  datatype Result<+R, +E> = Success(value: R) | Failure(error: E)
}
