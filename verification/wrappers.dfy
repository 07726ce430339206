/** Failure-carrying datatypes shared by the DNS and TLS models. */
module Wrappers {

  /** A value that may be absent; `None` plays the part of Go's `nil`. */
  datatype Option<+T> = None | Some(value: T)

  /** Either a value or the error that stopped its computation. */
  datatype Result<+T, +E> = Success(value: T) | Failure(error: E)
}
