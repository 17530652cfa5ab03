/** Option and Result, used for Python's None and for raised exceptions. */
module Wrappers {

  datatype Option<+T> = None | Some(value: T)

  /** `Failure` carries the name of the Python exception the source raises. */
  datatype Result<+R> = Success(value: R) | Failure(error: string)
}
