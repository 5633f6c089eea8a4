/** Option and Result values for the model's lookups and error paths. */
module Wrappers {

  datatype Option<+T> = None | Some(value: T)

  /** `Failure` carries what a Python exception would report. */
  datatype Result<+T, +E> = Success(value: T) | Failure(error: E)
}
