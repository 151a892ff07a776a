/** Option and Result datatypes: `Option` for a cell pandas may hold as NaN,
    `Result` for an operation that either succeeds or raises. */
module Wrappers {

  datatype Option<+T> = None | Some(value: T)

  datatype Result<+R, +E> = Success(value: R) | Failure(error: E)
}
