/** Failure-carrying datatypes used throughout the model: Option stands for Rust's
    `Option<T>` and Result for `Result<T, E>`. */
module Wrappers {

  datatype Option<+T> = None | Some(value: T)

  datatype Result<+T, +E> = Success(value: T) | Failure(error: E)
}
