/** Failure-carrying datatypes used throughout the model. */
module Wrappers {

  /** `None` is an absent value; in the statistics modules it stands for pandas' NaN. */
  datatype Option<+T> = None | Some(value: T)

  /** The outcome of an operation that may raise in the dashboard. */
  datatype Result<+R, +E> = Success(value: R) | Failure(error: E)
}
