// Optional values and results with an error, for the simulator's `Option`
// returns and its load-time failures.

module Wrappers {

  datatype Option<+T> = None | Some(value: T)

  datatype Result<+T, +E> = Success(value: T) | Failure(error: E)
}
