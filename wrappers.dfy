/** Option and Result: the null-or-value fields of the game state and the
    throw-or-return shape of the selector and of the data fetch. */
module Wrappers {

  datatype Option<+T> = None | Some(value: T)

  datatype Result<+R, +E> = Success(value: R) | Failure(error: E)
}
