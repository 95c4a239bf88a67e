/** Optional values and results with an error, the shapes the sorter's
    Python code expresses with `None` and with raised exceptions. */
module Wrappers {

  datatype Option<+T> = None | Some(value: T)

  datatype Result<+R, +E> = Success(value: R) | Failure(error: E)

  /** The exceptions of the sorter that escape to the caller. */
  datatype Error =
    | IndexError    // a string indexed past its start
    | ValueError    // an argument with a value the function refuses
}
