/** Optional values and success/failure results, used across the model for
    Python's None/NaN and for the exceptions the pipeline raises. */
module Wrappers {

  /** None stands for Python's None, pandas' NaN and JavaScript's null/undefined. */
  datatype Option<+T> = None | Some(value: T) {
    function GetOr(default: T): T {
      match this
      case Some(v) => v
      case None => default
    }
  }

  /** Ok for a normal return, Err for a raised exception or SystemExit. */
  datatype Result<+T, +E> = Ok(value: T) | Err(error: E)
}
