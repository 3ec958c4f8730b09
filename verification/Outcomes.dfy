/** Results of operations that the Python code lets fail with an exception or a `None`. */
module Outcomes {
  datatype Option<+T> = None | Some(value: T) {
    function GetOr<U>(f: T -> U, default: U): U {
      match this
      case Some(v) => f(v)
      case None => default
    }
  }

  datatype Result<+T, +E> = Success(value: T) | Failure(error: E)
}
