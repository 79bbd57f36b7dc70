/** Failure-carrying wrappers, and the one sequence helper, shared by every
    module of the model. */
module Results {

  /** A value that may be absent: Go's nil or a missing map entry. */
  datatype Option<+T> = None | Some(value: T)

  /** A value or the error that replaced it: Go's `(value, error)` pair. */
  datatype Result<+T, +E> = Success(value: T) | Failure(error: E)

  /** The last element of a non-empty sequence. */
  function Last<T>(xs: seq<T>): T
    requires |xs| > 0
  {
    xs[|xs| - 1]
  }
}
