/** Optional values and success-or-fatal results used throughout the model. */
module Results {

  /** A value that may be absent; stands for a possibly-null pointer. */
  datatype Option<+T> = None | Some(value: T)

  /** The outcome of an operation that may abort with a fatal error. */
  datatype Result<+T, +E> = Success(value: T) | Failure(error: E)

  /** The error of a failed result, if any. */
  function ErrorOf<T, E>(r: Result<T, E>): (e: Option<E>)
    ensures e.Some? <==> r.Failure?
    ensures e.Some? ==> e.value == r.error
  {
    if r.Failure? then Some(r.error) else None
  }
}
