/** Failure-compatible wrappers for the lowering pass.
    `Option` stands for a Kotlin nullable value; `Result` for a computation that
    either returns or throws. The Kotlin code can throw several exception types
    (NullPointerException from `!!`, a failed `as` cast, NumberFormatException,
    StringIndexOutOfBoundsException); the model collapses all of them into the
    single outcome `Failure`. */
module Results {

  datatype Option<+T> = None | Some(value: T)

  datatype Result<+T> = Success(value: T) | Failure {

    predicate IsFailure() {
      Failure?
    }

    function PropagateFailure<U>(): Result<U>
      requires Failure?
    {
      Failure
    }

    function Extract(): T
      requires Success?
    {
      value
    }
  }

  /** Kotlin's `x!!` and `x as T` with a non-null `T`: a null value throws. */
  function NonNull<T>(o: Option<T>): (r: Result<T>)
    ensures r.Success? <==> o.Some?
    ensures r.Success? ==> r.value == o.value
  {
    match o
    case Some(v) => Success(v)
    case None => Failure
  }
}
