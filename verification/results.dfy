/** The two Python exceptions the ranking step can raise, and a result type
    that carries either a value or one of them. */
module Results {

  datatype Error =
    | IndexError         // `cube_crop` has fewer than two (min, max) pairs
    | ZeroDivisionError  // the footprint area is zero and there is a horizon to test

  datatype Result<+T> = Ok(value: T) | Err(error: Error) {
    predicate IsFailure() {
      Err?
    }

    function PropagateFailure<U>(): Result<U>
      requires Err?
    {
      Err(error)
    }

    function Extract(): T
      requires Ok?
    {
      value
    }
  }
}
