/** Failure-carrying values shared by every component: the parsers, the
    evaluator and the simplifier report failure through these instead of
    raising. */
module Results {

  /** Something that may be absent: the parsers' `None`. */
  datatype Option<+T> = None | Some(value: T)

  /** A value or an error; usable with `:-`. */
  datatype Result<+T, +E> = Ok(value: T) | Err(error: E) {

    predicate IsFailure() {
      Err?
    }

    function PropagateFailure<U>(): Result<U, E>
      requires Err?
    {
      Err(error)
    }

    function Extract(): T
      requires Ok?
    {
      value
    }
  }
}
