/** Optional values and computations that can fail. */
module Wrappers {
  datatype Option<+T> = None | Some(value: T)

  /** A failure-compatible result: `Err` stands for the exception the source raises. */
  datatype Result<+T, +E> = Ok(value: T) | Err(error: E) {
    predicate IsFailure() { Err? }

    function PropagateFailure<U>(): Result<U, E>
      requires Err?
    {
      Err(error)
    }

    function UnwrapOr(default: T): T {
      if Ok? then value else default
    }

    function Extract(): T
      requires Ok?
    {
      value
    }
  }
}
