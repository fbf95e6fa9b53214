// Result shapes shared by every module: absent values and the first failing check of a chain.
module Wrappers {

  datatype Option<+T> = None | Some(value: T)

  datatype Result<+R, +E> = Ok(value: R) | Err(error: E) {
    predicate IsFailure() {
      Err?
    }

    function PropagateFailure<U>(): Result<U, E>
      requires Err?
    {
      Err(error)
    }

    function Extract(): R
      requires Ok?
    {
      value
    }
  }

  /** Stops a check chain with `error` unless `condition` holds. */
  function Ensure<E>(condition: bool, error: E): Result<(), E> {
    if condition then Ok(()) else Err(error)
  }
}
