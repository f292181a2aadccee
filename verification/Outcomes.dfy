/** Optional values and results, used for the source's `Option` and `Result`. */
module Outcomes {
  datatype Option<+T> = None | Some(value: T) {
    predicate IsFailure() {
      None?
    }

    function PropagateFailure<U>(): Option<U>
      requires None?
    {
      None
    }

    function Extract(): T
      requires Some?
    {
      value
    }
  }

  datatype Result<+T, +E> = Ok(value: T) | Err(error: E)

  function ErrorOf<T, E>(r: Result<T, E>): Option<E> {
    match r
    case Ok(_) => None
    case Err(e) => Some(e)
  }
}
