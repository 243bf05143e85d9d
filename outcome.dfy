/** Python's `None`-or-value and its exceptions, as values.

    Every place where the checker would raise is modelled by an `Err` carrying
    the exception class that Python would raise there. */
module Outcome {

  datatype Option<+T> = None | Some(value: T) {
    predicate IsFailure() { None? }

    function PropagateFailure<U>(): Option<U>
      requires None?
    {
      None
    }

    function Extract(): T
      requires Some?
    {
      value
    }
  }

  /** The exception classes the modelled code can raise. `InvalidVersion`
      is `packaging.version.InvalidVersion`; `StopIteration` is what `next`
      raises on an exhausted iterator. */
  datatype Exception = TypeError | ValueError | KeyError | AttributeError | InvalidVersion | StopIteration

  datatype Result<+T> = Ok(value: T) | Err(error: Exception) {
    predicate IsFailure() { Err? }

    function PropagateFailure<U>(): Result<U>
      requires Err?
    {
      Err(error)
    }

    function Extract(): T
      requires Ok?
    {
      value
    }
  }
}
