/** Results of code that may panic. */
module Outcomes {

  datatype Outcome<+T, +E> = Value(value: T) | Fail(error: E) | Panic {
    predicate IsFailure() {
      !Value?
    }

    function PropagateFailure<U>(): Outcome<U, E>
      requires IsFailure()
    {
      if Fail? then Fail(error) else Panic
    }

    function Extract(): T
      requires !IsFailure()
    {
      value
    }
  }
}
