/** How a step of a protocol ends: with a value, with a fault, or by a crash. */
module Endings {
  datatype Ending<+T, +F> = Done(value: T) | Raised(fault: F) | Crashed {
    predicate IsFailure() {
      !Done?
    }

    function PropagateFailure<U>(): Ending<U, F>
      requires IsFailure()
    {
      if Raised? then Raised(fault) else Crashed
    }

    function Extract(): T
      requires Done?
    {
      value
    }
  }
}
