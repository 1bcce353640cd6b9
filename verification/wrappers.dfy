/** Failure-carrying datatypes used in place of the C++ exceptions. */
module Wrappers {

  datatype Option<+T> = None | Some(value: T)

  /** The value of an operation that either returns a new value or throws. */
  datatype Result<+T, +E> = Success(value: T) | Failure(error: E)

  /** Whether a statement sequence ran to its end or threw. */
  datatype Outcome<+E> = Pass | Fail(error: E)

  /** The state an object is left in by a member that may throw part-way
      through, together with whether it threw.  The C++ members modelled with
      this type are not atomic: what they did before the throw stays done. */
  datatype Step<+S, +E> = Step(state: S, outcome: Outcome<E>)
}
