/** The outcome of running a computation. */
module Exits {

  /**
   * Why a computation did not succeed: an application error, or an
   * interruption. The identity of the interrupting fiber is not modelled.
   */
  datatype Cause<+E> = Fail(error: E) | Interrupt

  /** `Exit`: success with a value, or failure with a cause. */
  datatype Exit<+E, +A> = Success(value: A) | Failure(cause: Cause<E>) {

    /** True exactly when the computation was interrupted. */
    predicate IsInterrupted() {
      Failure? && cause.Interrupt?
    }
  }
}
