/** Failure-compatible results shared by the other modules. */
module Outcomes {

  datatype Option<+T> = None | Some(value: T)

  /** What a statement or a guarded block reports: nothing, or the exception it raised. */
  datatype Outcome<+E> = Pass | Fail(error: E) {
    predicate IsFailure() {
      Fail?
    }

    function PropagateFailure(): Outcome<E>
      requires Fail?
    {
      this
    }
  }
}
