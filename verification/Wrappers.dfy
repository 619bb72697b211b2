/** Result types shared by all modules. */
module Wrappers {

  datatype Option<+T> = None | Some(value: T) {
    predicate IsFailure() { None? }

    function PropagateFailure<U>(): Option<U>
      requires None?
    {
      None
    }

    function Extract(): T
      requires Some?
    {
      value
    }
  }

  /** `Fail` stands for an exception thrown by one of the `throw_*` helpers. */
  datatype Outcome = Pass | Fail
}
