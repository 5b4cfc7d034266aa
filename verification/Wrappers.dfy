/** Failure-compatible results shared by the components. */
module Wrappers {

  datatype Option<+T> = None | Some(value: T) {
    predicate IsFailure() {
      None?
    }

    function PropagateFailure<U>(): Option<U>
      requires None?
    {
      None
    }

    function Extract(): T
      requires Some?
    {
      value
    }
  }

  /** A failed assertion of the original: None, where anything else goes on. */
  function Need(condition: bool): Option<()> {
    if condition then Some(()) else None
  }
}
