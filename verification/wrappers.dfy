/** The failure-compatible Option type used for host lookups that may find nothing. */
module Wrappers {

  /** `None` stands for the `null` a host query returns when no token qualifies. */
  datatype Option<+T> = None | Some(value: T) {

    predicate IsFailure() {
      None?
    }

    function PropagateFailure<U>(): Option<U>
      requires None?
    {
      None
    }

    function Extract(): T
      requires Some?
    {
      value
    }
  }
}
