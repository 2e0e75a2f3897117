/** Results shared by the vehicle and fleet operations. */
module Outcomes {

  /** Success, or the kind of exception a vehicle or fleet operation raises. */
  datatype Outcome = Ok | InvalidOperation | InsufficientFuel | Overload

  /** A value that may be absent (a Java `null`); usable with `:-`. */
  datatype Option<+T> = None | Some(value: T) {
    predicate IsFailure() { None? }

    function PropagateFailure<U>(): Option<U>
      requires None?
    {
      None
    }

    function Extract(): T
      requires Some?
    {
      value
    }
  }
}
