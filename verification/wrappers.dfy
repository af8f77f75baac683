/** Failure-carrying wrappers shared by the endpoint and the form models. */
module Wrappers {

  /** Some value, or nothing: JavaScript's `undefined` where a value may be absent */
  datatype Option<+T> = None | Some(value: T) {

    /** The value, or `default` when there is none (JavaScript's `x ?? default`) */
    function GetOr(default: T): T {
      match this
      case Some(v) => v
      case None => default
    }
  }

  /** How an evaluation ended: with a value, or by throwing an exception of which only the
      message is kept (the completion records of section 6.2.4 of ECMA-262, reduced to the
      two kinds a caller here can observe). Usable with `:-`. */
  datatype Completion<+T> = Normal(value: T) | Throw(message: string) {

    predicate IsFailure() {
      Throw?
    }

    function PropagateFailure<U>(): Completion<U>
      requires Throw?
    {
      Throw(message)
    }

    function Extract(): T
      requires Normal?
    {
      value
    }
  }
}
