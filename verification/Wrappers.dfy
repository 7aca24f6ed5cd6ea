/** Failure-compatible result types shared by every module. */
module Wrappers {

  datatype Option<+T> = None | Some(value: T)

  /** What a function that may raise returns: its value, or the refusal. Only the fact of refusal is kept,
      never the message. */
  datatype Result<+T> = Ok(value: T) | Refused {

    predicate IsFailure() {
      Refused?
    }

    function PropagateFailure<U>(): Result<U>
      requires Refused?
    {
      Refused
    }

    function Extract(): T
      requires Ok?
    {
      value
    }
  }
}
