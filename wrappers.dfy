/** Java's nullable references and thrown exceptions, as values. */
module Wrappers {

  /** A nullable reference: None stands for Java's null / JavaScript's null or undefined. */
  datatype Option<+T> = None | Some(value: T) {
    predicate IsFailure() {
      None?
    }

    function PropagateFailure<U>(): Option<U>
      requires None?
    {
      None
    }

    function Extract(): T
      requires Some?
    {
      value
    }
  }

  /** The outcome of a call that may throw: Failure carries the exception's message. */
  datatype Result<+T> = Success(value: T) | Failure(error: string)
}
