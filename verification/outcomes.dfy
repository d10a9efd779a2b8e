/** Failure values shared by the services: the exceptions a caller can observe,
    and Result/Option wrappers usable with `:-`. */
module Outcomes {

  /** A calendar day as a day number: consecutive days differ by one. */
  type Day = int

  /** The exception classes the services raise, each with the message the caller reads. */
  datatype Error =
    | ArgumentError(message: string)   // System.ArgumentException
    | Failure(message: string)         // System.Exception raised by a service or a repository
    | NullReference                    // System.NullReferenceException

  /** A value, or the exception that replaced it. */
  datatype Result<+T> = Ok(value: T) | Err(error: Error) {
    predicate IsFailure() {
      Err?
    }

    function PropagateFailure<U>(): Result<U>
      requires Err?
    {
      Err(error)
    }

    function Extract(): T
      requires Ok?
    {
      value
    }
  }

  /** An operation that returns nothing, or the exception it raised. */
  datatype Outcome = Pass | Fail(error: Error)

  /** A reference that may be null. */
  datatype Option<+T> = None | Some(value: T)
}
