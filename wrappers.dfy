/** Failure-compatible values shared by the whole model: optional (nullable) values, the
    service's three error kinds, and results that carry either a value or one of those errors. */
module Wrappers {

  /** A Java reference that may be null. */
  datatype Option<+T> = None | Some(value: T)

  /** The exceptions the services throw towards the HTTP boundary, each with its message. */
  datatype Error =
    | NotFound(message: string)
    | AlreadyExists(message: string)
    | AccessDenied(message: string)

  /** What a service operation that returns a value ends with: the value, or the exception. */
  datatype Result<+T> = Success(value: T) | Failure(error: Error)

  /** What a `void` service operation ends with: normal return, or the exception. */
  datatype Outcome = Pass | Fail(error: Error)
}
