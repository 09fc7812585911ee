/** Failure-carrying values shared by the rest of the model. */
module Wrappers {

  /** A value that may be absent: a JSON key that was not sent, an error that is nil. */
  datatype Option<+T> = None | Some(value: T)

  /** Either the value an operation computes or the error it returns instead. */
  datatype Result<+T, +E> = Success(value: T) | Failure(error: E)

  /** The outcome of a collaborator call that returns only an error or nothing. */
  datatype Outcome = Pass | Fail(reason: string)
}
