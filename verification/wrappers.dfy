/** Failure-carrying values shared by every module: a nullable value and an
    error-or-value result whose error is the message the source would return. */
module Wrappers {

  datatype Option<+T> = None | Some(value: T)

  datatype Result<+T> = Success(value: T) | Failure(error: string) {
    predicate IsFailure() { Failure? }
  }
}
