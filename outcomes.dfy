/** Possibly-missing values (C# null) and the two ways an operation of the
    game can end: with a value, or by throwing an exception with a message. */
module Outcomes {

  datatype Option<T> = None | Some(value: T)

  datatype Result<T> = Success(value: T) | Failure(error: string)
  {
    predicate IsFailure() { Failure? }
  }
}
