/** Option and Result values shared by every module of the geppetto model. */
module Wrappers {

  datatype Option<T> = None | Some(value: T)
  {
    predicate IsSome() { Some? }
  }

  /** A computation that either yields a value or stops with the message the JavaScript throws. */
  datatype Result<T> = Success(value: T) | Failure(error: string)
  {
    predicate IsFailure() { Failure? }
  }

  /** A JavaScript getter that returns the sole element of a list when it has exactly one, else the list. */
  datatype OneOrMany<T> = One(item: T) | Many(items: seq<T>)
}
