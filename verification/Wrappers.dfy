/** The shapes the models share: an optional value, a call that may raise, and a history that
    grows at its end. */
module Wrappers {

  datatype Option<+T> = None | Some(value: T)

  /** Everything that has happened so far; the histories it contains are its earlier moments. */
  datatype History<+T> = Start | Then(before: History<T>, last: T)

  /** The outcome of a Python call: a returned value, or the message of the exception it raised. */
  datatype Result<+T> = Success(value: T) | Raised(message: string)
}
