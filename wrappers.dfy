/** Option and Result: the model's stand-ins for Java's null / Optional and for
    the RuntimeExceptions the services throw; and the date type of the
    entities. */
module Wrappers {

  /** A value that may be absent (Java null, or an empty Optional). */
  datatype Option<+T> = None | Some(value: T)

  /** The outcome of a service call that may throw. */
  datatype Result<+T, +E> = Success(value: T) | Failure(error: E)

  /** A calendar date. The model only ever asks whether one is given. */
  type Date = int
}
