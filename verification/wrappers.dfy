/** Option and Result, used for Java's null and for its thrown exceptions. */
module Wrappers {

  /** `None` stands for a Java `null` reference. */
  datatype Option<T> = None | Some(value: T)

  /** `Failure` stands for an exception thrown by the modelled Java method. */
  datatype Result<T, E> = Success(value: T) | Failure(error: E)
}
