/** Option and Result: the model's stand-ins for Java's `null` and for exceptions. */
module Wrappers {

  /** `None` plays the part of a Java `null` reference. */
  datatype Option<+T> = None | Some(value: T)

  /** `Failure` carries the name of the exception the Java code throws. */
  datatype Result<+T> = Success(value: T) | Failure(error: string)
}
