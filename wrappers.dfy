/** Option and Result, the stand-ins for Java's null and for thrown exceptions. */
module Wrappers {

  /** `None` plays the role of a Java `null` reference. */
  datatype Option<+T> = None | Some(value: T)

  /** `Failure` plays the role of an exception that escapes the Java method. */
  datatype Result<+R, +E> = Success(value: R) | Failure(error: E)
}
