/** Failure-carrying datatypes used in place of Java's null and exceptions. */
module Wrappers {

  /** `None` stands for an absent value (a Java `null` or a call that threw). */
  datatype Option<+T> = None | Some(value: T)

  /** `Failure` stands for an exception the operation raises. */
  datatype Result<+R, +E> = Success(value: R) | Failure(error: E)
}
