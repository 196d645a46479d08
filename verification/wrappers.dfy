/** Optional values and success/failure results, used in place of Java's
    null references and thrown exceptions. */
module Wrappers {

  /** `None` stands for a Java `null` reference. */
  datatype Option<+T> = None | Some(value: T)

  /** `Failure` stands for an exception that aborts the traversal. */
  datatype Result<+R, +E> = Success(value: R) | Failure(error: E)
}
