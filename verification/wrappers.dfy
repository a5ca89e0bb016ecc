/** Small failure-carrying datatypes shared by the modules of this project. */
module Wrappers {

  /** An optional value: `None` stands for "nothing there", e.g. a ray that hit no collider. */
  datatype Option<+T> = None | Some(value: T)

  /** Either a value or the reason it could not be produced (an exception in the source). */
  datatype Result<+R, +E> = Success(value: R) | Failure(error: E)

  /** Success or failure of an operation that produces no value of its own. */
  datatype Outcome<+E> = Pass | Fail(error: E)
}
