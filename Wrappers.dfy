/** Option and Result: the values that stand for C#'s null and for a thrown exception. */
module Wrappers {

  /** `None` stands for a C# null reference. */
  datatype Option<+T> = None | Some(value: T)

  /** `Failure(e)` stands for an exception `e` thrown out of a call. */
  datatype Result<+R, +E> = Success(value: R) | Failure(error: E)
}
