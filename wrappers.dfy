/** Failure-carrying return types used in place of the thrown `ApiError`s. */
module Wrappers {

  /** An optional value: Prisma's `findFirst` result, an optional request field. */
  datatype Option<+T> = None | Some(value: T)

  /** A computed value, or the error that would have been thrown. */
  datatype Result<+T, +E> = Ok(value: T) | Err(error: E)

  /** A check that returns nothing on success, or the error that would have been thrown. */
  datatype Outcome<+E> = Pass | Fail(error: E)
}
