/** Optional values and the result of a constructor that can fail. */
module Wrappers {

  datatype Option<+T> = None | Some(value: T)

  /** Either a constructed value or the message of the exception that construction throws. */
  datatype Result<+T> = Success(value: T) | Failure(error: string)
}
