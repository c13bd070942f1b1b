/** Optional values and success/failure results, used for JavaScript's
    `undefined`/`null` and for the exceptions the store lets escape. */
module Wrappers {

  datatype Option<+T> = None | Some(value: T)

  datatype Result<+R, +E> = Success(value: R) | Failure(error: E)
}
