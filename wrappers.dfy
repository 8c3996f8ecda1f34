/** Small shared vocabulary: optional values, results, and the error replies of the HTTP routes. */
module Wrappers {

  /** A value that may be absent (JavaScript's `null` / `undefined`). */
  datatype Option<+T> = None | Some(value: T)

  /** The outcome of a route handler: a reply payload, or an error reply. */
  datatype Result<+T, +E> = Success(value: T) | Failure(error: E)

  /** An error reply: the HTTP status and the `error` field of its JSON body. */
  datatype ApiError = ApiError(status: nat, error: string)
}
