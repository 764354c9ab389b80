/** Values shared by the session service and the HTTP controller. */
module Common {

  datatype Option<+T> = None | Some(value: T)

  /** The exceptions that the service and the controller let escape. */
  datatype Exception =
    | NoAvailableSessionIds       // IllegalStateException: every attempt found its key taken
    | MessageEncodingFailed       // RuntimeException wrapping a JSON encoding failure
    | MissingAuthorizationHeader  // IllegalArgumentException: no Authorization header
    | InvalidAuthorizationHeader  // IllegalArgumentException: header does not start with "Bearer "
    | TokenRejected               // the token service could not parse or verify the token

  /** A value, or the exception thrown instead of returning it. */
  datatype Result<+T> = Success(value: T) | Failure(error: Exception)

  /** The outcome of an operation that returns nothing (Java `void`). */
  datatype Outcome = Pass | Fail(error: Exception)
}
