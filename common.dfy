/** Values shared by every part of the model: optional values, results and
    the HTTP errors the services throw (`createHttpError(status, message)`). */
module Common {

  datatype Option<+T> = None | Some(value: T)

  /** An HTTP error as built by `createHttpError`: a status code and a message. */
  datatype HttpError = HttpError(status: nat, message: string)

  /** The outcome of an operation that either yields a value or throws an HttpError. */
  datatype Result<+T> = Success(value: T) | Failure(error: HttpError)
}
