/**
 * The HTTP errors the application raises (FastAPI's `HTTPException`) and the
 * outcome of an operation that may raise one.
 */
module Http {

  const BadRequest: int := 400
  const Unauthorized: int := 401
  const Forbidden: int := 403
  const NotFound: int := 404
  const PayloadTooLarge: int := 413
  const InternalServerError: int := 500

  /** An `HTTPException`: a status code and its `detail` message. */
  datatype HttpError = HttpError(statusCode: int, detail: string)

  /**
   * What the server answers when an exception other than an `HTTPException`
   * escapes an endpoint: a pydantic validation error raised inside the
   * body, or an `OverflowError` from date arithmetic.
   */
  const ServerError: HttpError := HttpError(InternalServerError, "Internal Server Error")

  /** A value, or the exception raised instead of returning it. */
  datatype Result<T> = Ok(value: T) | Err(error: HttpError)
}
