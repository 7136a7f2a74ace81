/**
 * The outcomes a request handler can produce: a value, or one of the HTTP
 * errors the handlers raise through `HTTPException`.
 */
module Http {

  datatype HttpError =
    | BadRequest           // 400
    | Forbidden            // 403
    | NotFound             // 404
    | UnprocessableEntity  // 422, a query parameter outside its declared bounds
    | InternalServerError  // 500, an exception that is not an HTTPException

  function StatusCode(e: HttpError): int
  {
    match e
    case BadRequest => 400
    case Forbidden => 403
    case NotFound => 404
    case UnprocessableEntity => 422
    case InternalServerError => 500
  }

  datatype Result<+T> = Ok(value: T) | Err(error: HttpError)

  /** The outcome of a guard that either lets the request through or raises. */
  datatype Check = Pass | Fail(error: HttpError)

  /** An authenticated caller: the user document resolved from the bearer token. */
  datatype User = User(email: string, hashedPassword: string, role: string, createdAt: int)
}
