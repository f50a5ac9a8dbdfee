/** Outcomes of the services: a value, or the exception the call raised. */
module Errors {
  import opened Builtins

  datatype Option<+T> = None | Some(value: T)

  datatype Result<+T, +E> = Ok(value: T) | Err(error: E)

  /** An exception leaving a service call. `HttpError` is FastAPI's
      HTTPException (status code and detail); `Unhandled` is any other
      exception (KeyError, AttributeError, a driver or library error), which
      no handler in the services catches and which FastAPI answers with 500. */
  datatype Error =
    | HttpError(status: nat, detail: string)
    | Unhandled(exception: string)

  /** `str(e)` of an HTTPException: "<status>: <detail>". */
  function HttpMessage(status: nat, detail: string): string {
    NatToString(status) + ": " + detail
  }

  const BAD_REQUEST: nat := 400
  const UNAUTHORIZED: nat := 401
  const NOT_FOUND: nat := 404
  const UNPROCESSABLE_ENTITY: nat := 422
}
