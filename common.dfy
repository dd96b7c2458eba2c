/** Types shared by the services, the middlewares and the validators. */
module Common {

  datatype Option<T> = None | Some(value: T)

  /** Primary keys are database-generated UUID strings. */
  type Id = string

  /** The three roles of the user table. */
  datatype Role = Admin | Editor | Viewer

  /** An `Error` object thrown by a service with a `statusCode` attached. */
  datatype AppError = AppError(statusCode: nat, message: string)

  /** A service call either returns a value or throws an `AppError`. */
  datatype Result<T> = Ok(value: T) | Err(error: AppError)

  /** One entry of the `errors` array of a validation failure. */
  datatype FieldError = FieldError(field: string, message: string)

  /** The JSON body of every failure response; `None` fields are absent from the JSON. */
  datatype Body = Body(
    success: bool,
    message: string,
    errors: Option<seq<FieldError>>,
    field: Option<string>,
    error: Option<string>)

  /** `res.status(status).json(body)`. */
  datatype Response = Response(status: nat, body: Body)

  /** A failure body holding only `success: false` and a message. */
  function Failure(status: nat, message: string): (r: Response)
    ensures !r.body.success && r.status == status && r.body.message == message
    ensures r.body.errors.None? && r.body.field.None? && r.body.error.None?
  {
    Response(status, Body(false, message, None, None, None))
  }
}
