/** Option and Result values, and the kinds of failure the services and
    controllers raise (the NestJS exception classes and plain `Error`). */
module Wrappers {

  datatype Option<+T> = None | Some(value: T)

  datatype Result<+T, +E> = Ok(value: T) | Err(error: E)

  /** The outcome of an operation that returns nothing (`Promise<void>`). */
  datatype Outcome<+E> = Pass | Fail(error: E)

  /** A failure as the application throws it. `Plain` is a bare JavaScript
      `Error`, which the web framework answers with status 500. */
  datatype Failure =
    | NotFound(message: string)
    | BadRequest(message: string)
    | Conflict(message: string)
    | Plain(message: string)
  {
    /** The HTTP status the web framework answers an uncaught failure with. */
    function Status(): (code: int)
      ensures code == 404 <==> NotFound?
      ensures code == 400 <==> BadRequest?
      ensures code == 409 <==> Conflict?
      ensures code == 500 <==> Plain?
    {
      match this
      case NotFound(_) => 404
      case BadRequest(_) => 400
      case Conflict(_) => 409
      case Plain(_) => 500
    }
  }
}
