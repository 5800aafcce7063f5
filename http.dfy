/**
 * The typed outcomes of the request pipeline: the HttpExceptions the service,
 * the controller and the middleware throw, and the one error that comes from
 * the document layer itself.
 */
module Http {

  datatype HttpMethod = GET | POST | PATCH | DELETE

  datatype Failure =
    | BadRequest(message: string)        // HttpStatus.BAD_REQUEST (400)
    | NotFound(message: string)          // HttpStatus.NOT_FOUND (404)
    | Forbidden(message: string)         // ForbiddenException (403)
    | InvalidDocument(paths: seq<string>) // the document validator's error on save

  datatype Result<+T> = Ok(value: T) | Err(failure: Failure)
}
