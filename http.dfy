/** What a controller action hands back to ASP.NET Core. */
module Http {

  /** An exception that escapes an action; the host turns it into an error response. */
  datatype Fault =
    | UnauthorizedAccess(message: string)  // UnauthorizedAccessException
    | FormatError                           // FormatException from int.Parse
    | OverflowError                         // OverflowException from int.Parse

  /** The action results the controllers return, with the `{ message }` body where there is one. */
  datatype ActionResult<+T> =
    | Ok(value: T)                  // 200
    | Created(value: T)             // 201, CreatedAtAction
    | NoContent                     // 204
    | BadRequest(message: string)   // 400
    | ValidationProblem             // 400 from the automatic model validation of [ApiController]
    | Unauthorized(message: string) // 401
    | NotFound(message: string)     // 404
    | Thrown(fault: Fault)          // the action threw
}
