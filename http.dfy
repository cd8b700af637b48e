/** How a request handler of the core can fail, as the HTTP client observes it. */
module Http {

  /** An exception that nothing in the core catches; the framework answers 500. */
  datatype Cause =
    | PasswordTooLong    // ValueError from hash_password
    | MalformedUuid      // ValueError from uuid.UUID
    | NotNullViolation   // the database refuses a NULL title or completion flag at commit
    | InvalidValue       // a value of the wrong type or outside a field's constraints

  datatype HttpError =
    | Raised(status: nat, detail: string)   // HTTPException(status_code=status, detail=detail)
    | Unprocessable                         // the request body failed validation (422)
    | Unhandled(cause: Cause)               // an uncaught exception (500)

  function Status(e: HttpError): nat {
    match e
    case Raised(s, _) => s
    case Unprocessable => 422
    case Unhandled(_) => 500
  }
}
