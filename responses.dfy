/**
 * The response envelope built by the handlers (`success_response`, `error_response`,
 * `exception_to_string` in utils/utils.py, which is not part of this model).
 */
module Responses {

  /** The Python exception classes a handler can raise inside its `try` block. */
  datatype Exception =
    | AttributeError         // an attribute read on `None`
    | TypeError              // `strptime(None, ...)`
    | ValueError             // `strptime` of a string that does not match the format
    | DataError              // the database cannot convert a supplied date string
    | IntegrityError         // a NOT NULL, UNIQUE or FOREIGN KEY constraint fails at commit
    | UnmappedInstanceError  // `session.delete(None)`

  /** What a handler returns. */
  datatype Reply<+T> =
    | Success(status: int, data: T)          // success_response(status, data)
    | Failure(status: int, message: string)  // error_response(status, message)
    | Raised(error: Exception)               // error_response(500, exception_to_string(ex))
    | NoBody                                 // the handler ends without a return statement
}
