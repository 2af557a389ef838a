/** The error value of util.go and the shapes of results shared by the model.

    A Go call that returns `(value, error)` becomes a `Result`; a handler or
    usecase that may also panic ends in an `Outcome`, where `Panic` stands for
    the process-level panic of the source and `Fail` for an error returned to
    the caller (for a gin middleware: an `ErrorReply` with that code and
    message, after which the chain is aborted). */
module Util {

  const StatusBadRequest := 400
  const StatusUnauthorized := 401
  const StatusNotFound := 404
  const StatusConflict := 409

  /** util.go's `Error{Code, Message}`, or an error produced by a library
      (strconv, scrypt, crypto/rand, jwt-go, gorm), whose text is not modelled. */
  datatype Failure =
    | AppError(code: int, message: string)
    | LibraryError(detail: string)

  datatype Option<+T> = None | Some(value: T)

  /** A Go `(value, error)` pair; the zero value that Go pairs with an error is not carried. */
  datatype Result<+T> = Ok(value: T) | Err(failure: Failure)

  /** How a handler or usecase ends: a value, a returned error, or a panic. */
  datatype Outcome<+T> = Done(value: T) | Fail(failure: Failure) | Panic(cause: Failure)
}
