/** `handlers/errors-handlers.go`: error responses and the mapping of
    PostgreSQL errors to HTTP statuses. */
module ErrorsHandlers {
  import opened Http
  import opened Models

  /** `HandleApiErrors`: writes `status` and `{"error": message}`, with an
      empty message replaced by the status text. */
  function HandleApiErrors(status: int, message: string): (r: Response)
    ensures r.status == status && r.body.ErrorBody?
    ensures message != "" ==> r.body.error == message
    ensures message == "" ==> r.body.error == StatusText(status)
  {
    Response(status, ErrorBody(if message == "" then StatusText(status) else message))
  }

  /** For every status the core writes, the error text is never empty. */
  lemma ApiErrorTextNonEmpty(status: int, message: string)
    requires status in {StatusBadRequest, StatusUnauthorized, StatusForbidden, StatusNotFound, StatusInternalServerError}
    ensures HandleApiErrors(status, message).body.error != ""
  {
  }

  /** `HandleDatabaseErrors`: a unique violation answers 400 with the
      server's message, a too-long value 400 with a fixed text, and every
      other code 500 "Internal Server Error". */
  function HandleDatabaseErrors(pgErr: PgError): (r: Response)
    ensures r.status == StatusBadRequest || r.status == StatusInternalServerError
    ensures r.status == StatusBadRequest <==> pgErr.code == UniqueViolation || pgErr.code == StringDataRightTruncation
    ensures pgErr.code == UniqueViolation ==> r == HandleApiErrors(StatusBadRequest, pgErr.message)
    ensures pgErr.code == StringDataRightTruncation ==> r.body == ErrorBody("value too long for type character")
    ensures r.status == StatusInternalServerError ==> r.body == ErrorBody("Internal Server Error")
  {
    if pgErr.code == UniqueViolation then
      HandleApiErrors(StatusBadRequest, pgErr.message)
    else if pgErr.code == StringDataRightTruncation then
      HandleApiErrors(StatusBadRequest, "value too long for type character")
    else
      HandleApiErrors(StatusInternalServerError, StatusText(StatusInternalServerError))
  }

  /** The server's own message never reaches the client except on a unique
      violation, where an empty message would become "Bad Request". */
  lemma DatabaseErrorText(pgErr: PgError)
    ensures HandleDatabaseErrors(pgErr).body.error
            == if pgErr.code == UniqueViolation then (if pgErr.message == "" then "Bad Request" else pgErr.message)
               else if pgErr.code == StringDataRightTruncation then "value too long for type character"
               else "Internal Server Error"
  {
  }
}
