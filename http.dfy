/** What the handlers write to an `http.ResponseWriter`, as a value. */
module Http {
  import opened Jwt

  const StatusOK: int := 200
  const StatusBadRequest: int := 400
  const StatusUnauthorized: int := 401
  const StatusForbidden: int := 403
  const StatusNotFound: int := 404
  const StatusInternalServerError: int := 500

  /** `http.StatusText` for the statuses this core writes; "" for the others
      (as Go answers for a code it does not know). */
  function StatusText(code: int): (text: string)
    ensures text != "" <==> code in {StatusOK, StatusBadRequest, StatusUnauthorized, StatusForbidden,
                                     StatusNotFound, StatusInternalServerError}
  {
    if code == StatusOK then "OK"
    else if code == StatusBadRequest then "Bad Request"
    else if code == StatusUnauthorized then "Unauthorized"
    else if code == StatusForbidden then "Forbidden"
    else if code == StatusNotFound then "Not Found"
    else if code == StatusInternalServerError then "Internal Server Error"
    else ""
  }

  /** The JSON bodies: `{"error": ...}`, `{"ok": ...}` and `{"token": ..., "refresh": ...}`. */
  datatype Body = ErrorBody(error: string) | OkBody(ok: bool) | TokenPair(token: Token, refresh: Token)

  datatype Response = Response(status: int, body: Body)

  /** A request body that `json.NewDecoder(r.Body).Decode` accepted, or the
      decoder's error text. */
  datatype Decoded<T> = Decoded(value: T) | Undecodable(message: string)
}
