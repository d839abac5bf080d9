/** The records of `models/models.go` and the error values the storage
    layer produces. */
module Models {
  import opened Wrappers
  import opened Jwt

  /** A row of the `users` table / a `models.User`. `postgres.go` addresses the
      name field as `Username` and the e-mail as a nullable `*string`; this
      record follows it. Times are Unix seconds; tokens are the stored text. */
  datatype User = User(
    id: int,
    username: string,
    email: Option<string>,
    dateJoined: int,
    password: string,
    token: Token,
    refreshToken: Token)

  /** The zero value `var user models.User`. */
  const ZeroUser: User := User(0, "", None, 0, "", NoToken, NoToken)

  /** The request body `{token, refresh_token}` that the token handlers decode. */
  datatype Tokens = Tokens(token: Token, refreshToken: Token)

  /** A `*pgconn.PgError`: SQLSTATE code and server message. */
  datatype PgError = PgError(code: string, message: string)

  /** The errors the repository returns: `pgx.ErrNoRows` ("no rows in result
      set"), `errors.New("user not found")`, or a server error. */
  datatype DbError = NoRows | UserNotFound | Pg(pgErr: PgError)

  /** A Go call that returns normally or panics. */
  datatype Call<T> = Returned(value: T) | Panicked(reason: string)

  /** SQLSTATE codes, Appendix A of the PostgreSQL manual. */
  const UniqueViolation: string := "23505"
  const StringDataRightTruncation: string := "22001"
}
