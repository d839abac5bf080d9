# Token lifecycle and user-session store

A Dafny model of the session core of a Go credential backend. The core issues and
checks signed JSON Web Tokens (RFC 7519), guards protected routes with an auth
middleware, refreshes token pairs, maps PostgreSQL errors to HTTP statuses, and
stores users behind a repository with two implementations: PostgreSQL and an
in-memory mock.

Modules, one per source file or library boundary:

- `Wrappers`: `Option` and `Result`, standing in for Go's nil pointers and `(value, error)` pairs.
- `Text`: `strconv.Itoa` and `strings.ToLower`. `ParseDecimal` is an independent reading of decimal numerals, used to prove that the id claim reads back as the user id.
- `Jwt`: the jwt-go calls, with signing kept abstract. A token is either `Signed(claims, key)` (the compact serialization of a claim set signed under a key) or `Raw(text)` (any other text). The empty string is `Raw("")`. `ParseWithClaims` succeeds only for a token signed under the shared key. The claim set is a JSON object of string members plus the `exp` claim (section 4.1.4 of RFC 7519). So tokens from the current code (members `Email`, `ID`) and from the older code (`Email`, `Uid`) are values of one type.
- `Models`: the user record, the request body `{token, refresh_token}`, and the driver errors.
- `Http`: status codes, `http.StatusText`, and responses as values.
- `ErrorsHandlers`: `HandleApiErrors` and `HandleDatabaseErrors`.
- `UsersTable`: the `users` table. It holds the class `Database` (the rows and the `id` serial) and one function per SQL statement the core issues (`FirstIndex` for `QueryRow ... WHERE`, `SetTokens`, `SetUsername`, `DeleteId`). It also holds the lemmas about those statements: frames, rotation, deletion and lookup by e-mail.
- `PostgresStore`: the class `Postgres`, which talks to a `Database`. Read-only queries are functions that read the database. Writes are methods with `modifies` clauses that keep the `Valid()` invariant: positive ids below the serial, unique ids, unique e-mails.
- `PostgresMock`: the value type `PGMock`, whose `GetUser` is a linear search.
- `TokensHandlers`: the current `handlers/tokens-handlers.go`. `RefreshToken` is a method that rewrites the matched row.
- `TokensLegacy`: the older `handlers/tokens.go`. It cannot be compiled together with the current file, so it is a separate module. Its refresh handler only reads.
- `AuthMiddleware`: the `Authentication` decision.

The clock is a parameter `now` in Unix seconds. The signing secret is a parameter `key`. Signing failures are the parameter `SigningFaults`: the error each `SignedString` call would report. What becomes of the refresh handler's UPDATE is the parameter `update`: stored, not sent (the call returns an error), or rejected by the server. Line 133 sends the UPDATE with `Query`, which reports a server rejection only through the rows it returns, and the handler discards those rows.

Some consequences of the code, proved here, are easy to miss:

- A refresh token carries only `exp`. Every user issued a pair in the same second therefore gets the identical refresh token (`RefreshTokensCollide`). That is why `RotationRetiresOldRefresh` and `DeletedRefreshResolvesElsewhere` allow another row to still carry the token.
- A refresh token is signed like an access token. The middleware therefore admits it for a day, with an empty e-mail and id (`RefreshTokenAdmittedAnonymously`).
- Re-issuing within the same second yields the same access token (`ReissueDiffersIffClockMoved`). An immediate refresh thus does not change the access token.
- A refresh whose UPDATE the server rejects still answers 200 with the new pair, but the table keeps the old one (`TokensHandlers.RefreshToken`).
- An access token minted by the older code passes the current middleware with an empty id (`LegacyAccessTokenLosesId`).
- The middleware never reads the users table. A deleted user's unexpired access token is still admitted (`IssuedAccessTokenAdmitted` has no table in its signature).

Some edge cases are decided by the code as written, and the model follows it:

- A token whose expiry equals the current second is accepted (line 44 tests `<`).
- Signing does not reject an empty secret.
- `UpdateUserTokens` reports no error when no row matches.
- `HandleDatabaseErrors` passes the server's unique-violation message through to the client.

The files disagree about the user record:

- `storages/postgres/postgres.go` addresses the user's name as `Username` and its e-mail as a `*string`. `models/models.go` declares `Name` and a plain `string`.
- The record here has `username` and a nullable `email`, so a row may hold a NULL e-mail.
- The repository follows `postgres.go`. Its `GetUser`, `GetUserByRefresh` and `GetUserList` return a NULL e-mail as `None`.
- Both refresh handlers follow `models.go`. They scan the e-mail into a plain `string`, which cannot hold NULL, so a row with a NULL e-mail answers 404 (handlers/tokens-handlers.go:120-123, handlers/tokens.go:94-98).

`models.Tokens` and the package `tribble/db` are not part of this model. `Tokens` is modelled from its use at handlers/tokens-handlers.go:81-83 and 107-120: its `RefreshToken` field is read. `db.DB` is modelled as the same `Database` that `Postgres` uses.

## Model

| member | source | states |
|---|---|---|
| `Text.Itoa` | handlers/tokens-handlers.go:53 | the decimal numeral of the id is non-empty, starts with '-' exactly for negative ids, and is all digits otherwise |
| `Text.ItoaRoundTrip` | handlers/tokens-handlers.go:53 | reading the numeral back gives the id again |
| `Text.ItoaInjective` | handlers/tokens-handlers.go:53 | distinct ids give distinct `ID` claims, and equal numerals mean equal ids |
| `Text.ToLower` | storages/postgres/postgres.go:107 | the lower-cased e-mail has the same length, each letter 'A'-'Z' becomes its lower-case letter, every other character is kept, and no upper-case ASCII letter is left |
| `Text.ToLowerIdempotent` | storages/postgres/postgres.go:116-119 | lower-casing again changes nothing, so the stored and the returned e-mail agree |
| `Jwt.SignedString` | handlers/tokens-handlers.go:65 | signing succeeds exactly when the library reports no error, yields a non-empty token of those claims under that key, and otherwise yields the library's error |
| `Jwt.ParseWithClaims` | handlers/tokens-handlers.go:28-34 | parsing yields the signed claims exactly when the token is signed under the shared key; any other text is malformed |
| `Jwt.Member` | handlers/tokens-handlers.go:30 | decoding a claim into a string field gives the member's value, or "" when the claim set lacks it |
| `Jwt.SignThenParse` | handlers/tokens-handlers.go:28-34 | a token signed under one key parses under that key and fails the signature check under any other key |
| `TokensHandlers.DecodeEncode` | handlers/tokens-handlers.go:18-22 | decoding the JSON claims of a `SignedDetails` gives back the same Email, ID and expiry |
| `TokensHandlers.CheckToken` | handlers/tokens-handlers.go:27-48 | an unparsable or wrongly signed token fails with the parse error; a signed one fails "token is expired" exactly when its expiry is before `now`; a verified token whose expiry is at or after `now` (equal included) succeeds with its claims unchanged, and success implies such a token |
| `TokensHandlers.GenerateTokens` | handlers/tokens-handlers.go:50-77 | no error exactly when both signings succeed; on either failure both tokens are empty and the error is the first failing signing's; on success the access token carries Email, ID = decimal id and exp = now + 600, and the refresh token carries empty Email/ID and exp = now + 86400, both under the key |
| `TokensHandlers.RefreshNotSignedAfterAccessFailure` | handlers/tokens-handlers.go:65-69 | after an access-signing failure the outcome is the same whatever refresh signing would do: empty tokens and the access error |
| `TokensHandlers.IssuedAccessTokenChecks` | handlers/tokens-handlers.go:44-57 | an issued access token checks up to and including issue time + 600 with exactly the issued claims, is expired afterwards, and its ID reads back as the user id |
| `TokensHandlers.IssuedRefreshTokenChecks` | handlers/tokens-handlers.go:59-63 | an issued refresh token checks up to issue time + 86400 with empty Email and ID, and outlives the paired access token by 85800 s |
| `TokensHandlers.RefreshTokensCollide` | handlers/tokens-handlers.go:59-63 | two users issued pairs in the same second receive the same refresh token |
| `TokensHandlers.AccessTokensSeparateUsers` | handlers/tokens-handlers.go:51-57 | access tokens of distinct user ids differ, even in the same second |
| `TokensHandlers.ReissueDiffersIffClockMoved` | handlers/tokens-handlers.go:55 | a re-issued access token differs from the earlier one exactly when the issue second differs |
| `TokensHandlers.ValidateToken` | handlers/tokens-handlers.go:79-103 | 400 with the decoder's message on a bad body; 200 `{ok: true}` exactly when some row holds the submitted refresh token; otherwise 404 "Not Found" |
| `TokensHandlers.RefreshToken` | handlers/tokens-handlers.go:105-145 | bad body 400, unknown token or NULL e-mail 404, signing failure 500 with its error, an UPDATE that is not sent 500 "could not update tokens", each leaving the table unchanged; an UPDATE the server rejects answers 200 with the new pair and leaves the table unchanged; a stored UPDATE answers 200 with the new pair, rewrites exactly that user's two token columns, and the new refresh token validates |
| `TokensLegacy.DecodeEncode` | handlers/tokens.go:19-23 | decoding the JSON claims of the older `SignedDetails` gives back Email, Uid and expiry |
| `TokensLegacy.GenerateTokens` | handlers/tokens.go:28-55 | no error exactly when both signings succeed; on success access claims are Email, Uid = decimal id, exp = now + 600 and refresh claims have empty Email and Uid and exp = now + 86400; on any signing failure both tokens are empty and the error is the library's |
| `TokensLegacy.IssuedUidReadsBack` | handlers/tokens.go:31 | the Uid claim of an issued access token reads back as the user id |
| `TokensLegacy.ValidateToken` | handlers/tokens.go:57-79 | 400 with the decoder's message on an undecodable body; 200 `{ok: true}` exactly when some row holds the refresh token; otherwise 404 "Not Found" |
| `TokensLegacy.RefreshToken` | handlers/tokens.go:81-111 | bad body 400 with the decoder's message, unknown token or NULL e-mail 404, signing failure 500 with the library's error, otherwise 200 with the pair minted for that row's e-mail and id; it is a function of the rows, so nothing is written back |
| `TokensLegacy.ExchangedRefreshStaysValid` | handlers/tokens.go:90-111 | after a successful legacy refresh the exchanged refresh token still validates, and the minted one validates only if some row already held it |
| `AuthMiddleware.Authentication` | middlewares/auth-middlewares.go:11-31 | an empty header gives 401 and skips the handler; a header that fails `CheckToken`, passed verbatim, gives 403 and skips it; otherwise the handler is called once with E = claims' Email, I = claims' ID and every other context value kept |
| `AuthMiddleware.IssuedAccessTokenAdmitted` | middlewares/auth-middlewares.go:19-30 | an access token presented within ten minutes of issue admits the request with the user's e-mail and an id that reads back as the user id, regardless of the users table |
| `AuthMiddleware.ExpiredAccessTokenForbidden` | middlewares/auth-middlewares.go:19-24 | after ten minutes an access token gets 403 |
| `AuthMiddleware.RefreshTokenAdmittedAnonymously` | middlewares/auth-middlewares.go:19-30 | a refresh token is admitted for a day, with empty e-mail and id in the context |
| `AuthMiddleware.ForeignSignatureForbidden` | middlewares/auth-middlewares.go:19-24 | a token signed under another secret gets 403 |
| `AuthMiddleware.BearerHeaderForbidden` | middlewares/auth-middlewares.go:13-24 | an RFC 6750 `Bearer ` header is not stripped and gets 403 |
| `AuthMiddleware.LegacyAccessTokenLosesId` | middlewares/auth-middlewares.go:26-30 | an access token from the older code is admitted with its e-mail but an empty id |
| `Http.StatusText` | handlers/errors-handlers.go:12-14 | the status text is non-empty exactly for the six statuses the core writes (200, 400, 401, 403, 404, 500) |
| `ErrorsHandlers.HandleApiErrors` | handlers/errors-handlers.go:11-21 | the response has exactly the given status and an error body; a non-empty message is kept verbatim, an empty one becomes the status text |
| `ErrorsHandlers.ApiErrorTextNonEmpty` | handlers/errors-handlers.go:12-14 | for every error status the core writes (400, 401, 403, 404, 500), the error text is non-empty, whatever the message |
| `ErrorsHandlers.HandleDatabaseErrors` | handlers/errors-handlers.go:23-37 | the status is 400 or 500; it is 400 exactly for 23505 and 22001; 23505 keeps the server message, 22001 says "value too long for type character", all else is 500 "Internal Server Error" |
| `ErrorsHandlers.DatabaseErrorText` | handlers/errors-handlers.go:25-36 | the exact error text for every code, including "Bad Request" for a unique violation whose message is empty |
| `UsersTable.FirstIndex` | storages/postgres/postgres.go:43-47 | the row a `QueryRow` scans is the first row satisfying the WHERE clause; there is none exactly when no row satisfies it |
| `UsersTable.UniqueIdFound` | storages/postgres/postgres.go:39-48 | with unique ids the lookup by a row's id finds that very row |
| `UsersTable.UniqueEmailFound` | storages/postgres/postgres.go:51-57 | with unique e-mails the lookup by a row's e-mail finds that very row |
| `UsersTable.DeleteId` | storages/postgres/postgres.go:145 | the rows left are exactly those with another id; with no matching row the table is unchanged |
| `UsersTable.SetTokens` | storages/postgres/postgres.go:139 | `UPDATE ... SET token, refresh_token WHERE id`: the table keeps its length, rows with another id are unchanged, and rows with the id get the two tokens with every other column kept |
| `UsersTable.SetUsername` | storages/postgres/postgres.go:125 | `UPDATE ... SET username WHERE id`: the table keeps its length, rows with another id are unchanged, and rows with the id get the username with every other column kept |
| `UsersTable.SetTokensFrame` | storages/postgres/postgres.go:138-141 | a token update rewrites only token and refresh_token of the row with that id; every other row is unchanged |
| `UsersTable.SetUsernameFrame` | storages/postgres/postgres.go:124-126 | a username update rewrites only the username of the row with that id; every other row is unchanged |
| `UsersTable.RotationRetiresOldRefresh` | handlers/tokens-handlers.go:126-133 | after rotating a user's pair, the old refresh token resolves exactly when it equals the new one or another row holds it |
| `UsersTable.RotatedRefreshResolves` | handlers/tokens-handlers.go:132-133 | after rotation the new refresh token resolves, and to that user unless an earlier row already holds it |
| `UsersTable.DeleteFrame` | storages/postgres/postgres.go:144-153 | after deleting an id nothing has it, and every other id resolves to the same row as before |
| `UsersTable.DeletedRefreshResolvesElsewhere` | storages/postgres/postgres.go:144-153 | after deleting a row its refresh token resolves only to another user's row, and to none exactly when no other row holds it |
| `UsersTable.DeleteIdKeepsConstraints` | storages/postgres/postgres.go:145 | deleting keeps ids and e-mails unique |
| `UsersTable.InsertedFoundByEmail` | storages/postgres/postgres.go:98-120 | a row inserted under an unused lower-cased e-mail is what a lookup by any case variant of it finds |
| `PostgresStore.InsertedEmail` | storages/postgres/postgres.go:107-119 | the inserted e-mail is NULL exactly for a nil e-mail, and otherwise is its lower-cased text, itself already lower-case |
| `PostgresStore.InsertedEmailAsWritten` | storages/postgres/postgres.go:107 | as written the insert panics exactly for a nil e-mail, and otherwise passes the lower-cased e-mail |
| `PostgresStore.NilEmailInsertFinding` | storages/postgres/postgres.go:107-119 | as written a nil e-mail panics where the corrected insert stores NULL; the two agree on every non-nil e-mail |
| `PostgresStore.ScanByEmailAsWritten` | storages/postgres/postgres.go:56-61 | as written the returned user never has its e-mail set |
| `PostgresStore.GetUserByEmailAsWritten` | storages/postgres/postgres.go:51-62 | as written every call panics on the nil e-mail of the zero user, whatever the table and argument |
| `PostgresStore.Postgres.GetUser` | storages/postgres/postgres.go:39-49 | found exactly when a row has the id; returns only that row's id, username, e-mail and join date, with password and tokens empty; otherwise "no rows" |
| `PostgresStore.Postgres.GetUserByEmail` | storages/postgres/postgres.go:51-62 | found exactly when a row's e-mail is the lower-cased argument; returns that row without its tokens, e-mail included; otherwise "no rows" |
| `PostgresStore.Postgres.GetUserByRefresh` | storages/postgres/postgres.go:64-74 | found exactly when a row holds the refresh token; returns such a row without its tokens; otherwise "no rows" |
| `PostgresStore.Postgres.ValidateToken` | storages/postgres/postgres.go:207-215 | true with no error exactly when some row holds the refresh token, else false with "no rows" |
| `PostgresStore.ValidateAgreesWithLookup` | storages/postgres/postgres.go:207-215 | `ValidateToken` answers true exactly when `GetUserByRefresh` finds a user |
| `PostgresStore.Postgres.GetUserList` | storages/postgres/postgres.go:76-94 | one summary (id, username, e-mail, join date) per row, in table order |
| `PostgresStore.Postgres.CreateUser` | storages/postgres/postgres.go:96-121 | the serial advances on every call; the insert fails with 23505 and no change exactly when the lower-cased e-mail is taken; otherwise the row with the new id and lower-cased e-mail is appended, returned, and found by `GetUserByEmail` under any case variant |
| `PostgresStore.Postgres.UpdateUser` | storages/postgres/postgres.go:123-136 | "user not found" and no change exactly when no row has the id; otherwise only that row's username changes and the argument is returned |
| `PostgresStore.Postgres.UpdateUserTokens` | storages/postgres/postgres.go:138-142 | only the token columns of the row with the id change; no error, even when no row matches, which changes nothing |
| `PostgresStore.Postgres.DeleteUser` | storages/postgres/postgres.go:144-154 | "user not found" and no change exactly when no row has the id; otherwise that row is removed and the constraints still hold |
| `PostgresMock.GetUser` | storages/postgres/postgres_mock.go:15-22 | the first element of `Users` in slice order with that id, with no error; `(nil, nil)` exactly when no element has it |
| `PostgresMock.GetUserList` | storages/postgres/postgres_mock.go:24-26 | the list is the slice `Users` itself, with no error |
| `PostgresMock.CreateUser` | storages/postgres/postgres_mock.go:28-30 | no user and no error, whatever is created |
| `PostgresMock.UpdateUser` | storages/postgres/postgres_mock.go:32-34 | no user and no error, whatever is updated |
| `PostgresMock.DeleteUser` | storages/postgres/postgres_mock.go:36-38 | no error, whether or not an element has the id |
| `PostgresMock.GetUserByEmail` | storages/postgres/postgres_mock.go:40-42 | no user and no error, whatever `Users` holds |
| `PostgresMock.GetUserByRefresh` | storages/postgres/postgres_mock.go:44-46 | no user and no error, whatever `Users` holds |
| `PostgresMock.UpdateUserTokens` | storages/postgres/postgres_mock.go:48-50 | no error, whatever the id |
| `PostgresMock.ValidateToken` | storages/postgres/postgres_mock.go:60-62 | every refresh token is valid, with no error |
| `PostgresMock.MockValidateDisagreesWithLookup` | storages/postgres/postgres_mock.go:40-62 | the mock validates every refresh token, yet finds no user by refresh token or by e-mail |

## Findings

| source | as written | input that shows it | evidently intended | confidence | as-written member | corrected member |
|---|---|---|---|---|---|---|
| storages/postgres/postgres.go:55 | `GetUserByEmail` dereferences the `Email` pointer of the zero `models.User`, and line 57 scans the e-mail column into a local | any call, e.g. `GetUserByEmail(ctx, "frodo@gmail.com")` with any table | look the row up by lower-cased e-mail and return it with its e-mail | high (not executed) | `PostgresStore.GetUserByEmailAsWritten` | `PostgresStore.Postgres.GetUserByEmail` |
| storages/postgres/postgres.go:107 | `CreateUser` dereferences `user.Email` before the nil test of line 116 | `CreateUser(ctx, user)` with `user.Email == nil` | insert a NULL e-mail, as line 116 expects a nil one | medium (not executed) | `PostgresStore.InsertedEmailAsWritten` | `PostgresStore.InsertedEmail` |

The contracts of `PostgresStore.GetUserByEmailAsWritten` and `PostgresStore.ScanByEmailAsWritten` exhibit the first row. `PostgresStore.NilEmailInsertFinding` exhibits the second. `Postgres.CreateUser` uses the corrected insert. `Postgres.CreateUser`'s last ensures clause proves the intended lookup under any case variant.

## Left out

- JWT internals are not modelled: HMAC-SHA256, JSON and base64url encoding. Signing is the `Signed` constructor, and signing failures are inputs.
- jwt-go's own claim validation inside `ParseWithClaims` is not modelled. It rejects an `exp` in the past with its own error text. Its condition is the same as line 44's, so only the error text differs, and callers only log it.
- The `!ok` branch of `CheckToken` (handlers/tokens-handlers.go:39-42) has no path in the model. `ParseWithClaims` decodes into the `*SignedDetails` it is given, so the type assertion cannot fail.
- `generateTokens` reads the clock twice (lines 55 and 61). Both reads are modelled as one instant `now`. `Local()` does not affect `Unix()`.
- `Http.StatusText` lists only the statuses the core writes (200, 400, 401, 403, 404, 500). It gives "" for the rest.
- `Text.ToLower` lower-cases ASCII letters only. Go's Unicode case mapping is not modelled.
- The JSON request and response encoding, the `Content-Type` header set in handlers/tokens.go, and the write to `http.ResponseWriter` are values instead of I/O.
- Context timeouts (handlers/tokens-handlers.go:88, 114), the connection pool, `connect`, `GetPostgres` and `Close` are I/O and cancellation. The `Query` rows left unclosed at handlers/tokens-handlers.go:133 are also not modelled.
- `PostgresStore.Postgres.GetUserList`: does not model the scan failure of lines 87-89, or a failing query; it always returns a nil error.
- `PostgresStore.Postgres.UpdateUserTokens`: does not model driver errors; only the zero-row case, which is no error, is covered.
- `PostgresStore.Postgres.CreateUser`: never yields 22001, because the column widths are in migrations that are not part of this model. For the same reason, the unique constraint on the e-mail column is an assumption of the model, not read from the schema.
- Driver and connection errors of the other repository methods are not modelled. Only the refresh handler's UPDATE gets them, through `update`.
- `SELECT` results without `ORDER BY` are read in table order.
- Concurrency: the race between two refreshes with the same token is not modelled, because the model is sequential.
- The mock's `Users` is a slice of pointers. The model uses values, so aliasing is not captured, nor is the panic a nil element would cause. `GetPlayerList`/`CreatePlayer` are left out with the player sub-resource.
- Player CRUD (storages/postgres/postgres.go:156-205, handlers/players-handlers.go) is not modelled, nor are bcrypt hashing, routing, CORS, migrations, main.go, handlers/handlers.go and handlers/users-handlers.go. Two defects in the last file are left unmodelled: `DeleteUser` calls `err.Error()` on a nil error at line 216, and `CreateUser` mints tokens for id 0 before the insert at line 121.
- Go's `int` ids and `int64` expiry times are unbounded `int` here. No reachable id or clock value overflows them.
- `encoding/json` matches member names case-insensitively when it decodes claims; `Jwt.Member` matches them exactly. The two differ only for claim sets this code did not mint.
- The environment-sourced secret (settings/constants.go) and the `SecretKey` global of handlers/tokens.go are the parameter `key`.
