/** `middlewares/auth-middlewares.go`: the `Authentication` wrapper around a
    protected handler. It decides on the `Authorization` header and the
    outcome of `CheckToken` alone; it has no access to the users table. */
module AuthMiddleware {
  import opened Wrappers
  import opened Text
  import opened Jwt
  import opened Http
  import opened ErrorsHandlers
  import opened TokensHandlers
  import TokensLegacy

  /** The request-context keys: `settings.E` and `settings.I`, whose distinct
      Go types keep them apart from every other key. */
  datatype ContextKey = EmailKey | IdKey | OtherKey(name: string)

  /** Either the middleware answers the request itself and the wrapped handler
      is not called, or the wrapped handler is called once, with this
      request context. */
  datatype Outcome = Respond(response: Response) | Serve(ctx: map<ContextKey, string>)

  /** `Authentication`: 401 for an empty header, 403 when the header does not
      check, otherwise the wrapped handler with the claims' Email and ID in
      the context. The header goes to `CheckToken` verbatim. */
  function Authentication(authorization: Token, ctx: map<ContextKey, string>, now: int, key: string): (o: Outcome)
    ensures authorization == NoToken ==> o == Respond(Response(StatusUnauthorized, ErrorBody("Unauthorized")))
    ensures authorization != NoToken && CheckToken(authorization, now, key).Failure? ==>
              o == Respond(Response(StatusForbidden, ErrorBody("Forbidden")))
    ensures o.Serve? <==> authorization != NoToken && CheckToken(authorization, now, key).Success?
    ensures o.Serve? ==>
              var claims := CheckToken(authorization, now, key).value;
              && o.ctx.Keys == ctx.Keys + {EmailKey, IdKey}
              && o.ctx[EmailKey] == claims.email && o.ctx[IdKey] == claims.id
              && forall k :: k in ctx && k != EmailKey && k != IdKey ==> o.ctx[k] == ctx[k]
  {
    if authorization == NoToken then
      Respond(HandleApiErrors(StatusUnauthorized, ""))
    else
      match CheckToken(authorization, now, key)
      case Failure(_) => Respond(HandleApiErrors(StatusForbidden, ""))
      case Success(claims) => Serve(ctx[EmailKey := claims.email][IdKey := claims.id])
  }

  /** An access token, presented within its ten minutes, admits the request
      with the user's e-mail and an id that reads back as the user id; the
      users table plays no part, so this holds even after the user's row is
      deleted. */
  lemma IssuedAccessTokenAdmitted(email: string, userId: int, issuedAt: int, now: int, key: string,
                                  ctx: map<ContextKey, string>)
    requires now <= issuedAt + AccessTokenLifetime
    ensures var o := Authentication(GenerateTokens(email, userId, issuedAt, key, NoFaults).token, ctx, now, key);
            o.Serve? && o.ctx[EmailKey] == email && ParseDecimal(o.ctx[IdKey]) == Some(userId)
  {
    IssuedAccessTokenChecks(email, userId, issuedAt, now, key);
  }

  /** After its ten minutes an access token is refused with 403. */
  lemma ExpiredAccessTokenForbidden(email: string, userId: int, issuedAt: int, now: int, key: string,
                                    ctx: map<ContextKey, string>)
    requires now > issuedAt + AccessTokenLifetime
    ensures Authentication(GenerateTokens(email, userId, issuedAt, key, NoFaults).token, ctx, now, key)
            == Respond(Response(StatusForbidden, ErrorBody("Forbidden")))
  {
    IssuedAccessTokenChecks(email, userId, issuedAt, now, key);
  }

  /** A refresh token is signed like an access token, so the middleware
      admits it for a whole day, with an empty e-mail and id. */
  lemma RefreshTokenAdmittedAnonymously(email: string, userId: int, issuedAt: int, now: int, key: string,
                                        ctx: map<ContextKey, string>)
    requires now <= issuedAt + RefreshTokenLifetime
    ensures var o := Authentication(GenerateTokens(email, userId, issuedAt, key, NoFaults).refresh, ctx, now, key);
            o.Serve? && o.ctx[EmailKey] == "" && o.ctx[IdKey] == ""
  {
    IssuedRefreshTokenChecks(email, userId, issuedAt, now, key);
  }

  /** A token signed under another secret is refused with 403. */
  lemma ForeignSignatureForbidden(claims: ClaimSet, otherKey: string, now: int, key: string, ctx: map<ContextKey, string>)
    requires otherKey != key
    ensures Authentication(Signed(claims, otherKey), ctx, now, key) == Respond(Response(StatusForbidden, ErrorBody("Forbidden")))
  {
  }

  /** No `Bearer ` prefix (section 2.1 of RFC 6750) is stripped: such a header
      is not a compact serialization and is refused with 403. */
  lemma BearerHeaderForbidden(rest: string, now: int, key: string, ctx: map<ContextKey, string>)
    ensures Authentication(Raw("Bearer " + rest), ctx, now, key) == Respond(Response(StatusForbidden, ErrorBody("Forbidden")))
  {
  }

  /** An access token minted by the older `tokens.go` under the same secret
      carries its id as `Uid`, which the current claims ignore: it is
      admitted with the e-mail but an empty id. */
  lemma LegacyAccessTokenLosesId(email: string, userId: int, issuedAt: int, now: int, key: string,
                                 ctx: map<ContextKey, string>)
    requires now <= issuedAt + TokensLegacy.AccessTokenLifetime
    ensures var o := Authentication(TokensLegacy.GenerateTokens(email, userId, issuedAt, key, NoFaults).token, ctx, now, key);
            o.Serve? && o.ctx[EmailKey] == email && o.ctx[IdKey] == ""
  {
  }
}
