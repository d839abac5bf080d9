/** `handlers/tokens-handlers.go`, the current token code: claim sets,
    `generateTokens`, `CheckToken`, and the validate and refresh handlers.
    The clock is the parameter `now` (Unix seconds) and the signing secret
    the parameter `key`. */
module TokensHandlers {
  import opened Wrappers
  import opened Text
  import opened Jwt
  import opened Models
  import opened Http
  import opened ErrorsHandlers
  import opened UsersTable

  /** Ten minutes and twenty-four hours, in seconds. */
  const AccessTokenLifetime: int := 10 * 60
  const RefreshTokenLifetime: int := 24 * 60 * 60

  /** `SignedDetails`: Email, ID and the standard `exp` claim. */
  datatype SignedDetails = SignedDetails(email: string, id: string, expiresAt: int)

  /** The JSON claim set of a `SignedDetails`; Email and ID have no
      `omitempty`, so both members are always written. */
  function Encode(d: SignedDetails): ClaimSet {
    ClaimSet(map["Email" := d.email, "ID" := d.id], d.expiresAt)
  }

  /** Decoding a claim set into `&SignedDetails{}`: unknown members are
      ignored, missing ones stay empty. */
  function Decode(cs: ClaimSet): SignedDetails {
    SignedDetails(Member(cs, "Email"), Member(cs, "ID"), cs.exp)
  }

  lemma DecodeEncode(d: SignedDetails)
    ensures Decode(Encode(d)) == d
  {
  }

  /** The errors of `CheckToken`: the library's parse error, or
      `errors.New("token is expired")`. */
  datatype CheckError = Unparsable(cause: ParseError) | Expired

  /** `CheckToken`: the token verifies under the key and has not expired;
      a token whose expiry equals `now` is still accepted. */
  function CheckToken(signedToken: Token, now: int, key: string): (r: Result<SignedDetails, CheckError>)
    ensures ParseWithClaims(signedToken, key).Failure? ==> r == Failure(Unparsable(ParseWithClaims(signedToken, key).error))
    ensures ParseWithClaims(signedToken, key).Success? ==>
              (r == Failure(Expired) <==> Decode(signedToken.claims).expiresAt < now)
    ensures r.Success? ==> signedToken.Signed? && signedToken.key == key
    ensures r.Success? ==> r.value == Decode(signedToken.claims) && r.value.expiresAt >= now
    ensures ParseWithClaims(signedToken, key).Success? && Decode(signedToken.claims).expiresAt >= now ==>
              r == Success(Decode(signedToken.claims))
  {
    match ParseWithClaims(signedToken, key)
    case Failure(e) => Failure(Unparsable(e))
    case Success(cs) =>
      var claims := Decode(cs);
      if claims.expiresAt < now then Failure(Expired) else Success(claims)
  }

  function AccessClaims(email: string, userId: int, now: int): SignedDetails {
    SignedDetails(email, Itoa(userId), now + AccessTokenLifetime)
  }

  function RefreshClaims(now: int): SignedDetails {
    SignedDetails("", "", now + RefreshTokenLifetime)
  }

  /** `generateTokens`: an access token naming the user for ten minutes and
      a refresh token naming nobody for a day; on any signing failure both
      strings are empty and the error is the library's. */
  function GenerateTokens(email: string, userId: int, now: int, key: string, faults: SigningFaults): (r: Issued)
    ensures r.err.None? <==> faults.access.None? && faults.refresh.None?
    ensures r.err.Some? ==> r.token == NoToken && r.refresh == NoToken
    ensures faults.access.Some? ==> r.err == faults.access
    ensures faults.access.None? && faults.refresh.Some? ==> r.err == faults.refresh
    ensures r.err.None? ==> r.token.Signed? && r.token.key == key
                            && Decode(r.token.claims) == SignedDetails(email, Itoa(userId), now + 600)
    ensures r.err.None? ==> r.refresh.Signed? && r.refresh.key == key
                            && Decode(r.refresh.claims) == SignedDetails("", "", now + 86400)
  {
    match SignedString(Encode(AccessClaims(email, userId, now)), key, faults.access)
    case Failure(e) => Issued(NoToken, NoToken, Some(e))
    case Success(token) =>
      match SignedString(Encode(RefreshClaims(now)), key, faults.refresh)
      case Failure(e) => Issued(NoToken, NoToken, Some(e))
      case Success(refresh) => Issued(token, refresh, None)
  }

  const NoFaults: SigningFaults := SigningFaults(None, None)

  /** Once the access token fails to sign, the refresh token is never
      signed: the outcome does not depend on what that signing would do. */
  lemma RefreshNotSignedAfterAccessFailure(email: string, userId: int, now: int, key: string,
                                           access: string, f1: Option<string>, f2: Option<string>)
    ensures GenerateTokens(email, userId, now, key, SigningFaults(Some(access), f1))
            == GenerateTokens(email, userId, now, key, SigningFaults(Some(access), f2))
            == Issued(NoToken, NoToken, Some(access))
  {
  }

  /** An access token issued at `issuedAt` checks until `issuedAt + 600`
      inclusive, and its ID claim reads back as the user id. */
  lemma IssuedAccessTokenChecks(email: string, userId: int, issuedAt: int, now: int, key: string)
    ensures var access := GenerateTokens(email, userId, issuedAt, key, NoFaults).token;
            var r := CheckToken(access, now, key);
            && r == (if now <= issuedAt + AccessTokenLifetime
                     then Success(SignedDetails(email, Itoa(userId), issuedAt + AccessTokenLifetime))
                     else Failure(Expired))
            && (r.Success? ==> ParseDecimal(r.value.id) == Some(userId))
  {
    ItoaRoundTrip(userId);
  }

  /** A refresh token issued at `issuedAt` checks until `issuedAt + 86400`
      inclusive, with empty Email and ID; at one issue instant it outlives
      the access token by 85800 seconds. */
  lemma IssuedRefreshTokenChecks(email: string, userId: int, issuedAt: int, now: int, key: string)
    ensures var issued := GenerateTokens(email, userId, issuedAt, key, NoFaults);
            && CheckToken(issued.refresh, now, key)
               == (if now <= issuedAt + RefreshTokenLifetime
                   then Success(SignedDetails("", "", issuedAt + RefreshTokenLifetime))
                   else Failure(Expired))
            && Decode(issued.refresh.claims).expiresAt - Decode(issued.token.claims).expiresAt == 85800
  {
  }

  /** A refresh token names nobody, so every user issued a pair in the same
      second receives the very same refresh token. */
  lemma RefreshTokensCollide(email1: string, id1: int, email2: string, id2: int, now: int, key: string)
    ensures GenerateTokens(email1, id1, now, key, NoFaults).refresh
            == GenerateTokens(email2, id2, now, key, NoFaults).refresh
  {
  }

  /** Access tokens of distinct users differ, even in the same second. */
  lemma AccessTokensSeparateUsers(email: string, id1: int, id2: int, now: int, key: string)
    requires id1 != id2
    ensures GenerateTokens(email, id1, now, key, NoFaults).token != GenerateTokens(email, id2, now, key, NoFaults).token
  {
    ItoaInjective(id1, id2);
    assert Decode(GenerateTokens(email, id1, now, key, NoFaults).token.claims).id == Itoa(id1);
  }

  /** Issuing again yields a different access token exactly when the clock
      has moved to another second. */
  lemma ReissueDiffersIffClockMoved(email: string, userId: int, t1: int, t2: int, key: string)
    ensures GenerateTokens(email, userId, t1, key, NoFaults).token == GenerateTokens(email, userId, t2, key, NoFaults).token
            <==> t1 == t2
  {
    if GenerateTokens(email, userId, t1, key, NoFaults).token == GenerateTokens(email, userId, t2, key, NoFaults).token {
      assert Decode(GenerateTokens(email, userId, t1, key, NoFaults).token.claims).expiresAt == t1 + 600;
    }
  }

  /** Some row carries the refresh token. */
  predicate Resolves(users: seq<User>, refresh: Token) {
    FirstIndex(users, RefreshTokenIs(refresh)).Some?
  }

  /** `ValidateToken`: 200 `{"ok": true}` exactly when some row carries the
      submitted refresh token, 404 otherwise, 400 on an undecodable body. */
  function ValidateToken(body: Decoded<Tokens>, users: seq<User>): (r: Response)
    ensures body.Undecodable? ==> r == HandleApiErrors(StatusBadRequest, body.message)
    ensures body.Decoded? ==>
              (r == Response(StatusOK, OkBody(true))
               <==> exists i :: 0 <= i < |users| && users[i].refreshToken == body.value.refreshToken)
    ensures body.Decoded? && r != Response(StatusOK, OkBody(true)) ==> r == Response(StatusNotFound, ErrorBody("Not Found"))
  {
    match body
    case Undecodable(message) => HandleApiErrors(StatusBadRequest, message)
    case Decoded(tokens) =>
      if Resolves(users, tokens.refreshToken) then Response(StatusOK, OkBody(true))
      else HandleApiErrors(StatusNotFound, "")
  }

  /** What becomes of the UPDATE that line 133 sends with `Query` rather than
      `Exec`: it is stored; the call itself fails (no connection, the
      statement not sent) and returns that error; or the server rejects the
      statement, which `Query` reports only through the rows it returns and
      the handler discards, so the call returns no error. */
  datatype UpdateOutcome = Stored | NotSent(message: string) | RejectedByServer

  /** `RefreshToken`: finds the row holding the refresh token (reading its
      id and e-mail), mints a new pair for that user and overwrites the
      row's two token columns with it. */
  method RefreshToken(db: Database, body: Decoded<Tokens>, now: int, key: string,
                      faults: SigningFaults, update: UpdateOutcome) returns (r: Response)
    requires db.Valid()
    modifies db
    ensures db.Valid() && db.nextId == old(db.nextId)
    ensures body.Undecodable? ==> r == HandleApiErrors(StatusBadRequest, body.message) && db.users == old(db.users)
    ensures body.Decoded? ==>
              var k := FirstIndex(old(db.users), RefreshTokenIs(body.value.refreshToken));
              // no row, or a NULL e-mail that cannot be scanned into a string
              (k.None? || old(db.users)[k.value].email.None?) ==>
                r == HandleApiErrors(StatusNotFound, "") && db.users == old(db.users)
    ensures body.Decoded? ==>
              var k := FirstIndex(old(db.users), RefreshTokenIs(body.value.refreshToken));
              k.Some? && old(db.users)[k.value].email.Some? ==>
                var u := old(db.users)[k.value];
                var issued := GenerateTokens(u.email.value, u.id, now, key, faults);
                && (issued.err.Some? ==>
                      r == HandleApiErrors(StatusInternalServerError, issued.err.value) && db.users == old(db.users))
                && (issued.err.None? && update.NotSent? ==>
                      r == HandleApiErrors(StatusInternalServerError, "could not update tokens") && db.users == old(db.users))
                // the client is handed a pair the table does not hold
                && (issued.err.None? && update.RejectedByServer? ==>
                      r == Response(StatusOK, TokenPair(issued.token, issued.refresh)) && db.users == old(db.users))
                && (issued.err.None? && update.Stored? ==>
                      && r == Response(StatusOK, TokenPair(issued.token, issued.refresh))
                      && db.users == SetTokens(old(db.users), u.id, issued.token, issued.refresh)
                      && ValidateToken(Decoded(Tokens(NoToken, issued.refresh)), db.users) == Response(StatusOK, OkBody(true)))
  {
    if body.Undecodable? {
      r := HandleApiErrors(StatusBadRequest, body.message);
      return;
    }
    var k := FirstIndex(db.users, RefreshTokenIs(body.value.refreshToken));
    if k.None? || db.users[k.value].email.None? {
      r := HandleApiErrors(StatusNotFound, "");
      return;
    }
    var user := db.users[k.value];
    var issued := GenerateTokens(user.email.value, user.id, now, key, faults);
    if issued.err.Some? {
      r := HandleApiErrors(StatusInternalServerError, issued.err.value);
      return;
    }
    if update.NotSent? {
      r := HandleApiErrors(StatusInternalServerError, "could not update tokens");
      return;
    }
    if update.RejectedByServer? {
      r := Response(StatusOK, TokenPair(issued.token, issued.refresh));
      return;
    }
    RotatedRefreshResolves(db.users, k.value, issued.token, issued.refresh);
    db.users := SetTokens(db.users, user.id, issued.token, issued.refresh);
    r := Response(StatusOK, TokenPair(issued.token, issued.refresh));
  }
}
