/** `handlers/tokens.go`, the older variant of the token code: its claims
    name the user id `Uid`, and its refresh handler never stores the pair
    it mints. It defines the same identifiers as `tokens-handlers.go`, so
    the two files are alternatives and are modelled as separate modules. */
module TokensLegacy {
  import opened Wrappers
  import opened Text
  import opened Jwt
  import opened Models
  import opened Http
  import opened ErrorsHandlers
  import opened UsersTable

  const AccessTokenLifetime: int := 10 * 60
  const RefreshTokenLifetime: int := 24 * 60 * 60

  /** `SignedDetails`: Email, Uid and the standard `exp` claim. */
  datatype SignedDetails = SignedDetails(email: string, uid: string, expiresAt: int)

  function Encode(d: SignedDetails): ClaimSet {
    ClaimSet(map["Email" := d.email, "Uid" := d.uid], d.expiresAt)
  }

  function Decode(cs: ClaimSet): SignedDetails {
    SignedDetails(Member(cs, "Email"), Member(cs, "Uid"), cs.exp)
  }

  lemma DecodeEncode(d: SignedDetails)
    ensures Decode(Encode(d)) == d
  {
  }

  /** `generateTokens`: access claims {Email, Uid = decimal id, exp = now + 600},
      refresh claims {exp = now + 86400}; on any signing failure both strings
      are empty and the error is the library's. */
  function GenerateTokens(email: string, userId: int, now: int, key: string, faults: SigningFaults): (r: Issued)
    ensures r.err.None? <==> faults.access.None? && faults.refresh.None?
    ensures r.err.Some? ==> r.token == NoToken && r.refresh == NoToken
    ensures faults.access.Some? ==> r.err == faults.access
    ensures faults.access.None? && faults.refresh.Some? ==> r.err == faults.refresh
    ensures r.err.None? ==> r.token.Signed? && r.token.key == key
                            && Decode(r.token.claims) == SignedDetails(email, Itoa(userId), now + 600)
    ensures r.err.None? ==> r.refresh.Signed? && r.refresh.key == key
                            && Decode(r.refresh.claims) == SignedDetails("", "", now + 86400)
  {
    var claims := SignedDetails(email, Itoa(userId), now + AccessTokenLifetime);
    var refreshClaims := SignedDetails("", "", now + RefreshTokenLifetime);
    match SignedString(Encode(claims), key, faults.access)
    case Failure(e) => Issued(NoToken, NoToken, Some(e))
    case Success(token) =>
      match SignedString(Encode(refreshClaims), key, faults.refresh)
      case Failure(e) => Issued(NoToken, NoToken, Some(e))
      case Success(refresh) => Issued(token, refresh, None)
  }

  /** The Uid claim of an issued access token reads back as the user id. */
  lemma IssuedUidReadsBack(email: string, userId: int, now: int, key: string)
    ensures ParseDecimal(Decode(GenerateTokens(email, userId, now, key, SigningFaults(None, None)).token.claims).uid)
            == Some(userId)
  {
    ItoaRoundTrip(userId);
  }

  /** `ValidateToken`: 400 on an undecodable body, 404 when no row carries
      the refresh token, otherwise 200 `{"ok": true}`. */
  function ValidateToken(body: Decoded<Tokens>, users: seq<User>): (r: Response)
    ensures body.Undecodable? ==> r == HandleApiErrors(StatusBadRequest, body.message)
    ensures body.Decoded? ==>
              (r == Response(StatusOK, OkBody(true))
               <==> exists i :: 0 <= i < |users| && users[i].refreshToken == body.value.refreshToken)
    ensures body.Decoded? && r != Response(StatusOK, OkBody(true)) ==> r == Response(StatusNotFound, ErrorBody("Not Found"))
  {
    match body
    case Undecodable(message) => HandleApiErrors(StatusBadRequest, message)
    case Decoded(tokens) =>
      if FirstIndex(users, RefreshTokenIs(tokens.refreshToken)).Some? then Response(StatusOK, OkBody(true))
      else HandleApiErrors(StatusNotFound, "")
  }

  /** `RefreshToken`: looks the row up by refresh token and answers with a
      freshly minted pair, which it never writes back. */
  function RefreshToken(body: Decoded<Tokens>, users: seq<User>, now: int, key: string, faults: SigningFaults): (r: Response)
    ensures body.Undecodable? ==> r == HandleApiErrors(StatusBadRequest, body.message)
    ensures body.Decoded? ==>
              var k := FirstIndex(users, RefreshTokenIs(body.value.refreshToken));
              && ((k.None? || users[k.value].email.None?) ==> r == HandleApiErrors(StatusNotFound, ""))
              && (k.Some? && users[k.value].email.Some? ==>
                    var issued := GenerateTokens(users[k.value].email.value, users[k.value].id, now, key, faults);
                    && (issued.err.Some? ==> r == HandleApiErrors(StatusInternalServerError, issued.err.value))
                    && (issued.err.None? ==> r == Response(StatusOK, TokenPair(issued.token, issued.refresh))))
  {
    match body
    case Undecodable(message) => HandleApiErrors(StatusBadRequest, message)
    case Decoded(tokens) =>
      match FirstIndex(users, RefreshTokenIs(tokens.refreshToken))
      case None => HandleApiErrors(StatusNotFound, "")
      case Some(k) =>
        var user := users[k];
        if user.email.None? then HandleApiErrors(StatusNotFound, "")
        else
          var issued := GenerateTokens(user.email.value, user.id, now, key, faults);
          if issued.err.Some? then HandleApiErrors(StatusInternalServerError, issued.err.value)
          else Response(StatusOK, TokenPair(issued.token, issued.refresh))
  }

  /** Since nothing is stored, a refresh token that was exchanged keeps
      validating, and the refresh token handed out validates only if some
      row happened to hold it already. */
  lemma ExchangedRefreshStaysValid(body: Decoded<Tokens>, users: seq<User>, now: int, key: string, faults: SigningFaults)
    requires RefreshToken(body, users, now, key, faults).status == StatusOK
    ensures ValidateToken(body, users) == Response(StatusOK, OkBody(true))
    ensures var minted := RefreshToken(body, users, now, key, faults).body.refresh;
            ValidateToken(Decoded(Tokens(NoToken, minted)), users) == Response(StatusOK, OkBody(true))
            <==> exists i :: 0 <= i < |users| && users[i].refreshToken == minted
  {
  }
}
