/** The part of the jwt-go library the core uses, with HMAC-SHA256 signing
    (section 3.2 of RFC 7518) and the JSON/base64url encoding kept abstract.

    A token is the text a client presents. Either it is the compact
    serialization of a claim set signed under some key, or it is some
    other text that is not such a serialization. The empty header and the
    empty token returned on a signing failure are both `Raw("")`. Signing is
    deterministic: equal claim sets signed under equal keys give equal text. */
module Jwt {
  import opened Wrappers

  /** A JSON Web Token claim set (RFC 7519): the string-valued members of the
      JSON object and the registered "exp" claim of section 4.1.4, written
      as 0 when it is absent. */
  datatype ClaimSet = ClaimSet(members: map<string, string>, exp: int)

  datatype Token = Signed(claims: ClaimSet, key: string) | Raw(text: string)

  /** The empty string. */
  const NoToken: Token := Raw("")

  datatype ParseError = Malformed | SignatureInvalid

  /** The outcome of each `SignedString` call that `generateTokens` makes:
      None when signing succeeds, otherwise the error the library reports.
      jwt-go's HMAC signer accepts any byte key, the empty one included. */
  datatype SigningFaults = SigningFaults(access: Option<string>, refresh: Option<string>)

  /** The three results of `generateTokens`: signed access token, signed
      refresh token and the error. */
  datatype Issued = Issued(token: Token, refresh: Token, err: Option<string>)

  /** `jwt.NewWithClaims(jwt.SigningMethodHS256, claims).SignedString(key)`. */
  function SignedString(claims: ClaimSet, key: string, fault: Option<string>): (r: Result<Token, string>)
    ensures r.Success? <==> fault.None?
    ensures r.Success? ==> r.value == Signed(claims, key) && r.value != NoToken
    ensures r.Failure? ==> r.error == fault.value
  {
    match fault
    case None => Success(Signed(claims, key))
    case Some(e) => Failure(e)
  }

  /** `jwt.ParseWithClaims` with a key function that always returns `key`:
      only a serialization signed under that very key yields its claims. */
  function ParseWithClaims(token: Token, key: string): (r: Result<ClaimSet, ParseError>)
    ensures r.Success? <==> token.Signed? && token.key == key
    ensures r.Success? ==> r.value == token.claims
    ensures token.Raw? ==> r == Failure(Malformed)
  {
    match token
    case Raw(_) => Failure(Malformed)
    case Signed(claims, k) => if k == key then Success(claims) else Failure(SignatureInvalid)
  }

  /** Decoding a JSON member into a Go string field: a missing member leaves
      the field at its zero value "". */
  function Member(cs: ClaimSet, name: string): (v: string)
    ensures name in cs.members ==> v == cs.members[name]
    ensures name !in cs.members ==> v == ""
  {
    if name in cs.members then cs.members[name] else ""
  }

  /** A token signed under one key parses under exactly that key. */
  lemma SignThenParse(claims: ClaimSet, key: string, verifyKey: string)
    ensures ParseWithClaims(SignedString(claims, key, None).value, verifyKey)
            == if verifyKey == key then Success(claims) else Failure(SignatureInvalid)
  {
  }
}
