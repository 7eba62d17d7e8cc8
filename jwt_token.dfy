/**
 * The token codec of lib/jwt_token.rb: a JSON Web Token (RFC 7519) whose
 * claim set is {user_id, exp, iat}, signed with HMAC-SHA256 under the
 * process-wide secret and decoded with the algorithm pinned to HS256.
 *
 * The MAC is a free constructor of (algorithm, claims, key), so two
 * signatures are equal exactly when all three agree. The compact wire form
 * (base64url, JSON) is library code: a token string becomes a `Jwt` through
 * the `parse` parameter, which answers None for a string that is not a
 * well-formed token.
 */
module JwtToken {
  import opened RubyCore
  import opened Exceptions

  /** ALGORITHM */
  const Algorithm: string := "HS256"
  /** EXPIRATION, in hours */
  const Expiration: nat := 24
  const SecondsPerHour: nat := 3600
  /** The lifetime of a token in seconds: `EXPIRATION * 3600`. */
  const Lifetime: nat := Expiration * SecondsPerHour

  /** The claim set. A token minted elsewhere may lack any claim. */
  datatype Claims = Claims(userId: Option<nat>, exp: Option<int>, iat: Option<int>)

  /** The HMAC of the signing input under a key. */
  datatype Signature = Hmac(alg: string, claims: Claims, key: string)

  /** A parsed token: header algorithm, payload, signature. */
  datatype Jwt = Jwt(alg: string, claims: Claims, signature: Signature)

  type Parser = string -> Option<Jwt>

  function Sign(alg: string, claims: Claims, key: string): Signature {
    Hmac(alg, claims, key)
  }

  /** RFC 7519 section 4.1.4: the token is rejected when the current time
      is on or after `exp`; a token without `exp` never expires. */
  predicate Expired(claims: Claims, now: int) {
    claims.exp.Some? && claims.exp.value <= now
  }

  /** The library matches the header's algorithm name against the allowed
      one without regard to letter case. */
  predicate AllowedAlgorithm(alg: string) {
    Downcase(alg) == Downcase(Algorithm)
  }

  /** The tokens decode accepts: the header names HS256 in any letter case,
      the MAC over that header and the claims is made under `key`, and the
      token has not expired. */
  predicate Accepted(t: Jwt, key: string, now: int) {
    AllowedAlgorithm(t.alg) && t.signature == Sign(t.alg, t.claims, key) && !Expired(t.claims, now)
  }

  /** `JwtToken.encode(user_id)` at time `now` under `secret`. */
  function Encode(userId: nat, now: int, secret: string): (t: Jwt)
    ensures t.alg == Algorithm
    ensures t.claims.userId == Some(userId)
    ensures t.claims.iat == Some(now)
    ensures t.claims.exp == Some(now + 24 * 3600)
    ensures t.signature == Sign(Algorithm, t.claims, secret)
  {
    var claims := Claims(Some(userId), Some(now + Lifetime), Some(now));
    Jwt(Algorithm, claims, Sign(Algorithm, claims, secret))
  }

  /** `JWT.decode(token, secret, true, { algorithm: ALGORITHM })`: parse,
      check the header algorithm against the pinned one, check the
      signature, check `exp`; the first failing check raises. */
  function LibraryDecode(token: string, parse: Parser, key: string, now: int): (r: Result<Claims>)
    ensures r.Ok? <==> parse(token).Some? && Accepted(parse(token).value, key, now)
    ensures r.Ok? ==> r.value == parse(token).value.claims
    ensures r.Raise? ==> IsDecodeError(r.error)
  {
    match parse(token)
    case None => Raise(DecodeError("Not enough or too many segments"))
    case Some(t) =>
      if !AllowedAlgorithm(t.alg) then Raise(IncorrectAlgorithm("Expected a different algorithm"))
      else if t.signature != Sign(t.alg, t.claims, key) then Raise(VerificationError("Signature verification failed"))
      else if Expired(t.claims, now) then Raise(ExpiredSignature("Signature has expired"))
      else Ok(t.claims)
  }

  /** `JwtToken.decode(token)`: the `user_id` claim of the decoded payload
      (nil when absent); every library exception is re-raised unchanged. */
  function Decode(token: string, parse: Parser, secret: string, now: int): (r: Result<Option<nat>>)
    ensures r.Raise? <==> LibraryDecode(token, parse, secret, now).Raise?
    ensures r.Raise? ==> r.error == LibraryDecode(token, parse, secret, now).error
    ensures r.Ok? ==> r.value == LibraryDecode(token, parse, secret, now).value.userId
  {
    match LibraryDecode(token, parse, secret, now)
    case Ok(claims) => Ok(claims.userId)
    case Raise(e) => Raise(e)
  }

  /** Round trip: a token minted by `Encode` decodes to its user id under the
      same secret at any time before its `exp`. */
  lemma DecodeEncode(userId: nat, issuedAt: int, secret: string, token: string, parse: Parser, now: int)
    requires parse(token) == Some(Encode(userId, issuedAt, secret))
    requires now < issuedAt + Lifetime
    ensures Decode(token, parse, secret, now) == Ok(Some(userId))
  {
  }

  /** From `exp` on, the same token raises ExpiredSignature. */
  lemma DecodeExpired(userId: nat, issuedAt: int, secret: string, token: string, parse: Parser, now: int)
    requires parse(token) == Some(Encode(userId, issuedAt, secret))
    requires issuedAt + Lifetime <= now
    ensures Decode(token, parse, secret, now).Raise?
    ensures Decode(token, parse, secret, now).error.ExpiredSignature?
  {
  }

  /** A token minted under another secret raises VerificationError, whatever the time. */
  lemma DecodeOtherSecret(userId: nat, issuedAt: int, secret: string, other: string, token: string, parse: Parser, now: int)
    requires parse(token) == Some(Encode(userId, issuedAt, other))
    requires other != secret
    ensures Decode(token, parse, secret, now).Raise?
    ensures Decode(token, parse, secret, now).error.VerificationError?
  {
  }

  /** The algorithm is pinned by the verifier: a token whose header names any
      other algorithm is refused even when its MAC is correct for that
      algorithm under the right key. */
  lemma DecodeOtherAlgorithm(t: Jwt, secret: string, token: string, parse: Parser, now: int)
    requires parse(token) == Some(t)
    requires !AllowedAlgorithm(t.alg)
    ensures Decode(token, parse, secret, now) == Raise(IncorrectAlgorithm("Expected a different algorithm"))
  {
  }

  /** A successful decode pins the header algorithm to HS256 up to case, the
      MAC to this secret over the token's own header and claims, and the time
      to before `exp`. */
  lemma DecodeSound(token: string, parse: Parser, secret: string, now: int)
    requires Decode(token, parse, secret, now).Ok?
    ensures parse(token).Some?
    ensures Downcase(parse(token).value.alg) == Downcase(Algorithm)
    ensures parse(token).value.signature == Hmac(parse(token).value.alg, parse(token).value.claims, secret)
    ensures !Expired(parse(token).value.claims, now)
    ensures Decode(token, parse, secret, now).value == parse(token).value.claims.userId
  {
  }

  /** The header may name the algorithm in lower case: "hs256" with a MAC
      made under the secret is accepted like "HS256". */
  lemma DecodeLowerCaseAlgorithm(claims: Claims, secret: string, token: string, parse: Parser, now: int)
    requires parse(token) == Some(Jwt("hs256", claims, Sign("hs256", claims, secret)))
    requires !Expired(claims, now)
    ensures Decode(token, parse, secret, now) == Ok(claims.userId)
  {
    assert Downcase("hs256") == "hs256";
    assert Downcase(Algorithm) == "hs256";
  }
}
