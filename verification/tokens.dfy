/**
 * Bearer tokens: JSON Web Tokens (RFC 7519) signed with HMAC SHA-256, the
 * "HS256" algorithm of section 3.2 of RFC 7518, as the service issues and
 * checks them.
 *
 * The MAC is modelled symbolically: a signature is the term
 * `HmacSha256(key, alg, claims)`, so a signature matches only the key, the
 * header algorithm and the claims it was made from (an unforgeable MAC).
 * Times are whole seconds since the epoch; the caller passes the clock.
 */
module Tokens {
  import opened Wrappers

  const Algorithm := "HS256"
  /** Lifetime used when no (or a zero) lifetime is given: 15 minutes. */
  const DefaultExpireSeconds := 15 * 60

  /** The registered claims the service uses: `sub` (section 4.1.2 of RFC 7519) and `exp` (section 4.1.4). */
  datatype Claims = Claims(sub: Option<string>, exp: Option<int>)

  datatype Mac = HmacSha256(key: string, alg: string, claims: Claims)

  /** A presented token: a signed header and payload, or a string that is not a JWS at all. */
  datatype Token = Jws(alg: string, claims: Claims, signature: Mac) | Unparsable(text: string)

  /** The failures `jwt.decode` raises, all of them `JWTError`s. */
  datatype JwtError = Malformed | AlgorithmNotAllowed | SignatureInvalid | SignatureExpired

  function Sign(key: string, alg: string, claims: Claims): Mac
  {
    HmacSha256(key, alg, claims)
  }

  /**
   * `jwt.encode(claims, key, algorithm="HS256")`: the header names HS256, the
   * payload is the claims unchanged, and no other key yields the signature.
   */
  function Encode(claims: Claims, key: string): (r: Token)
    ensures r.Jws? && r.alg == Algorithm && r.claims == claims
    ensures forall other :: other != key ==> r.signature != Sign(other, Algorithm, claims)
  {
    Jws(Algorithm, claims, Sign(key, Algorithm, claims))
  }

  /**
   * `jwt.decode(token, key, algorithms=["HS256"])`: parse, check the header
   * algorithm, check the signature, then reject an `exp` already in the past.
   */
  function Decode(token: Token, key: string, now: int): (r: Result<Claims, JwtError>)
    ensures r.Success? ==> token == Encode(r.value, key)
    ensures r.Success? ==> r.value.exp.None? || now <= r.value.exp.value
  {
    match token
    case Unparsable(_) => Failure(Malformed)
    case Jws(alg, claims, signature) =>
      if alg != Algorithm then Failure(AlgorithmNotAllowed)
      else if signature != Sign(key, alg, claims) then Failure(SignatureInvalid)
      else if claims.exp.Some? && claims.exp.value < now then Failure(SignatureExpired)
      else Success(claims)
  }

  /** Encoding then decoding gives the claims back until `exp` has passed. */
  lemma DecodeEncode(claims: Claims, key: string, now: int)
    ensures Decode(Encode(claims, key), key, now) ==
      if claims.exp.Some? && claims.exp.value < now then Failure(SignatureExpired) else Success(claims)
  {
  }

  /** A token signed under one key is refused under any other. */
  lemma OtherKeyRejected(claims: Claims, key: string, other: string, now: int)
    requires key != other
    ensures Decode(Encode(claims, key), other, now) == Failure(SignatureInvalid)
  {
  }

  /** Changing the claims of a signed token invalidates it. */
  lemma TamperedClaimsRejected(claims: Claims, forged: Claims, key: string, now: int)
    requires forged != claims
    ensures Decode(Jws(Algorithm, forged, Sign(key, Algorithm, claims)), key, now) == Failure(SignatureInvalid)
  {
  }

  /**
   * The expiry `create_access_token` computes: `now + delta` for a truthy
   * `timedelta` (any non-zero one, negative included), else 15 minutes.
   */
  function Expiry(expiresDelta: Option<int>, now: int): (exp: int)
    ensures expiresDelta.Some? && expiresDelta.value != 0 ==> exp == now + expiresDelta.value
    ensures expiresDelta.None? || expiresDelta.value == 0 ==> exp == now + DefaultExpireSeconds
  {
    if expiresDelta.Some? && expiresDelta.value != 0 then now + expiresDelta.value
    else now + DefaultExpireSeconds
  }

  /** `create_access_token`: the given claims, with `exp` set, signed. */
  function CreateAccessToken(data: Claims, expiresDelta: Option<int>, now: int, key: string): (t: Token)
    ensures t.Jws? && t.claims.sub == data.sub && t.claims.exp == Some(Expiry(expiresDelta, now))
  {
    Encode(data.(exp := Some(Expiry(expiresDelta, now))), key)
  }

  /**
   * An issued token decodes, under the same key, to the input claims with
   * `exp` added at every instant up to its expiry, and is refused as expired
   * afterwards.
   */
  lemma CreatedTokenLifetime(data: Claims, expiresDelta: Option<int>, now: int, key: string, at: int)
    ensures var exp := Expiry(expiresDelta, now);
      Decode(CreateAccessToken(data, expiresDelta, now, key), key, at) ==
        if at <= exp then Success(Claims(data.sub, Some(exp))) else Failure(SignatureExpired)
  {
    DecodeEncode(data.(exp := Some(Expiry(expiresDelta, now))), key, at);
  }
}
