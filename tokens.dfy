/** The JSON Web Tokens of `jwt.sign` and `jwt.verify`, kept abstract: a
    token is the record of what it carries and whether its signature checks
    against the server's secret. */
module Tokens {
  import opened Wrappers

  /** `expiresIn: '24h'`, in seconds. */
  const TokenLifetime: nat := 24 * 60 * 60

  /** The signed payload `{ id, username }`. */
  datatype Claims = Claims(id: nat, username: string)

  datatype Jwt = Jwt(claims: Claims, issuedAt: nat, expiresAt: nat, signatureValid: bool)

  datatype TokenError = Malformed | BadSignature | Expired

  /** `jwt.sign(claims, secret, { expiresIn: '24h' })` at time `now`. */
  function Issue(claims: Claims, now: nat): Jwt {
    Jwt(claims, now, now + TokenLifetime, true)
  }

  /** `jwt.verify` of a token that decoded to `decoded` (`None`: not a JWT
      at all). The library treats a token as expired from its expiry second
      on. */
  function Verify(decoded: Option<Jwt>, now: nat): (r: Result<Claims, TokenError>)
    ensures r.Ok? <==> decoded.Some? && decoded.value.signatureValid && now < decoded.value.expiresAt
    ensures r.Ok? ==> r.value == decoded.value.claims
    ensures r == Err(Malformed) <==> decoded.None?
    ensures r == Err(BadSignature) <==> decoded.Some? && !decoded.value.signatureValid
    ensures r == Err(Expired) <==> decoded.Some? && decoded.value.signatureValid && now >= decoded.value.expiresAt
  {
    match decoded
    case None => Err(Malformed)
    case Some(jwt) =>
      if !jwt.signatureValid then Err(BadSignature)
      else if now >= jwt.expiresAt then Err(Expired)
      else Ok(jwt.claims)
  }

  /** What the library guarantees about its own encoding: a signed token
      decodes back to itself, and its text is non-empty and has no space. */
  ghost predicate SoundCodec(sign: Jwt -> string, decode: string -> Option<Jwt>) {
    forall jwt: Jwt :: jwt.signatureValid ==>
      decode(sign(jwt)) == Some(jwt) && sign(jwt) != "" && ' ' !in sign(jwt)
  }

  /** A freshly issued token verifies to exactly its claims for 24 hours
      and is rejected as expired from then on. */
  lemma IssuedTokenLifetime(claims: Claims, issuedAt: nat, now: nat)
    ensures Verify(Some(Issue(claims, issuedAt)), now)
         == if now < issuedAt + TokenLifetime then Ok(claims) else Err(Expired)
  {
  }
}
