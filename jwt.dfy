/** Token issuing. Signing itself (the HMAC, the header, the encoding) is a
    foreign library call and is not modelled: a token stands for the claims it
    carries together with its configured lifetime. */
module Jwt {

  /** The fallback secret used when `JWT_SECRET` is not set. */
  const FallbackSecret := "devsecret"
  /** Every token expires seven days after it is issued. */
  const ExpiresIn := "7d"

  datatype Claims = Claims(id: int, email: string, name: string)

  datatype Token = Signed(claims: Claims, expiresIn: string)

  /** `generateToken(payload)` */
  function GenerateToken(c: Claims): (t: Token)
    ensures t.claims == c && t.expiresIn == ExpiresIn
  {
    Signed(c, ExpiresIn)
  }
}
