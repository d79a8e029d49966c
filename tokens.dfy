/**
 * The token service and the password hasher, as the routes see them.
 *
 * `jsonwebtoken` and `bcryptjs` are outside this model: each is a pair of
 * function values handed to the code that calls it, and the little the
 * application relies on about them is a `Sound()` predicate that the
 * lemmas needing it take as a precondition.
 */
module Tokens {
  import opened Wrappers

  /** The payload of every token: `{ userId, email }`. */
  datatype Claims = Claims(userId: string, email: string)

  /** `expiresIn: '1d'`, in seconds. */
  const TokenLifetime: int := 86400

  /** The secret used when `JWT_SECRET` is unset or empty. */
  const FallbackSecret: string := "fallback-secret"

  /** Cost factor given to `bcrypt.hash`. */
  const SaltRounds: nat := 10

  /** `process.env.JWT_SECRET || 'fallback-secret'`. */
  function SigningSecret(env: Option<string>): (secret: string)
    ensures secret != ""
    ensures env.Some? && env.value != "" ==> secret == env.value
    ensures !(env.Some? && env.value != "") ==> secret == FallbackSecret
  {
    if env.Some? && env.value != "" then env.value else FallbackSecret
  }

  /**
   * `jwt.sign(claims, secret, { expiresIn })` issued at a given second, and
   * `jwt.verify(token, secret)` at a given second (None where it throws).
   */
  datatype Jwt = Jwt(
    sign: (Claims, string, int, int) -> string,
    verify: (string, string, int) -> Option<Claims>)
  {
    /**
     * What the application relies on: a token is a non-empty string without
     * spaces (a compact JWT is three base64url parts joined by dots), and
     * within its lifetime it verifies, under the secret that signed it, to the
     * claims it was signed over; from its expiry second on (`exp = iat + ttl`,
     * refused once the clock reaches `exp`) it no longer verifies.
     */
    ghost predicate Sound()
    {
      && (forall c, secret, iat, ttl :: sign(c, secret, iat, ttl) != "" && ' ' !in sign(c, secret, iat, ttl))
      && (forall c, secret, iat, ttl, now :: iat <= now < iat + ttl ==> verify(sign(c, secret, iat, ttl), secret, now) == Some(c))
      && (forall c, secret, iat, ttl, now :: now >= iat + ttl ==> verify(sign(c, secret, iat, ttl), secret, now) == None)
    }
  }

  /** `bcrypt.hash(password, rounds)` with the salt it draws, and `bcrypt.compare(password, hash)`. */
  datatype Bcrypt = Bcrypt(
    hash: (string, nat, string) -> string,
    compare: (string, string) -> bool)
  {
    /** A password matches its own hash, and a hash is never the password itself. */
    ghost predicate Sound()
    {
      && (forall p, rounds, salt :: compare(p, hash(p, rounds, salt)))
      && (forall p, rounds, salt :: hash(p, rounds, salt) != p)
    }
  }
}
