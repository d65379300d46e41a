/** The session token issued at login, reduced to its claims and expiry.
    Times are in seconds. */
module Tokens {

  /** Validity of an issued token: sixty minutes. */
  const TokenLifetimeMinutes: nat := 60
  const SecondsPerMinute: nat := 60

  /** The two claims a token carries. */
  datatype Claims = Claims(email: string, role: string)

  /** A token is valid from `notBefore`, its issue time, to `expires`. */
  datatype Token = Token(claims: Claims, notBefore: int, expires: int)

  /** A token for `claims`, minted at time `now`. */
  function Issue(claims: Claims, now: int): (t: Token)
    ensures t.claims == claims
    ensures t.notBefore == now
    ensures t.expires - now == TokenLifetimeMinutes * SecondsPerMinute
  {
    Token(claims, now, now + TokenLifetimeMinutes * SecondsPerMinute)
  }

  /** The lifetime check of the bearer middleware, with zero clock skew:
      a token is accepted from its not-before instant up to and including
      its expiry instant. */
  predicate Accepts(t: Token, now: int)
  {
    t.notBefore <= now <= t.expires
  }

  /** A freshly issued token is accepted from its issue time through the
      next sixty minutes, and refused before and after. */
  lemma IssuedTokenLifetime(claims: Claims, issued: int, now: int)
    ensures Accepts(Issue(claims, issued), now)
        <==> issued <= now <= issued + TokenLifetimeMinutes * SecondsPerMinute
  {
  }
}
