/**
 * The two expiries of a refresh token: whole seconds in the signed token, milliseconds
 * in its row (apps/api/lib/jwt.ts). The clock is in microseconds.
 */
module JwtExpiry {
  const REFRESH_TTL_SECONDS: int := 7 * 24 * 60 * 60

  function Seconds(us: int): int { us / 1_000_000 }

  function Millis(us: int): int { us / 1_000 }

  /** The `exp` claim (section 4.1.4 of RFC 7519) of a token signed at `us`. */
  function ExpClaim(us: int): int { Seconds(us) + REFRESH_TTL_SECONDS }

  /** The row expiry, in microseconds, computed from a clock reading at `us`. */
  function RowExpiry(us: int): int { (Millis(us) + REFRESH_TTL_SECONDS * 1000) * 1000 }

  /** The signature check reads the clock in whole seconds. */
  predicate Accepts(exp: int, us: int) { Seconds(us) < exp }

  /** No row expires before its token does, and none outlives it by a second plus the signing time. */
  lemma RowOutlivesToken(signedAt: int, readAt: int)
    requires signedAt <= readAt
    ensures forall now :: Accepts(ExpClaim(signedAt), now) ==> now < RowExpiry(readAt)
    ensures ExpClaim(signedAt) * 1_000_000 <= RowExpiry(readAt)
                                           < (ExpClaim(signedAt) + 1) * 1_000_000 + (readAt - signedAt)
  {
    SecondsAndMillis(signedAt);
    SecondsAndMillis(readAt);
    forall now | Accepts(ExpClaim(signedAt), now) ensures now < RowExpiry(readAt) { SecondsAndMillis(now); }
  }

  lemma SecondsAndMillis(us: int)
    ensures Seconds(us) * 1_000_000 <= us < (Seconds(us) + 1) * 1_000_000
    ensures Seconds(us) * 1_000_000 <= Millis(us) * 1_000 <= us < (Millis(us) + 1) * 1_000
  {}

  /** A token is accepted for seven days of whole seconds from the second it was signed in. */
  lemma AcceptedForSevenDays(signedAt: int, now: int)
    ensures Accepts(ExpClaim(signedAt), now) <==> now / 1_000_000 - signedAt / 1_000_000 < 604_800
    ensures now >= signedAt + 604_800_000_000 ==> !Accepts(ExpClaim(signedAt), now)
    ensures now <= signedAt + 604_799_000_000 ==> Accepts(ExpClaim(signedAt), now)
  {}
}
