/** Refresh-token expiry. The clock is a parameter: `nowMs` is the value
    `Date.now()` would return (whole milliseconds since the epoch), and the
    source turns it into seconds with `Date.now() / 1000`, which is kept here
    as an exact real number. */
module Expiry {

  /** `daysUntilExpire` is the string "10"; multiplying it by numbers coerces it to 10. */
  const DaysUntilExpire: int := 10
  const SecondsUntilExpire: int := DaysUntilExpire * 24 * 60 * 60

  function SecondsSinceEpoch(nowMs: int): (t: real)
    ensures t * 1000.0 == nowMs as real
  {
    nowMs as real / 1000.0
  }

  /** `generateRefreshTokenExpiryTime`: ten days after the clock reading. */
  function RefreshTokenExpiryTime(nowMs: int): (expiresAt: real)
    ensures expiresAt == SecondsSinceEpoch(nowMs) + 864000.0
    ensures expiresAt > SecondsSinceEpoch(nowMs)
  {
    SecondsSinceEpoch(nowMs) + SecondsUntilExpire as real
  }

  /** `hasRefreshTokenExpired`: still valid only while the expiry lies strictly
      after the current time; an expiry equal to the current time has expired. */
  function HasRefreshTokenExpired(expiresAt: real, nowMs: int): (expired: bool)
    ensures !expired <==> expiresAt > SecondsSinceEpoch(nowMs)
    ensures expired <==> expiresAt * 1000.0 <= nowMs as real
  {
    if expiresAt > SecondsSinceEpoch(nowMs) then false else true
  }

  /** Once expired, a session stays expired as the clock moves forward. */
  lemma ExpiryIsPermanent(expiresAt: real, nowMs: int, laterMs: int)
    requires nowMs <= laterMs
    requires HasRefreshTokenExpired(expiresAt, nowMs)
    ensures HasRefreshTokenExpired(expiresAt, laterMs)
  {
  }

  /** A session created at `createdMs` is live exactly for the next
      864000000 milliseconds: at `createdMs` it has not expired, and at
      `createdMs + 864000000` it has. */
  lemma LifetimeIsTenDays(createdMs: int, nowMs: int)
    ensures !HasRefreshTokenExpired(RefreshTokenExpiryTime(createdMs), nowMs)
            <==> nowMs < createdMs + 864000000
  {
  }

  /** A freshly issued expiry has not expired when read against the same clock. */
  lemma FreshExpiryNotExpired(nowMs: int)
    ensures !HasRefreshTokenExpired(RefreshTokenExpiryTime(nowMs), nowMs)
  {
  }
}
