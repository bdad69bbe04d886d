/** The clock arithmetic of token refresh: saturating seconds, rounding, and the lease constants. */
module Timing {
  import opened Prelude

  const U64_MAX: nat := 0xFFFF_FFFF_FFFF_FFFF

  type U64 = n: nat | n <= U64_MAX

  // Durations are in milliseconds, expiries and token lifetimes in whole seconds.
  const OIDC_REQUEST_TIMEOUT := 15_000
  const REFRESH_OWNER_OPERATION_MARGIN := 10_000
  const REFRESH_OWNER_OPERATION_TIMEOUT := OIDC_REQUEST_TIMEOUT + REFRESH_OWNER_OPERATION_MARGIN
  const REFRESH_LOCK_MARGIN := 10_000
  const REFRESH_LOCK_LEASE := REFRESH_OWNER_OPERATION_TIMEOUT + REFRESH_LOCK_MARGIN
  const REFRESH_WAIT_MARGIN := 5_000
  const REFRESH_WAIT_TIMEOUT := REFRESH_LOCK_LEASE + REFRESH_WAIT_MARGIN
  const REFRESH_WAIT_INITIAL_DELAY := 25
  const REFRESH_WAIT_MAX_DELAY := 500
  const ACCESS_TOKEN_REFRESH_SKEW_SECONDS := 30

  function SaturatingAdd(a: nat, b: nat): U64 {
    if a + b <= U64_MAX then a + b else U64_MAX
  }

  function SufficientlyValid(expiresAt: Option<U64>, now: U64): bool {
    match expiresAt
    case None => true
    case Some(e) => e > SaturatingAdd(now, ACCESS_TOKEN_REFRESH_SKEW_SECONDS)
  }

  function RefreshedExpiry(now: U64, expiresIn: Option<U64>): Option<U64> {
    if expiresIn.Some? && now + expiresIn.value <= U64_MAX then Some(now + expiresIn.value) else None
  }

  function EffectiveNowFromElapsed(baseNow: U64, elapsed: nat): U64 {
    SaturatingAdd(baseNow, elapsed / 1000)
  }

  function OwnerDeadline(attemptAt: nat): nat {
    attemptAt + REFRESH_OWNER_OPERATION_TIMEOUT
  }

  /**
   * How one call keeps time. `entry` is the wall clock, in milliseconds, when the base second was read and
   * `gap` the time until the monotonic origin was taken.
   */
  datatype Stopwatch = Stopwatch(entry: nat, gap: nat) {
    ghost predicate Valid() {
      entry / 1000 <= U64_MAX
    }

    ghost function EffectiveAt(wall: nat): U64
      requires Valid() && entry + gap <= wall
    {
      EffectiveNowFromElapsed(entry / 1000, wall - (entry + gap))
    }
  }

  /** The effective clock never runs ahead, and unless saturated lags by under two seconds plus the gap. */
  lemma EffectiveNowBounds(c: Stopwatch, wall: nat)
    requires c.Valid() && c.entry + c.gap <= wall
    ensures 1000 * c.EffectiveAt(wall) <= wall
    ensures c.EffectiveAt(wall) < U64_MAX ==> wall <= 1000 * c.EffectiveAt(wall) + 1998 + c.gap
  {
  }

  lemma EffectiveNowMonotone(c: Stopwatch, earlier: nat, later: nat)
    requires c.Valid() && c.entry + c.gap <= earlier <= later
    ensures c.EffectiveAt(earlier) <= c.EffectiveAt(later)
  {
  }

  /** Saturation never makes a token look valid: the test is the unbounded comparison. */
  lemma SufficientlyValidExact(expiresAt: U64, now: U64)
    ensures SufficientlyValid(Some(expiresAt), now) <==> now + 30 < expiresAt
  {
  }

  /**
   * When a refreshed token is judged valid: it carries no lifetime, or its lifetime overflows and the hint
   * is dropped, or more than the skew is left by the effective clock.
   */
  lemma RefreshedValidExact(responseNow: U64, expiresIn: Option<U64>, later: U64)
    ensures SufficientlyValid(RefreshedExpiry(responseNow, expiresIn), later) <==>
            || expiresIn.None?
            || responseNow + expiresIn.value > U64_MAX
            || later + 30 < responseNow + expiresIn.value
  {
  }

  /** So a dropped hint makes the token valid for ever, whatever lifetime the issuer gave it. */
  lemma OverflowNeverExpires(later: U64)
    ensures SufficientlyValid(RefreshedExpiry(1, Some(U64_MAX)), later)
  {
  }

  /**
   * End to end: a token whose stored expiry came from a refresh, answered within the request timeout, and
   * which any call later judges sufficiently valid, has at least 14.002 s of the issuer's lifetime left,
   * less the judging call's gap.
   */
  lemma RemainingLifetime(
      refresher: Stopwatch, sent: nat, issued: nat, received: nat, expiresIn: U64, reader: Stopwatch, judged: nat)
    requires refresher.Valid() && refresher.entry + refresher.gap <= received
    requires sent <= issued <= received <= sent + OIDC_REQUEST_TIMEOUT
    requires reader.Valid() && reader.entry + reader.gap <= judged
    requires RefreshedExpiry(refresher.EffectiveAt(received), Some(expiresIn)).Some?
    requires SufficientlyValid(
               RefreshedExpiry(refresher.EffectiveAt(received), Some(expiresIn)), reader.EffectiveAt(judged))
    ensures issued + 1000 * expiresIn + reader.gap >= judged + 14_002
  {
    EffectiveNowBounds(refresher, received);
    EffectiveNowBounds(reader, judged);
    SufficientlyValidExact(refresher.EffectiveAt(received) + expiresIn, reader.EffectiveAt(judged));
  }

  /** The bound is reached: a refresh answered after exactly 15 s, judged by a call whose clock lags by 1.998 s. */
  lemma RemainingLifetimeTight(refresher: Stopwatch, reader: Stopwatch)
    requires refresher == Stopwatch(0, 0) && reader == Stopwatch(20_999, 0)
    ensures RefreshedExpiry(refresher.EffectiveAt(15_000), Some(36)).Some?
    ensures SufficientlyValid(
              RefreshedExpiry(refresher.EffectiveAt(15_000), Some(36)), reader.EffectiveAt(21_998))
    ensures 0 + 1000 * 36 == 21_998 + 14_002
  {
    assert refresher.EffectiveAt(15_000) == 15 && reader.EffectiveAt(21_998) == 20;
  }
}
