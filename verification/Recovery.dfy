/** The per-minter circuit breaker: health states, the auth-failure window, the rate-limit
    back-off and the half-open claim. `Breaker` and the functions on it say what one atomic
    (lock-holding) section does; the class below performs it. Durations and instants are
    nanoseconds, and instant 0 is Go's zero time. */
module Recovery {
  import opened Common
  import opened ErrorCodes

  const RATE_LIMIT_COOLDOWN := 5 * SECOND
  const MAX_RATE_LIMIT_COOLDOWN := 120 * SECOND
  const MAX_CLOUD_HINT_JITTER := 2 * SECOND
  const PROBE_GRACE := 35 * SECOND
  const PROBE_POLL_INTERVAL := SECOND / 10

  datatype Health = Healthy | TransientFailing | AuthFailing | Missing

  datatype Config = Config(authFailThreshold: int, healthCheckInterval: int)

  datatype Breaker = Breaker(
    state: Health,
    firstAuthErrorAt: Time,
    lastErrorAt: Time,
    lastSuccessAt: Time,
    enteredAuthFailed: Time,
    cooldownUntil: Time,
    consecutiveFailures: nat,
    consecutiveAuthFailures: nat,
    rateLimitStrikes: nat,
    probeUntil: Time)

  const NewBreaker := Breaker(Healthy, 0, 0, 0, 0, 0, 0, 0, 0, 0)

  /** A draw of `jitterFraction`, which lies in [0,1). */
  type Fraction = f: real | 0.0 <= f < 1.0 witness 0.0

  function Min(a: int, b: int): int {
    if a <= b then a else b
  }

  function Pow2(n: nat): (r: nat)
    ensures r >= 1
  {
    if n == 0 then 1 else 2 * Pow2(n - 1)
  }

  lemma {:induction false} Pow2Monotonic(a: nat, b: nat)
    requires a <= b
    ensures Pow2(a) <= Pow2(b)
    decreases b
  {
    if a < b { Pow2Monotonic(a, b - 1); }
  }

  /** The back-off for a strike count, in closed form: doubling from 5s and capped at 2min. */
  function Backoff(strikes: int): (r: nat)
    ensures RATE_LIMIT_COOLDOWN <= r <= MAX_RATE_LIMIT_COOLDOWN
  {
    Min(RATE_LIMIT_COOLDOWN * Pow2(if strikes < 1 then 0 else strikes - 1), MAX_RATE_LIMIT_COOLDOWN)
  }

  lemma BackoffMonotonic(s: int, t: int)
    requires s <= t
    ensures Backoff(s) <= Backoff(t)
  {
    Pow2Monotonic(if s < 1 then 0 else s - 1, if t < 1 then 0 else t - 1);
  }

  /** The ladder in seconds: 5, 10, 20, 40, 80, and 120 from the sixth strike on. */
  lemma BackoffLadder(strikes: int)
    ensures Backoff(1) == 5 * SECOND && Backoff(2) == 10 * SECOND && Backoff(3) == 20 * SECOND
    ensures Backoff(4) == 40 * SECOND && Backoff(5) == 80 * SECOND
    ensures strikes >= 6 ==> Backoff(strikes) == 120 * SECOND
    ensures strikes <= 0 ==> Backoff(strikes) == 5 * SECOND
  {
    assert Pow2(0) == 1 && Pow2(1) == 2 && Pow2(2) == 4;
    assert Pow2(3) == 8 && Pow2(4) == 16 && Pow2(5) == 32;
    if strikes >= 6 { Pow2Monotonic(5, strikes - 1); }
  }

  lemma ScaledFraction(f: real, x: real)
    requires 0.0 <= f < 1.0 && 0.0 <= x
    ensures 0.0 <= f * x <= x && (x > 0.0 ==> f * x < x)
  {
    if x > 0.0 {
      assert (1.0 - f) * x > 0.0;
      assert f * x == x - (1.0 - f) * x;
    }
  }

  /** `time.Duration(fraction * float64(bound))`. */
  function Jitter(f: Fraction, bound: nat): (r: nat)
    ensures r <= bound && (bound > 0 ==> r < bound)
  {
    ScaledFraction(f, bound as real);
    var scaled := f * bound as real;
    assert scaled.Floor as real <= scaled;
    assert bound > 0 ==> scaled.Floor as real < bound as real;
    scaled.Floor
  }

  /** The next cooldown window. */
  function CooldownFor(strikes: int, hint: int, f: Fraction): (wait: nat)
    ensures hint > 0 ==> hint <= wait <= hint + Min(hint, MAX_CLOUD_HINT_JITTER)
    ensures hint <= 0 ==> Backoff(strikes) / 2 <= wait <= Backoff(strikes)
  {
    if hint > 0 then hint + Jitter(f, Min(hint, MAX_CLOUD_HINT_JITTER))
    else Backoff(strikes) / 2 + Jitter(f, Backoff(strikes) / 2)
  }

  /** The wait to the nanosecond: the hint or half the back-off, and the drawn fraction of what may be
      added, rounded down. */
  lemma WaitIsExact(strikes: int, hint: int, f: Fraction)
    ensures var fixed := if hint > 0 then hint else Backoff(strikes) / 2;
            var most := if hint <= 0 then Backoff(strikes) / 2 else if hint < 2 * SECOND then hint else 2 * SECOND;
            var added := CooldownFor(strikes, hint, f) - fixed;
            added as real <= f * most as real < added as real + 1.0
  {}

  predicate IsAuthError(status: int) {
    status == 401 || status == 403
  }

  predicate Serviceable(b: Breaker) {
    b.state == Healthy || b.state == TransientFailing
  }

  function AfterSuccess(b: Breaker, at: Time): Breaker {
    b.(consecutiveFailures := 0, consecutiveAuthFailures := 0, lastSuccessAt := at,
       firstAuthErrorAt := 0, cooldownUntil := 0, rateLimitStrikes := 0, probeUntil := 0,
       state := Healthy)
  }

  /** The first locked section of a recorded 429. */
  function AfterRateLimit(b: Breaker, hint: int, f: Fraction, at: Time): Breaker {
    b.(rateLimitStrikes := b.rateLimitStrikes + 1,
       cooldownUntil := at + CooldownFor(b.rateLimitStrikes + 1, hint, f),
       probeUntil := 0)
  }

  /** The health transition of a counted failure. */
  function AfterFailure(b: Breaker, auth: bool, at: Time, threshold: int): Breaker {
    match b.state
    case Healthy =>
      b.(state := TransientFailing, firstAuthErrorAt := if auth then at else b.firstAuthErrorAt)
    case TransientFailing =>
      if !auth then b.(firstAuthErrorAt := 0)
      else
        var first := if b.firstAuthErrorAt == 0 then at else b.firstAuthErrorAt;
        if at - first >= threshold
        then b.(firstAuthErrorAt := first, state := AuthFailing, enteredAuthFailed := at)
        else b.(firstAuthErrorAt := first)
    case AuthFailing => b
    case Missing => b
  }

  function AfterError(b: Breaker, status: int, at: Time, threshold: int, f: Fraction): Breaker {
    var counted := b.(
      consecutiveFailures := b.consecutiveFailures + 1,
      consecutiveAuthFailures := b.consecutiveAuthFailures + (if IsAuthError(status) then 1 else 0),
      lastErrorAt := at,
      cooldownUntil := if status == 429 then at + CooldownFor(1, 0, f) else b.cooldownUntil);
    AfterFailure(counted, IsAuthError(status), at, threshold)
  }

  /** A classified outcome, recorded by a caller nobody comes between. */
  function AfterRecord(b: Breaker, status: int, err: Failure, retryAfter: int, at: Time, threshold: int, f: Fraction)
    : Breaker
  {
    var code := Classify(status, err);
    if !IndictsMinter(code) then b.(probeUntil := 0)
    else if code == UpstreamQuotaExceeded then AfterError(AfterRateLimit(b, retryAfter, f, at), 503, at, threshold, f)
    else AfterError(b, HealthStatus(code), at, threshold, f)
  }

  predicate Grants(b: Breaker, now: Time) {
    && Serviceable(b)
    && now >= b.cooldownUntil
    && (b.rateLimitStrikes == 0 || now >= b.probeUntil)
  }

  function AfterAcquire(b: Breaker, now: Time): Breaker {
    if Grants(b, now) && b.rateLimitStrikes > 0 then b.(probeUntil := now + PROBE_GRACE) else b
  }

  function RetryIn(b: Breaker, now: Time): nat {
    if !Serviceable(b) then 0
    else if now < b.cooldownUntil then b.cooldownUntil - now
    else if b.rateLimitStrikes > 0 && now < b.probeUntil then PROBE_POLL_INTERVAL
    else 0
  }

  /** Go's `cooldownFor`, with its doubling loop, computes the closed form. */
  method ComputeCooldown(strikes: int, hint: int, f: Fraction) returns (wait: nat)
    ensures wait == CooldownFor(strikes, hint, f)
  {
    if hint > 0 {
      var bound := Min(hint, MAX_CLOUD_HINT_JITTER);
      return hint + Jitter(f, bound);
    }
    var n := if strikes < 1 then 1 else strikes;
    var backoff: nat := RATE_LIMIT_COOLDOWN;
    var i := 1;
    while i < n && backoff < MAX_RATE_LIMIT_COOLDOWN
      invariant 1 <= i <= n
      invariant backoff == RATE_LIMIT_COOLDOWN * Pow2(i - 1)
    {
      backoff := backoff * 2;
      i := i + 1;
    }
    Pow2Monotonic(i - 1, n - 1);
    backoff := Min(backoff, MAX_RATE_LIMIT_COOLDOWN);
    var half := backoff / 2;
    wait := half + Jitter(f, half);
  }

  class StateMachine {
    var state: Health
    const config: Config
    var firstAuthErrorAt: Time
    var lastErrorAt: Time
    var lastSuccessAt: Time
    var enteredAuthFailed: Time
    var cooldownUntil: Time
    var consecutiveFailures: nat
    var consecutiveAuthFailures: nat
    var rateLimitStrikes: nat
    var probeUntil: Time

    function View(): Breaker
      reads this
    {
      Breaker(state, firstAuthErrorAt, lastErrorAt, lastSuccessAt, enteredAuthFailed,
              cooldownUntil, consecutiveFailures, consecutiveAuthFailures, rateLimitStrikes,
              probeUntil)
    }

    constructor (cfg: Config)
      ensures View() == NewBreaker && config == cfg
    {
      state, config := Healthy, cfg;
      firstAuthErrorAt, lastErrorAt, lastSuccessAt, enteredAuthFailed := 0, 0, 0, 0;
      cooldownUntil, probeUntil := 0, 0;
      consecutiveFailures, consecutiveAuthFailures, rateLimitStrikes := 0, 0, 0;
    }

    method RecordSuccess(at: Time)
      modifies this
      ensures View() == AfterSuccess(old(View()), at)
      ensures state == Healthy && lastSuccessAt == at && firstAuthErrorAt == 0
      ensures consecutiveFailures == consecutiveAuthFailures == rateLimitStrikes == 0
      ensures cooldownUntil == probeUntil == 0
    {
      consecutiveFailures := 0;
      consecutiveAuthFailures := 0;
      lastSuccessAt := at;
      firstAuthErrorAt := 0;
      cooldownUntil := 0;
      rateLimitStrikes := 0;
      probeUntil := 0;
      state := Healthy;
    }

    /** An outcome that does not indict the minter only releases the half-open claim. */
    method Record(status: int, err: Failure, retryAfter: int, at: Time, f: Fraction)
      modifies this
      ensures View() == AfterRecord(old(View()), status, err, retryAfter, at, config.authFailThreshold, f)
      ensures !IndictsMinter(Classify(status, err)) ==> View() == old(View()).(probeUntil := 0)
      ensures Classify(status, err) == UpstreamQuotaExceeded ==>
                && rateLimitStrikes == old(rateLimitStrikes) + 1 && probeUntil == 0
                && cooldownUntil == at + CooldownFor(rateLimitStrikes, retryAfter, f)
                && consecutiveFailures == old(consecutiveFailures) + 1
                && consecutiveAuthFailures == old(consecutiveAuthFailures)
    {
      var code := Classify(status, err);
      if !IndictsMinter(code) {
        ReleaseProbe();
        return;
      }
      if code == UpstreamQuotaExceeded {
        RecordRateLimited(retryAfter, at, f);
        RecordError(503, at, f);
        return;
      }
      RecordError(HealthStatus(code), at, f);
    }

    /** The first of the two locked sections of `recordRateLimited`; the caller then records a
        503 in a second one, and other callers may run in between. */
    method RecordRateLimited(retryAfter: int, at: Time, f: Fraction)
      modifies this
      ensures View() == AfterRateLimit(old(View()), retryAfter, f, at)
    {
      rateLimitStrikes := rateLimitStrikes + 1;
      var wait := ComputeCooldown(rateLimitStrikes, retryAfter, f);
      cooldownUntil := at + wait;
      probeUntil := 0;
    }

    method RecordError(status: int, at: Time, f: Fraction)
      modifies this
      ensures View() == AfterError(old(View()), status, at, config.authFailThreshold, f)
    {
      consecutiveFailures := consecutiveFailures + 1;
      if IsAuthError(status) {
        consecutiveAuthFailures := consecutiveAuthFailures + 1;
      }
      lastErrorAt := at;
      if status == 429 {
        var wait := ComputeCooldown(1, 0, f);
        cooldownUntil := at + wait;
      }
      match state {
        case Healthy =>
          state := TransientFailing;
          if IsAuthError(status) { firstAuthErrorAt := at; }
        case TransientFailing =>
          if IsAuthError(status) {
            if firstAuthErrorAt == 0 { firstAuthErrorAt := at; }
            if at - firstAuthErrorAt >= config.authFailThreshold {
              state := AuthFailing;
              enteredAuthFailed := at;
            }
          } else {
            firstAuthErrorAt := 0;
          }
        case AuthFailing =>
        case Missing =>
      }
    }

    method RecordMissing()
      modifies this
      ensures View() == old(View()).(state := Missing)
    {
      state := Missing;
    }

    method ReleaseProbe()
      modifies this
      ensures View() == old(View()).(probeUntil := 0)
    {
      probeUntil := 0;
    }

    method TryAcquire(now: Time) returns (granted: bool)
      modifies this
      ensures granted == Grants(old(View()), now)
      ensures granted <==>
                && old(state) in {Healthy, TransientFailing} && now >= old(cooldownUntil)
                && (old(rateLimitStrikes) == 0 || now >= old(probeUntil))
      ensures View() == AfterAcquire(old(View()), now)
    {
      if !(state == Healthy || state == TransientFailing) { return false; }
      if now < cooldownUntil { return false; }
      if rateLimitStrikes == 0 { return true; }
      if now < probeUntil { return false; }
      probeUntil := now + PROBE_GRACE;
      return true;
    }
  }
}
