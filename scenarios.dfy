/** Clients of the limiter object that use only the contracts of its constructor and `IsAllowed`. */
module RateLimitScenarios {
  import opened RateLimit

  /**
   * A limiter of two attempts per second, key "A": two allowed at t=0, a refusal at t=500,
   * and at t=1001 a new window ending at 2001.
   */
  method TwoPerSecond() returns (r1: RateLimitResult, r2: RateLimitResult, r3: RateLimitResult, r4: RateLimitResult)
    ensures r1 == RateLimitResult(true, 1, 1000)
    ensures r2 == RateLimitResult(true, 0, 1000)
    ensures r3 == RateLimitResult(false, 0, 1000)
    ensures r4 == RateLimitResult(true, 1, 2001)
  {
    var limiter := new RateLimiter(2, 1000);
    r1 := limiter.IsAllowed(ExplicitKey("A"), 0);
    r2 := limiter.IsAllowed(ExplicitKey("A"), 0);
    r3 := limiter.IsAllowed(ExplicitKey("A"), 500);
    r4 := limiter.IsAllowed(ExplicitKey("A"), 1001);
  }

  /**
   * A limiter built with the defaults (5 attempts per 15 minutes): the five checks of key "a"
   * at one time are allowed with 4, 3, 2, 1 and 0 remaining and a window ending 900000 ms
   * later, the sixth is refused, and key "b", checked after "a" is exhausted, starts afresh.
   */
  method DefaultLimits(now: int)
    returns (r1: RateLimitResult, r2: RateLimitResult, r3: RateLimitResult, r4: RateLimitResult,
             r5: RateLimitResult, sixth: RateLimitResult, other: RateLimitResult)
    ensures r1 == RateLimitResult(true, 4, now + 900000)
    ensures r2 == RateLimitResult(true, 3, now + 900000)
    ensures r3 == RateLimitResult(true, 2, now + 900000)
    ensures r4 == RateLimitResult(true, 1, now + 900000)
    ensures r5 == RateLimitResult(true, 0, now + 900000)
    ensures sixth == RateLimitResult(false, 0, now + 900000)
    ensures other == RateLimitResult(true, 4, now + 900000)
  {
    var limiter := new RateLimiter();
    r1 := limiter.IsAllowed(ExplicitKey("a"), now);
    r2 := limiter.IsAllowed(ExplicitKey("a"), now);
    r3 := limiter.IsAllowed(ExplicitKey("a"), now);
    r4 := limiter.IsAllowed(ExplicitKey("a"), now);
    r5 := limiter.IsAllowed(ExplicitKey("a"), now);
    sixth := limiter.IsAllowed(ExplicitKey("a"), now);
    other := limiter.IsAllowed(ExplicitKey("b"), now);
  }
}
