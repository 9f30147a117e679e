# Fixed-window rate limiter, modelled in Dafny

This project models the request rate limiter of a website front end (`lib/rate-limit.ts`,
class `RateLimiter`). The limiter keeps a map from a key to a record `{count, resetTime}`.
Each check of a key does one of three things:

- it opens a new window (count 1, ending `windowMs` after now) when the key has no record or
  the record's `resetTime` has passed;
- it refuses the attempt when the current window's count has reached `maxAttempts`;
- otherwise it counts one more attempt.

It reports `{allowed, remaining, resetTime}` (the `RateLimitResult` shape, lines 1-5). The key
is either given outright, or derived from a request's headers. For a request, the key is the
first non-empty value of these, in order:

1. the first hop of `x-forwarded-for`, trimmed;
2. `x-real-ip`;
3. `x-client-ip`;
4. `cf-connecting-ip`;
5. otherwise the shared key `"unknown"`.

Files:

- `wrappers.dfy`: `Option`, the result of a header lookup.
- `js_text.dfy`: the JavaScript string operations the key derivation uses. These are
  `split(',')[0]` and `String.prototype.trim`, with ECMAScript's WhiteSpace and
  LineTerminator code points written out.
- `rate_limit.dfy`: the data model (`RateLimitResult`, `Record`, `Identifier`, `Headers`),
  the key derivation `GetKey`, and the transition function `Decide`. It also holds the class
  `RateLimiter`, whose `attempts` map field is updated by the method `IsAllowed`. `IsAllowed`
  is specified by `Decide` on the old map.
- `rate_limit_properties.dfy`: lemmas about one check, about runs of checks (`Replay`), and
  about key derivation.
- `scenarios.dfy`: clients that build a `RateLimiter` and rely only on its contracts.

The clock `Date.now()` (line 20) is a parameter: `IsAllowed(identifier, now)` takes the time
in epoch milliseconds. The header object's `get` is a total function from header name to
`Option<string>`. `None` stands for JavaScript's `null`.

With `maxAttempts < 1`, the first check of every window is still allowed and reports
`remaining = maxAttempts - 1`, which is negative; so `remaining >= 0` holds only for caps of
at least one. For this reason the record invariant `WellFormed` bounds the count by
`CountBound(maxAttempts)`, which is `max(1, maxAttempts)`, and the bounds on `remaining` assume
`maxAttempts >= 1`.

## Model

| member | source | states |
|---|---|---|
| `RateLimit.RateLimiter.constructor` | lib/rate-limit.ts:12-15 | the limiter keeps the given cap and window (defaults 5 and 900000 ms) and starts with no records, which satisfies the record invariant |
| `RateLimit.RateLimiter.IsAllowed` | lib/rate-limit.ts:17-36 | the new record map and the result are those of `Decide` on the old map, the derived key and `now`; the record invariant is preserved; with a cap of at least one and a valid object, `remaining` lies in `0..maxAttempts - 1` |
| `RateLimit.Decide` | lib/rate-limit.ts:21-35 | the key always has a record afterwards and the reported reset time is that record's; `remaining` is the cap minus the new count when allowed, else 0; refused exactly when the window is current and its count has reached the cap; a refusal changes nothing; a current window keeps its reset time; no other key's record appears, disappears or changes |
| `RateLimit.GetKey` | lib/rate-limit.ts:38-56 | an explicit key is returned as is; a request's key is the first non-empty candidate (forwarded first hop, `x-real-ip`, `x-client-ip`, `cf-connecting-ip`), else "unknown"; a request's key is never empty |
| `RateLimit.FirstNonEmptyIndex` | lib/rate-limit.ts:49-53 | the index returned is the first non-empty one: every earlier string is empty, and it is `|cs|` only when all are empty |
| `RateLimit.FirstNonEmptyChain` | lib/rate-limit.ts:49-53 | taking the first non-empty string equals the `||` chain: the head if non-empty, else the first of the rest |
| `JsText.BeforeFirstComma` | lib/rate-limit.ts:49 | `split(',')[0]` is the longest comma-free prefix: a prefix, holding no comma, followed by a comma unless it is the whole string |
| `JsText.BeforeFirstCommaAt` | lib/rate-limit.ts:49 | when the first comma is at position n, `split(',')[0]` is the first n characters |
| `JsText.TrimStart` | lib/rate-limit.ts:49 | the suffix left after dropping every leading white-space character, beginning with a non-white character or empty |
| `JsText.TrimEnd` | lib/rate-limit.ts:49 | the prefix left after dropping every trailing white-space character, ending with a non-white character or empty |
| `JsText.Trim` | lib/rate-limit.ts:49 | `trim()` yields a slice `s[i..j]` with only white space outside it, and the slice neither starts nor ends with white space |
| `JsText.TrimOfTrimmed` | lib/rate-limit.ts:49 | a string with no white space at either end is unchanged by `trim()` |
| `JsText.TrimIdempotent` | lib/rate-limit.ts:49 | trimming twice is trimming once |
| `JsText.TrimEmpty` | lib/rate-limit.ts:49 | `trim()` gives "" exactly when the string is all white space (so such a first hop falls through) |
| `RateLimitProperties.NewWindowOpened` | lib/rate-limit.ts:23-27 | with no record or an expired one, the key's record becomes `{1, now + windowMs}` and the result is allowed with `maxAttempts - 1` remaining and reset time `now + windowMs` |
| `RateLimitProperties.ExpiryIsStrict` | lib/rate-limit.ts:23 | at `now == resetTime` the window is not replaced: reset time kept, count raised by one if allowed and unchanged if refused |
| `RateLimitProperties.DeniedAtCap` | lib/rate-limit.ts:30-31 | in a current window at or over the cap: refused, 0 remaining, the record's reset time, and the map unchanged |
| `RateLimitProperties.CountedInWindow` | lib/rate-limit.ts:34-35 | in a current window below the cap: the count rises by exactly one, the reset time is kept, and `remaining` is the cap minus the new count |
| `RateLimitProperties.ExpiredActsAsFresh` | lib/rate-limit.ts:23-27 | once its window has passed, a key is handled exactly as if it had no record |
| `RateLimitProperties.DecideKeepsWellFormed` | lib/rate-limit.ts:23-35 | every check keeps each stored count between 1 and `max(1, maxAttempts)` |
| `RateLimitProperties.CountAtMostCap` | lib/rate-limit.ts:26-34 | with a cap of at least one, a stored count lies in `1..maxAttempts` |
| `RateLimitProperties.RemainingBounds` | lib/rate-limit.ts:27-35 | with a cap of at least one and well-formed records, `remaining` lies in `0..maxAttempts - 1` |
| `RateLimitProperties.Replay` | lib/rate-limit.ts:17-36 | a run of checks performed in order yields one result per check |
| `RateLimitProperties.WithinWindow` | lib/rate-limit.ts:30-35 | in a current window, checks that never pass its reset time are allowed with `remaining` counting down until the cap, then refused, all with the same reset time; the count ends at `min(c + n, maxAttempts)` |
| `RateLimitProperties.FreshKeyRun` | lib/rate-limit.ts:23-35 | from a fresh or expired key, checks within the opened window report `remaining` of `maxAttempts - 1, ..., 0` then refusals, all with reset time `times[0] + windowMs` |
| `RateLimitProperties.OtherKeysUntouched` | lib/rate-limit.ts:21-34 | any run of checks of other keys leaves a key's record, and its existence, as it was |
| `RateLimitProperties.KeysIndependent` | lib/rate-limit.ts:21-35 | after checks of other keys, a check of a key reports the same result and stores the same record as it would have before them |
| `RateLimitProperties.TwoPerSecondRun` | lib/rate-limit.ts:23-35 | cap 2 and window 1000: at t=0 two allowed (1, then 0 left), at t=500 refused, at t=1001 allowed with a new reset time of 2001 |
| `RateLimitProperties.KeyPrecedence` | lib/rate-limit.ts:49-53 | a non-empty candidate whose predecessors are all empty is the key |
| `RateLimitProperties.KeyIsCandidateOrUnknown` | lib/rate-limit.ts:49-53 | a request's key is a non-empty candidate, or "unknown" with every candidate empty; all candidates empty gives "unknown" |
| `RateLimitProperties.NullAndEmptyAlike` | lib/rate-limit.ts:49-52 | replacing an absent header by an empty one never changes the key |
| `RateLimitProperties.BlankFirstHopFallsThrough` | lib/rate-limit.ts:49-50 | an `x-forwarded-for` whose first hop is all white space falls through to the remaining candidates |
| `RateLimitProperties.FirstHopOfChain` | lib/rate-limit.ts:49 | the trimmed first hop of "1.2.3.4, 5.6.7.8" is "1.2.3.4" |
| `RateLimitProperties.ForwardedFirstHop` | lib/rate-limit.ts:44-49 | with `x-forwarded-for: 1.2.3.4, 5.6.7.8`, the key is "1.2.3.4" whatever the other headers hold |
| `RateLimitProperties.OnlyCfConnectingIp` | lib/rate-limit.ts:44-53 | with only `cf-connecting-ip: 9.9.9.9` set, the key is "9.9.9.9" |
| `RateLimitProperties.NoClientHeaders` | lib/rate-limit.ts:44-53 | with none of the four headers set, the key is "unknown" |
| `RateLimitScenarios.TwoPerSecond` | lib/rate-limit.ts:17-36 | the same four checks made on a `RateLimiter` object give the same four results, derived from the method's contract alone |
| `RateLimitScenarios.DefaultLimits` | lib/rate-limit.ts:12-36 | a default limiter allows the first five checks of a key in one window with 4, 3, 2, 1, 0 remaining and the reset time `now + 900000`, refuses the sixth, and still starts a second key afresh |

## Left out

- `lib/brand.ts`: it copies fields of a JSON file and reads an environment variable; there is no logic in it.
- Dafny's `string` holds Unicode scalar values, while JavaScript strings hold UTF-16 code units, which can include lone surrogates. This does not change any result here: the comma and every character `trim` strips lie in the Basic Multilingual Plane and none is a surrogate.
- The wall clock `Date.now()` (line 20): it is the parameter `now` of `IsAllowed` and `Decide`. Nothing is assumed about clock monotonicity, because the source assumes none.
- The module-level singleton `apiRateLimiter` (line 59): the model builds limiters explicitly with the constructor.
- Case-insensitive header lookup: the caller's `headers.get` provides it, and the model takes the lookup as a given total function.
- JavaScript `number` semantics: counts, times and the window length are unbounded integers, so there is no floating-point rounding and no loss of precision beyond 2^53.
- The in-place `record.count++` (line 34) mutates the record object held in the map. The model stores records as values and writes the updated record back into the map field. Records never leave the class, so no alias can observe the difference.
- `getKey` is a private method of the class in the source. It reads no state, so the model makes it the module-level function `GetKey`.
- Concurrency, memory growth and eviction: the source has no locking and no eviction, so there is nothing of either to model.
