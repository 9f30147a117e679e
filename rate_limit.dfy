/**
 * The fixed-window, in-memory rate limiter: per key it counts the attempts made in the
 * current window and refuses any attempt beyond `maxAttempts` until the window has passed.
 * The clock is an input: every check is told the current time `now` in epoch milliseconds.
 */
module RateLimit {
  import opened Wrappers
  import opened JsText

  /** The limits used when the limiter is built without arguments: 5 attempts per 15 minutes. */
  const DefaultMaxAttempts: int := 5
  const DefaultWindowMs: int := 15 * 60 * 1000

  /** What a check reports: whether the attempt may proceed, how many remain and when the window ends. */
  datatype RateLimitResult = RateLimitResult(allowed: bool, remaining: int, resetTime: int)

  /** The state kept per key: attempts counted in the current window and the time the window ends. */
  datatype Record = Record(count: int, resetTime: int)

  /** A header lookup, as the request object provides it: a header's value, or None when it is not set. */
  type Headers = string -> Option<string>

  /** What a caller identifies itself by: a key given outright, or a request whose headers name the client. */
  datatype Identifier = ExplicitKey(key: string) | Request(headers: Headers)

  const XForwardedFor: string := "x-forwarded-for"
  const XRealIp: string := "x-real-ip"
  const XClientIp: string := "x-client-ip"
  const CfConnectingIp: string := "cf-connecting-ip"

  /** The shared bucket for requests that carry none of the client headers. */
  const Unknown: string := "unknown"

  /** A header's value as a JavaScript truth test sees it: absent and empty are both "" (false). */
  function HeaderText(h: Headers, name: string): string
  {
    match h(name)
    case None => ""
    case Some(v) => v
  }

  /** The first hop of `x-forwarded-for`: its text before the first comma, trimmed. */
  function ForwardedClient(h: Headers): string
  {
    match h(XForwardedFor)
    case None => ""
    case Some(v) => Trim(BeforeFirstComma(v))
  }

  /** The candidate keys of a request, in the order the fallback chain tries them. */
  function Candidates(h: Headers): (cs: seq<string>)
    ensures |cs| == 4
  {
    [ForwardedClient(h), HeaderText(h, XRealIp), HeaderText(h, XClientIp), HeaderText(h, CfConnectingIp)]
  }

  /** The position of the first non-empty string in `cs`, or `|cs|` when every one is empty. */
  function FirstNonEmptyIndex(cs: seq<string>): (i: nat)
    ensures i <= |cs|
    ensures forall j :: 0 <= j < i ==> cs[j] == ""
    ensures i < |cs| ==> cs[i] != ""
  {
    if cs == [] || cs[0] != "" then 0 else 1 + FirstNonEmptyIndex(cs[1..])
  }

  /** JavaScript's `a || b` on strings: `a` unless it is empty, otherwise `b`. */
  function Or(a: string, b: string): string
  {
    if a != "" then a else b
  }

  /** The first non-empty string of `cs`, or `default` when there is none. */
  function FirstNonEmpty(cs: seq<string>, default: string): string
  {
    var i := FirstNonEmptyIndex(cs);
    if i < |cs| then cs[i] else default
  }

  /** Taking the first non-empty string is a chain of `||`: the head, or else the first of the rest. */
  lemma FirstNonEmptyChain(cs: seq<string>, default: string)
    requires cs != []
    ensures FirstNonEmpty(cs, default) == Or(cs[0], FirstNonEmpty(cs[1..], default))
  {
    if cs[0] == "" {
      assert FirstNonEmptyIndex(cs) == 1 + FirstNonEmptyIndex(cs[1..]);
    }
  }

  /**
   * The key a check is counted under. An explicit key is used as is; for a request, the
   * first non-empty candidate in the order `x-forwarded-for` (first hop, trimmed),
   * `x-real-ip`, `x-client-ip`, `cf-connecting-ip`, and otherwise the shared "unknown" key.
   */
  function GetKey(identifier: Identifier): (key: string)
    ensures identifier.ExplicitKey? ==> key == identifier.key
    ensures identifier.Request? ==> key == FirstNonEmpty(Candidates(identifier.headers), Unknown)
    ensures identifier.Request? ==> key != ""
  {
    match identifier
    case ExplicitKey(k) => k
    case Request(h) =>
      var cs := Candidates(h);
      FirstNonEmptyChain(cs, Unknown);
      FirstNonEmptyChain(cs[1..], Unknown);
      FirstNonEmptyChain(cs[2..], Unknown);
      FirstNonEmptyChain(cs[3..], Unknown);
      assert cs[4..] == [];
      Or(ForwardedClient(h), Or(HeaderText(h, XRealIp), Or(HeaderText(h, XClientIp), Or(HeaderText(h, CfConnectingIp), Unknown))))
  }

  /** The new state of the record map together with the reported result. */
  datatype Outcome = Outcome(attempts: map<string, Record>, result: RateLimitResult)

  /** A window is current for `key` when its record exists and `now` has not passed its reset time. */
  predicate InWindow(attempts: map<string, Record>, key: string, now: int)
  {
    key in attempts && now <= attempts[key].resetTime
  }

  /**
   * One check of `key` at time `now`: open a new window when there is none or it has
   * expired, refuse when the window's count has reached the cap, count one more otherwise.
   */
  function Decide(attempts: map<string, Record>, key: string, now: int, maxAttempts: int, windowMs: int): (o: Outcome)
    ensures key in o.attempts && o.result.resetTime == o.attempts[key].resetTime
    ensures o.result.remaining == if o.result.allowed then maxAttempts - o.attempts[key].count else 0
    ensures o.result.allowed <==> !(InWindow(attempts, key, now) && attempts[key].count >= maxAttempts)
    ensures !o.result.allowed ==> o.attempts == attempts
    ensures InWindow(attempts, key, now) ==> o.attempts[key].resetTime == attempts[key].resetTime
    ensures forall k :: k != key ==> (k in o.attempts <==> k in attempts)
    ensures forall k :: k in attempts && k != key ==> o.attempts[k] == attempts[k]
  {
    if !InWindow(attempts, key, now) then
      var resetTime := now + windowMs;
      Outcome(attempts[key := Record(1, resetTime)], RateLimitResult(true, maxAttempts - 1, resetTime))
    else
      var record := attempts[key];
      if record.count >= maxAttempts then
        Outcome(attempts, RateLimitResult(false, 0, record.resetTime))
      else
        var count := record.count + 1;
        Outcome(attempts[key := record.(count := count)], RateLimitResult(true, maxAttempts - count, record.resetTime))
  }

  /** The largest count a record can reach: the cap, or 1 when the cap is below 1 (a fresh window counts 1). */
  function CountBound(maxAttempts: int): (b: int)
    ensures b >= 1 && b >= maxAttempts
  {
    if maxAttempts >= 1 then maxAttempts else 1
  }

  /** Every stored record has counted at least one attempt and no more than the cap allows. */
  ghost predicate WellFormed(attempts: map<string, Record>, maxAttempts: int)
  {
    forall k :: k in attempts ==> 1 <= attempts[k].count <= CountBound(maxAttempts)
  }

  /** The limiter object: its configuration and the map from key to record that checks update. */
  class RateLimiter {
    var attempts: map<string, Record>
    const maxAttempts: int
    const windowMs: int

    ghost predicate Valid()
      reads this
    {
      WellFormed(attempts, maxAttempts)
    }

    constructor (maxAttempts: int := DefaultMaxAttempts, windowMs: int := DefaultWindowMs)
      ensures this.maxAttempts == maxAttempts && this.windowMs == windowMs
      ensures attempts == map[]
      ensures Valid()
    {
      this.maxAttempts := maxAttempts;
      this.windowMs := windowMs;
      attempts := map[];
    }

    /** Checks one attempt by `identifier` at time `now`, updating that key's record. */
    method IsAllowed(identifier: Identifier, now: int) returns (r: RateLimitResult)
      modifies this
      ensures var o := Decide(old(attempts), GetKey(identifier), now, maxAttempts, windowMs);
              attempts == o.attempts && r == o.result
      ensures old(Valid()) ==> Valid()
      ensures old(Valid()) && maxAttempts >= 1 ==> 0 <= r.remaining <= maxAttempts - 1
    {
      var key := GetKey(identifier);
      if key !in attempts || now > attempts[key].resetTime {
        var resetTime := now + windowMs;
        attempts := attempts[key := Record(1, resetTime)];
        return RateLimitResult(true, maxAttempts - 1, resetTime);
      }
      var record := attempts[key];
      if record.count >= maxAttempts {
        return RateLimitResult(false, 0, record.resetTime);
      }
      record := record.(count := record.count + 1);
      attempts := attempts[key := record];
      return RateLimitResult(true, maxAttempts - record.count, record.resetTime);
    }
  }
}
