/**
 * What the limiter promises, proved about the transition function `Decide` that its
 * `IsAllowed` method is specified by, about runs of consecutive checks, and about `GetKey`.
 */
module RateLimitProperties {
  import opened Wrappers
  import opened JsText
  import opened RateLimit

  // ---------------------------------------------------------------------------------
  // One check
  // ---------------------------------------------------------------------------------

  /** A key with no record, or whose window has passed, gets a new window of count 1 ending at `now + windowMs`. */
  lemma NewWindowOpened(attempts: map<string, Record>, key: string, now: int, maxAttempts: int, windowMs: int)
    requires key !in attempts || now > attempts[key].resetTime
    ensures Decide(attempts, key, now, maxAttempts, windowMs)
            == Outcome(attempts[key := Record(1, now + windowMs)], RateLimitResult(true, maxAttempts - 1, now + windowMs))
  {
  }

  /** Expiry is strict: at exactly `resetTime` the old window still holds and keeps its reset time. */
  lemma ExpiryIsStrict(attempts: map<string, Record>, key: string, maxAttempts: int, windowMs: int)
    requires key in attempts
    ensures var now := attempts[key].resetTime;
            var o := Decide(attempts, key, now, maxAttempts, windowMs);
            && o.result.resetTime == attempts[key].resetTime
            && o.attempts[key].resetTime == attempts[key].resetTime
            && o.attempts[key].count == if o.result.allowed then attempts[key].count + 1 else attempts[key].count
  {
  }

  /** Inside a current window whose count has reached the cap, the attempt is refused and nothing changes. */
  lemma DeniedAtCap(attempts: map<string, Record>, key: string, now: int, maxAttempts: int, windowMs: int)
    requires key in attempts && now <= attempts[key].resetTime
    requires attempts[key].count >= maxAttempts
    ensures Decide(attempts, key, now, maxAttempts, windowMs)
            == Outcome(attempts, RateLimitResult(false, 0, attempts[key].resetTime))
  {
  }

  /** Inside a current window below the cap, the count goes up by exactly one and the reset time stays. */
  lemma CountedInWindow(attempts: map<string, Record>, key: string, now: int, maxAttempts: int, windowMs: int)
    requires key in attempts && now <= attempts[key].resetTime
    requires attempts[key].count < maxAttempts
    ensures var r := attempts[key];
            Decide(attempts, key, now, maxAttempts, windowMs)
            == Outcome(attempts[key := Record(r.count + 1, r.resetTime)],
                       RateLimitResult(true, maxAttempts - (r.count + 1), r.resetTime))
  {
  }

  /** Once its window has passed, a key is treated exactly as one never seen before. */
  lemma ExpiredActsAsFresh(attempts: map<string, Record>, key: string, now: int, maxAttempts: int, windowMs: int)
    requires key in attempts && now > attempts[key].resetTime
    ensures Decide(attempts, key, now, maxAttempts, windowMs)
            == Decide(attempts - {key}, key, now, maxAttempts, windowMs)
  {
    assert attempts[key := Record(1, now + windowMs)] == (attempts - {key})[key := Record(1, now + windowMs)];
  }

  /** Every check keeps every record's count between 1 and the cap. */
  lemma DecideKeepsWellFormed(attempts: map<string, Record>, key: string, now: int, maxAttempts: int, windowMs: int)
    requires WellFormed(attempts, maxAttempts)
    ensures WellFormed(Decide(attempts, key, now, maxAttempts, windowMs).attempts, maxAttempts)
  {
  }

  /** With a cap of at least one, a record's count never exceeds the cap. */
  lemma CountAtMostCap(attempts: map<string, Record>, maxAttempts: int, key: string)
    requires maxAttempts >= 1
    requires WellFormed(attempts, maxAttempts)
    requires key in attempts
    ensures 1 <= attempts[key].count <= maxAttempts
  {
  }

  /** With a cap of at least one, every reported `remaining` lies in `0 .. maxAttempts - 1`. */
  lemma RemainingBounds(attempts: map<string, Record>, key: string, now: int, maxAttempts: int, windowMs: int)
    requires maxAttempts >= 1
    requires WellFormed(attempts, maxAttempts)
    ensures var r := Decide(attempts, key, now, maxAttempts, windowMs).result;
            0 <= r.remaining <= maxAttempts - 1
  {
  }

  // ---------------------------------------------------------------------------------
  // Runs of checks
  // ---------------------------------------------------------------------------------

  /** One check of `key` at time `now`. */
  datatype Call = Call(key: string, now: int)

  /** The state after a run of checks and the result of each, in order. */
  datatype Trace = Trace(attempts: map<string, Record>, results: seq<RateLimitResult>)

  /** Performs the checks of `calls` one after another, starting from the record map `attempts`. */
  function Replay(attempts: map<string, Record>, calls: seq<Call>, maxAttempts: int, windowMs: int): (t: Trace)
    ensures |t.results| == |calls|
    decreases |calls|
  {
    if calls == [] then Trace(attempts, [])
    else
      var o := Decide(attempts, calls[0].key, calls[0].now, maxAttempts, windowMs);
      var rest := Replay(o.attempts, calls[1..], maxAttempts, windowMs);
      Trace(rest.attempts, [o.result] + rest.results)
  }

  /** The checks of one key at the given times. */
  function CallsAt(key: string, times: seq<int>): (calls: seq<Call>)
    ensures |calls| == |times|
    ensures forall i :: 0 <= i < |times| ==> calls[i] == Call(key, times[i])
  {
    seq(|times|, i requires 0 <= i < |times| => Call(key, times[i]))
  }

  /** What the check after `n` earlier ones in a window that started at count `c` reports. */
  function Expected(c: int, n: int, maxAttempts: int, resetTime: int): RateLimitResult
  {
    if c + n < maxAttempts then RateLimitResult(true, maxAttempts - (c + n + 1), resetTime)
    else RateLimitResult(false, 0, resetTime)
  }

  /**
   * Inside a current window of count `c <= maxAttempts`, checks at times that never pass its
   * reset time are allowed until the cap, with `remaining` counting down, then refused; all
   * report the same reset time, and the count ends at `min(c + n, maxAttempts)`.
   */
  lemma {:induction false} WithinWindow(attempts: map<string, Record>, key: string, times: seq<int>,
                                        maxAttempts: int, windowMs: int)
    requires key in attempts && attempts[key].count <= maxAttempts
    requires forall i :: 0 <= i < |times| ==> times[i] <= attempts[key].resetTime
    ensures var t := Replay(attempts, CallsAt(key, times), maxAttempts, windowMs);
            var c, reset := attempts[key].count, attempts[key].resetTime;
            && (forall i :: 0 <= i < |times| ==> t.results[i] == Expected(c, i, maxAttempts, reset))
            && key in t.attempts
            && t.attempts[key] == Record(if c + |times| < maxAttempts then c + |times| else maxAttempts, reset)
    decreases |times|
  {
    var c, reset := attempts[key].count, attempts[key].resetTime;
    if times != [] {
      var o := Decide(attempts, key, times[0], maxAttempts, windowMs);
      assert CallsAt(key, times)[1..] == CallsAt(key, times[1..]);
      WithinWindow(o.attempts, key, times[1..], maxAttempts, windowMs);
      var t := Replay(attempts, CallsAt(key, times), maxAttempts, windowMs);
      var rest := Replay(o.attempts, CallsAt(key, times[1..]), maxAttempts, windowMs);
      assert t.results == [o.result] + rest.results;
      if c < maxAttempts {
        assert o.attempts[key] == Record(c + 1, reset);
        forall i | 1 <= i < |times|
          ensures t.results[i] == Expected(c, i, maxAttempts, reset)
        {
          assert t.results[i] == rest.results[i - 1];
        }
      } else {
        assert o.attempts[key] == Record(c, reset);
      }
    }
  }

  /**
   * From a key with no current window, and a cap of at least one, checks at times that never
   * pass the window opened by the first give `remaining` of `maxAttempts - 1, ..., 0` and
   * then refusals, all with the reset time `times[0] + windowMs`.
   */
  lemma FreshKeyRun(attempts: map<string, Record>, key: string, times: seq<int>, maxAttempts: int, windowMs: int)
    requires maxAttempts >= 1
    requires times != []
    requires key !in attempts || times[0] > attempts[key].resetTime
    requires forall i :: 1 <= i < |times| ==> times[i] <= times[0] + windowMs
    ensures var t := Replay(attempts, CallsAt(key, times), maxAttempts, windowMs);
            forall i :: 0 <= i < |times| ==>
              t.results[i] == if i < maxAttempts then RateLimitResult(true, maxAttempts - 1 - i, times[0] + windowMs)
                              else RateLimitResult(false, 0, times[0] + windowMs)
  {
    var o := Decide(attempts, key, times[0], maxAttempts, windowMs);
    assert CallsAt(key, times)[1..] == CallsAt(key, times[1..]);
    WithinWindow(o.attempts, key, times[1..], maxAttempts, windowMs);
    var t := Replay(attempts, CallsAt(key, times), maxAttempts, windowMs);
    var rest := Replay(o.attempts, CallsAt(key, times[1..]), maxAttempts, windowMs);
    assert t.results == [o.result] + rest.results;
    forall i | 1 <= i < |times|
      ensures t.results[i] == Expected(1, i - 1, maxAttempts, times[0] + windowMs)
    {
      assert t.results[i] == rest.results[i - 1];
    }
  }

  /** Checks of other keys never create, change or remove the record of `k`. */
  lemma {:induction false} OtherKeysUntouched(attempts: map<string, Record>, calls: seq<Call>, k: string,
                                              maxAttempts: int, windowMs: int)
    requires forall i :: 0 <= i < |calls| ==> calls[i].key != k
    ensures var t := Replay(attempts, calls, maxAttempts, windowMs);
            && (k in t.attempts <==> k in attempts)
            && (k in attempts ==> t.attempts[k] == attempts[k])
    decreases |calls|
  {
    if calls != [] {
      var o := Decide(attempts, calls[0].key, calls[0].now, maxAttempts, windowMs);
      OtherKeysUntouched(o.attempts, calls[1..], k, maxAttempts, windowMs);
    }
  }

  /** Exhausting other keys does not change what a check of `k` reports, nor `k`'s new record. */
  lemma KeysIndependent(attempts: map<string, Record>, others: seq<Call>, k: string, now: int,
                        maxAttempts: int, windowMs: int)
    requires forall i :: 0 <= i < |others| ==> others[i].key != k
    ensures var later := Replay(attempts, others, maxAttempts, windowMs).attempts;
            var a := Decide(attempts, k, now, maxAttempts, windowMs);
            var b := Decide(later, k, now, maxAttempts, windowMs);
            a.result == b.result && a.attempts[k] == b.attempts[k]
  {
    OtherKeysUntouched(attempts, others, k, maxAttempts, windowMs);
  }

  /**
   * Two attempts per second for key "A": two allowed at t=0, a refusal at t=500, and at
   * t=1001 a new window ending at 2001.
   */
  lemma TwoPerSecondRun()
    ensures Replay(map[], [Call("A", 0), Call("A", 0), Call("A", 500), Call("A", 1001)], 2, 1000).results
            == [RateLimitResult(true, 1, 1000), RateLimitResult(true, 0, 1000),
                RateLimitResult(false, 0, 1000), RateLimitResult(true, 1, 2001)]
  {
  }

  // ---------------------------------------------------------------------------------
  // Key derivation
  // ---------------------------------------------------------------------------------

  /** The first non-empty candidate wins: every earlier one is empty. */
  lemma KeyPrecedence(h: Headers, i: nat)
    requires i < 4 && Candidates(h)[i] != ""
    requires forall j :: 0 <= j < i ==> Candidates(h)[j] == ""
    ensures GetKey(Request(h)) == Candidates(h)[i]
  {
  }

  /** A request's key is one of its non-empty candidates, or "unknown" when every candidate is empty. */
  lemma KeyIsCandidateOrUnknown(h: Headers)
    ensures var key := GetKey(Request(h));
            || (key in Candidates(h) && key != "")
            || (key == Unknown && forall j :: 0 <= j < 4 ==> Candidates(h)[j] == "")
    ensures (forall j :: 0 <= j < 4 ==> Candidates(h)[j] == "") ==> GetKey(Request(h)) == Unknown
  {
  }

  /** An absent header and an empty one are alike: both fall through to the next candidate. */
  lemma NullAndEmptyAlike(h: Headers, name: string)
    requires h(name) == None
    ensures GetKey(Request(h)) == GetKey(Request(n => if n == name then Some("") else h(n)))
  {
    var h' := (n => if n == name then Some("") else h(n));
    assert Candidates(h) == Candidates(h');
  }

  /** An `x-forwarded-for` whose first hop is blank falls through to `x-real-ip` and the rest. */
  lemma BlankFirstHopFallsThrough(h: Headers, v: string)
    requires h(XForwardedFor) == Some(v)
    requires forall k :: 0 <= k < |BeforeFirstComma(v)| ==> IsTrimmable(BeforeFirstComma(v)[k])
    ensures GetKey(Request(h)) == FirstNonEmpty(Candidates(h)[1..], Unknown)
  {
    TrimEmpty(BeforeFirstComma(v));
    FirstNonEmptyChain(Candidates(h), Unknown);
  }

  /** A proxy chain of two hops, and its first hop. */
  const ProxyChain: string := "1.2.3.4, 5.6.7.8"
  const FirstHop: string := "1.2.3.4"

  /** The first hop of "1.2.3.4, 5.6.7.8" is "1.2.3.4". */
  lemma FirstHopOfChain()
    ensures Trim(BeforeFirstComma(ProxyChain)) == FirstHop
  {
    assert ProxyChain[7] == ',' && ProxyChain[..7] == FirstHop;
    BeforeFirstCommaAt(ProxyChain, 7);
    assert FirstHop[0] == '1' && FirstHop[|FirstHop| - 1] == '4';
    TrimOfTrimmed(FirstHop);
  }

  /** With `x-forwarded-for: 1.2.3.4, 5.6.7.8` the key is "1.2.3.4", whatever the other headers say. */
  lemma ForwardedFirstHop(h: Headers)
    requires h(XForwardedFor) == Some(ProxyChain)
    ensures GetKey(Request(h)) == FirstHop
  {
    FirstHopOfChain();
    KeyPrecedence(h, 0);
  }

  /** With only `cf-connecting-ip: 9.9.9.9` set, that is the key. */
  lemma OnlyCfConnectingIp(h: Headers)
    requires h(XForwardedFor) == None && h(XRealIp) == None && h(XClientIp) == None
    requires h(CfConnectingIp) == Some("9.9.9.9")
    ensures GetKey(Request(h)) == "9.9.9.9"
  {
  }

  /** With none of the four headers set, every such request shares the "unknown" key. */
  lemma NoClientHeaders(h: Headers)
    requires h(XForwardedFor) == None && h(XRealIp) == None && h(XClientIp) == None && h(CfConnectingIp) == None
    ensures GetKey(Request(h)) == Unknown
  {
  }
}
