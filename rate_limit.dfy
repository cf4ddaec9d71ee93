/**
 * The fixed-window rate limiter of src/utils/rate-limit.ts. Each call reads
 * the record `{count, resetAt}` stored under `"rate_limit:" + key`, starts a
 * new window when the record is missing, unparsable or expired, refuses the
 * call without writing once `count` has reached `maxRequests`, and otherwise
 * stores the incremented count with a TTL that runs to the end of the window.
 * The clock (`Date.now()`) is the parameter `now`, in milliseconds.
 */
module RateLimit {
  import opened Wrappers
  import opened Kv

  datatype RateLimitConfig = RateLimitConfig(maxRequests: int, windowMs: int)

  datatype RateLimitInfo = RateLimitInfo(count: int, resetAt: int)

  /** What `checkRateLimit` returns. */
  datatype Decision = Decision(allowed: bool, remaining: int, resetAt: int)

  /** Ten uploads per hour. */
  const UploadRateLimit := RateLimitConfig(10, 60 * 60 * 1000)

  function RateLimitKey(key: string): string
  {
    "rate_limit:" + key
  }

  /** `Math.ceil(ms / 1000)`: the least whole number of seconds covering `ms`. */
  function CeilSeconds(ms: int): (s: int)
    ensures s * 1000 - 1000 < ms <= s * 1000
    ensures ms > 0 ==> s >= 1
  {
    -((-ms) / 1000)
  }

  /** A stored record that parses and whose window has not ended. */
  predicate Live(stored: Option<Entry<RateLimitInfo>>, now: int)
  {
    stored.Some? && stored.value.text.Json? && now < stored.value.text.value.resetAt
  }

  /** The window a call works in: the stored one while it is live, otherwise a new one. */
  function CurrentWindow(stored: Option<Entry<RateLimitInfo>>, now: int, config: RateLimitConfig): (w: RateLimitInfo)
    ensures Live(stored, now) ==> w == stored.value.text.value
    ensures !Live(stored, now) ==> w == RateLimitInfo(0, now + config.windowMs)
    ensures w.count != 0 ==> stored.Some? && stored.value.text == Json(w)
    ensures config.windowMs > 0 ==> now < w.resetAt
  {
    match stored
    case Some(Entry(Json(info), _)) =>
      if now >= info.resetAt then RateLimitInfo(0, now + config.windowMs) else info
    case _ => RateLimitInfo(0, now + config.windowMs)
  }

  /** The decision of one call and the namespace it leaves behind. */
  datatype Outcome = Outcome(decision: Decision, kv: map<string, Entry<RateLimitInfo>>)

  /** One call of `checkRateLimit(kv, key, config)` at time `now`. */
  function Consume(kv: map<string, Entry<RateLimitInfo>>, key: string, config: RateLimitConfig, now: int): (o: Outcome)
    ensures var w := CurrentWindow(Get(kv, RateLimitKey(key)), now, config);
      && o.decision.resetAt == w.resetAt
      && (o.decision.allowed <==> w.count < config.maxRequests)
      && (!o.decision.allowed ==> o.kv == kv && o.decision.remaining == 0)
      && (o.decision.allowed ==>
            && Parsed(o.kv, RateLimitKey(key)) == Some(RateLimitInfo(w.count + 1, w.resetAt))
            && o.decision.remaining == config.maxRequests - (w.count + 1))
    ensures forall k :: k != RateLimitKey(key) ==> Get(o.kv, k) == Get(kv, k)
  {
    var rateLimitKey := RateLimitKey(key);
    var w := CurrentWindow(Get(kv, rateLimitKey), now, config);
    if w.count >= config.maxRequests then
      Outcome(Decision(false, 0, w.resetAt), kv)
    else
      var info := RateLimitInfo(w.count + 1, w.resetAt);
      Outcome(Decision(true, config.maxRequests - info.count, info.resetAt),
              kv[rateLimitKey := Entry(Json(info), CeilSeconds(info.resetAt - now))])
  }

  /** The entry an allowed call writes lives until the end of the window, and at least a second. */
  lemma WrittenTtl(kv: map<string, Entry<RateLimitInfo>>, key: string, config: RateLimitConfig, now: int)
    requires config.windowMs > 0
    requires Consume(kv, key, config, now).decision.allowed
    ensures var o := Consume(kv, key, config, now);
      var ttl := o.kv[RateLimitKey(key)].ttlSeconds;
      && ttl >= 1
      && ttl * 1000 - 1000 < o.decision.resetAt - now <= ttl * 1000
  {
    var w := CurrentWindow(Get(kv, RateLimitKey(key)), now, config);
    assert w.resetAt > now;
  }

  /** Every parsed record under a rate-limit key holds a count in [0, maxRequests]. */
  ghost predicate Bounded(kv: map<string, Entry<RateLimitInfo>>, config: RateLimitConfig)
  {
    forall k :: k in kv && kv[k].text.Json? ==> 0 <= kv[k].text.value.count <= config.maxRequests
  }

  /** For a fixed config the stored count never passes the limit, and `remaining` stays in range. */
  lemma ConsumeKeepsBound(kv: map<string, Entry<RateLimitInfo>>, key: string, config: RateLimitConfig, now: int)
    requires Bounded(kv, config)
    ensures Bounded(Consume(kv, key, config, now).kv, config)
    ensures var d := Consume(kv, key, config, now).decision;
      d.allowed ==> 0 <= d.remaining < config.maxRequests
  {
    var w := CurrentWindow(Get(kv, RateLimitKey(key)), now, config);
    assert 0 <= w.count;
  }

  /** The decisions of successive calls for one key, at the given times. */
  function Run(kv: map<string, Entry<RateLimitInfo>>, key: string, config: RateLimitConfig, times: seq<int>): (ds: seq<Decision>)
    ensures |ds| == |times|
    decreases |times|
  {
    if |times| == 0 then []
    else
      var o := Consume(kv, key, config, times[0]);
      [o.decision] + Run(o.kv, key, config, times[1..])
  }

  /**
   * Within a live window that already holds `count` calls, call `i` is
   * allowed exactly when `count + i < maxRequests`, reports the remaining
   * quota after it, and keeps the window's `resetAt`.
   */
  lemma {:induction false} RunInWindow(kv: map<string, Entry<RateLimitInfo>>, key: string, config: RateLimitConfig,
                                        times: seq<int>, count: int, resetAt: int)
    requires Parsed(kv, RateLimitKey(key)) == Some(RateLimitInfo(count, resetAt))
    requires forall i :: 0 <= i < |times| ==> times[i] < resetAt
    ensures forall i :: 0 <= i < |times| ==>
      var d := Run(kv, key, config, times)[i];
      && d.resetAt == resetAt
      && d.allowed == (count + i < config.maxRequests)
      && d.remaining == (if d.allowed then config.maxRequests - (count + i + 1) else 0)
    decreases |times|
  {
    if |times| > 0 {
      var o := Consume(kv, key, config, times[0]);
      var ds := Run(kv, key, config, times);
      assert ds == [o.decision] + Run(o.kv, key, config, times[1..]);
      if o.decision.allowed {
        RunInWindow(o.kv, key, config, times[1..], count + 1, resetAt);
        forall i | 1 <= i < |times| ensures ds[i] == Run(o.kv, key, config, times[1..])[i - 1] {
        }
      } else {
        assert o.kv == kv;
        RunInWindow(kv, key, config, times[1..], count, resetAt);
        forall i | 1 <= i < |times| ensures ds[i] == Run(kv, key, config, times[1..])[i - 1] {
        }
      }
    }
  }

  /**
   * From no record, calls 1..N within one window are allowed with `remaining`
   * N-1 down to 0, and every later call in the window is refused.
   */
  lemma FreshWindowRun(kv: map<string, Entry<RateLimitInfo>>, key: string, config: RateLimitConfig, times: seq<int>)
    requires RateLimitKey(key) !in kv
    requires config.maxRequests >= 1 && config.windowMs > 0
    requires |times| > 0
    requires forall i :: 0 <= i < |times| ==> times[0] <= times[i] < times[0] + config.windowMs
    ensures forall i :: 0 <= i < |times| ==>
      var d := Run(kv, key, config, times)[i];
      && d.resetAt == times[0] + config.windowMs
      && d.allowed == (i < config.maxRequests)
      && d.remaining == (if i < config.maxRequests then config.maxRequests - i - 1 else 0)
  {
    var o := Consume(kv, key, config, times[0]);
    var ds := Run(kv, key, config, times);
    assert ds == [o.decision] + Run(o.kv, key, config, times[1..]);
    RunInWindow(o.kv, key, config, times[1..], 1, times[0] + config.windowMs);
    forall i | 1 <= i < |times| ensures ds[i] == Run(o.kv, key, config, times[1..])[i - 1] {
    }
  }

  /** The upload policy: ten uploads in an hour pass, with 9..0 remaining, and the eleventh is refused. */
  lemma UploadQuota(kv: map<string, Entry<RateLimitInfo>>, userId: string, times: seq<int>)
    requires RateLimitKey("upload:" + userId) !in kv
    requires |times| == 11
    requires forall i :: 0 <= i < 11 ==> times[0] <= times[i] < times[0] + 3600000
    ensures var ds := Run(kv, "upload:" + userId, UploadRateLimit, times);
      && (forall i :: 0 <= i < 10 ==> ds[i].allowed && ds[i].remaining == 9 - i)
      && !ds[10].allowed && ds[10].resetAt == times[0] + 3600000
  {
    FreshWindowRun(kv, "upload:" + userId, UploadRateLimit, times);
  }

  /** Once the window has ended, the next call starts a new one and is allowed as its first. */
  lemma AfterReset(kv: map<string, Entry<RateLimitInfo>>, key: string, config: RateLimitConfig, now: int)
    requires config.maxRequests >= 1
    requires Parsed(kv, RateLimitKey(key)).Some? ==> now >= Parsed(kv, RateLimitKey(key)).value.resetAt
    ensures var o := Consume(kv, key, config, now);
      && o.decision.allowed
      && o.decision.remaining == config.maxRequests - 1
      && Parsed(o.kv, RateLimitKey(key)) == Some(RateLimitInfo(1, now + config.windowMs))
  {
  }

  /** A KV namespace the limiter reads and writes; calls are sequential, as the source does not lock. */
  class RateLimiter {
    var kv: map<string, Entry<RateLimitInfo>>

    constructor (initial: map<string, Entry<RateLimitInfo>>)
      ensures kv == initial
    {
      kv := initial;
    }

    /** `checkRateLimit(kv, key, config)` with `Date.now()` passed in as `now`. */
    method CheckRateLimit(key: string, config: RateLimitConfig, now: int) returns (d: Decision)
      modifies this
      ensures Outcome(d, kv) == Consume(old(kv), key, config, now)
    {
      var rateLimitKey := RateLimitKey(key);
      var data := Get(kv, rateLimitKey);
      var info: RateLimitInfo;
      if data.Some? && !data.value.text.Empty? {
        match data.value.text {
          case Json(parsed) =>
            info := parsed;
            if now >= info.resetAt {
              info := RateLimitInfo(0, now + config.windowMs);
            }
          case _ =>
            info := RateLimitInfo(0, now + config.windowMs);
        }
      } else {
        info := RateLimitInfo(0, now + config.windowMs);
      }

      if info.count >= config.maxRequests {
        return Decision(false, 0, info.resetAt);
      }

      info := info.(count := info.count + 1);
      var ttlSeconds := CeilSeconds(info.resetAt - now);
      kv := kv[rateLimitKey := Entry(Json(info), ttlSeconds)];
      d := Decision(true, config.maxRequests - info.count, info.resetAt);
    }
  }
}
