/**
 * The token-bucket advice: the window length in seconds, the registry of
 * per-key limiters that is filled on first use, and the decision on the
 * outcome of `tryAcquire`.
 */
module TokenBucketAspect {
  import opened Wrappers
  import opened JavaLang
  import opened Exceptions
  import opened Annotations
  import opened LimiterUtils

  /**
   * The window length in seconds: a length in MILLISECONDS is divided by 1000,
   * rounding toward zero; a length in any other unit is taken as it is.
   */
  function WindowSeconds(tb: TokenBucket): (len: Int64)
    ensures tb.unit != MILLISECONDS ==> len == tb.len
    ensures tb.unit == MILLISECONDS && tb.len >= 0 ==> 0 <= len && len * 1000 <= tb.len < len * 1000 + 1000
    ensures tb.unit == MILLISECONDS && tb.len < 0 ==> len <= 0 && len * 1000 - 1000 < tb.len <= len * 1000
  {
    if tb.unit == MILLISECONDS then DivThousand(tb.len) else tb.len
  }

  /** Less than a second, written in milliseconds, becomes a window of 0 seconds. */
  lemma SubSecondWindowIsZero(tb: TokenBucket)
    requires tb.unit == MILLISECONDS && -1000 < tb.len < 1000
    ensures WindowSeconds(tb) == 0
  {
  }

  /** The annotation on the test endpoint: 10 permits per 10000 ms is 10 permits per 10 seconds. */
  lemma TestEndpointWindow()
    ensures WindowSeconds(TokenBucket(Limiter("/do", 10, DefaultMsg), 10000, MILLISECONDS)) == 10
  {
  }

  /** The outcome of `tryAcquire`: a failed acquire rejects with the annotation's message. */
  function Verdict(limiter: Limiter, acquired: bool): (o: Outcome)
    ensures o == Proceed <==> acquired
    ensures !acquired ==> o == Thrown(LimiterException(limiter.msg, "123001"))
  {
    if !acquired then Rejection(limiter.msg) else Proceed
  }

  /**
   * A Guava `RateLimiter`, known here only by identity and by the integers its
   * rate is computed from: `permits` per `seconds`.
   */
  class RateLimiter {
    const permits: int
    const seconds: int

    constructor (permits: int, seconds: int)
      ensures this.permits == permits && this.seconds == seconds
    {
      this.permits := permits;
      this.seconds := seconds;
    }
  }

  /**
   * The registry after a lookup of `key` that would create `v`: an existing
   * entry is kept, a missing key gains the one new entry, and every other key
   * maps as before.
   */
  function Registered<V>(m: map<string, V>, key: string, v: V): (m': map<string, V>)
    ensures key in m'
    ensures key in m ==> m' == m
    ensures key !in m ==> m'.Keys == m.Keys + {key} && m'[key] == v
    ensures forall k :: k in m && k != key ==> k in m' && m'[k] == m[k]
  {
    if key in m then m else m[key := v]
  }

  /** A second lookup of the same key changes nothing and finds the first one's limiter. */
  lemma RegisteredIdempotent<V>(m: map<string, V>, key: string, v: V, w: V)
    ensures Registered(Registered(m, key, v), key, w) == Registered(m, key, v)
    ensures Registered(Registered(m, key, v), key, w)[key] == Registered(m, key, v)[key]
  {
  }

  /**
   * Whether `RateLimiter.create((double) permits / seconds)` accepts the rate:
   * Guava refuses a rate that is not positive, or is NaN. For integers the
   * quotient is positive when both signs agree, positive infinity for a
   * positive count over 0 (which is accepted), and otherwise negative, a
   * signed zero, negative infinity or, for 0 / 0, NaN.
   */
  predicate RateAccepted(permits: int, seconds: int): (ok: bool)
    ensures seconds != 0 ==> (ok <==> permits * seconds > 0)
    ensures seconds == 0 ==> (ok <==> permits > 0)
  {
    SignsAgree(permits, seconds);
    (permits > 0 && seconds >= 0) || (permits < 0 && seconds < 0)
  }

  /** A product is positive exactly when both factors are non-zero with the same sign. */
  lemma SignsAgree(a: int, b: int)
    ensures a * b > 0 <==> (a > 0 && b > 0) || (a < 0 && b < 0)
  {
    if a > 0 && b < 0 {
      assert a * b == -(a * -b);
    } else if a < 0 && b > 0 {
      assert a * b == -(-a * b);
    } else if a < 0 && b < 0 {
      assert a * b == -a * -b;
    }
  }

  class TokenBucketAspect {
    /** `limitMap`: one limiter per limiting key, created on first use. */
    var limitMap: map<string, RateLimiter>

    constructor ()
      ensures limitMap == map[]
    {
      limitMap := map[];
    }

    /**
     * The check-then-put on `limitMap` followed by `get`: the limiter stored
     * under `key`, created with the given rate when the key was absent. When
     * the key is absent and the rate is refused, `create` throws before the
     * `put`: the result is None and the map is left alone.
     */
    method Lookup(key: string, permits: int, seconds: int) returns (r: Option<RateLimiter>)
      modifies this
      ensures key in old(limitMap) ==> r == Some(old(limitMap)[key]) && limitMap == old(limitMap)
      ensures key !in old(limitMap) && !RateAccepted(permits, seconds) ==>
                r == None && limitMap == old(limitMap)
      ensures key !in old(limitMap) && RateAccepted(permits, seconds) ==>
                r.Some? && fresh(r.value) && r.value.permits == permits && r.value.seconds == seconds
      ensures r.Some? ==> limitMap == Registered(old(limitMap), key, r.value) && r.value == limitMap[key]
    {
      if key !in limitMap {
        if !RateAccepted(permits, seconds) {
          return None;
        }
        var created := new RateLimiter(permits, seconds);
        limitMap := limitMap[key := created];
      }
      r := Some(limitMap[key]);
    }

    /**
     * The advice run before an annotated method, with `tryAcquire` standing
     * for the outcome of `tryAcquire(1, 100, MILLISECONDS)` on a limiter. A
     * failure to build the key, or a refused rate for a key seen for the
     * first time, escapes and leaves the registry alone; otherwise the key's
     * limiter is looked up or created and asked for a permit, and the call is
     * rejected exactly when it refuses.
     */
    method Before(tb: TokenBucket, req: Request, tryAcquire: RateLimiter -> bool) returns (o: Outcome)
      modifies this
      ensures var key := GetRedisKey(tb.limiter.res, req);
              key.Err? ==> o == Thrown(key.error) && limitMap == old(limitMap)
      ensures var key := GetRedisKey(tb.limiter.res, req);
              key.Ok? && key.value !in old(limitMap) && !RateAccepted(tb.limiter.permits, WindowSeconds(tb)) ==>
                o == Thrown(IllegalArgument) && limitMap == old(limitMap)
      ensures var key := GetRedisKey(tb.limiter.res, req);
              key.Ok? && (key.value in old(limitMap) || RateAccepted(tb.limiter.permits, WindowSeconds(tb))) ==>
                && key.value in limitMap
                && limitMap == Registered(old(limitMap), key.value, limitMap[key.value])
                && (key.value in old(limitMap) ==> limitMap[key.value] == old(limitMap)[key.value])
                && (key.value !in old(limitMap) ==>
                      fresh(limitMap[key.value])
                      && limitMap[key.value].permits == tb.limiter.permits as int
                      && limitMap[key.value].seconds == WindowSeconds(tb) as int)
                && (o == Proceed <==> tryAcquire(limitMap[key.value]))
                && (o != Proceed ==> o == Thrown(LimiterException(tb.limiter.msg, "123001")))
    {
      var key := GetRedisKey(tb.limiter.res, req);
      if key.Err? {
        return Thrown(key.error);
      }
      var len := WindowSeconds(tb);
      var rateLimiter := Lookup(key.value, tb.limiter.permits, len);
      if rateLimiter.None? {
        return Thrown(IllegalArgument);
      }
      var acquire := tryAcquire(rateLimiter.value);
      o := Verdict(tb.limiter, acquire);
    }
  }

  /** The test endpoint's rate, 10 permits per 10 seconds, is accepted; a count of 0 is refused whatever the window. */
  lemma RateExamples(seconds: int)
    ensures RateAccepted(10, 10)
    ensures !RateAccepted(0, seconds)
  {
  }
}
