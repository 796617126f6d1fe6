/**
 * The sliding-window advice: the current time in the window's unit, the
 * arguments of the `slidingWindowLimiter` script, and the decision on its reply.
 */
module SlidingWindowAspect {
  import opened Wrappers
  import opened JavaLang
  import opened Exceptions
  import opened Annotations
  import opened ScriptStore
  import opened LimiterUtils
  import FixedWindowAspect

  /**
   * The current time passed to the script: whole seconds, rounded toward
   * zero, when the unit is SECONDS; the clock's milliseconds for any other unit.
   */
  function Now(millis: Int64, unit: TimeUnit): (now: Int64)
    ensures unit != SECONDS ==> now == millis
    ensures unit == SECONDS && millis >= 0 ==> 0 <= now && now * 1000 <= millis < now * 1000 + 1000
    ensures unit == SECONDS && millis < 0 ==> now <= 0 && now * 1000 - 1000 < millis <= now * 1000
  {
    if unit == SECONDS then DivThousand(millis) else millis
  }

  /** A later clock reading never gives an earlier `now`. */
  lemma NowMonotone(m1: Int64, m2: Int64, unit: TimeUnit)
    requires m1 <= m2
    ensures Now(m1, unit) <= Now(m2, unit)
  {
    DivThousandMonotone(m1, m2);
  }

  /**
   * The script call: the key alone, then permits, the window length as
   * declared (not rescaled) and `now`, as decimal text in that order.
   */
  function Call(sw: SlidingWindow, key: string, now: Int64): (c: ScriptCall)
    ensures c.script == SlidingWindowLimiter && c.keys == [key] && |c.args| == 3
    ensures ParseDecimal(c.args[0]) == Some(sw.limiter.permits as int)
    ensures ParseDecimal(c.args[1]) == Some(sw.len as int)
    ensures ParseDecimal(c.args[2]) == Some(now as int)
  {
    ValueOfRoundTrip(sw.limiter.permits);
    ValueOfRoundTrip(sw.len);
    ValueOfRoundTrip(now);
    ScriptCall(SlidingWindowLimiter, [key], [ValueOf(sw.limiter.permits), ValueOf(sw.len), ValueOf(now)])
  }

  /** The script's reply: 1 and above let the call through; 0 and every negative value reject. */
  function Verdict(limiter: Limiter, result: Int64): (o: Outcome)
    ensures o == Proceed <==> result >= 1
    ensures o != Proceed ==> o == Thrown(LimiterException(limiter.msg, "123001"))
  {
    if result == 1 then Proceed       // a new window was opened
    else if result > 1 then Proceed   // the n-th call in the window
    else Rejection(limiter.msg)
  }

  /** A negative reply is where the two window aspects part: the fixed window lets it through, this one rejects. */
  lemma NegativeReplyDiffers(limiter: Limiter, result: Int64)
    requires result < 0
    ensures FixedWindowAspect.Verdict(limiter, result) == Proceed
    ensures Verdict(limiter, result) == Thrown(LimiterException(limiter.msg, "123001"))
  {
  }

  /**
   * The advice run before an annotated method, with `millis` the clock
   * reading: a failure to build the key escapes; otherwise the call is let
   * through exactly when the store answers at least 1.
   */
  function Before(sw: SlidingWindow, req: Request, millis: Int64, store: Store): (o: Outcome)
    ensures var key := GetRedisKey(sw.limiter.res, req);
            && (key.Err? ==> o == Thrown(key.error))
            && (key.Ok? ==> (o == Proceed <==> store(Call(sw, key.value, Now(millis, sw.unit))) >= 1))
            && (key.Ok? && o != Proceed ==> o == Thrown(LimiterException(sw.limiter.msg, "123001")))
  {
    match GetRedisKey(sw.limiter.res, req)
    case Err(e) => Thrown(e)
    case Ok(key) =>
      var now := Now(millis, sw.unit);
      Verdict(sw.limiter, store(Call(sw, key, now)))
  }
}
