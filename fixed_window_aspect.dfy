/**
 * The fixed-window advice: builds the limiting key and the arguments of the
 * `fixedWindowLimiter` script, and turns the script's reply into a decision.
 */
module FixedWindowAspect {
  import opened Wrappers
  import opened JavaLang
  import opened Exceptions
  import opened Annotations
  import opened ScriptStore
  import opened LimiterUtils

  /**
   * The script call: the key alone, then the permits and the window length as
   * decimal text, in that order. The window's time unit is not passed on.
   */
  function Call(fw: FixedWindow, key: string): (c: ScriptCall)
    ensures c.script == FixedWindowLimiter && c.keys == [key] && |c.args| == 2
    ensures ParseDecimal(c.args[0]) == Some(fw.limiter.permits as int)
    ensures ParseDecimal(c.args[1]) == Some(fw.len as int)
  {
    ValueOfRoundTrip(fw.limiter.permits);
    ValueOfRoundTrip(fw.len);
    ScriptCall(FixedWindowLimiter, [key], [ValueOf(fw.limiter.permits), ValueOf(fw.len)])
  }

  /**
   * The script's reply: 0 rejects with the annotation's message; 1 (a new
   * window) and every other value, negative ones included, let the call
   * through.
   */
  function Verdict(limiter: Limiter, result: Int64): (o: Outcome)
    ensures o == Proceed <==> result != 0
    ensures o != Proceed ==> o == Thrown(LimiterException(limiter.msg, "123001"))
  {
    if result == 0 then Rejection(limiter.msg)
    else if result == 1 then Proceed  // a new window was opened
    else Proceed                      // the n-th call in the current window
  }

  /**
   * The advice run before an annotated method: a failure to build the key
   * escapes; otherwise the call is rejected exactly when the store answers 0
   * to the call for that key.
   */
  function Before(fw: FixedWindow, req: Request, store: Store): (o: Outcome)
    ensures var key := GetRedisKey(fw.limiter.res, req);
            && (key.Err? ==> o == Thrown(key.error))
            && (key.Ok? ==> (o == Proceed <==> store(Call(fw, key.value)) != 0))
            && (key.Ok? && o != Proceed ==> o == Thrown(LimiterException(fw.limiter.msg, "123001")))
  {
    match GetRedisKey(fw.limiter.res, req)
    case Err(e) => Thrown(e)
    case Ok(key) => Verdict(fw.limiter, store(Call(fw, key)))
  }

  /** `FixedWindow.unit()` is never read: the decision is the same whatever unit is declared. */
  lemma UnitIgnored(fw: FixedWindow, u: TimeUnit, req: Request, store: Store)
    ensures Before(fw.(unit := u), req, store) == Before(fw, req, store)
  {
  }
}
