/**
 * A call of a server-side script on the shared counter store: which script,
 * the keys and the string arguments. What a script computes is not part of
 * this model; the aspects receive its `Long` result from a function of the call.
 */
module ScriptStore {
  import opened JavaLang

  /** The two loaded scripts: `fixedWindowLimiter` and `slidingWindowLimiter`. */
  datatype Script = FixedWindowLimiter | SlidingWindowLimiter

  datatype ScriptCall = ScriptCall(script: Script, keys: seq<string>, args: seq<string>)

  /** The store's reply to a call, as the `Long` the template returns. */
  type Store = ScriptCall -> Int64
}
