# Rate limiter admission decisions, in Dafny

This project models the part of the rate limiter that its Java code decides
on its own: which client address a request is attributed to, the limiting key
`res:ip` built from it, and how each of the three `@Before` aspects (fixed
window, sliding window, token bucket) turns its inputs into "let the call
through" or "throw `LimiterException(msg, "123001")`".

The counting itself lives in server-side scripts of the shared counter store
and in Guava's `RateLimiter`; neither is part of this model. The store appears
as a function from the script call (script, keys, string arguments) to the
`Long` it returns, and `tryAcquire` as a function from a limiter to its boolean
outcome, so every statement below holds whatever those collaborators answer.

Modules, one per source file or library surface:

- `JavaLang`: Java `int`/`long` ranges, `/ 1000` rounding toward zero,
  `String.valueOf` with a decimal reader proved to invert it, `split` on one
  character (trailing empty fields dropped), `trim` and `equalsIgnoreCase`,
  with the helper `FirstIndex` (position of a first occurrence, the length
  when absent) in whose terms `split` is specified.
- `Exceptions`: `LimiterException(message, errorCode)`, the index error that
  can escape from address parsing, the `IllegalArgumentException` of a
  refused token-bucket rate, and the outcome of an advice.
- `Annotations`: the values of `@Limiter`, `@FixedWindow`, `@SlidingWindow`,
  `@TokenBucket` and `TimeUnit`, with the default message of `@Limiter`.
- `ScriptStore`: a script call and the store as a function of it.
- `LimiterUtils`: `getClientIp` (header precedence, the skip rule, the
  first-hop cut) and `getRedisKey`.
- `FixedWindowAspect`, `SlidingWindowAspect`: each aspect's `before` as a
  function of the annotation, the request, the clock reading (sliding only)
  and the store.
- `TokenBucketAspect`: the window conversion, the decision, and a class
  holding `limitMap` whose `Lookup` and `Before` methods update it in place.

## Model

| member | source | states |
|---|---|---|
| `JavaLang.DivThousand` | src/main/java/com/hss/ratelimiter/aspect/TokenBucketAspect.java:44-46 | Java's `x / 1000` on a `long`: the quotient is rounded toward zero (floor for non-negative, ceiling for negative dividends) and lies between 0 and the dividend |
| `JavaLang.DivThousandMonotone` | src/main/java/com/hss/ratelimiter/aspect/SlidingWindowAspect.java:53-55 | dividing by 1000 this way preserves order |
| `JavaLang.NatDigits` | src/main/java/com/hss/ratelimiter/aspect/FixedWindowAspect.java:46 | the decimal digits of a natural number: at least one, all digits, no leading zero, "0" exactly for zero |
| `JavaLang.ValueOf` | src/main/java/com/hss/ratelimiter/aspect/FixedWindowAspect.java:46 | `String.valueOf` of an integer is non-empty and starts with '-' exactly for negative values |
| `JavaLang.NatDigitsValue` | src/main/java/com/hss/ratelimiter/aspect/FixedWindowAspect.java:46 | the digits of `n` denote `n` |
| `JavaLang.ValueOfRoundTrip` | src/main/java/com/hss/ratelimiter/aspect/FixedWindowAspect.java:46 | reading back the decimal text of any integer gives that integer |
| `JavaLang.ValueOfInjective` | src/main/java/com/hss/ratelimiter/aspect/SlidingWindowAspect.java:56 | two different numbers never give the same argument text |
| `JavaLang.FirstIndex` | src/main/java/com/hss/ratelimiter/utils/LimiterUtils.java:38-39 | specification helper for `contains` and `split`: the position of the first occurrence of a character, or the length when it does not occur |
| `JavaLang.Split` | src/main/java/com/hss/ratelimiter/utils/LimiterUtils.java:39 | `split` on a one-character pattern: the whole string when the separator does not occur, otherwise every field with trailing empty fields removed (its content is stated by `SplitFirst`) |
| `JavaLang.Fields` | src/main/java/com/hss/ratelimiter/utils/LimiterUtils.java:39 | splitting at every separator gives at least one field |
| `JavaLang.DropTrailingEmpty` | src/main/java/com/hss/ratelimiter/utils/LimiterUtils.java:39 | the result is a prefix of the fields, does not end in an empty field, and everything dropped was empty |
| `JavaLang.FieldsFirst` | src/main/java/com/hss/ratelimiter/utils/LimiterUtils.java:39 | the first field is the text before the first separator |
| `JavaLang.FieldsAllEmpty` | src/main/java/com/hss/ratelimiter/utils/LimiterUtils.java:39 | all fields are empty if and only if the string consists of separators only |
| `JavaLang.SplitFirst` | src/main/java/com/hss/ratelimiter/utils/LimiterUtils.java:39 | for a string holding a comma, `split(",")` is empty exactly when the string is all commas, and otherwise element 0 is the text before the first comma |
| `JavaLang.TrimStart` | src/main/java/com/hss/ratelimiter/utils/LimiterUtils.java:39 | the forward scan of `trim` stops at the first index from its start whose character is above U+0020, having passed only characters up to U+0020 |
| `JavaLang.TrimEnd` | src/main/java/com/hss/ratelimiter/utils/LimiterUtils.java:39 | the backward scan of `trim` stops, not before the forward scan's stop, at an end whose preceding character is above U+0020, having passed only characters up to U+0020 |
| `JavaLang.Trim` | src/main/java/com/hss/ratelimiter/utils/LimiterUtils.java:39 | Java `trim`: a middle slice of the input with only characters up to U+0020 cut off at both ends, whose own ends are above U+0020, holding no character the input lacks |
| `JavaLang.EqualsIgnoreCase` | src/main/java/com/hss/ratelimiter/utils/LimiterUtils.java:21 | `equalsIgnoreCase`: equal lengths and, position by position, the same character after folding ASCII letters to upper case |
| `JavaLang.UpperAscii` | src/main/java/com/hss/ratelimiter/utils/LimiterUtils.java:21 | definition only: each ASCII letter folded to upper case; the fold that `EqualsIgnoreCaseUpper` and `SkipRule` compare against |
| `JavaLang.EqualsIgnoreCaseUpper` | src/main/java/com/hss/ratelimiter/utils/LimiterUtils.java:21 | two strings are equal ignoring case exactly when their upper-case foldings are equal |
| `JavaLang.DigitChar` | src/main/java/com/hss/ratelimiter/aspect/FixedWindowAspect.java:46 | the character of a decimal digit is a digit with that value |
| `LimiterUtils.GetHeader` | src/main/java/com/hss/ratelimiter/utils/LimiterUtils.java:19 | `getHeader`: the header's value, or null when the request has no header of that name |
| `LimiterUtils.Skipped` | src/main/java/com/hss/ratelimiter/utils/LimiterUtils.java:21 | the skip test applied to every candidate header: null, empty, or "unknown" ignoring case |
| `LimiterUtils.SkipRule` | src/main/java/com/hss/ratelimiter/utils/LimiterUtils.java:21 | a present value is skipped exactly when it is empty or folds to "UNKNOWN" |
| `LimiterUtils.Resolve` | src/main/java/com/hss/ratelimiter/utils/LimiterUtils.java:19-35 | the reassignment chain over the ordered headers; its result is the remote address or the value of one of the headers that is not skipped |
| `LimiterUtils.Text` | src/main/java/com/hss/ratelimiter/utils/LimiterUtils.java:15 | a null address is written "null" by the string concatenation |
| `LimiterUtils.ResolvePrecedence` | src/main/java/com/hss/ratelimiter/utils/LimiterUtils.java:19-35 | when the headers before position k are skipped and the one at k is not, that header's value is chosen; when all are skipped the remote address is chosen, unfiltered |
| `LimiterUtils.ResolveSource` | src/main/java/com/hss/ratelimiter/utils/LimiterUtils.java:19-35 | the remote address is used when every header is skipped; when any header is acceptable the choice is a header's value and is itself not skipped |
| `LimiterUtils.FirstHop` | src/main/java/com/hss/ratelimiter/utils/LimiterUtils.java:38-40 | null and comma-free values are returned unchanged and untrimmed; a value with a comma becomes the trimmed text before the first comma; it fails with an index error exactly when the value is all commas; a non-null result never holds a comma |
| `LimiterUtils.GetClientIp` | src/main/java/com/hss/ratelimiter/utils/LimiterUtils.java:18-43 | the client address never holds a comma, and the call fails, with an index error, exactly when the chosen value is a non-empty run of commas |
| `LimiterUtils.GetRedisKey` | src/main/java/com/hss/ratelimiter/utils/LimiterUtils.java:11-16 | the key is exactly the resource, ':' and the client address (written "null" when the address is null); it fails exactly when the address lookup does |
| `LimiterUtils.KeyDeterminesClient` | src/main/java/com/hss/ratelimiter/utils/LimiterUtils.java:15 | for one resource, equal keys mean equal address text; a null address and the literal address "null" share the key, since concatenation writes null as "null" |
| `LimiterUtils.ForwardedListExample` | src/main/java/com/hss/ratelimiter/utils/LimiterUtils.java:38-40 | `X-Forwarded-For: 1.2.3.4, 5.6.7.8` resolves to `1.2.3.4` |
| `LimiterUtils.UnknownFallsBackExample` | src/main/java/com/hss/ratelimiter/utils/LimiterUtils.java:21 | `X-Forwarded-For: unknown` (also `UnKnOwN`) is skipped and the remote address `9.9.9.9` is used |
| `LimiterUtils.UnknownHopListExample` | src/main/java/com/hss/ratelimiter/utils/LimiterUtils.java:21-39 | `unknown, 1.2.3.4` is not skipped, since the test applies to the whole value, and resolves to `unknown` |
| `LimiterUtils.RemoteAddressUnfilteredExample` | src/main/java/com/hss/ratelimiter/utils/LimiterUtils.java:33-35 | with no headers, a remote address "unknown" or null is returned as it is, and a null address gives the key `/do:null` |
| `LimiterUtils.AllCommasExample` | src/main/java/com/hss/ratelimiter/utils/LimiterUtils.java:39 | a header value "," makes the address lookup throw the index error |
| `FixedWindowAspect.Call` | src/main/java/com/hss/ratelimiter/aspect/FixedWindowAspect.java:45-46 | the fixed-window script is called with the single key and with the permits and the window length, in that order, as decimal text that reads back to those numbers |
| `FixedWindowAspect.Verdict` | src/main/java/com/hss/ratelimiter/aspect/FixedWindowAspect.java:48-56 | the call goes through if and only if the reply is not 0; a 0 throws `LimiterException` with the annotation's message and code "123001" |
| `FixedWindowAspect.Before` | src/main/java/com/hss/ratelimiter/aspect/FixedWindowAspect.java:35-58 | a key failure escapes; otherwise the call is rejected exactly when the store answers 0 to the call for the key |
| `FixedWindowAspect.UnitIgnored` | src/main/java/com/hss/ratelimiter/aspect/FixedWindowAspect.java:46 | the declared time unit does not affect the decision or the store call |
| `SlidingWindowAspect.Now` | src/main/java/com/hss/ratelimiter/aspect/SlidingWindowAspect.java:52-55 | for SECONDS the clock's milliseconds rounded toward zero to whole seconds; for any other unit the milliseconds unchanged |
| `SlidingWindowAspect.NowMonotone` | src/main/java/com/hss/ratelimiter/aspect/SlidingWindowAspect.java:53-55 | a later clock reading never gives an earlier `now` |
| `SlidingWindowAspect.Call` | src/main/java/com/hss/ratelimiter/aspect/SlidingWindowAspect.java:48-56 | the sliding-window script is called with the single key and with permits, the unconverted window length and `now` as decimal text, in that order |
| `SlidingWindowAspect.Verdict` | src/main/java/com/hss/ratelimiter/aspect/SlidingWindowAspect.java:57-64 | the call goes through if and only if the reply is at least 1; 0 and negative replies reject with the message and "123001" |
| `SlidingWindowAspect.NegativeReplyDiffers` | src/main/java/com/hss/ratelimiter/aspect/SlidingWindowAspect.java:57-64 | on a negative reply the fixed-window aspect lets the call through and the sliding-window aspect rejects it |
| `SlidingWindowAspect.Before` | src/main/java/com/hss/ratelimiter/aspect/SlidingWindowAspect.java:37-65 | a key failure escapes; otherwise the call goes through exactly when the store answers at least 1 to the call built from the key and the rescaled clock |
| `TokenBucketAspect.WindowSeconds` | src/main/java/com/hss/ratelimiter/aspect/TokenBucketAspect.java:41-46 | a MILLISECONDS length is divided by 1000 rounding toward zero; any other unit is kept as declared |
| `TokenBucketAspect.SubSecondWindowIsZero` | src/main/java/com/hss/ratelimiter/aspect/TokenBucketAspect.java:44-46 | a millisecond length strictly between -1000 and 1000 becomes 0 |
| `TokenBucketAspect.TestEndpointWindow` | src/main/java/com/hss/ratelimiter/controller/TestController.java:16 | 10000 MILLISECONDS becomes a 10-second window |
| `TokenBucketAspect.Verdict` | src/main/java/com/hss/ratelimiter/aspect/TokenBucketAspect.java:57-63 | the call goes through if and only if the acquire succeeded; otherwise it is rejected with the message and "123001" |
| `TokenBucketAspect.RateAccepted` | src/main/java/com/hss/ratelimiter/aspect/TokenBucketAspect.java:47-51 | `RateLimiter.create` accepts `(double) permits / len` exactly when it is positive: for a non-zero window when permits times window is positive, for a 0 window (positive infinity, or NaN for 0 / 0) when permits is positive |
| `TokenBucketAspect.RateExamples` | src/main/java/com/hss/ratelimiter/aspect/TokenBucketAspect.java:47-51 | 10 permits per 10 seconds is accepted; 0 permits is refused for every window |
| `TokenBucketAspect.Registered` | src/main/java/com/hss/ratelimiter/aspect/TokenBucketAspect.java:50-55 | after a lookup the key is present; an existing entry is kept; a missing key adds exactly one entry; every other key maps as before |
| `TokenBucketAspect.RegisteredIdempotent` | src/main/java/com/hss/ratelimiter/aspect/TokenBucketAspect.java:50-55 | a second lookup of the same key changes nothing and yields the first lookup's limiter, whatever rate it would create |
| `TokenBucketAspect.RateLimiter.constructor` | src/main/java/com/hss/ratelimiter/aspect/TokenBucketAspect.java:51 | a new limiter records the permits and the window in seconds its rate is computed from |
| `TokenBucketAspect.TokenBucketAspect.constructor` | src/main/java/com/hss/ratelimiter/aspect/TokenBucketAspect.java:27 | the registry starts empty |
| `TokenBucketAspect.TokenBucketAspect.Lookup` | src/main/java/com/hss/ratelimiter/aspect/TokenBucketAspect.java:48-55 | a present key yields its stored limiter and changes nothing; an absent key with a refused rate yields nothing and changes nothing, as `create` throws before the `put`; otherwise a fresh limiter with the given rate is added, and `limitMap` becomes `Registered(old limitMap, key, r)` |
| `TokenBucketAspect.TokenBucketAspect.Before` | src/main/java/com/hss/ratelimiter/aspect/TokenBucketAspect.java:29-64 | a key failure escapes and leaves `limitMap` unchanged; a first-seen key with a refused rate throws `IllegalArgumentException` and leaves it unchanged; otherwise the key's limiter is kept or freshly created with the converted window, it is the one asked to acquire, and the call is rejected exactly when the acquire fails |

## Left out

- The counting scripts loaded at `RatelimiterApplication.java:25,37` are not part of this model: the store is a function of the script call, so nothing is claimed about how counts evolve or about atomicity in the store.
- Guava's `RateLimiter` (refill, `tryAcquire(1, 100, MILLISECONDS)` with its timed wait) is a foreign, time-based library: a limiter is an object known by identity and by the integers of its rate, and the acquire outcome is a function argument. Of `create`, only its refusal of a rate that is not positive or is NaN is modelled.
- The rate `(double) permits / len` is floating point: a limiter records the integer permits and window length instead, and whether `create` accepts the quotient (including its infinite and NaN values when `len` is 0) is decided from the integers' signs.
- Concurrency: the `containsKey`-then-`put` on the concurrent map can race between threads; `Lookup` is modelled sequentially.
- Spring and Redis plumbing: pointcuts, the reflective annotation lookup, constructor injection, `StringRedisTemplate.execute`, logging, and the unboxing of a null `Long` reply.
- `RequestContextHolder` is replaced by a request parameter (headers and remote address), and `System.currentTimeMillis` by a clock-reading parameter.
- Header lookup is by exact name; the servlet container's case-insensitive matching of header names is not modelled.
- `JavaLang.EqualsIgnoreCase` folds only the ASCII letters; Java's Unicode case mapping, under which for example U+212A KELVIN SIGN matches `k`, is not modelled, so values such as "unKnown" are treated as not skipped.
- `RatelimiterApplication.java`, the annotation declarations and `TestController.java` are declarative; they appear only as data types and as one example.
