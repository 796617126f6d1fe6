/** The annotation values the aspects read, with the default message of `@Limiter`. */
module Annotations {
  import opened JavaLang

  /** java.util.concurrent.TimeUnit. */
  datatype TimeUnit = NANOSECONDS | MICROSECONDS | MILLISECONDS | SECONDS | MINUTES | HOURS | DAYS

  const DefaultMsg: string := "请不要频繁点击"

  /** `@Limiter(res, permits, msg)`. */
  datatype Limiter = Limiter(res: string, permits: Int32, msg: string)

  /** `@FixedWindow(limiter, len, unit)`. */
  datatype FixedWindow = FixedWindow(limiter: Limiter, len: Int64, unit: TimeUnit)

  /** `@SlidingWindow(limiter, len, unit)`. */
  datatype SlidingWindow = SlidingWindow(limiter: Limiter, len: Int64, unit: TimeUnit)

  /** `@TokenBucket(limiter, len, unit)`. */
  datatype TokenBucket = TokenBucket(limiter: Limiter, len: Int64, unit: TimeUnit)
}
