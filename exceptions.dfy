/**
 * What an aspect's `before` advice can end in: the intercepted call proceeds,
 * or an exception is thrown out of the advice.
 */
module Exceptions {

  /** The error code every rejection carries. */
  const RejectCode: string := "123001"

  datatype Exception =
    /** `LimiterException(message, errorCode)`: a rate limit was hit. */
    | LimiterException(message: string, errorCode: string)
    /** `ArrayIndexOutOfBoundsException` escaping from the client-address parsing. */
    | IndexOutOfBounds
    /** `IllegalArgumentException` from creating a token-bucket limiter with a rate that is not positive. */
    | IllegalArgument

  datatype Outcome = Proceed | Thrown(ex: Exception)

  /** The rejection raised by all three aspects: the annotation's message with the fixed code. */
  function Rejection(msg: string): Outcome
  {
    Thrown(LimiterException(msg, RejectCode))
  }
}
