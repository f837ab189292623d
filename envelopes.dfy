/**
 * The uniform response envelope `{ok, data, error, meta}` that every tool of
 * the service returns, and the fixed vocabulary of error codes.
 */
module Envelopes {
  import opened Outcomes

  datatype ErrorInfo = ErrorInfo(message: string, code: string)

  datatype Envelope<+D> = Envelope(ok: bool, data: Option<D>, error: Option<ErrorInfo>, meta: map<string, string>)

  const VALIDATION_ERROR: string := "VALIDATION_ERROR"
  const MATH_ERROR: string := "MATH_ERROR"
  const HTTP_ERROR: string := "HTTP_ERROR"
  const CONFIG_ERROR: string := "CONFIG_ERROR"
  const INTERNAL_ERROR: string := "INTERNAL_ERROR"

  /** The error codes a tool of the service may report. */
  predicate IsKnownCode(code: string) {
    code == VALIDATION_ERROR || code == MATH_ERROR || code == HTTP_ERROR
    || code == CONFIG_ERROR || code == INTERNAL_ERROR
  }

  /** A success envelope: data present, no error, empty meta. */
  predicate IsSuccess<D>(e: Envelope<D>) {
    e.ok && e.data.Some? && e.error.None? && e.meta == map[]
  }

  /** A failure envelope: no data, an error record, empty meta. */
  predicate IsFailure<D>(e: Envelope<D>) {
    !e.ok && e.data.None? && e.error.Some? && e.meta == map[]
  }

  /**
   * What every tool promises its caller: exactly one of data and error is
   * present, `ok` says which, and a reported code is from the vocabulary.
   */
  predicate WellFormed<D>(e: Envelope<D>) {
    (IsSuccess(e) || IsFailure(e))
    && (e.error.Some? ==> IsKnownCode(e.error.value.code))
  }
}
