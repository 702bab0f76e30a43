/**
 * The status codes of the circulation desk (the `StatusCodes` enum).
 * Each constructor carries the numeric code the Java method returns as a
 * double; here it is written in tenths, so 3.1 is 31.
 */
module StatusCodes {

  datatype StatusCode =
    | Eligible
    | PatronNull
    | PatronSuspended
    | PatronOverdue
    | FineLimit
    | BookNull
    | BookUnavailable
    | BookReference
    | CheckoutLimit
    | SuccessCheckoutWarning
    | SuccessOverdueWarning
    | SuccessRenewal
    | Success

  /** The numeric code of `c`, times ten (`getCode()`). */
  function Code(c: StatusCode): (tenths: nat)
    ensures tenths <= 50
    ensures tenths == 0 <==> c == Eligible || c == Success
  {
    match c
    case Eligible => 0
    case PatronNull => 31
    case PatronSuspended => 30
    case PatronOverdue => 40
    case FineLimit => 41
    case BookNull => 21
    case BookUnavailable => 20
    case BookReference => 50
    case CheckoutLimit => 32
    case SuccessCheckoutWarning => 11
    case SuccessOverdueWarning => 10
    case SuccessRenewal => 1
    case Success => 0
  }

  /** Codes 2.x to 5.x are the failures; 0.x and 1.x are successes. */
  predicate IsFailure(c: StatusCode)
  {
    Code(c) >= 20
  }

  /**
   * Comparing the returned doubles is unambiguous: two distinct codes have
   * distinct numbers, except ELIGIBLE and SUCCESS, which are both 0.0.
   */
  lemma CodeDeterminesStatus(a: StatusCode, b: StatusCode)
    ensures Code(a) == Code(b) <==> a == b || (Code(a) == 0 && (a == Eligible || a == Success) && (b == Eligible || b == Success))
  {
  }

  /** The failure family is exactly the nine error codes. */
  lemma FailureCodes(c: StatusCode)
    ensures IsFailure(c) <==> c !in {Eligible, Success, SuccessRenewal, SuccessOverdueWarning, SuccessCheckoutWarning}
  {
  }
}
