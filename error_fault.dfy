/** `ErrorFault`: one fault per native PHP error type, backed by the `E_*` constant. */
module ErrorFaults {
  import SplClasses

  const ClassName: string := "at\\exceptable\\Spl\\ErrorFault"

  datatype Case =
    | RecoverableError | Warning | Notice | Strict | Deprecated
    | UserError | UserWarning | UserNotice | UserDeprecated

  function CaseName(c: Case): string {
    match c
    case RecoverableError => "RecoverableError"
    case Warning => "Warning"
    case Notice => "Notice"
    case Strict => "Strict"
    case Deprecated => "Deprecated"
    case UserError => "UserError"
    case UserWarning => "UserWarning"
    case UserNotice => "UserNotice"
    case UserDeprecated => "UserDeprecated"
  }

  /** Is `n` a power of two (a single error-type bit)? */
  predicate SingleBit(n: int) decreases if n < 0 then 0 else n {
    n == 1 || (n > 1 && n % 2 == 0 && SingleBit(n / 2))
  }

  /** The backing value: PHP's `E_*` constant for the error type. */
  function Value(c: Case): (v: int)
    ensures SingleBit(v)
  {
    match c
    case RecoverableError => 4096  // E_RECOVERABLE_ERROR
    case Warning => 2              // E_WARNING
    case Notice => 8               // E_NOTICE
    case Strict => 2048            // E_STRICT
    case Deprecated => 8192        // E_DEPRECATED
    case UserError => 256          // E_USER_ERROR
    case UserWarning => 512        // E_USER_WARNING
    case UserNotice => 1024        // E_USER_NOTICE
    case UserDeprecated => 16384   // E_USER_DEPRECATED
  }

  /** Distinct cases have distinct error-type bits. */
  lemma ValueInjective(a: Case, b: Case)
    requires Value(a) == Value(b)
    ensures a == b
  {
  }

  /** `exceptableType()`: runtime-level errors become RuntimeException, the rest LogicException. */
  function ExceptableType(c: Case): (r: SplClasses.SplClass)
    ensures r == SplClasses.RuntimeException <==> c in {Warning, Notice, UserError, UserWarning, UserNotice}
    ensures r == SplClasses.LogicException <==> c in {Strict, RecoverableError, Deprecated, UserDeprecated}
  {
    match c
    case Warning | Notice | UserError | UserWarning | UserNotice => SplClasses.RuntimeException
    case Strict | RecoverableError | Deprecated | UserDeprecated => SplClasses.LogicException
  }
}
