/** `HandlerFault`: raised when a Handler's success or failure callback itself throws. */
module HandlerFaults {
  import SplClasses

  const ClassName: string := "at\\exceptable\\Handler\\HandlerFault"

  datatype Case = SuccessHandlerFailed | FailureHandlerFailed

  function CaseName(c: Case): string {
    match c
    case SuccessHandlerFailed => "SuccessHandlerFailed"
    case FailureHandlerFailed => "FailureHandlerFailed"
  }

  function Template(c: Case): string {
    match c
    case SuccessHandlerFailed => "onSuccess({result}) failed: {__rootMessage__}"
    case FailureHandlerFailed => "onFailure({result}) failed: {__rootMessage__}"
  }

  /** Both cases are logic errors; the source's `default` arm cannot be reached and is not modelled. */
  function ExceptableType(c: Case): (r: SplClasses.SplClass)
    ensures r == SplClasses.LogicException
  {
    SplClasses.LogicException
  }
}
