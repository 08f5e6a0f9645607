/** `ExceptableFault`: the faults the framework raises about its own misuse. */
module ExceptableFaults {
  import SplClasses

  const ClassName: string := "at\\exceptable\\ExceptableFault"

  /** Fully qualified name of the Fault interface, interpolated into one template. */
  const FaultInterface: string := "at\\exceptable\\Fault"

  datatype Case = UnknownFault | UnacceptableFault | UncaughtException | UnacceptableLogMessage | UnknownError

  const Cases: seq<Case> := [UnknownFault, UnacceptableFault, UncaughtException, UnacceptableLogMessage, UnknownError]

  function CaseName(c: Case): string {
    match c
    case UnknownFault => "UnknownFault"
    case UnacceptableFault => "UnacceptableFault"
    case UncaughtException => "UncaughtException"
    case UnacceptableLogMessage => "UnacceptableLogMessage"
    case UnknownError => "UnknownError"
  }

  /** The backing value of each case: its message template. */
  function Template(c: Case): string {
    match c
    case UnknownFault => "{__rootMessage__}"
    case UnacceptableFault => "Invalid Fault type ''{type}'' (expected implementation of " + FaultInterface + ")"
    case UncaughtException => "Uncaught Exception ({__rootType__}): {__rootMessage__}"
    case UnacceptableLogMessage => "Invalid log entry message: {type} ({from})"
    case UnknownError => "Unknown error (message is missing). Last error: {error_get_last}"
  }

  /** `exceptableType()`: the match covers every case, so no fallback class is needed. */
  function ExceptableType(c: Case): (r: SplClasses.SplClass)
    ensures r == SplClasses.LogicException <==> c == UnknownFault || c == UnacceptableFault
    ensures r == SplClasses.RuntimeException <==> c == UncaughtException
    ensures r == SplClasses.InvalidArgumentException <==> c == UnacceptableLogMessage || c == UnknownError
  {
    match c
    case UnacceptableFault | UnknownFault => SplClasses.LogicException
    case UncaughtException => SplClasses.RuntimeException
    case UnacceptableLogMessage | UnknownError => SplClasses.InvalidArgumentException
  }
}
