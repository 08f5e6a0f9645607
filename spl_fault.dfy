/** `SplFault`: one fault per Spl exception type, each raised as the matching Exceptable class. */
module SplFaults {
  import SplClasses

  const ClassName: string := "at\\exceptable\\Spl\\SplFault"

  datatype Case =
    | BadFunctionCall | BadMethodCall | DomainError | InvalidArgument | LengthError | LogicError
    | OutOfBounds | OutOfRange | Overflow | RangeError | RuntimeError | Underflow | UnexpectedValue

  const Cases: seq<Case> := [
    BadFunctionCall, BadMethodCall, DomainError, InvalidArgument, LengthError, LogicError,
    OutOfBounds, OutOfRange, Overflow, RangeError, RuntimeError, Underflow, UnexpectedValue]

  function CaseName(c: Case): string {
    match c
    case BadFunctionCall => "BadFunctionCall"
    case BadMethodCall => "BadMethodCall"
    case DomainError => "DomainError"
    case InvalidArgument => "InvalidArgument"
    case LengthError => "LengthError"
    case LogicError => "LogicError"
    case OutOfBounds => "OutOfBounds"
    case OutOfRange => "OutOfRange"
    case Overflow => "Overflow"
    case RangeError => "RangeError"
    case RuntimeError => "RuntimeError"
    case Underflow => "Underflow"
    case UnexpectedValue => "UnexpectedValue"
  }

  /**
   * `exceptableType()`: each case maps to the Exceptable class named after it.  The source's
   * `default` arm is unreachable for declared cases and is not modelled.
   */
  function ExceptableType(c: Case): SplClasses.SplClass {
    match c
    case BadFunctionCall => SplClasses.BadFunctionCallException
    case BadMethodCall => SplClasses.BadMethodCallException
    case DomainError => SplClasses.DomainException
    case InvalidArgument => SplClasses.InvalidArgumentException
    case LengthError => SplClasses.LengthException
    case LogicError => SplClasses.LogicException
    case OutOfBounds => SplClasses.OutOfBoundsException
    case OutOfRange => SplClasses.OutOfRangeException
    case Overflow => SplClasses.OverflowException
    case RangeError => SplClasses.RangeException
    case RuntimeError => SplClasses.RuntimeException
    case Underflow => SplClasses.UnderflowException
    case UnexpectedValue => SplClasses.UnexpectedValueException
  }

  /** The mapping is one-to-one: distinct cases are raised as distinct classes ... */
  lemma ExceptableTypeInjective(a: Case, b: Case)
    requires ExceptableType(a) == ExceptableType(b)
    ensures a == b
  {
  }

  /** ... and every Spl Exceptable class is the class of some case. */
  lemma ExceptableTypeSurjective(k: SplClasses.SplClass)
    ensures exists c :: ExceptableType(c) == k
  {
    match k
    case BadFunctionCallException => assert ExceptableType(BadFunctionCall) == k;
    case BadMethodCallException => assert ExceptableType(BadMethodCall) == k;
    case DomainException => assert ExceptableType(DomainError) == k;
    case InvalidArgumentException => assert ExceptableType(InvalidArgument) == k;
    case LengthException => assert ExceptableType(LengthError) == k;
    case LogicException => assert ExceptableType(LogicError) == k;
    case OutOfBoundsException => assert ExceptableType(OutOfBounds) == k;
    case OutOfRangeException => assert ExceptableType(OutOfRange) == k;
    case OverflowException => assert ExceptableType(Overflow) == k;
    case RangeException => assert ExceptableType(RangeError) == k;
    case RuntimeException => assert ExceptableType(RuntimeError) == k;
    case UnderflowException => assert ExceptableType(Underflow) == k;
    case UnexpectedValueException => assert ExceptableType(UnexpectedValue) == k;
  }

  /** The `MESSAGES` table: every case name maps to the root message placeholder. */
  function Messages(): (m: seq<(string, string)>)
    ensures |m| == |Cases|
    ensures forall i :: 0 <= i < |m| ==> m[i] == (CaseName(Cases[i]), "{__rootMessage__}")
  {
    seq(|Cases|, i requires 0 <= i < |Cases| => (CaseName(Cases[i]), "{__rootMessage__}"))
  }

  /** Case names are distinct: the `MESSAGES` table has one entry per case. */
  lemma CaseNameInjective(a: Case, b: Case)
    requires CaseName(a) == CaseName(b)
    ensures a == b
  {
    assert CaseName(a)[0] == CaseName(b)[0] && |CaseName(a)| == |CaseName(b)|;
  }

  /** Case names are plain words starting with a capital letter. */
  lemma CaseNameShape(c: Case)
    ensures |CaseName(c)| > 0 && 'A' <= CaseName(c)[0] <= 'Z'
    ensures '\\' !in CaseName(c) && '.' !in CaseName(c)
  {
    match c
    case BadFunctionCall => LiteralShape("BadFunctionCall");
    case BadMethodCall => LiteralShape("BadMethodCall");
    case DomainError => LiteralShape("DomainError");
    case InvalidArgument => LiteralShape("InvalidArgument");
    case LengthError => LiteralShape("LengthError");
    case LogicError => LiteralShape("LogicError");
    case OutOfBounds => LiteralShape("OutOfBounds");
    case OutOfRange => LiteralShape("OutOfRange");
    case Overflow => LiteralShape("Overflow");
    case RangeError => LiteralShape("RangeError");
    case RuntimeError => LiteralShape("RuntimeError");
    case Underflow => LiteralShape("Underflow");
    case UnexpectedValue => LiteralShape("UnexpectedValue");
  }

  lemma LiteralShape(s: string)
    requires forall i | 0 <= i < |s| :: s[i] != '\\' && s[i] != '.'
    ensures '\\' !in s && '.' !in s
  {
  }

  /** Where a case sits in `Cases`. */
  function CaseIndex(c: Case): (i: nat)
    ensures i < |Cases| && Cases[i] == c
  {
    match c
    case BadFunctionCall => 0
    case BadMethodCall => 1
    case DomainError => 2
    case InvalidArgument => 3
    case LengthError => 4
    case LogicError => 5
    case OutOfBounds => 6
    case OutOfRange => 7
    case Overflow => 8
    case RangeError => 9
    case RuntimeError => 10
    case Underflow => 11
    case UnexpectedValue => 12
  }
}
