/**
 * Class tags for throwables and the Exceptable implementations of the Spl exception types.
 * A tag names a class together with every class and interface it extends or implements, so that
 * PHP's `is_a`/`instanceof` against a class name is membership in the tag.
 */
module SplClasses {

  /** A class and all its ancestors (parent classes and implemented interfaces). */
  datatype ClassTag = ClassTag(name: string, ancestors: set<string>)

  /** `is_a($x, $name)` / `$x instanceof $name` for an object whose class has tag `t`. */
  predicate IsA(t: ClassTag, name: string) {
    name == t.name || name in t.ancestors
  }

  const ExceptableInterface: string := "at\\exceptable\\Exceptable"
  const ThrowableInterface: string := "Throwable"

  /** Tag of PHP's `TypeError`, which the runtime raises when a typed parameter receives a wrong value. */
  const TypeErrorTag: ClassTag := ClassTag("TypeError", {"Error", "Throwable", "Stringable"})

  /** The thirteen Exceptable classes under `at\exceptable\Spl`, one per Spl exception type. */
  datatype SplClass =
    | BadFunctionCallException | BadMethodCallException | DomainException | InvalidArgumentException
    | LengthException | LogicException | OutOfBoundsException | OutOfRangeException
    | OverflowException | RangeException | RuntimeException | UnderflowException
    | UnexpectedValueException

  /** The unqualified class name, which is also the name of the native Spl class it extends. */
  function ShortName(c: SplClass): string {
    match c
    case BadFunctionCallException => "BadFunctionCallException"
    case BadMethodCallException => "BadMethodCallException"
    case DomainException => "DomainException"
    case InvalidArgumentException => "InvalidArgumentException"
    case LengthException => "LengthException"
    case LogicException => "LogicException"
    case OutOfBoundsException => "OutOfBoundsException"
    case OutOfRangeException => "OutOfRangeException"
    case OverflowException => "OverflowException"
    case RangeException => "RangeException"
    case RuntimeException => "RuntimeException"
    case UnderflowException => "UnderflowException"
    case UnexpectedValueException => "UnexpectedValueException"
  }

  function ClassName(c: SplClass): string {
    "at\\exceptable\\Spl\\" + ShortName(c)
  }

  /** The native Spl class hierarchy above (and including) the class each Exceptable extends. */
  function NativeAncestors(c: SplClass): set<string> {
    match c
    case BadFunctionCallException => {"BadFunctionCallException", "LogicException", "Exception"}
    case BadMethodCallException =>
      {"BadMethodCallException", "BadFunctionCallException", "LogicException", "Exception"}
    case DomainException => {"DomainException", "LogicException", "Exception"}
    case InvalidArgumentException => {"InvalidArgumentException", "LogicException", "Exception"}
    case LengthException => {"LengthException", "LogicException", "Exception"}
    case LogicException => {"LogicException", "Exception"}
    case OutOfBoundsException => {"OutOfBoundsException", "RuntimeException", "Exception"}
    case OutOfRangeException => {"OutOfRangeException", "LogicException", "Exception"}
    case OverflowException => {"OverflowException", "RuntimeException", "Exception"}
    case RangeException => {"RangeException", "RuntimeException", "Exception"}
    case RuntimeException => {"RuntimeException", "Exception"}
    case UnderflowException => {"UnderflowException", "RuntimeException", "Exception"}
    case UnexpectedValueException => {"UnexpectedValueException", "RuntimeException", "Exception"}
  }

  /** Tag of an Exceptable Spl class: it extends the native class and implements Exceptable. */
  function Tag(c: SplClass): (t: ClassTag)
    ensures IsA(t, ExceptableInterface) && IsA(t, ThrowableInterface) && IsA(t, "Exception")
    ensures IsA(t, ShortName(c))
  {
    ClassTag(ClassName(c), NativeAncestors(c) + {ThrowableInterface, "Stringable", ExceptableInterface})
  }

  /** Distinct Spl classes have distinct names, so a class name identifies the class. */
  lemma ClassNameInjective(a: SplClass, b: SplClass)
    requires ClassName(a) == ClassName(b)
    ensures a == b
  {
    assert ShortName(a) == ClassName(a)[|"at\\exceptable\\Spl\\"|..];
    assert ShortName(b) == ClassName(b)[|"at\\exceptable\\Spl\\"|..];
  }
}
