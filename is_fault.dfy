/**
 * `IsFault`: what every Fault enum shares — its exceptable type, its message key, and how it turns
 * into an Exceptable (`toExceptable`, `__invoke`).  The fault's own `message($context)` is late
 * bound in PHP (`$this->message(...)` inside the Exceptable's constructor); here it is passed in as
 * `message`, and `Faults` supplies the right one for each enum.
 */
module IsFault {
  import opened Wrappers
  import opened Values
  import SplClasses
  import ExceptableFaults
  import SplFaults
  import ErrorFaults
  import HandlerFaults
  import Exceptables
  import ThrowableContext

  /** The default `exceptableType()`, used by enums that do not override it. */
  const DefaultType: SplClasses.SplClass := SplClasses.RuntimeException

  /** `exceptableType()` of each enum; `MessageFault` keeps the default. */
  function ExceptableType(f: Fault): (r: SplClasses.SplClass)
    ensures f.MessageFault? ==> r == DefaultType
  {
    match f
    case ExceptableFault(c) => ExceptableFaults.ExceptableType(c)
    case SplFault(c) => SplFaults.ExceptableType(c)
    case ErrorFault(c) => ErrorFaults.ExceptableType(c)
    case HandlerFault(c) => HandlerFaults.ExceptableType(c)
    case MessageFault(_) => DefaultType
  }

  /** `messageKey()`: the bare case name. */
  function MessageKey(f: Fault): string {
    CaseName(f)
  }

  /** `is_string($message) ? "{$error}: {$message}" : $error` with `$error = name()`. */
  function Named(f: Fault, message: Option<string>): (r: string)
    ensures message.None? ==> r == FaultName(f)
    ensures message.Some? ==> |r| == |FaultName(f)| + 2 + |message.value| && r[..|FaultName(f)|] == FaultName(f)
  {
    match message
    case None => FaultName(f)
    case Some(m) => FaultName(f) + ": " + m
  }

  /**
   * `toExceptable($context, $previous)`: the context gets the throwable details only when there is
   * a previous throwable; then `new $x($this, $context, $previous)` with `$x = exceptableType()`.
   */
  function ToExceptableWith(f: Fault, context: Ctx, previous: Option<Throwable>, message: Ctx -> Outcome<string>)
    : Outcome<Throwable>
  {
    var augmented := if previous.Some? then ThrowableContext.Add(context, previous) else Done(context);
    match augmented
    case Raised(t) => Raised(t)
    case Done(c) => Exceptables.Construct(f, ExceptableType(f), c, previous, message)
  }

  /** `__invoke($context, $previous)`: always adds the throwable details, then `toExceptable`. */
  function InvokeWith(f: Fault, context: Ctx, previous: Option<Throwable>, message: Ctx -> Outcome<string>)
    : Outcome<Throwable>
  {
    match ThrowableContext.Add(context, previous)
    case Raised(t) => Raised(t)
    case Done(c) => ToExceptableWith(f, c, previous, message)
  }

  /** Without a previous throwable, `toExceptable` passes the caller's context through untouched. */
  lemma ToExceptableAlone(f: Fault, context: Ctx, message: Ctx -> Outcome<string>)
    ensures ToExceptableWith(f, context, None, message)
      == Exceptables.Construct(f, ExceptableType(f), context, None, message)
  {
  }

  /** What a built Exceptable carries: this fault, the previous throwable, the exceptable type, code 0. */
  lemma ToExceptableFields(f: Fault, context: Ctx, previous: Option<Throwable>, message: Ctx -> Outcome<string>)
    requires ToExceptableWith(f, context, previous, message).Done?
    ensures var x := ToExceptableWith(f, context, previous, message).value;
      x.fault == Some(f) && x.previous == previous && x.code == 0 &&
      x.tag == SplClasses.Tag(ExceptableType(f)) &&
      x.given == (if previous.Some? then ThrowableContext.Add(context, previous).value else context) &&
      Exceptables.Root(x) == (if previous.Some? then Exceptables.RootOf(previous.value) else x)
  {
  }

  /**
   * `__invoke` and `toExceptable` build the same Exceptable once a previous throwable is given:
   * the second augmentation inside `toExceptable` finds nothing left to add.
   */
  lemma InvokeIsToExceptable(f: Fault, context: Ctx, p: Throwable, message: Ctx -> Outcome<string>)
    ensures InvokeWith(f, context, Some(p), message) == ToExceptableWith(f, context, Some(p), message)
  {
    if ThrowableContext.Add(context, Some(p)).Done? {
      ThrowableContext.AddIdempotent(context, Some(p));
    }
  }

  /**
   * Whatever the previous throwable, an invoked fault keeps every entry of the caller's context,
   * in front, and has all three throwable slots in its context.
   */
  lemma InvokeKeepsContext(f: Fault, context: Ctx, previous: Option<Throwable>, message: Ctx -> Outcome<string>)
    requires InvokeWith(f, context, previous, message).Done?
    ensures var x := InvokeWith(f, context, previous, message).value;
      x.fault == Some(f) && x.previous == previous &&
      x.given == ThrowableContext.Add(context, previous).value &&
      |x.given| >= |context| && x.given[..|context|] == context &&
      forall s :: HasKey(x.given, ThrowableContext.SlotKey(s))
  {
    var c := ThrowableContext.Add(context, previous).value;
    ThrowableContext.AddExtends(context, previous);
    if previous.Some? {
      ThrowableContext.AddIdempotent(context, previous);
    }
  }
}
