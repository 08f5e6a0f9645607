/**
 * `LogEntry` and its subclasses `DebugLogEntry`, `FaultLogEntry`, `ErrorLogEntry` and
 * `ThrowableLogEntry`.  Entries are read-only once built, so they are values here.  `from`
 * picks a factory by the type of what is logged; each factory reads file, line and `__handled__`
 * from the context (or the throwable, or the error array), and the constructor stamps the time and
 * augments the context: the base keys `__file__`, `__line__`, `__time__` in front of the
 * subclass's own keys in front of the caller's, then `ksort`.
 *
 * PHP checks declared parameter types strictly here (`strict_types`), so a context value of the
 * wrong type for `file`, `line`, `message` or `handled` makes the constructor raise a `TypeError`.
 */
module LogEntries {
  import opened Wrappers
  import opened Values
  import ExceptableFaults
  import MessageFaults
  import DebugMessages
  import Registry
  import ThrowableContext
  import EnumeratesFaults
  import Faults

  /**
   * The runtime values entries read: `microtime(true)` (a float, kept as its text),
   * `error_reporting()` and `error_get_last()`.
   */
  datatype Ambient = Ambient(now: string, errorReporting: int, lastError: Option<Ctx>)

  /** The subclass of an entry, with the fields only that subclass has. */
  datatype Kind =
    | DebugEntry
    | FaultEntry(fault: Fault)
    | ErrorEntry(code: int, controlled: bool)
    | ThrowableEntry(exception: Throwable, carried: Option<Fault>)

  datatype LogEntry = LogEntry(
    kind: Kind,
    file: Option<string>,
    line: Option<int>,
    message: Option<string>,
    context: Ctx,
    handled: bool,
    time: string)

  function FileValue(file: Option<string>): Value {
    if file.Some? then Str(file.value) else Null
  }

  function LineValue(line: Option<int>): Value {
    if line.Some? then Int(line.value) else Null
  }

  function FaultValue(f: Option<Fault>): Value {
    if f.Some? then FaultV(f.value) else Null
  }

  /** `LogEntry::augmentContext`'s own keys. */
  function BaseKeys(file: Option<string>, line: Option<int>, time: string): Ctx {
    [("__file__", FileValue(file)), ("__line__", LineValue(line)), ("__time__", Float(time))]
  }

  /** The keys each subclass's `augmentContext` override puts in front of the caller's. */
  function OwnKeys(kind: Kind): Ctx {
    match kind
    case DebugEntry => []
    case FaultEntry(f) => [("__fault__", FaultV(f))]
    case ErrorEntry(code, controlled) => [("__code__", Int(code)), ("__controlled__", Bool(controlled))]
    case ThrowableEntry(e, f) => [("__exception__", ThrowableV(e)), ("__fault__", FaultValue(f))]
  }

  /** `parent::augmentContext($own + $context)`: base keys, then own keys, then the caller's; sorted by key. */
  function AugmentContext(kind: Kind, file: Option<string>, line: Option<int>, time: string, context: Ctx): Ctx {
    KSort(Union(BaseKeys(file, line, time), Union(OwnKeys(kind), context)))
  }

  /** The constructor, once its arguments have their types: `time` first, then the augmented context. */
  function NewEntry(kind: Kind, file: Option<string>, line: Option<int>, message: Option<string>, context: Ctx,
                    handled: bool, now: string): LogEntry {
    LogEntry(kind, file, line, message, AugmentContext(kind, file, line, now, context), handled, now)
  }

  // ---------------------------------------------------------------------------------------------
  // Strict parameter types

  function ArgumentError(parameter: string, expected: string, v: Value): Throwable {
    TypeError(parameter + " must be of type " + expected + ", " + DebugType(v) + " given")
  }

  const Constructor: string := "at\\exceptable\\Debug\\LogEntry::__construct(): "

  /** A value passed for a `?string` parameter. */
  function NullableString(v: Value, parameter: string): (r: Outcome<Option<string>>)
    ensures r.Done? <==> v.Null? || v.Str?
    ensures v.Str? ==> r == Done(Some(v.s))
  {
    match v
    case Null => Done(None)
    case Str(s) => Done(Some(s))
    case _ => Raised(ArgumentError(parameter, "?string", v))
  }

  /** A value passed for a `?int` parameter. */
  function NullableInt(v: Value, parameter: string): (r: Outcome<Option<int>>)
    ensures r.Done? <==> v.Null? || v.Int?
    ensures v.Int? ==> r == Done(Some(v.i))
  {
    match v
    case Null => Done(None)
    case Int(i) => Done(Some(i))
    case _ => Raised(ArgumentError(parameter, "?int", v))
  }

  /** A value passed for a `bool` parameter. */
  function BoolArg(v: Value, parameter: string): (r: Outcome<bool>)
    ensures r.Done? <==> v.Bool?
    ensures v.Bool? ==> r == Done(v.b)
  {
    match v
    case Bool(b) => Done(b)
    case _ => Raised(ArgumentError(parameter, "bool", v))
  }

  /**
   * `parent::__construct(file:, line:, message:, context:, handled:)` with the arguments as the
   * factory computed them: each is checked against its declared type, in order.
   */
  function Construct(kind: Kind, file: Value, line: Value, message: Value, context: Ctx, handled: Value, now: string)
    : Outcome<LogEntry>
  {
    match NullableString(file, Constructor + "Argument #1 ($file)")
    case Raised(t) => Raised(t)
    case Done(fl) =>
      match NullableInt(line, Constructor + "Argument #2 ($line)")
      case Raised(t) => Raised(t)
      case Done(ln) =>
        match NullableString(message, Constructor + "Argument #3 ($message)")
        case Raised(t) => Raised(t)
        case Done(m) =>
          match BoolArg(handled, Constructor + "Argument #5 ($handled)")
          case Raised(t) => Raised(t)
          case Done(h) => Done(NewEntry(kind, fl, ln, m, context, h, now))
  }

  /** `$context["__handled__"] ?? false`. */
  function Handled(context: Ctx): Value {
    Coalesce(context, "__handled__", Bool(false))
  }

  // ---------------------------------------------------------------------------------------------
  // Factories

  /** `fromFault`: file and line from the context, the fault's message over the context. */
  function FromFault(env: Registry.Env, amb: Ambient, f: Fault, context: Ctx): Outcome<LogEntry> {
    match Faults.Message(env, f, context)
    case Raised(t) => Raised(t)
    case Done(m) =>
      Construct(FaultEntry(f), Get(context, "__file__"), Get(context, "__line__"), Str(m), context, Handled(context), amb.now)
  }

  /** `fromThrowable`: file, line and message from the throwable; the fault it carries, if any. */
  function FromThrowable(amb: Ambient, e: Throwable, context: Ctx): Outcome<LogEntry> {
    Construct(ThrowableEntry(e, e.fault), Str(e.file), Int(e.line), Str(e.message), context, Handled(context), amb.now)
  }

  /** A message result as the value passed on: the string, or the `MessageFault` case. */
  function ResultValue(r: Registry.MessageResult): Value {
    match r
    case Msg(s) => Str(s)
    case Failed(c) => FaultV(MessageFault(c))
  }

  /**
   * `fromMessage`: a message enum formats its own template (`MessageEnum::message`, with
   * `onlyIf`); a string is formatted as a format over the context.
   */
  function FromMessage(env: Registry.Env, amb: Ambient, m: Value, context: Ctx): Outcome<LogEntry>
    requires m.Str? || m.MessageV?
  {
    var r := MessageText(env, m, context);
    Construct(DebugEntry, Get(context, "__file__"), Get(context, "__line__"), ResultValue(r), context, Handled(context), amb.now)
  }

  /** The message a debug entry gets: `$message->message($context)` or `formatMessage($message, $context)`. */
  function MessageText(env: Registry.Env, m: Value, context: Ctx): Registry.MessageResult
    requires m.Str? || m.MessageV?
  {
    if m.MessageV? then Registry.FormatMessage(DebugMessages.Template(m.m), context, true, env.encode)
    else Registry.FormatMessage(m.s, context, false, env.encode)
  }

  /** The error array `fromError` works on: the argument, or `error_get_last()` when that is empty. */
  function ErrorInfo(amb: Ambient, error: Option<Ctx>): Option<Ctx> {
    if error.None? || error.value == [] then amb.lastError else error
  }

  /** `$error[$k] ?? $d`, where `$error` may be null. */
  function ErrorField(error: Option<Ctx>, k: string, d: Value): Value {
    if error.Some? then Coalesce(error.value, k, d) else d
  }

  function LastErrorValue(amb: Ambient): Value {
    if amb.lastError.Some? then Arr(amb.lastError.value) else Null
  }

  /** `ExceptableFault::UnknownError->message(["error_get_last" => error_get_last()])`. */
  function UnknownErrorMessage(env: Registry.Env, amb: Ambient): Outcome<Value> {
    match Faults.Message(env, ExceptableFault(ExceptableFaults.UnknownError), [("error_get_last", LastErrorValue(amb))])
    case Raised(t) => Raised(t)
    case Done(s) => Done(Str(s))
  }

  /** `null + array`: PHP 8 throws a `TypeError` for it. */
  const NullPlusArray: Throwable := TypeError("Unsupported operand types: null + array")

  /**
   * The message argument of `fromError` as written: a missing `message` is replaced by the
   * `UnknownError` message, but the call also evaluates `$error + $context`, which throws when
   * there is no error array at all.
   */
  function ErrorMessageAsWritten(env: Registry.Env, amb: Ambient, error: Option<Ctx>): Outcome<Value> {
    if error.Some? && Isset(error.value, "message") then Done(Lookup(error.value, "message").value)
    else if error.None? then Raised(NullPlusArray)
    else UnknownErrorMessage(env, amb)
  }

  /** The message argument as intended: the error's message, else the `UnknownError` message. */
  function ErrorMessage(env: Registry.Env, amb: Ambient, error: Option<Ctx>): Outcome<Value> {
    if error.Some? && Isset(error.value, "message") then Done(Lookup(error.value, "message").value)
    else UnknownErrorMessage(env, amb)
  }

  /**
   * `new ErrorLogEntry(code:, file:, line:, message:, context:, handled:)` once the message is
   * known: `code` must be an int, `controlled` is whether `error_reporting()` is 0.
   */
  function ErrorEntryFrom(amb: Ambient, error: Option<Ctx>, message: Value, context: Ctx): Outcome<LogEntry> {
    var code := ErrorField(error, "type", Int(0));
    var file := if error.Some? && Isset(error.value, "file") then Lookup(error.value, "file").value else Get(context, "__file__");
    var line := if error.Some? && Isset(error.value, "line") then Lookup(error.value, "line").value else Get(context, "__line__");
    if !code.Int? then Raised(ArgumentError("at\\exceptable\\Debug\\ErrorLogEntry::__construct(): Argument #1 ($code)", "int", code))
    else Construct(ErrorEntry(code.i, amb.errorReporting == 0), file, line, message, context, Handled(context), amb.now)
  }

  /** `fromError` as written. */
  function FromErrorAsWritten(env: Registry.Env, amb: Ambient, error: Option<Ctx>, context: Ctx): Outcome<LogEntry> {
    var e := ErrorInfo(amb, error);
    match ErrorMessageAsWritten(env, amb, e)
    case Raised(t) => Raised(t)
    case Done(m) => ErrorEntryFrom(amb, e, m, context)
  }

  /** `fromError` as intended: with no error information the entry carries the `UnknownError` message. */
  function FromError(env: Registry.Env, amb: Ambient, error: Option<Ctx>, context: Ctx): Outcome<LogEntry> {
    var e := ErrorInfo(amb, error);
    match ErrorMessage(env, amb, e)
    case Raised(t) => Raised(t)
    case Done(m) => ErrorEntryFrom(amb, e, m, context)
  }

  /** The context the `default` arm logs: `["type" => get_debug_type($from), "from" => $from, "context" => $context]`. */
  function UnacceptableContext(from: Value, context: Ctx): Ctx {
    [("type", Str(DebugType(from))), ("from", from), ("context", Arr(context))]
  }

  /** The `default` arm of `from`: an `UnacceptableLogMessage` fault entry instead of an exception. */
  function Unacceptable(env: Registry.Env, amb: Ambient, from: Value, context: Ctx): Outcome<LogEntry> {
    FromFault(env, amb, ExceptableFault(ExceptableFaults.UnacceptableLogMessage), UnacceptableContext(from, context))
  }

  const FromErrorArgument: string := "at\\exceptable\\Debug\\LogEntry::fromError(): Argument #1 ($error)"

  /**
   * `LogEntry::from` as written.  `DebugMessages` (the only message enum the core logs) implements
   * `HasMessages` but not `EnumeratesMessages`, so it reaches the `default` arm; and the loose
   * `$from == null` sends `false` and `0` on to `fromError(?array)`, which rejects them.
   */
  function FromAsWritten(env: Registry.Env, amb: Ambient, from: Value, context: Ctx): Outcome<LogEntry> {
    match from
    case FaultV(f) => FromFault(env, amb, f, context)
    case ThrowableV(t) => FromThrowable(amb, t, context)
    case Str(_) => FromMessage(env, amb, from, context)
    case Arr(e) => FromErrorAsWritten(env, amb, Some(e), context)
    case Null => FromErrorAsWritten(env, amb, None, context)
    case MessageV(_) => Unacceptable(env, amb, from, context)  // an enum case is never `== null`
    case _ =>
      if LooseNull(from) then Raised(ArgumentError(FromErrorArgument, "?array", from))
      else Unacceptable(env, amb, from, context)
  }

  /**
   * `LogEntry::from` as its documentation describes it, which the rest of the model uses: message
   * enums and strings become debug entries, arrays and null error entries, and every other value
   * an `UnacceptableLogMessage` entry.
   */
  function From(env: Registry.Env, amb: Ambient, from: Value, context: Ctx): Outcome<LogEntry> {
    match from
    case FaultV(f) => FromFault(env, amb, f, context)
    case ThrowableV(t) => FromThrowable(amb, t, context)
    case Str(_) => FromMessage(env, amb, from, context)
    case MessageV(_) => FromMessage(env, amb, from, context)
    case Arr(e) => FromError(env, amb, Some(e), context)
    case Null => FromError(env, amb, None, context)
    case _ => Unacceptable(env, amb, from, context)
  }

  // ---------------------------------------------------------------------------------------------
  // Augmented contexts

  /** The keys of the same length that these contexts use differ. */
  lemma KeysDistinct()
    ensures "__file__" != "__line__" && "__file__" != "__time__" && "__line__" != "__time__"
    ensures "from" != "type"
  {
    assert "__file__"[2] == 'f' && "__line__"[2] == 'l' && "__time__"[2] == 't';
    assert "from"[0] == 'f' && "type"[0] == 't';
  }

  lemma BaseKeysUnique(file: Option<string>, line: Option<int>, time: string)
    ensures UniqueKeys(BaseKeys(file, line, time))
  {
    KeysDistinct();
  }

  predicate IsBaseKey(k: string) {
    k == "__file__" || k == "__line__" || k == "__time__"
  }

  /**
   * The augmented context: sorted, one entry per key, base keys first in precedence, then the
   * subclass's keys, then the caller's entries, every one of which is kept under its own key.
   */
  lemma AugmentLookup(kind: Kind, file: Option<string>, line: Option<int>, time: string, context: Ctx, k: string)
    ensures var r := AugmentContext(kind, file, line, time, context);
      SortedByKey(r) && UniqueKeys(r) &&
      Lookup(r, k) ==
        if IsBaseKey(k) then Lookup(BaseKeys(file, line, time), k)
        else if HasKey(OwnKeys(kind), k) then Lookup(OwnKeys(kind), k)
        else Lookup(context, k)
  {
    var base := BaseKeys(file, line, time);
    var inner := Union(OwnKeys(kind), context);
    BaseKeysUnique(file, line, time);
    UnionUnique(base, inner);
    KSortLookup(Union(base, inner), k);
    UnionLookup(base, inner, k);
    UnionLookup(OwnKeys(kind), context, k);
    BaseHasKey(file, line, time, k);
  }

  lemma BaseHasKey(file: Option<string>, line: Option<int>, time: string, k: string)
    ensures HasKey(BaseKeys(file, line, time), k) <==> IsBaseKey(k)
  {
    var base := BaseKeys(file, line, time);
    assert base[0].0 == "__file__" && base[1].0 == "__line__" && base[2].0 == "__time__";
  }

  /** The base keys always carry the entry's file, line and time. */
  lemma BaseKeysWin(kind: Kind, file: Option<string>, line: Option<int>, time: string, context: Ctx)
    ensures var r := AugmentContext(kind, file, line, time, context);
      Lookup(r, "__file__") == Some(FileValue(file)) &&
      Lookup(r, "__line__") == Some(LineValue(line)) &&
      Lookup(r, "__time__") == Some(Float(time))
  {
    var base := BaseKeys(file, line, time);
    BaseKeysUnique(file, line, time);
    LookupAt(base, 0);
    LookupAt(base, 1);
    LookupAt(base, 2);
    AugmentLookup(kind, file, line, time, context, "__file__");
    AugmentLookup(kind, file, line, time, context, "__line__");
    AugmentLookup(kind, file, line, time, context, "__time__");
  }

  /** A built entry: file, line and message as passed, its time in `__time__`, the context augmented. */
  lemma NewEntryFields(kind: Kind, file: Option<string>, line: Option<int>, message: Option<string>, context: Ctx,
                       handled: bool, now: string, k: string)
    ensures var e := NewEntry(kind, file, line, message, context, handled, now);
      e.kind == kind && e.file == file && e.line == line && e.message == message && e.handled == handled &&
      SortedByKey(e.context) && UniqueKeys(e.context) &&
      Lookup(e.context, "__time__") == Some(Float(e.time)) &&
      Lookup(e.context, "__file__") == Some(FileValue(file)) &&
      (!IsBaseKey(k) && !HasKey(OwnKeys(kind), k) ==> Lookup(e.context, k) == Lookup(context, k))
  {
    BaseKeysWin(kind, file, line, now, context);
    AugmentLookup(kind, file, line, now, context, k);
  }

  /** `FaultLogEntry`: `__fault__` is the entry's fault, whatever the caller put there. */
  lemma FaultKeyWins(f: Fault, file: Option<string>, line: Option<int>, time: string, context: Ctx)
    ensures Lookup(AugmentContext(FaultEntry(f), file, line, time, context), "__fault__") == Some(FaultV(f))
  {
    assert !IsBaseKey("__fault__") by {
      assert |"__fault__"| == 9 && |"__file__"| == 8 && |"__line__"| == 8 && |"__time__"| == 8;
    }
    var own := OwnKeys(FaultEntry(f));
    assert own[0].0 == "__fault__";
    LookupAt(own, 0);
    AugmentLookup(FaultEntry(f), file, line, time, context, "__fault__");
  }

  /** `ThrowableLogEntry`: `__exception__` and `__fault__` are the entry's, whatever the caller put there. */
  lemma ThrowableKeysWin(e: Throwable, f: Option<Fault>, file: Option<string>, line: Option<int>, time: string, context: Ctx)
    ensures var r := AugmentContext(ThrowableEntry(e, f), file, line, time, context);
      Lookup(r, "__exception__") == Some(ThrowableV(e)) && Lookup(r, "__fault__") == Some(FaultValue(f))
  {
    var own := OwnKeys(ThrowableEntry(e, f));
    assert own[0].0 == "__exception__" && own[1].0 == "__fault__";
    LookupAt(own, 0);
    LookupAt(own, 1);
    AugmentLookup(ThrowableEntry(e, f), file, line, time, context, "__exception__");
    AugmentLookup(ThrowableEntry(e, f), file, line, time, context, "__fault__");
  }

  /** `ErrorLogEntry`: `__code__` and `__controlled__` are the entry's, whatever the caller put there. */
  lemma ErrorKeysWin(code: int, controlled: bool, file: Option<string>, line: Option<int>, time: string, context: Ctx)
    ensures var r := AugmentContext(ErrorEntry(code, controlled), file, line, time, context);
      Lookup(r, "__code__") == Some(Int(code)) && Lookup(r, "__controlled__") == Some(Bool(controlled))
  {
    var own := OwnKeys(ErrorEntry(code, controlled));
    assert own[0].0 == "__code__" && own[1].0 == "__controlled__";
    LookupAt(own, 0);
    LookupAt(own, 1);
    AugmentLookup(ErrorEntry(code, controlled), file, line, time, context, "__code__");
    AugmentLookup(ErrorEntry(code, controlled), file, line, time, context, "__controlled__");
  }

  // ---------------------------------------------------------------------------------------------
  // Factories

  /** The constructor builds the entry exactly when every argument has its declared type. */
  lemma ConstructTyped(kind: Kind, file: Value, line: Value, message: Value, context: Ctx, handled: Value, now: string)
    ensures Construct(kind, file, line, message, context, handled, now).Done? <==>
      (file.Null? || file.Str?) && (line.Null? || line.Int?) && (message.Null? || message.Str?) && handled.Bool?
    ensures Construct(kind, file, line, message, context, handled, now).Done? ==>
      var e := Construct(kind, file, line, message, context, handled, now).value;
      e.kind == kind && FileValue(e.file) == file && LineValue(e.line) == line && e.handled == handled.b &&
      e.time == now && e.context == AugmentContext(kind, e.file, e.line, now, context)
  {
  }

  /** Context entries a factory reads are well typed. */
  predicate WellTyped(context: Ctx) {
    var file := Get(context, "__file__");
    var line := Get(context, "__line__");
    (file.Null? || file.Str?) && (line.Null? || line.Int?) && Handled(context).Bool?
  }

  /**
   * `fromFault`: the entry carries the fault, the fault's message, file and line from the context
   * (null when absent) and `__handled__` (false when absent).
   */
  lemma FromFaultEntry(env: Registry.Env, amb: Ambient, f: Fault, context: Ctx)
    requires WellTyped(context) && Faults.Message(env, f, context).Done?
    ensures FromFault(env, amb, f, context).Done?
    ensures var e := FromFault(env, amb, f, context).value;
      e.kind == FaultEntry(f) && e.message == Some(Faults.Message(env, f, context).value) &&
      FileValue(e.file) == Get(context, "__file__") && LineValue(e.line) == Get(context, "__line__") &&
      e.handled == (Isset(context, "__handled__") && Lookup(context, "__handled__").value == Bool(true)) &&
      e.time == amb.now
  {
    var m := Faults.Message(env, f, context).value;
    ConstructTyped(FaultEntry(f), Get(context, "__file__"), Get(context, "__line__"), Str(m), context, Handled(context), amb.now);
  }

  /** `fromThrowable`: the throwable's file, line and message; its fault exactly when it is an Exceptable. */
  lemma FromThrowableEntry(amb: Ambient, e: Throwable, context: Ctx)
    requires Handled(context).Bool?
    ensures FromThrowable(amb, e, context).Done?
    ensures var x := FromThrowable(amb, e, context).value;
      x.kind == ThrowableEntry(e, e.fault) && (x.kind.carried.Some? <==> IsExceptable(e)) &&
      x.file == Some(e.file) && x.line == Some(e.line) && x.message == Some(e.message)
  {
  }

  /** The `UnacceptableLogMessage` entry never raises: its context has no throwable slot and no file. */
  lemma UnacceptableEntry(env: Registry.Env, amb: Ambient, from: Value, context: Ctx)
    ensures Unacceptable(env, amb, from, context).Done?
    ensures var e := Unacceptable(env, amb, from, context).value;
      e.kind == FaultEntry(ExceptableFault(ExceptableFaults.UnacceptableLogMessage)) &&
      e.file.None? && e.line.None? && !e.handled &&
      Lookup(e.context, "from") == Some(from) && Lookup(e.context, "type") == Some(Str(DebugType(from)))
  {
    var f := ExceptableFault(ExceptableFaults.UnacceptableLogMessage);
    var c := UnacceptableContext(from, context);
    UnacceptableMessage(env, from, context);
    UnacceptableFields(from, context);
    var m := Faults.Message(env, f, c).value;
    ConstructTyped(FaultEntry(f), Null, Null, Str(m), c, Bool(false), amb.now);
    AugmentLookup(FaultEntry(f), None, None, amb.now, c, "from");
    AugmentLookup(FaultEntry(f), None, None, amb.now, c, "type");
  }

  /** The `UnacceptableLogMessage` entry is built, as a fault entry of that case. */
  lemma UnacceptableKind(env: Registry.Env, amb: Ambient, from: Value, context: Ctx)
    ensures Unacceptable(env, amb, from, context).Done?
    ensures Unacceptable(env, amb, from, context).value.kind == FaultEntry(ExceptableFault(ExceptableFaults.UnacceptableLogMessage))
  {
    var f := ExceptableFault(ExceptableFaults.UnacceptableLogMessage);
    var c := UnacceptableContext(from, context);
    UnacceptableMessage(env, from, context);
    UnacceptableFields(from, context);
    var m := Faults.Message(env, f, c).value;
    ConstructTyped(FaultEntry(f), Null, Null, Str(m), c, Bool(false), amb.now);
  }

  /** The `UnacceptableLogMessage` message over that context does not raise. */
  lemma UnacceptableMessage(env: Registry.Env, from: Value, context: Ctx)
    ensures Faults.Message(env, ExceptableFault(ExceptableFaults.UnacceptableLogMessage), UnacceptableContext(from, context)).Done?
  {
    var c := UnacceptableContext(from, context);
    assert ThrowableContext.NoSlots(c);
    ThrowableContext.NoThrowables(c);
  }

  /** What the factory reads from that context, and what the entry's context keeps of it. */
  lemma UnacceptableFields(from: Value, context: Ctx)
    ensures var c := UnacceptableContext(from, context);
      Get(c, "__file__") == Null && Get(c, "__line__") == Null && Handled(c) == Bool(false) &&
      Lookup(c, "from") == Some(from) && Lookup(c, "type") == Some(Str(DebugType(from))) &&
      !IsBaseKey("from") && !IsBaseKey("type") &&
      !HasKey(OwnKeys(FaultEntry(ExceptableFault(ExceptableFaults.UnacceptableLogMessage))), "from") &&
      !HasKey(OwnKeys(FaultEntry(ExceptableFault(ExceptableFaults.UnacceptableLogMessage))), "type")
  {
    var c := UnacceptableContext(from, context);
    KeysDistinct();
    assert !HasKey(c, "__file__") && !HasKey(c, "__line__") && !HasKey(c, "__handled__");
    assert UniqueKeys(c);
    LookupAt(c, 0);
    LookupAt(c, 1);
  }

  /** `ErrorLogEntry`: `controlled` is whether `error_reporting()` is 0; `code` is the error's type, 0 by default. */
  lemma ErrorEntryFields(amb: Ambient, error: Option<Ctx>, message: Value, context: Ctx)
    requires ErrorEntryFrom(amb, error, message, context).Done?
    ensures var e := ErrorEntryFrom(amb, error, message, context).value;
      e.kind.ErrorEntry? && (e.kind.controlled <==> amb.errorReporting == 0) &&
      Int(e.kind.code) == ErrorField(error, "type", Int(0)) &&
      (ErrorField(error, "type", Null) == Null ==> e.kind.code == 0)
  {
  }

  // ---------------------------------------------------------------------------------------------
  // `from` dispatch

  /** `from` sends faults, throwables and messages to their factories. */
  lemma FromDispatch(env: Registry.Env, amb: Ambient, from: Value, context: Ctx)
    ensures from.FaultV? ==> From(env, amb, from, context) == FromFault(env, amb, from.f, context)
    ensures from.ThrowableV? ==> From(env, amb, from, context) == FromThrowable(amb, from.t, context)
    ensures from.Str? || from.MessageV? ==> From(env, amb, from, context) == FromMessage(env, amb, from, context)
  {
    match from
    case FaultV(f) =>
    case ThrowableV(t) =>
    case Str(_) =>
    case MessageV(_) =>
    case _ =>
  }

  /** `from` sends arrays and null to `fromError`. */
  lemma FromDispatchErrors(env: Registry.Env, amb: Ambient, from: Value, context: Ctx)
    ensures from.Arr? ==> From(env, amb, from, context) == FromError(env, amb, Some(from.entries), context)
    ensures from.Null? ==> From(env, amb, from, context) == FromError(env, amb, None, context)
  {
    match from
    case Arr(e) =>
    case Null =>
    case _ =>
  }

  /** Any other value is logged as an `UnacceptableLogMessage` fault entry, and `from` does not raise. */
  lemma FromOtherAccepted(env: Registry.Env, amb: Ambient, from: Value, context: Ctx)
    requires from.Bool? || from.Int? || from.Float? || from.Obj?
    ensures From(env, amb, from, context).Done?
    ensures From(env, amb, from, context).value.kind == FaultEntry(ExceptableFault(ExceptableFaults.UnacceptableLogMessage))
  {
    UnacceptableEntry(env, amb, from, context);
  }

  /** A `DebugMessages` case is logged as a debug entry with its formatted template. */
  lemma DebugMessageEntry(env: Registry.Env, amb: Ambient, c: DebugMessages.Case, context: Ctx, s: string)
    requires WellTyped(context)
    requires Registry.FormatMessage(DebugMessages.Template(c), context, true, env.encode) == Registry.Msg(s)
    ensures From(env, amb, MessageV(c), context).Done?
    ensures From(env, amb, MessageV(c), context).value.kind == DebugEntry
    ensures From(env, amb, MessageV(c), context).value.message == Some(s)
  {
    FromDispatch(env, amb, MessageV(c), context);
    assert MessageText(env, MessageV(c), context) == Registry.Msg(s);
    ConstructTyped(DebugEntry, Get(context, "__file__"), Get(context, "__line__"), Str(s), context, Handled(context), amb.now);
  }

  /** A message that fails to format is passed on as a `MessageFault`, which `?string $message` rejects. */
  lemma MessageFailureRaises(env: Registry.Env, amb: Ambient, m: Value, context: Ctx, c: MessageFaults.Case)
    requires m.Str? || m.MessageV?
    requires MessageText(env, m, context) == Registry.Failed(c)
    ensures FromMessage(env, amb, m, context).Raised?
  {
    ConstructTyped(DebugEntry, Get(context, "__file__"), Get(context, "__line__"), FaultV(MessageFault(c)), context,
      Handled(context), amb.now);
  }

  /** With no error array and no last error, the intended `fromError` logs the `UnknownError` message. */
  lemma UnknownErrorEntry(env: Registry.Env, amb: Ambient, context: Ctx)
    requires amb.lastError.None? && WellTyped(context)
    ensures FromError(env, amb, None, context).Done?
    ensures var e := FromError(env, amb, None, context).value;
      e.kind == ErrorEntry(0, amb.errorReporting == 0) &&
      e.message == Some(Faults.Message(env, ExceptableFault(ExceptableFaults.UnknownError), [("error_get_last", Null)]).value)
  {
    var f := ExceptableFault(ExceptableFaults.UnknownError);
    var c: Ctx := [("error_get_last", Null)];
    UnknownMessageDone(env);
    var m := Faults.Message(env, f, c).value;
    assert LastErrorValue(amb) == Null;
    assert ErrorMessage(env, amb, None) == Done(Str(m));
    ErrorEntryWithout(amb, Str(m), context);
  }

  /** The `UnknownError` message over `["error_get_last" => null]` does not raise. */
  lemma UnknownMessageDone(env: Registry.Env)
    ensures Faults.Message(env, ExceptableFault(ExceptableFaults.UnknownError), [("error_get_last", Null)]).Done?
  {
    var c: Ctx := [("error_get_last", Null)];
    assert ThrowableContext.NoSlots(c);
    EnumeratesFaults.MessageTotal(ExceptableFault(ExceptableFaults.UnknownError), c, env.encode) by {
      forall s: ThrowableContext.Slot ensures Get(c, ThrowableContext.SlotKey(s)) == Null {
      }
    }
  }

  /** With no error array, the entry takes code 0 and its file and line from the context. */
  lemma ErrorEntryWithout(amb: Ambient, message: Value, context: Ctx)
    requires WellTyped(context) && message.Str?
    ensures ErrorEntryFrom(amb, None, message, context).Done?
    ensures var e := ErrorEntryFrom(amb, None, message, context).value;
      e.kind == ErrorEntry(0, amb.errorReporting == 0) && e.message == Some(message.s)
  {
    ConstructTyped(ErrorEntry(0, amb.errorReporting == 0), Get(context, "__file__"), Get(context, "__line__"), message,
      context, Handled(context), amb.now);
  }

  // ---------------------------------------------------------------------------------------------
  // As written

  /** As written, a `DebugMessages` case is logged as an `UnacceptableLogMessage` fault, not as a debug message. */
  lemma DebugMessageUnacceptable(env: Registry.Env, amb: Ambient, message: Value, context: Ctx)
    requires message.MessageV?
    ensures FromAsWritten(env, amb, message, context).Done?
    ensures FromAsWritten(env, amb, message, context).value.kind ==
      FaultEntry(ExceptableFault(ExceptableFaults.UnacceptableLogMessage))
  {
    UnacceptableKind(env, amb, message, context);
  }

  /** As written, logging `false` or `0` raises a `TypeError` instead of logging an unacceptable message. */
  lemma LooseNullRaises(env: Registry.Env, amb: Ambient, v: Value, context: Ctx)
    requires v == Bool(false) || v == Int(0)
    ensures FromAsWritten(env, amb, v, context) == Raised(ArgumentError(FromErrorArgument, "?array", v))
  {
  }

  /** As written, `fromError()` with no error information raises instead of logging `UnknownError`. */
  lemma MissingErrorRaises(env: Registry.Env, amb: Ambient, context: Ctx)
    requires amb.lastError.None?
    ensures FromErrorAsWritten(env, amb, None, context) == Raised(NullPlusArray)
    ensures FromErrorAsWritten(env, amb, Some([]), context) == Raised(NullPlusArray)
  {
  }

  /** Where an error array is available, the written and the intended `fromError` agree. */
  lemma FromErrorAgrees(env: Registry.Env, amb: Ambient, error: Option<Ctx>, context: Ctx)
    requires ErrorInfo(amb, error).Some?
    ensures FromErrorAsWritten(env, amb, error, context) == FromError(env, amb, error, context)
  {
  }
}
