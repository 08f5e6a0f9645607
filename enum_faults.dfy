/**
 * `EnumeratesFaults` (with `MessageEnum::message`): the string-backed Fault enums
 * `ExceptableFault`, `HandlerFault` and `MessageFault`, whose backing value is their message
 * template.  Their message is the template formatted directly, with no lookup in any registry or
 * bundle; `from` and `tryFrom` look a case up by its qualified constant name.
 */
module EnumeratesFaults {
  import opened Wrappers
  import opened Values
  import ExceptableFaults
  import HandlerFaults
  import MessageFaults
  import Registry
  import Formatter
  import Exceptables
  import ThrowableContext
  import IsFault

  /** The Fault cases whose enum uses `EnumeratesFaults`. */
  predicate Backed(f: Fault) {
    f.ExceptableFault? || f.HandlerFault? || f.MessageFault?
  }

  /** The backing value (`$this->value`): the message template. */
  function Template(f: Fault): string
    requires Backed(f)
  {
    match f
    case ExceptableFault(c) => ExceptableFaults.Template(c)
    case HandlerFault(c) => HandlerFaults.Template(c)
    case MessageFault(c) => MessageFaults.Template(c)
  }

  /**
   * `MessageEnum::message($context)`: the backing value formatted with `onlyIf`.  The locale
   * (`MESSAGES_LOCALE`, `"root"` unless overridden) does not reach the formatter's output.
   */
  function EnumMessage(value: string, context: Ctx, encode: Value -> string): Registry.MessageResult {
    Registry.FormatMessage(value, context, true, encode)
  }

  /** A string result, as `is_string` sees it. */
  function AsString(r: Registry.MessageResult): Option<string> {
    match r
    case Msg(s) => Some(s)
    case Failed(_) => None
  }

  /**
   * `message($context)`: `name()`, then `": "` and the formatted template when formatting (with the
   * throwable details added to the context) gives a string.  A bad throwable slot in the context
   * raises the type error `addThrowableContext` raises.
   */
  function Message(f: Fault, context: Ctx, encode: Value -> string): Outcome<string>
    requires Backed(f)
  {
    match ThrowableContext.Add(context, None)
    case Raised(t) => Raised(t)
    case Done(c) => Done(IsFault.Named(f, AsString(EnumMessage(Template(f), c, encode))))
  }

  /** `toExceptable`, with this enum's `message` in the constructor. */
  function ToExceptable(f: Fault, context: Ctx, previous: Option<Throwable>, encode: Value -> string): Outcome<Throwable>
    requires Backed(f)
  {
    IsFault.ToExceptableWith(f, context, previous, c => Message(f, c, encode))
  }

  /** `__invoke`, with this enum's `message` in the constructor. */
  function Invoke(f: Fault, context: Ctx, previous: Option<Throwable>, encode: Value -> string): Outcome<Throwable>
    requires Backed(f)
  {
    IsFault.InvokeWith(f, context, previous, c => Message(f, c, encode))
  }

  // ---------------------------------------------------------------------------------------------
  // Message properties

  /** When the augmented context has every token of the template, the message is the formatted template. */
  lemma MessageComplete(f: Fault, context: Ctx, encode: Value -> string)
    requires Backed(f) && ThrowableContext.Add(context, None).Done?
    requires var c := ThrowableContext.Add(context, None).value;
      forall t :: t in Registry.Tokens(Template(f)) ==> HasKey(c, t)
    ensures var c := ThrowableContext.Add(context, None).value;
      Message(f, context, encode) == Done(FaultName(f) + ": " + Formatter.Formatted(Template(f), Registry.Prep(c, encode)))
  {
    var c := ThrowableContext.Add(context, None).value;
    Registry.OnlyIfComplete(Template(f), c, encode);
    Registry.FormatPlain(Template(f), c, encode);
  }

  /** A message is the fault's name, alone or followed by `": "`. */
  lemma MessageStartsWithName(f: Fault, context: Ctx, encode: Value -> string)
    requires Backed(f) && Message(f, context, encode).Done?
    ensures var m := Message(f, context, encode).value;
      m == FaultName(f) || (|m| > |FaultName(f)| + 1 && m[..|FaultName(f)| + 2] == FaultName(f) + ": ")
  {
    var m := Message(f, context, encode).value;
    if m != FaultName(f) {
      var c := ThrowableContext.Add(context, None).value;
      var s := AsString(EnumMessage(Template(f), c, encode)).value;
      assert m == FaultName(f) + ": " + s;
      assert m[..|FaultName(f)| + 2] == FaultName(f) + ": ";
    }
  }

  /** A context whose `__exception__` holds something other than a throwable makes `message` raise. */
  lemma MessageRaises(f: Fault, context: Ctx, v: Value, encode: Value -> string)
    requires Backed(f) && Get(context, "__exception__") == v && v != Null && !v.ThrowableV?
    ensures Message(f, context, encode) == Raised(ThrowableContext.NotAThrowable(v))
  {
    ThrowableContext.BadSlotRaises(context, v);
  }

  // ---------------------------------------------------------------------------------------------
  // from / tryFrom

  /** The three enums that use `EnumeratesFaults`, as the `static` class of `from`/`tryFrom`. */
  datatype Enum = ExceptableFaultEnum | HandlerFaultEnum | MessageFaultEnum

  function EnumCases(e: Enum): (r: seq<Fault>)
    ensures forall i :: 0 <= i < |r| ==> Backed(r[i]) && FaultClass(r[i]) == EnumClass(e)
  {
    match e
    case ExceptableFaultEnum => seq(|ExceptableFaults.Cases|, i requires 0 <= i < |ExceptableFaults.Cases| => ExceptableFault(ExceptableFaults.Cases[i]))
    case HandlerFaultEnum => [HandlerFault(HandlerFaults.SuccessHandlerFailed), HandlerFault(HandlerFaults.FailureHandlerFailed)]
    case MessageFaultEnum => seq(|MessageFaults.Cases|, i requires 0 <= i < |MessageFaults.Cases| => MessageFault(MessageFaults.Cases[i]))
  }

  function EnumClass(e: Enum): string {
    match e
    case ExceptableFaultEnum => ExceptableFaults.ClassName
    case HandlerFaultEnum => HandlerFaults.ClassName
    case MessageFaultEnum => MessageFaults.ClassName
  }

  /** The name under which `defined`/`constant` find an enum case: `Class::Case`. */
  function ConstantName(f: Fault): string {
    FaultClass(f) + "::" + CaseName(f)
  }

  function FindCase(cases: seq<Fault>, name: string): (r: Option<Fault>)
    ensures r.Some? ==> r.value in cases && ConstantName(r.value) == name
    ensures r.None? ==> forall i :: 0 <= i < |cases| ==> ConstantName(cases[i]) != name
  {
    if cases == [] then None
    else if ConstantName(cases[0]) == name then Some(cases[0])
    else FindCase(cases[1..], name)
  }

  /**
   * `tryFrom($name)`: the case whose constant `$name` names, when it is a case of this enum; null
   * for any other name.
   */
  function TryFrom(e: Enum, name: string): Option<Fault> {
    FindCase(EnumCases(e), name)
  }

  /** `tryFrom` finds a case exactly when the name is that case's constant name. */
  lemma TryFromIff(e: Enum, name: string, f: Fault)
    requires f in EnumCases(e)
    ensures TryFrom(e, name) == Some(f) <==> ConstantName(f) == name
  {
    var r := TryFrom(e, name);
    if ConstantName(f) == name && r != Some(f) {
      var i :| 0 <= i < |EnumCases(e)| && EnumCases(e)[i] == f;
      assert r.Some?;
      ConstantNameInjective(r.value, f);
    }
  }

  /** Two cases of the same enum have different constant names. */
  lemma ConstantNameInjective(f: Fault, g: Fault)
    requires FaultClass(f) == FaultClass(g) && ConstantName(f) == ConstantName(g)
    ensures f == g
  {
    var n := |FaultClass(f)| + 2;
    assert CaseName(f) == ConstantName(f)[n..];
    assert CaseName(g) == ConstantName(g)[n..];
  }

  /** Every case of the enum is found under its own constant name. */
  lemma TryFromRoundTrip(e: Enum, f: Fault)
    requires f in EnumCases(e)
    ensures TryFrom(e, ConstantName(f)) == Some(f)
  {
    TryFromIff(e, ConstantName(f), f);
  }

  /** The context `from` gives `UnknownFault`. */
  function UnknownContext(name: string): Ctx {
    [("name", Str(name))]
  }

  /**
   * `from($name)`: `tryFrom`'s case, or else throws `ExceptableFault::UnknownFault` invoked with
   * `["name" => $name]` (or whatever building that exceptable raises).
   */
  function From(e: Enum, name: string, encode: Value -> string): Outcome<Fault> {
    match TryFrom(e, name)
    case Some(f) => Done(f)
    case None =>
      match Invoke(ExceptableFault(ExceptableFaults.UnknownFault), UnknownContext(name), None, encode)
      case Done(x) => Raised(x)
      case Raised(t) => Raised(t)
  }

  /** On a benign context, `message` does not raise. */
  lemma MessageTotal(f: Fault, context: Ctx, encode: Value -> string)
    requires Backed(f) && ThrowableContext.Benign(context)
    ensures Message(f, context, encode).Done?
  {
    ThrowableContext.BenignAdds(context, None);
  }

  /**
   * On a benign context, invoking a backed fault always builds its Exceptable: the constructor's
   * own context is benign, so the message it asks for cannot raise.
   */
  lemma InvokeTotal(f: Fault, context: Ctx, previous: Option<Throwable>, encode: Value -> string)
    requires Backed(f) && ThrowableContext.Benign(context)
    ensures Invoke(f, context, previous, encode).Done?
  {
    ThrowableContext.BenignAdds(context, previous);
    var c := ThrowableContext.Add(context, previous).value;
    if previous.Some? {
      ThrowableContext.AddIdempotent(context, previous);
    }
    var x := Exceptables.Partial(f, IsFault.ExceptableType(f), c, previous);
    ThrowableContext.ContextBenign(x);
    MessageTotal(f, Exceptables.Context(x), encode);
  }

  /** `from` agrees with `tryFrom` on names it finds, and otherwise throws an `UnknownFault` carrying the name. */
  lemma FromUnknown(e: Enum, name: string, encode: Value -> string)
    ensures TryFrom(e, name).Some? ==> From(e, name, encode) == Done(TryFrom(e, name).value)
    ensures TryFrom(e, name).None? ==> (From(e, name, encode).Raised? &&
      var x := From(e, name, encode).thrown;
      x.fault == Some(ExceptableFault(ExceptableFaults.UnknownFault)) && x.previous.None? &&
      Lookup(x.given, "name") == Some(Str(name)))
  {
    if TryFrom(e, name).None? {
      UnknownInvoked(name, encode);
    }
  }

  /** The `UnknownFault` that `from` throws carries the name it was given. */
  lemma UnknownInvoked(name: string, encode: Value -> string)
    ensures var r := Invoke(ExceptableFault(ExceptableFaults.UnknownFault), UnknownContext(name), None, encode);
      r.Done? && r.value.fault == Some(ExceptableFault(ExceptableFaults.UnknownFault)) &&
      r.value.previous.None? && Lookup(r.value.given, "name") == Some(Str(name))
  {
    SingleInvoked(ExceptableFault(ExceptableFaults.UnknownFault), "name", Str(name), encode);
  }

  /**
   * A fault invoked over a one-entry context whose key is shorter than every throwable slot key
   * is built, carries that fault and no previous, and keeps the entry.
   */
  lemma SingleInvoked(f: Fault, key: string, v: Value, encode: Value -> string)
    requires Backed(f) && 0 < |key| < 8
    ensures var r := Invoke(f, [(key, v)], None, encode);
      r.Done? && r.value.fault == Some(f) && r.value.previous.None? && Lookup(r.value.given, key) == Some(v)
  {
    var ctx: Ctx := [(key, v)];
    SingleGiven(key, v);
    InvokeTotal(f, ctx, None, encode);
    IsFault.InvokeKeepsContext(f, ctx, None, (c: Ctx) => Message(f, c, encode));
  }

  /** Such a context is benign and keeps its entry once the throwable slots are added. */
  lemma SingleGiven(key: string, v: Value)
    requires 0 < |key| < 8
    ensures ThrowableContext.Benign([(key, v)])
    ensures ThrowableContext.Add([(key, v)], None).Done?
    ensures Lookup(ThrowableContext.Add([(key, v)], None).value, key) == Some(v)
  {
    var ctx: Ctx := [(key, v)];
    SingleNoSlots(key, v);
    ThrowableContext.NoThrowables(ctx);
    var tail: Ctx := [("__exception__", Null), ("__previous__", Null), ("__root__", Null)];
    assert HasKey(ctx, key) by { assert ctx[0].0 == key; }
    LookupAppend(ctx, tail, key);
  }

  lemma SingleNoSlots(key: string, v: Value)
    requires 0 < |key| < 8
    ensures ThrowableContext.NoSlots([(key, v)]) && ThrowableContext.Benign([(key, v)])
  {
    var ctx: Ctx := [(key, v)];
    forall s: ThrowableContext.Slot ensures !HasKey(ctx, ThrowableContext.SlotKey(s)) {
      assert |ThrowableContext.SlotKey(s)| >= 8 > |ctx[0].0|;
    }
    assert ThrowableContext.SlotKey(ThrowableContext.Exception) == "__exception__";
    assert ThrowableContext.SlotKey(ThrowableContext.Previous) == "__previous__";
    assert ThrowableContext.SlotKey(ThrowableContext.Root) == "__root__";
  }
}
