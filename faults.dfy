/**
 * Every Fault enum of the core with the message its trait gives it: the string-backed enums
 * (`EnumeratesFaults`) format their backing value; `SplFault` and `ErrorFault` (`IsFault` alone)
 * look their case name up through `MessageMapper::makeMessage`, in the registry and then in
 * their own `MESSAGES`.
 */
module Faults {
  import opened Wrappers
  import opened Values
  import SplFaults
  import Strings
  import MessageFaults
  import MessageBundles
  import Registry
  import Formatter
  import ThrowableContext
  import Exceptables
  import IsFault
  import EnumeratesFaults
  import MessageMapper

  /** `SplFault::MESSAGES` as a PHP array: every case name maps to `{__rootMessage__}`. */
  function SplTable(): (t: Ctx)
    ensures |t| == |SplFaults.Cases|
    ensures forall i :: 0 <= i < |t| ==> t[i] == (SplFaults.CaseName(SplFaults.Cases[i]), Str("{__rootMessage__}"))
  {
    var m := SplFaults.Messages();
    seq(|m|, i requires 0 <= i < |m| => (m[i].0, Str(m[i].1)))
  }

  /**
   * What `messageBundle()` sees: `SplFault` defines `MESSAGES`; `ErrorFault` implements `Fault`
   * only, which does not extend `HasMessages`, so its `MESSAGES` is undefined.
   */
  function Source(f: Fault): MessageMapper.MessageSource {
    match f
    case SplFault(_) => MessageMapper.MessageSource(SplFaults.ClassName, Some(Arr(SplTable())))
    case _ => MessageMapper.MessageSource(FaultClass(f), None)
  }

  /** `IsFault::message($context)`: the name, then `": "` and the mapped message when there is one. */
  function MapperMessage(env: Registry.Env, f: Fault, context: Ctx): Outcome<string> {
    match ThrowableContext.Add(context, None)
    case Raised(t) => Raised(t)
    case Done(c) =>
      Done(IsFault.Named(f, EnumeratesFaults.AsString(
        MessageMapper.MakeMessage(env, Source(f), IsFault.MessageKey(f), c, None, true))))
  }

  /** `$fault->message($context)`, dispatched on the fault's enum. */
  function Message(env: Registry.Env, f: Fault, context: Ctx): Outcome<string> {
    if EnumeratesFaults.Backed(f) then EnumeratesFaults.Message(f, context, env.encode)
    else MapperMessage(env, f, context)
  }

  /** `$fault->message(...)` as the constructor calls it. */
  function MessageOf(env: Registry.Env, f: Fault): Ctx -> Outcome<string> {
    c => Message(env, f, c)
  }

  /** `$fault->toExceptable($context, $previous)`. */
  function ToExceptable(env: Registry.Env, f: Fault, context: Ctx, previous: Option<Throwable>): Outcome<Throwable> {
    IsFault.ToExceptableWith(f, context, previous, MessageOf(env, f))
  }

  /** `$fault($context, $previous)`. */
  function Invoke(env: Registry.Env, f: Fault, context: Ctx, previous: Option<Throwable>): Outcome<Throwable> {
    IsFault.InvokeWith(f, context, previous, MessageOf(env, f))
  }

  // ---------------------------------------------------------------------------------------------
  // Messages in general

  /** On a benign context no fault's message raises. */
  lemma MessageTotal(env: Registry.Env, f: Fault, context: Ctx)
    requires ThrowableContext.Benign(context)
    ensures Message(env, f, context).Done?
  {
    ThrowableContext.BenignAdds(context, None);
  }

  /** Every message is the fault's name, alone or followed by `": "` and more. */
  lemma MessageStartsWithName(env: Registry.Env, f: Fault, context: Ctx)
    requires Message(env, f, context).Done?
    ensures var m := Message(env, f, context).value;
      m == FaultName(f) || (|m| > |FaultName(f)| + 1 && m[..|FaultName(f)| + 2] == FaultName(f) + ": ")
  {
    if EnumeratesFaults.Backed(f) {
      EnumeratesFaults.MessageStartsWithName(f, context, env.encode);
    } else {
      var m := Message(env, f, context).value;
      if m != FaultName(f) {
        var c := ThrowableContext.Add(context, None).value;
        var s := EnumeratesFaults.AsString(MessageMapper.MakeMessage(env, Source(f), IsFault.MessageKey(f), c, None, true)).value;
        assert m == FaultName(f) + ": " + s;
        assert m[..|FaultName(f)| + 2] == FaultName(f) + ": ";
      }
    }
  }

  /**
   * On a benign context every fault can be invoked: the Exceptable is built on the augmented
   * context, carries the fault and the previous throwable, and its message is the fault's message
   * over the context of the object as it stood, message still empty.
   */
  lemma InvokeTotal(env: Registry.Env, f: Fault, context: Ctx, previous: Option<Throwable>)
    requires ThrowableContext.Benign(context)
    ensures ThrowableContext.Add(context, previous).Done? && Invoke(env, f, context, previous).Done?
    ensures var x := Invoke(env, f, context, previous).value;
      x.fault == Some(f) && x.previous == previous && x.given == ThrowableContext.Add(context, previous).value &&
      x.message == Message(env, f, Exceptables.Context(x.(message := ""))).value
  {
    ThrowableContext.BenignAdds(context, previous);
    var c := ThrowableContext.Add(context, previous).value;
    if previous.Some? {
      ThrowableContext.AddIdempotent(context, previous);
    }
    var x0 := Exceptables.Partial(f, IsFault.ExceptableType(f), c, previous);
    ThrowableContext.ContextBenign(x0);
    MessageTotal(env, f, Exceptables.Context(x0));
    assert InvokeBuilds(env, f, c, previous, x0);
  }

  /** An invoked fault's context keeps every entry the caller passed. */
  lemma InvokeKeeps(env: Registry.Env, f: Fault, context: Ctx, previous: Option<Throwable>, k: string)
    requires ThrowableContext.Benign(context) && HasKey(context, k)
    ensures Invoke(env, f, context, previous).Done?
    ensures var x := Invoke(env, f, context, previous).value;
      x.fault == Some(f) && x.previous == previous && Lookup(x.given, k) == Lookup(context, k)
  {
    InvokeTotal(env, f, context, previous);
    ThrowableContext.AddKeeps(context, previous, k);
  }

  /** The object `Construct` returns for this fault is `x0` with the fault's message filled in. */
  predicate InvokeBuilds(env: Registry.Env, f: Fault, c: Ctx, previous: Option<Throwable>, x0: Throwable)
    requires Message(env, f, Exceptables.Context(x0)).Done?
  {
    x0 == Exceptables.Partial(f, IsFault.ExceptableType(f), c, previous) ==>
      Exceptables.Construct(f, IsFault.ExceptableType(f), c, previous, MessageOf(env, f))
        == Done(x0.(message := Message(env, f, Exceptables.Context(x0)).value))
  }

  // ---------------------------------------------------------------------------------------------
  // SplFault: the root exception's message

  /** The SplFault table is a clean array: it is its own bundle. */
  lemma SplTableClean()
    ensures MessageBundles.Clean(Arr(SplTable()))
  {
    var t := SplTable();
    forall i, j | 0 <= i < j < |t| ensures t[i].0 != t[j].0 {
      if t[i].0 == t[j].0 {
        SplFaults.CaseNameInjective(SplFaults.Cases[i], SplFaults.Cases[j]);
      }
    }
    forall i | 0 <= i < |t| ensures MessageBundles.CleanAt(Arr(t), i) {
      var k := t[i].0;
      SplFaults.CaseNameShape(SplFaults.Cases[i]);
      Strings.NotIntegerKey(k, 0);
    }
  }

  /** The table maps a case's name to its format. */
  lemma SplTableFinds(c: SplFaults.Case)
    ensures MessageBundles.NewBundle(MessageMapper.BundleId, SplTable()) == Done(MessageBundles.Bundle(MessageMapper.BundleId, SplTable()))
    ensures Registry.FindFormatIn(SplTable(), SplFaults.CaseName(c)) == Done(Registry.Msg("{__rootMessage__}"))
  {
    var t := SplTable();
    SplTableClean();
    MessageBundles.RekeyClean(Arr(t));
    assert MessageBundles.RekeyedArray(t) == Done(t);
    var k := SplFaults.CaseName(c);
    SplFaults.CaseNameShape(c);
    MessageBundles.NoBackslashTranslate(k);
    var i := SplFaults.CaseIndex(c);
    assert t[i] == (k, Str("{__rootMessage__}"));
    LookupAt(t, i);
    Registry.FindTopLevel(MessageBundles.Bundle(MessageMapper.BundleId, t), k, "{__rootMessage__}");
  }

  /** What `IsFault::message` computes for a fault without a backing template. */
  lemma MapperMessageIs(env: Registry.Env, f: Fault, context: Ctx)
    requires !EnumeratesFaults.Backed(f) && ThrowableContext.Add(context, None).Done?
    ensures var c := ThrowableContext.Add(context, None).value;
      Message(env, f, context) ==
        Done(IsFault.Named(f, EnumeratesFaults.AsString(MessageMapper.MakeMessage(env, Source(f), CaseName(f), c, None, true))))
  {
  }

  /** The SplFault format is a single token. */
  lemma RootMessageToken()
    ensures |"__rootMessage__"| > 0 && Formatter.AllWord("__rootMessage__")
    ensures "{" + "__rootMessage__" + "}" == "{__rootMessage__}"
  {
  }

  /** The SplFault format, over a context holding a root message, gives that message. */
  lemma RootMessageFormats(c: Ctx, m: string, encode: Value -> string)
    requires UniqueKeys(c) && Lookup(c, "__rootMessage__") == Some(Str(m)) && '\\' !in m
    ensures Registry.FormatMessage("{__rootMessage__}", c, true, encode) == Registry.Msg(m)
  {
    RootMessageToken();
    Registry.SoleToken("__rootMessage__", c, Str(m), true, encode);
  }

  /** With no registry format, the SplFault table's format is what `makeMessage` formats. */
  lemma SplMakeMessage(env: Registry.Env, f: Fault, c: Ctx)
    requires f.SplFault? && Registry.FindFormat(env.registry.bundles, CaseName(f), "") == Done(None)
    ensures var r := Registry.FormatMessage("{__rootMessage__}", c, true, env.encode);
      MessageMapper.MakeMessage(env, Source(f), CaseName(f), c, None, true) ==
        (if r.Msg? then r else Registry.Failed(MessageFaults.NoSuchMessage))
  {
    SplTableFinds(f.sc);
    MessageMapper.TableFallback(env, Source(f), CaseName(f), c, None, true, SplTable(), "{__rootMessage__}");
  }

  /**
   * With no registry format for its case, an SplFault's message is its name and the root message
   * the augmented context carries.
   */
  lemma SplMessage(env: Registry.Env, f: Fault, context: Ctx, m: string)
    requires f.SplFault? && Registry.FindFormat(env.registry.bundles, CaseName(f), "") == Done(None)
    requires UniqueKeys(context) && ThrowableContext.Add(context, None).Done?
    requires Lookup(ThrowableContext.Add(context, None).value, "__rootMessage__") == Some(Str(m)) && '\\' !in m
    ensures Message(env, f, context) == Done(FaultName(f) + ": " + m)
  {
    var c := ThrowableContext.Add(context, None).value;
    ThrowableContext.AddUnique(context, None);
    SplMadeMessage(env, f, c, m);
    MapperMessageIs(env, f, context);
  }

  lemma SplMadeMessage(env: Registry.Env, f: Fault, c: Ctx, m: string)
    requires f.SplFault? && Registry.FindFormat(env.registry.bundles, CaseName(f), "") == Done(None)
    requires UniqueKeys(c) && Lookup(c, "__rootMessage__") == Some(Str(m)) && '\\' !in m
    ensures MessageMapper.MakeMessage(env, Source(f), CaseName(f), c, None, true) == Registry.Msg(m)
  {
    RootMessageFormats(c, m, env.encode);
    SplMakeMessage(env, f, c);
  }

  /** The root message an Exceptable built on `given` sees. */
  lemma BuiltRootMessage(x: Throwable, m: string)
    requires UniqueKeys(x.given)
    requires Lookup(x.given, "__rootMessage__") == None || Lookup(x.given, "__rootMessage__") == Some(Str(m))
    requires Lookup(x.given, "__rootMessage__") == None ==> m == Exceptables.RootOf(x).message
    ensures UniqueKeys(Exceptables.Context(x)) && ThrowableContext.Add(Exceptables.Context(x), None).Done?
    ensures Lookup(ThrowableContext.Add(Exceptables.Context(x), None).value, "__rootMessage__") == Some(Str(m))
  {
    ThrowableContext.ContextUnique(x);
    ThrowableContext.ContextBenign(x);
    ThrowableContext.BenignAdds(Exceptables.Context(x), None);
    if Lookup(x.given, "__rootMessage__") == None {
      ThrowableContext.ExceptableRootMessage(x);
    } else {
      Exceptables.ContextLookup(x, "__rootMessage__");
      ThrowableContext.AddKeeps(Exceptables.Context(x), None, "__rootMessage__");
    }
  }

  /** The context an invoked fault is built on, and the root message found in it. */
  lemma InvokedGiven(context: Ctx, previous: Option<Throwable>)
    requires ThrowableContext.FreshFor(context) && UniqueKeys(context)
    ensures ThrowableContext.Add(context, previous).Done?
    ensures var g := ThrowableContext.Add(context, previous).value;
      UniqueKeys(g) &&
      (previous.None? ==> Lookup(g, "__rootMessage__") == None) &&
      (previous.Some? ==> Lookup(g, "__rootMessage__") == None ||
                          Lookup(g, "__rootMessage__") == Some(Str(Exceptables.RootOf(previous.value).message)))
  {
    if previous.None? {
      InvokedAlone(context);
    } else {
      InvokedAfter(context, previous.value);
    }
    ThrowableContext.AddUnique(context, previous);
  }

  lemma InvokedAlone(context: Ctx)
    requires ThrowableContext.FreshFor(context)
    ensures ThrowableContext.Add(context, None).Done?
    ensures Lookup(ThrowableContext.Add(context, None).value, "__rootMessage__") == None
  {
    assert ThrowableContext.NoSlots(context);
    FreshLacksRootMessage(context);
    ThrowableContext.NoThrowables(context);
    var tail: Ctx := [("__exception__", Null), ("__previous__", Null), ("__root__", Null)];
    LookupAppend(context, tail, "__rootMessage__");
  }

  lemma InvokedAfter(context: Ctx, p: Throwable)
    requires ThrowableContext.FreshFor(context)
    ensures ThrowableContext.Add(context, Some(p)).Done?
    ensures var r := Lookup(ThrowableContext.Add(context, Some(p)).value, "__rootMessage__");
      r == None || r == Some(Str(Exceptables.RootOf(p).message))
  {
    FreshLacksRootMessage(context);
    ThrowableContext.WithPrevious(context, p);
    assert ThrowableContext.Add(context, Some(p)).value
      == context + ThrowableContext.PreviousTail(p) + RootRest(p);
    PreviousTailClean(p);
    RestRootMessage(p);
    LookupPastTwo(context, ThrowableContext.PreviousTail(p), RootRest(p), "__rootMessage__");
  }

  /** A context without detail keys of its own has no `__rootMessage__` yet. */
  lemma FreshLacksRootMessage(context: Ctx)
    requires ThrowableContext.FreshFor(context)
    ensures !HasKey(context, "__rootMessage__")
  {
    assert "__rootMessage__" == ThrowableContext.DetailKeys(ThrowableContext.Root)[1];
  }

  function RootRest(p: Throwable): Ctx {
    if IsExceptable(p) then ThrowableContext.From(Exceptables.Root(p), ThrowableContext.Root)[1..] else []
  }

  lemma PreviousTailClean(p: Throwable)
    ensures !HasKey(ThrowableContext.PreviousTail(p), "__rootMessage__")
  {
    assert "__rootMessage__" == ThrowableContext.DetailKeys(ThrowableContext.Root)[1];
  }

  lemma RestRootMessage(p: Throwable)
    ensures Lookup(RootRest(p), "__rootMessage__") == None ||
            Lookup(RootRest(p), "__rootMessage__") == Some(Str(Exceptables.RootOf(p).message))
  {
    if IsExceptable(p) {
      RootDetailsHead(Exceptables.Root(p));
    }
  }

  lemma RootDetailsHead(r: Throwable)
    ensures |ThrowableContext.From(r, ThrowableContext.Root)| > 1
    ensures ThrowableContext.From(r, ThrowableContext.Root)[1..][0] == ("__rootMessage__", Str(r.message))
  {
  }

  /**
   * An invoked SplFault's message is its name and the message of the end of the previous chain;
   * without a previous throwable, that end is the new object itself, whose message is still empty
   * while its Fault is asked for one.
   */
  lemma SplInvokeMessage(env: Registry.Env, f: Fault, context: Ctx, previous: Option<Throwable>)
    requires f.SplFault? && Registry.FindFormat(env.registry.bundles, CaseName(f), "") == Done(None)
    requires ThrowableContext.FreshFor(context) && UniqueKeys(context)
    requires previous.Some? ==> '\\' !in Exceptables.RootOf(previous.value).message
    ensures Invoke(env, f, context, previous).Done?
    ensures Invoke(env, f, context, previous).value.message ==
      FaultName(f) + ": " + (if previous.Some? then Exceptables.RootOf(previous.value).message else "")
  {
    assert ThrowableContext.Benign(context);
    InvokeTotal(env, f, context, previous);
    InvokedGiven(context, previous);
    var x := Invoke(env, f, context, previous).value;
    var x0 := x.(message := "");
    var m := if previous.Some? then Exceptables.RootOf(previous.value).message else "";
    assert Exceptables.RootOf(x0) == (if previous.Some? then Exceptables.RootOf(previous.value) else x0);
    BuiltRootMessage(x0, m);
    SplMessage(env, f, Exceptables.Context(x0), m);
  }

  // ---------------------------------------------------------------------------------------------
  // ErrorFault: registry only

  /** An ErrorFault's message comes from the registry alone; with no format there, it is the bare name. */
  lemma ErrorMessage(env: Registry.Env, f: Fault, context: Ctx)
    requires f.ErrorFault? && ThrowableContext.Add(context, None).Done?
    ensures var c := ThrowableContext.Add(context, None).value;
      var r := MessageMapper.FromRegistry(env, CaseName(f), c, true);
      Message(env, f, context) == Done(if r.Some? then FaultName(f) + ": " + r.value else FaultName(f))
  {
    var c := ThrowableContext.Add(context, None).value;
    MapperMessageIs(env, f, context);
    RegistryOnly(env, f, c);
  }

  /** With no `MESSAGES` of its own, the mapped message is the registry's, or nothing. */
  lemma RegistryOnly(env: Registry.Env, f: Fault, c: Ctx)
    requires f.ErrorFault?
    ensures var r := MessageMapper.FromRegistry(env, CaseName(f), c, true);
      IsFault.Named(f, EnumeratesFaults.AsString(MessageMapper.MakeMessage(env, Source(f), CaseName(f), c, None, true)))
        == if r.Some? then FaultName(f) + ": " + r.value else FaultName(f)
  {
    assert Source(f) == MessageMapper.MessageSource(FaultClass(f), None);
    MessageMapper.UndefinedTable(env, FaultClass(f), CaseName(f), c, None, true);
  }
}
