/**
 * `MessageMapper` (and the `makeMessage` override of `MessageEnum`): finding a message for a key,
 * first in the registry, then in the class's own `MESSAGES` table.  Each attempt runs under
 * `new Handler()->ignore(MessageFault::NoSuchMessage)`, which turns any Fault or throw into null,
 * so that `??` moves on to the next attempt.
 */
module MessageMapper {
  import opened Wrappers
  import opened Values
  import MessageFaults
  import MessageBundles
  import opened Registry
  import HandlerCore
  import EnumeratesFaults
  import ThrowableContext
  import IsFault

  /**
   * What `messageBundle()` sees of the class using the trait: its name, and `static::MESSAGES`
   * when the class defines that constant (classes implementing `HasMessages` inherit `[]`).
   */
  datatype MessageSource = MessageSource(cls: string, constant: Option<Value>)

  const NoSuchMessage: Fault := MessageFault(MessageFaults.NoSuchMessage)

  /** The handler both attempts run under. */
  function Ignoring(): HandlerCore.Config {
    HandlerCore.IgnoringHandler([HandlerCore.FaultM(NoSuchMessage)])
  }

  /** Falling off the end of `messageBundle()`, declared to return a `MessageBundle`. */
  function NoneReturned(cls: string): Throwable {
    TypeError(cls + "::messageBundle(): Return value must be of type at\\peekaboo\\MessageBundle, none returned")
  }

  /** The bundle identity `new MessageBundle` receives (only `unregister` compares identities). */
  const BundleId: nat := 0

  /**
   * `messageBundle()`: a bundle over `MESSAGES` when it is an array; `MessageFault::BadMessages`
   * (with the constant's debug type) when it is anything else; a type error when it is undefined.
   */
  function MessageBundle(src: MessageSource, encode: Value -> string): Outcome<MessageBundles.Bundle> {
    match src.constant
    case None => Raised(NoneReturned(src.cls))
    case Some(Arr(es)) => MessageBundles.NewBundle(BundleId, es)
    case Some(v) =>
      match EnumeratesFaults.Invoke(MessageFault(MessageFaults.BadMessages), [("type", Str(DebugType(v)))], None, encode)
      case Done(x) => Raised(x)
      case Raised(t) => Raised(t)
  }

  /** `string | MessageFault` as the handler's callable returns it. */
  function AsValue(r: Outcome<MessageResult>): Outcome<Value> {
    match r
    case Raised(t) => Raised(t)
    case Done(Msg(s)) => Done(Str(s))
    case Done(Failed(c)) => Done(FaultV(MessageFault(c)))
  }

  /** The arguments `try` forwards: `$key, $context, $locale, "", $onlyIf`. */
  function RegistryArgs(key: string, context: Ctx, locale: Option<string>, onlyIf: bool): seq<Value> {
    [Str(key), Arr(context), if locale.Some? then Str(locale.value) else Null, Str(""), Bool(onlyIf)]
  }

  /** `$registry::message(...)`, looked up in the default group. */
  function RegistryCall(env: Registry.Env, key: string, context: Ctx, onlyIf: bool): HandlerCore.Callable {
    HandlerCore.Callable(0, _ => AsValue(Registry.Message(env.registry, key, context, "", onlyIf, env.encode)))
  }

  /** The second closure: `messageFrom` over the class's own bundle. */
  function BundleCall(env: Registry.Env, src: MessageSource, key: string, context: Ctx, onlyIf: bool): HandlerCore.Callable {
    HandlerCore.Callable(1, _ =>
      match MessageBundle(src, env.encode)
      case Raised(t) => Raised(t)
      case Done(b) => AsValue(Registry.MessageFrom(b.messages, key, context, onlyIf, env.encode)))
  }

  /** The left operand of `??`: the string the handler returned, if it returned one. */
  function Attempt(c: HandlerCore.Callable, args: seq<Value>): Option<string> {
    match HandlerCore.Tried(Ignoring(), c, args).verdict
    case Returned(Str(s)) => Some(s)
    case _ => None
  }

  /** `makeMessage($key, $context, $locale, $onlyIf)`. */
  function MakeMessage(env: Registry.Env, src: MessageSource, key: string, context: Ctx, locale: Option<string>, onlyIf: bool)
    : MessageResult
  {
    match Attempt(RegistryCall(env, key, context, onlyIf), RegistryArgs(key, context, locale, onlyIf))
    case Some(s) => Msg(s)
    case None =>
      match Attempt(BundleCall(env, src, key, context, onlyIf), [])
      case Some(s) => Msg(s)
      case None => Failed(MessageFaults.NoSuchMessage)
  }

  // ---------------------------------------------------------------------------------------------
  // The chain without the handler

  /** The string an attempt produces, if it produces one without a Fault or a throw. */
  function Produced(r: Outcome<Value>): Option<string> {
    if r.Done? && r.value.Str? then Some(r.value.s) else None
  }

  /** Under the ignoring handler an attempt yields exactly the string its callable returns, if any. */
  lemma AttemptIsProduced(c: HandlerCore.Callable, args: seq<Value>)
    requires c.call(args).Done? ==> c.call(args).value.Str? || c.call(args).value.FaultV?
    ensures Attempt(c, args) == Produced(c.call(args))
  {
    HandlerCore.IgnoreOnlyNulls([HandlerCore.FaultM(NoSuchMessage)], c, args);
  }

  /** The registry's answer, as a string when it has one. */
  function FromRegistry(env: Registry.Env, key: string, context: Ctx, onlyIf: bool): Option<string> {
    match Registry.Message(env.registry, key, context, "", onlyIf, env.encode)
    case Done(Msg(s)) => Some(s)
    case _ => None
  }

  /** The class's own table's answer, as a string when it has one. */
  function FromBundle(env: Registry.Env, src: MessageSource, key: string, context: Ctx, onlyIf: bool): Option<string> {
    match MessageBundle(src, env.encode)
    case Raised(_) => None
    case Done(b) =>
      match Registry.MessageFrom(b.messages, key, context, onlyIf, env.encode)
      case Done(Msg(s)) => Some(s)
      case _ => None
  }

  /**
   * `makeMessage` is the plain fallback chain: the registry's message, else the table's message,
   * else `NoSuchMessage`; every Fault and every throw along the way only means "try the next".
   */
  lemma MakeMessageChain(env: Registry.Env, src: MessageSource, key: string, context: Ctx, locale: Option<string>, onlyIf: bool)
    ensures MakeMessage(env, src, key, context, locale, onlyIf) ==
      if FromRegistry(env, key, context, onlyIf).Some? then Msg(FromRegistry(env, key, context, onlyIf).value)
      else if FromBundle(env, src, key, context, onlyIf).Some? then Msg(FromBundle(env, src, key, context, onlyIf).value)
      else Failed(MessageFaults.NoSuchMessage)
  {
    RegistryAttempt(env, key, context, onlyIf, RegistryArgs(key, context, locale, onlyIf));
    BundleAttempt(env, src, key, context, onlyIf);
  }

  /** The first attempt yields the registry's answer. */
  lemma RegistryAttempt(env: Registry.Env, key: string, context: Ctx, onlyIf: bool, args: seq<Value>)
    ensures Attempt(RegistryCall(env, key, context, onlyIf), args) == FromRegistry(env, key, context, onlyIf)
  {
    var c := RegistryCall(env, key, context, onlyIf);
    var r := Registry.Message(env.registry, key, context, "", onlyIf, env.encode);
    assert c.call(args) == AsValue(r);
    AttemptIsProduced(c, args);
  }

  /** The second attempt yields the table's answer. */
  lemma BundleAttempt(env: Registry.Env, src: MessageSource, key: string, context: Ctx, onlyIf: bool)
    ensures Attempt(BundleCall(env, src, key, context, onlyIf), []) == FromBundle(env, src, key, context, onlyIf)
  {
    var c := BundleCall(env, src, key, context, onlyIf);
    match MessageBundle(src, env.encode)
    case Raised(t) =>
      assert c.call([]) == Raised(t);
      AttemptIsProduced(c, []);
    case Done(b) =>
      assert c.call([]) == AsValue(Registry.MessageFrom(b.messages, key, context, onlyIf, env.encode));
      AttemptIsProduced(c, []);
  }

  /** `makeMessage` gives a message or `NoSuchMessage`, never another MessageFault and never a throw. */
  lemma MakeMessageFails(env: Registry.Env, src: MessageSource, key: string, context: Ctx, locale: Option<string>, onlyIf: bool)
    ensures MakeMessage(env, src, key, context, locale, onlyIf).Failed? ==>
      MakeMessage(env, src, key, context, locale, onlyIf) == Failed(MessageFaults.NoSuchMessage)
    ensures MakeMessage(env, src, key, context, locale, onlyIf).Failed? <==>
      FromRegistry(env, key, context, onlyIf).None? && FromBundle(env, src, key, context, onlyIf).None?
  {
    MakeMessageChain(env, src, key, context, locale, onlyIf);
  }

  /** A message the registry formats wins over the class's table, whatever the table holds. */
  lemma RegistryWins(env: Registry.Env, src: MessageSource, key: string, context: Ctx, locale: Option<string>, onlyIf: bool, format: string)
    requires Registry.FindFormat(env.registry.bundles, key, "") == Done(Some(format))
    requires Registry.FormatMessage(format, context, onlyIf, env.encode).Msg?
    ensures MakeMessage(env, src, key, context, locale, onlyIf) == Registry.FormatMessage(format, context, onlyIf, env.encode)
  {
    MakeMessageChain(env, src, key, context, locale, onlyIf);
  }

  /** The locale argument plays no part in which message is made. */
  lemma LocaleIgnored(env: Registry.Env, src: MessageSource, key: string, context: Ctx, l1: Option<string>, l2: Option<string>, onlyIf: bool)
    ensures MakeMessage(env, src, key, context, l1, onlyIf) == MakeMessage(env, src, key, context, l2, onlyIf)
  {
    MakeMessageChain(env, src, key, context, l1, onlyIf);
    MakeMessageChain(env, src, key, context, l2, onlyIf);
  }

  /**
   * With no format in the registry, a format found in the class's `MESSAGES` is formatted; when
   * that formatting fails (an incomplete context under `onlyIf`) the result is `NoSuchMessage`.
   */
  lemma TableFallback(env: Registry.Env, src: MessageSource, key: string, context: Ctx, locale: Option<string>, onlyIf: bool, es: Ctx, format: string)
    requires Registry.FindFormat(env.registry.bundles, key, "") == Done(None)
    requires src.constant == Some(Arr(es)) && MessageBundles.NewBundle(BundleId, es).Done?
    requires Registry.FindFormatIn(MessageBundles.NewBundle(BundleId, es).value.messages, key) == Done(Msg(format))
    ensures var r := Registry.FormatMessage(format, context, onlyIf, env.encode);
      MakeMessage(env, src, key, context, locale, onlyIf) == (if r.Msg? then r else Failed(MessageFaults.NoSuchMessage))
  {
    MakeMessageChain(env, src, key, context, locale, onlyIf);
    assert FromRegistry(env, key, context, onlyIf) == None;
    var b := MessageBundles.NewBundle(BundleId, es).value;
    assert MessageBundle(src, env.encode) == Done(b);
    var r := Registry.FormatMessage(format, context, onlyIf, env.encode);
    Registry.MessageFromFound(b.messages, key, context, format, onlyIf, env.encode);
    assert FromBundle(env, src, key, context, onlyIf) == if r.Msg? then Some(r.s) else None;
  }

  /**
   * A class without `MESSAGES` (a Fault enum that does not define it) makes its message from the
   * registry alone: `messageBundle()` falls off its end, and the handler swallows the type error.
   */
  lemma UndefinedTable(env: Registry.Env, cls: string, key: string, context: Ctx, locale: Option<string>, onlyIf: bool)
    ensures var r := MakeMessage(env, MessageSource(cls, None), key, context, locale, onlyIf);
      r == if FromRegistry(env, key, context, onlyIf).Some? then Msg(FromRegistry(env, key, context, onlyIf).value)
        else Failed(MessageFaults.NoSuchMessage)
  {
    MakeMessageChain(env, MessageSource(cls, None), key, context, locale, onlyIf);
  }

  /** A `MESSAGES` that is not an array makes `messageBundle()` throw `BadMessages`, with the constant's type. */
  lemma BadTable(src: MessageSource, encode: Value -> string, v: Value)
    requires src.constant == Some(v) && !v.Arr?
    ensures MessageBundle(src, encode).Raised?
    ensures var x := MessageBundle(src, encode).thrown;
      x.fault == Some(MessageFault(MessageFaults.BadMessages)) && Lookup(x.given, "type") == Some(Str(DebugType(v)))
  {
    EnumeratesFaults.SingleInvoked(MessageFault(MessageFaults.BadMessages), "type", Str(DebugType(v)), encode);
  }

  // ---------------------------------------------------------------------------------------------
  // MessageEnum::makeMessage

  /** `$this->_makeMessage(...)`: the mapper's `makeMessage` as a callable. */
  function MapperCall(env: Registry.Env, src: MessageSource, key: string, context: Ctx, locale: Option<string>, onlyIf: bool)
    : HandlerCore.Callable
  {
    HandlerCore.Callable(2, _ => AsValue(Done(MakeMessage(env, src, key, context, locale, onlyIf))))
  }

  /** The arguments `try` forwards to it: `$key, $context, $locale, $onlyIf`. */
  function EnumArgs(key: string, context: Ctx, locale: Option<string>, onlyIf: bool): seq<Value> {
    [Str(key), Arr(context), if locale.Some? then Str(locale.value) else Null, Bool(onlyIf)]
  }

  /**
   * `MessageEnum::makeMessage` (used by `DebugMessages`): the mapper's chain under the ignoring
   * handler, falling back on `message($context)`, the case's backing value formatted with `onlyIf`.
   */
  function EnumMakeMessage(env: Registry.Env, src: MessageSource, value: string, key: string, context: Ctx, locale: Option<string>, onlyIf: bool)
    : MessageResult
  {
    match Attempt(MapperCall(env, src, key, context, locale, onlyIf), EnumArgs(key, context, locale, onlyIf))
    case Some(s) => Msg(s)
    case None => EnumeratesFaults.EnumMessage(value, context, env.encode)
  }

  /** The enum's own template is used exactly when the mapper finds nothing. */
  lemma EnumMakeMessageFallback(env: Registry.Env, src: MessageSource, value: string, key: string, context: Ctx, locale: Option<string>, onlyIf: bool)
    ensures var m := MakeMessage(env, src, key, context, locale, onlyIf);
      EnumMakeMessage(env, src, value, key, context, locale, onlyIf) ==
        if m.Msg? then m else EnumeratesFaults.EnumMessage(value, context, env.encode)
  {
    AttemptIsProduced(MapperCall(env, src, key, context, locale, onlyIf), EnumArgs(key, context, locale, onlyIf));
  }
}
