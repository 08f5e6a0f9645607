/**
 * `Handler`: configured by cloning, then used to `try` a callable.  The decision pipeline itself
 * (rethrow, collect, ignore, default, dispatch) is stated on values in `HandlerCore`; this module
 * holds the class whose configurators clone it, whose loops scan its rule lists, and whose `try`
 * appends to its debug log, each proved against that pipeline.
 */
module Handlers {
  import opened Wrappers
  import opened Values
  import SplClasses
  import HandlerFaults
  import DebugMessages
  import Registry
  import ThrowableContext
  import Faults
  import LogEntries
  import DebugLogs
  import HandlerCore
  import HandlerOptions

  // ---------------------------------------------------------------------------------------------
  // What the debug log receives during one `try`

  /** The entries built, in order, and the exception that stopped logging, if one did. */
  datatype Logging = Logging(entries: seq<LogEntries.LogEntry>, raised: Option<Throwable>)

  /** How one `(message, context)` pair becomes an entry, or the exception building it raised. */
  type Builder = ((Value, Ctx)) -> Outcome<LogEntries.LogEntry>

  /** Each pair in turn: every pair up to the first that raises adds its entry; nothing after it runs. */
  function LoggedBy(build: Builder, logs: seq<(Value, Ctx)>): Logging
    decreases |logs|
  {
    if logs == [] then Logging([], None)
    else
      match build(logs[0])
      case Raised(t) => Logging([], Some(t))
      case Done(e) =>
        var rest := LoggedBy(build, logs[1..]);
        Logging([e] + rest.entries, rest.raised)
  }

  /** `debugLog->addFrom` for each `(message, context)` in turn, entries built by `LogEntry::from`. */
  function Logged(env: Registry.Env, amb: LogEntries.Ambient, logs: seq<(Value, Ctx)>): Logging {
    LoggedBy((p: (Value, Ctx)) => LogEntries.From(env, amb, p.0, p.1), logs)
  }

  /**
   * Entry `i` is the one built from pair `i`; all pairs are logged unless one raises, and then
   * the one after the last entry is the one that raised.
   */
  lemma LoggedInOrder(env: Registry.Env, amb: LogEntries.Ambient, logs: seq<(Value, Ctx)>)
    ensures var l := Logged(env, amb, logs);
      |l.entries| <= |logs| &&
      (forall i :: 0 <= i < |l.entries| ==> LogEntries.From(env, amb, logs[i].0, logs[i].1) == Done(l.entries[i])) &&
      (l.raised.None? ==> |l.entries| == |logs|) &&
      (l.raised.Some? ==>
        |l.entries| < |logs| && LogEntries.From(env, amb, logs[|l.entries|].0, logs[|l.entries|].1) == Raised(l.raised.value))
  {
    LoggedByInOrder((p: (Value, Ctx)) => LogEntries.From(env, amb, p.0, p.1), logs);
  }

  lemma {:induction false} LoggedByInOrder(build: Builder, logs: seq<(Value, Ctx)>)
    ensures var l := LoggedBy(build, logs);
      |l.entries| <= |logs| &&
      (forall i :: 0 <= i < |l.entries| ==> build(logs[i]) == Done(l.entries[i])) &&
      (l.raised.None? ==> |l.entries| == |logs|) &&
      (l.raised.Some? ==> |l.entries| < |logs| && build(logs[|l.entries|]) == Raised(l.raised.value))
    decreases |logs|
  {
    if logs != [] {
      match build(logs[0])
      case Raised(t) =>
      case Done(e) =>
        LoggedByInOrder(build, logs[1..]);
        var rest := LoggedBy(build, logs[1..]);
        var l := LoggedBy(build, logs);
        assert l.entries == [e] + rest.entries;
        forall i | 0 <= i < |l.entries| ensures build(logs[i]) == Done(l.entries[i]) {
          if i > 0 {
            assert logs[1..][i - 1] == logs[i];
          }
        }
        if l.raised.Some? {
          assert logs[1..][|rest.entries|] == logs[|l.entries|];
        }
    }
  }

  /** Logging one pair gives its entry, or the exception building it raised. */
  lemma LoggedSingle(env: Registry.Env, amb: LogEntries.Ambient, v: Value, ctx: Ctx)
    ensures var r := LogEntries.From(env, amb, v, ctx);
      Logged(env, amb, [(v, ctx)]) == if r.Raised? then Logging([], Some(r.thrown)) else Logging([r.value], None)
  {
    LoggedBySingle((p: (Value, Ctx)) => LogEntries.From(env, amb, p.0, p.1), (v, ctx));
  }

  lemma LoggedBySingle(build: Builder, p: (Value, Ctx))
    ensures var r := build(p);
      LoggedBy(build, [p]) == if r.Raised? then Logging([], Some(r.thrown)) else Logging([r.value], None)
  {
    assert [p][1..] == [];
  }

  /** Logging two runs of pairs is logging the first, then (unless it raised) the second. */
  lemma LoggedAppend(env: Registry.Env, amb: LogEntries.Ambient, a: seq<(Value, Ctx)>, b: seq<(Value, Ctx)>)
    ensures var la := Logged(env, amb, a);
      Logged(env, amb, a + b) ==
        if la.raised.Some? then la
        else Logging(la.entries + Logged(env, amb, b).entries, Logged(env, amb, b).raised)
  {
    LoggedByAppend((p: (Value, Ctx)) => LogEntries.From(env, amb, p.0, p.1), a, b);
  }

  lemma {:induction false} LoggedByAppend(build: Builder, a: seq<(Value, Ctx)>, b: seq<(Value, Ctx)>)
    ensures var la := LoggedBy(build, a);
      LoggedBy(build, a + b) ==
        if la.raised.Some? then la
        else Logging(la.entries + LoggedBy(build, b).entries, LoggedBy(build, b).raised)
    decreases |a|
  {
    if a == [] {
      assert a + b == b;
    } else {
      assert (a + b)[0] == a[0];
      assert (a + b)[1..] == a[1..] + b;
      match build(a[0])
      case Raised(t) =>
      case Done(e) =>
        LoggedByAppend(build, a[1..], b);
        var rest := LoggedBy(build, a[1..]);
        if rest.raised.None? {
          assert [e] + (rest.entries + LoggedBy(build, b).entries) == ([e] + rest.entries) + LoggedBy(build, b).entries;
        }
    }
  }


  // ---------------------------------------------------------------------------------------------
  // How `try` ends

  /** Whatever building the Exceptable gives, it is thrown: the Exceptable, or the error that stopped it. */
  function Thrown(x: Outcome<Throwable>): (r: Outcome<Value>)
    ensures r.Raised?
    ensures x.Done? ==> r.thrown == x.value
  {
    match x
    case Done(t) => Raised(t)
    case Raised(t) => Raised(t)
  }

  /**
   * A verdict as PHP sees it: a value is returned; an exception is rethrown as is; a Fault is
   * thrown as `$fault($context)`; a failing callback is reported as `HandlerFault` with
   * `["result" => $result]` and the callback's exception as previous.
   */
  function Settle(env: Registry.Env, v: HandlerCore.Verdict): (r: Outcome<Value>)
    ensures r.Done? <==> v.Returned?
    ensures v.Returned? ==> r.value == v.v
    ensures v.Rethrown? ==> r.thrown == v.t
  {
    match v
    case Returned(x) => Done(x)
    case Rethrown(t) => Raised(t)
    case RethrownFault(f, context) => Thrown(Faults.Invoke(env, f, context, None))
    case CallbackFailed(hc, result, cause) =>
      Thrown(Faults.Invoke(env, HandlerFault(hc), [("result", result)], Some(cause)))
  }

  /** A run as the caller sees it: an exception from logging escapes first; otherwise the verdict. */
  function RunOutcome(env: Registry.Env, amb: LogEntries.Ambient, run: HandlerCore.Run): Outcome<Value> {
    var l := Logged(env, amb, run.logs);
    if l.raised.Some? then Raised(l.raised.value) else Settle(env, run.verdict)
  }

  /** A rethrown Fault is thrown as an Exceptable of that Fault with no previous exception. */
  lemma RethrownFaultThrows(env: Registry.Env, f: Fault, context: Ctx)
    requires ThrowableContext.Benign(context)
    ensures var r := Settle(env, HandlerCore.RethrownFault(f, context));
      r.Raised? && r.thrown.fault == Some(f) && r.thrown.previous.None?
  {
    Faults.InvokeTotal(env, f, context, None);
  }

  /** A context whose keys are none of the three throwable slots is benign. */
  lemma NoSlotsBenign(context: Ctx)
    requires forall i :: 0 <= i < |context| ==> |context[i].0| < 8
    ensures ThrowableContext.Benign(context)
  {
    forall s: ThrowableContext.Slot ensures Get(context, ThrowableContext.SlotKey(s)) == Null {
      var k := ThrowableContext.SlotKey(s);
      assert |k| >= 8;
      assert !HasKey(context, k);
    }
  }

  lemma SettleCallback(env: Registry.Env, hc: HandlerFaults.Case, result: Value, cause: Throwable)
    ensures Settle(env, HandlerCore.CallbackFailed(hc, result, cause)) ==
      Thrown(Faults.Invoke(env, HandlerFault(hc), [("result", result)], Some(cause)))
  {
  }

  /**
   * A failing callback is reported as the matching `HandlerFault`, chained to the callback's
   * exception and carrying the failed result under `result`.
   */
  lemma CallbackFailureThrows(env: Registry.Env, hc: HandlerFaults.Case, result: Value, cause: Throwable)
    ensures var r := Settle(env, HandlerCore.CallbackFailed(hc, result, cause));
      r.Raised? && r.thrown.fault == Some(HandlerFault(hc)) && r.thrown.previous == Some(cause) &&
      Lookup(r.thrown.given, "result") == Some(result)
  {
    var c: Ctx := [("result", result)];
    NoSlotsBenign(c);
    LookupAt(c, 0);
    Faults.InvokeKeeps(env, HandlerFault(hc), c, Some(cause), "result");
    SettleCallback(env, hc, result, cause);
  }

  /** The context of the failure branch, before any logging. */
  function FailureContext(context: Ctx, exception: Value, f: Fault): Ctx {
    Put(Put(context, "__exception__", exception), "__fault__", FaultV(f))
  }

  /** A key of the failure context that `try`'s own three keys cannot be. */
  lemma FailureContextLookup(c: HandlerCore.Callable, args: seq<Value>, result: Value, exception: Value, f: Fault, k: string)
    requires |k| >= 7 && k != "__exception__" && k != "__fault__"
    ensures Lookup(FailureContext(HandlerCore.TryContext(c, args, result), exception, f), k).None?
  {
    var t := HandlerCore.TryContext(c, args, result);
    PutLookup(Put(t, "__exception__", exception), "__fault__", FaultV(f), k);
    PutLookup(t, "__exception__", exception, k);
    TryContextShortKeys(c, args, result, k);
  }

  /** `try`'s own keys are all shorter than seven characters. */
  lemma TryContextShortKeys(c: HandlerCore.Callable, args: seq<Value>, result: Value, k: string)
    requires |k| >= 7
    ensures !HasKey(HandlerCore.TryContext(c, args, result), k)
  {
    var t := HandlerCore.TryContext(c, args, result);
    assert |t| == 3 && |t[0].0| == 5 && |t[1].0| == 4 && |t[2].0| == 6;
  }

  /**
   * The context `try` hands to the strategies holds no bad throwable slot and no badly typed
   * file, line or handled flag.
   */
  lemma FailureContextSafe(c: HandlerCore.Callable, args: seq<Value>, result: Value, exception: Value, f: Fault)
    requires exception == Null || exception.ThrowableV?
    ensures var ctx := FailureContext(HandlerCore.TryContext(c, args, result), exception, f);
      ThrowableContext.Benign(ctx) && LogEntries.WellTyped(ctx)
  {
    var t := HandlerCore.TryContext(c, args, result);
    var ctx := FailureContext(t, exception, f);
    PutLookup(Put(t, "__exception__", exception), "__fault__", FaultV(f), "__exception__");
    PutLookup(t, "__exception__", exception, "__exception__");
    FailureContextLookup(c, args, result, exception, f, "__previous__");
    FailureContextLookup(c, args, result, exception, f, "__root__");
    FailureContextLookup(c, args, result, exception, f, "__file__");
    FailureContextLookup(c, args, result, exception, f, "__line__");
    FailureContextLookup(c, args, result, exception, f, "__handled__");
    assert Get(ctx, "__exception__") == exception;
    assert Get(ctx, "__previous__") == Null && Get(ctx, "__root__") == Null;
    forall s: ThrowableContext.Slot
      ensures Get(ctx, ThrowableContext.SlotKey(s)) == Null || Get(ctx, ThrowableContext.SlotKey(s)).ThrowableV?
    {
      match s
      case Exception =>
      case Previous =>
      case Root =>
    }
  }

  /** A fault or a throwable is logged without raising from a benign, well-typed context. */
  lemma FailureLogSafe(env: Registry.Env, amb: LogEntries.Ambient, v: Value, ctx: Ctx)
    requires v.FaultV? || v.ThrowableV?
    requires ThrowableContext.Benign(ctx) && LogEntries.WellTyped(ctx)
    ensures LogEntries.From(env, amb, v, ctx).Done?
  {
    LogEntries.FromDispatch(env, amb, v, ctx);
    if v.FaultV? {
      Faults.MessageTotal(env, v.f, ctx);
      LogEntries.FromFaultEntry(env, amb, v.f, ctx);
    } else {
      LogEntries.FromThrowableEntry(amb, v.t, ctx);
    }
  }

  /** Outside debug mode only the failure itself is logged first, and that never raises. */
  lemma FirstLogSafe(env: Registry.Env, amb: LogEntries.Ambient, cfg: HandlerCore.Config, v: Value, ctx: Ctx)
    requires v.FaultV? || v.ThrowableV?
    requires ThrowableContext.Benign(ctx) && LogEntries.WellTyped(ctx)
    ensures Logged(env, amb, HandlerCore.LogIf(cfg, v, ctx)).raised.None?
  {
    FailureLogSafe(env, amb, v, ctx);
    if HandlerCore.Logs(cfg, v) {
      LoggedSingle(env, amb, v, ctx);
    }
  }

  /** Outside debug mode, a returned Fault that a `throw` matcher matches is thrown as its Exceptable. */
  lemma FaultRethrown(env: Registry.Env, amb: LogEntries.Ambient, cfg: HandlerCore.Config, c: HandlerCore.Callable, args: seq<Value>, f: Fault)
    requires !cfg.debug && c.call(args) == Done(FaultV(f)) && HandlerCore.Rethrows(cfg.throw, HandlerCore.FaultS(f))
    ensures var r := RunOutcome(env, amb, HandlerCore.Tried(cfg, c, args));
      r.Raised? && r.thrown.fault == Some(f) && r.thrown.previous.None?
  {
    var ctx := FailureContext(HandlerCore.TryContext(c, args, FaultV(f)), Null, f);
    FailureContextSafe(c, args, FaultV(f), Null, f);
    HandleSplits(cfg, None, f, HandlerCore.TryContext(c, args, FaultV(f)));
    FirstLogSafe(env, amb, cfg, FaultV(f), ctx);
    RethrownFaultThrows(env, f, ctx);
  }

  /** Outside debug mode, an exception that a `throw` matcher matches reaches the caller unchanged. */
  lemma ThrownRethrown(env: Registry.Env, amb: LogEntries.Ambient, cfg: HandlerCore.Config, c: HandlerCore.Callable, args: seq<Value>)
    requires !cfg.debug && c.call(args).Raised?
    requires HandlerCore.Rethrows(cfg.throw, HandlerCore.ThrowableS(c.call(args).thrown))
    ensures RunOutcome(env, amb, HandlerCore.Tried(cfg, c, args)) == Raised(c.call(args).thrown)
  {
    var t := c.call(args).thrown;
    var context := HandlerCore.TryContext(c, args, FaultV(HandlerCore.Uncaught));
    var ctx := FailureContext(context, ThrowableV(t), HandlerCore.Uncaught);
    FailureContextSafe(c, args, FaultV(HandlerCore.Uncaught), ThrowableV(t), HandlerCore.Uncaught);
    HandleSplits(cfg, Some(t), HandlerCore.Uncaught, context);
    FirstLogSafe(env, amb, cfg, ThrowableV(t), ctx);
  }

  /**
   * A value that is neither thrown nor a Fault meets no strategy and no log: without a success
   * callback it is returned as is, null included.
   */
  lemma SuccessReturnedAsIs(env: Registry.Env, amb: LogEntries.Ambient, cfg: HandlerCore.Config, c: HandlerCore.Callable, args: seq<Value>)
    requires c.call(args).Done? && !c.call(args).value.FaultV? && cfg.onSuccess.None?
    ensures RunOutcome(env, amb, HandlerCore.Tried(cfg, c, args)) == Done(c.call(args).value)
  {
    HandlerCore.SuccessSkipsStrategies(cfg, c, args);
    HandlerCore.SuccessReturned(cfg, c, args);
  }

  /**
   * Outside debug mode, a returned Fault that nothing rethrows or collects comes back as null
   * when no null default and no success callback are set.
   */
  lemma UncollectedReturnsNull(env: Registry.Env, amb: LogEntries.Ambient, cfg: HandlerCore.Config, c: HandlerCore.Callable, args: seq<Value>, f: Fault)
    requires !cfg.debug && c.call(args) == Done(FaultV(f)) && !HandlerCore.Rethrows(cfg.throw, HandlerCore.FaultS(f))
    requires HandlerCore.FirstCollect(cfg.collect, HandlerCore.FaultS(f)) == None
    requires !Isset(cfg.defaults, "") && cfg.onSuccess.None?
    ensures RunOutcome(env, amb, HandlerCore.Tried(cfg, c, args)) == Done(Null)
  {
    var context := HandlerCore.TryContext(c, args, FaultV(f));
    var ctx := FailureContext(context, Null, f);
    FailureContextSafe(c, args, FaultV(f), Null, f);
    HandleSplits(cfg, None, f, context);
    FirstLogSafe(env, amb, cfg, FaultV(f), ctx);
    var logged := HandlerCore.LogIf(cfg, FaultV(f), ctx);
    assert Strategies(cfg, f, ctx).logs == [];
    assert logged + [] == logged;
  }

  // ---------------------------------------------------------------------------------------------
  // `tryIgnoring`, `tryPipe` and `bind` on values

  /** `($result instanceof Fault) ? null : $result`. */
  function Ignored(r: Outcome<Value>): (o: Outcome<Value>)
    ensures !(o.Done? && o.value.FaultV?)
    ensures r.Raised? ==> o == r
    ensures r.Done? && !r.value.FaultV? ==> o == r
  {
    if r.Done? && r.value.FaultV? then Done(Null) else r
  }

  const ArgumentCountErrorTag: SplClasses.ClassTag :=
    SplClasses.ClassTag("ArgumentCountError", {"TypeError", "Error", "Throwable", "Stringable"})

  /** Calling a one-parameter closure with no argument. */
  function TooFewArguments(): (t: Throwable)
    ensures !IsExceptable(t) && SplClasses.IsA(t.tag, "TypeError")
  {
    Throwable(ArgumentCountErrorTag, "Too few arguments to function {closure}(), 0 passed and exactly 1 expected",
      0, "", 0, None, None, [])
  }

  /** The closure `tryPipe` hands to `try`: it runs the steps on its one argument. */
  function PipeOf(id: nat, functions: seq<HandlerCore.Callable>): (c: HandlerCore.Callable)
    ensures c.id == id
  {
    HandlerCore.Callable(id, (args: seq<Value>) => if args == [] then Raised(TooFewArguments()) else HandlerCore.Pipe(functions, args[0]))
  }

  /** The closure `bind` returns: a Fault passes through; anything else is tried with the handler. */
  function Bind(env: Registry.Env, amb: LogEntries.Ambient, cfg: HandlerCore.Config, id: nat, callback: HandlerCore.Callable): (c: HandlerCore.Callable)
    ensures c.id == id
  {
    HandlerCore.Callable(id, (args: seq<Value>) =>
      if args == [] then Raised(TooFewArguments())
      else if args[0].FaultV? then Done(args[0])
      else RunOutcome(env, amb, HandlerCore.Tried(cfg, callback, [args[0]])))
  }

  /** A bound callback never sees a Fault: the Fault is its result. */
  lemma BindPassesFaults(env: Registry.Env, amb: LogEntries.Ambient, cfg: HandlerCore.Config, id: nat, callback: HandlerCore.Callable, f: Fault)
    ensures Bind(env, amb, cfg, id, callback).call([FaultV(f)]) == Done(FaultV(f))
  {
  }

  /** Any other value is tried with the handler's strategies. */
  lemma BindTries(env: Registry.Env, amb: LogEntries.Ambient, cfg: HandlerCore.Config, id: nat, callback: HandlerCore.Callable, v: Value)
    requires !v.FaultV?
    ensures Bind(env, amb, cfg, id, callback).call([v]) == RunOutcome(env, amb, HandlerCore.Tried(cfg, callback, [v]))
  {
  }

  // ---------------------------------------------------------------------------------------------
  // The constructor's and `options()`'s debug-log settings (the Handler.php:79 and Handler.php:181-182 findings)

  /** The two settings a debug log is given. */
  datatype LogSettings = LogSettings(debug: bool, logger: Option<nat>)

  function SettingsOf(o: HandlerOptions.Options): LogSettings {
    LogSettings(o.debug, o.logger)
  }

  /** As written: `new DebugLog($debug, $logger)` on a class with no constructor drops both arguments. */
  function InitialLogAsWritten(o: HandlerOptions.Options): (s: LogSettings)
    ensures s == SettingsOf(HandlerOptions.Defaults())
  {
    LogSettings(false, None)
  }

  /** So a handler built with a logger never passes anything on to it. */
  lemma InitialLogDropsLogger()
    ensures var o := HandlerOptions.Defaults().(debug := true, logger := Some(0));
      InitialLogAsWritten(o) != SettingsOf(o)
  {
  }

  /**
   * As written, `options()` leaves the new handler with a copy of the receiver's log settings and
   * writes the receiver's own options into the receiver's log: the pair (new handler's log,
   * receiver's log) afterwards.
   */
  function OptionsLogsAsWritten(receiver: HandlerOptions.Options, receiverLog: LogSettings, o: HandlerOptions.Options): (r: (LogSettings, LogSettings))
    ensures r.0 == receiverLog && r.1 == SettingsOf(receiver)
  {
    (receiverLog, SettingsOf(receiver))
  }

  /** Turning debug mode on through `options()` leaves the new handler's log out of debug mode. */
  lemma OptionsLogsDesync()
    ensures var d := HandlerOptions.Defaults();
      var o := d.(debug := true, logger := Some(0));
      OptionsLogsAsWritten(d, SettingsOf(d), o).0 != SettingsOf(HandlerOptions.Merge(o, d))
  {
  }

  /**
   * What the two slips cost: entries are still recorded (`add` appends unconditionally), but the
   * configured logger receives none of them, where the intended settings pass each one on.
   */
  lemma LoggerNeverCalled(o: HandlerOptions.Options, entries: seq<LogEntries.LogEntry>)
    requires o.logger.Some?
    ensures Forwarded(InitialLogAsWritten(o).logger, entries) == []
    ensures var d := HandlerOptions.Defaults();
      Forwarded(OptionsLogsAsWritten(d, SettingsOf(d), o).0.logger, entries) == []
    ensures Forwarded(SettingsOf(o).logger, entries) == DebugLogs.SentAll(entries)
    ensures Forwarded(SettingsOf(HandlerOptions.Merge(o, HandlerOptions.Defaults())).logger, entries) == DebugLogs.SentAll(entries)
  {
    HandlerOptions.MergeKeepsGiven(o, HandlerOptions.Defaults());
  }

  // ---------------------------------------------------------------------------------------------
  // The class

  class Handler {
    var options: HandlerOptions.Options
    /** `readonly` in the source, but replaced by `__clone`. */
    var debugLog: DebugLogs.DebugLog
    var collect: seq<HandlerCore.Rule>
    var defaults: Ctx
    var ignore: seq<HandlerCore.Matcher>
    var ignoring: bool
    var onSuccess: Option<HandlerCore.Callable>
    var onFailure: Option<HandlerCore.Callable>
    var throw: seq<HandlerCore.Matcher>

    /** What `try` reads of this handler. */
    function Config(): HandlerCore.Config
      reads this
    {
      HandlerCore.Config(collect, defaults, ignore, ignoring, onSuccess, onFailure, throw,
        options.debug, options.logger.Some?)
    }

    /** Rule names are distinct and each default key is stored once. */
    predicate Valid()
      reads this
    {
      HandlerCore.UniqueNames(collect) && UniqueKeys(defaults)
    }

    /** The debug log is set up from the handler's own options. */
    predicate Synced()
      reads this, debugLog
    {
      debugLog.debug == options.debug && debugLog.logger == options.logger
    }

    /** The debug log holds `log0` followed by `entries`, and a set logger was given `entries` too. */
    predicate Extends(log0: seq<LogEntries.LogEntry>, sent0: seq<DebugLogs.Sent>, entries: seq<LogEntries.LogEntry>)
      reads this, debugLog
    {
      debugLog.log == log0 + entries &&
      debugLog.sent == sent0 + Forwarded(debugLog.logger, entries)
    }

    /** `h`'s debug log is a copy of this one's. */
    predicate SameLog(h: Handler)
      reads this, debugLog, h, h.debugLog
    {
      h.debugLog.debug == debugLog.debug && h.debugLog.logger == debugLog.logger &&
      h.debugLog.log == debugLog.log && h.debugLog.sent == debugLog.sent
    }

    /** `new Handler($options)`, with its debug log set up from the options. */
    constructor (o: HandlerOptions.Options)
      ensures options == o && collect == [] && defaults == [] && ignore == [] && !ignoring
      ensures onSuccess.None? && onFailure.None? && throw == []
      ensures fresh(debugLog) && debugLog.log == [] && debugLog.sent == []
      ensures Valid() && Synced()
    {
      options := o;
      collect := [];
      defaults := [];
      ignore := [];
      ignoring := false;
      onSuccess := None;
      onFailure := None;
      throw := [];
      var log := new DebugLogs.DebugLog();
      log.debug := o.debug;
      log.logger := o.logger;
      debugLog := log;
    }

    /** `new Handler($options)` as written: the debug log keeps its defaults. */
    constructor AsWritten(o: HandlerOptions.Options)
      ensures options == o && collect == [] && defaults == [] && ignore == [] && !ignoring
      ensures onSuccess.None? && onFailure.None? && throw == []
      ensures fresh(debugLog) && debugLog.log == [] && debugLog.sent == []
      ensures LogSettings(debugLog.debug, debugLog.logger) == InitialLogAsWritten(o)
    {
      options := o;
      collect := [];
      defaults := [];
      ignore := [];
      ignoring := false;
      onSuccess := None;
      onFailure := None;
      throw := [];
      debugLog := new DebugLogs.DebugLog();
    }

    /** `clone $this`: the same configuration, with its own debug log. */
    method Clone() returns (h: Handler)
      ensures fresh(h) && fresh(h.debugLog) && SameLog(h)
      ensures h.options == options && h.collect == collect && h.defaults == defaults && h.ignore == ignore
      ensures h.ignoring == ignoring && h.onSuccess == onSuccess && h.onFailure == onFailure && h.throw == throw
    {
      h := new Handler(options);
      h.collect := collect;
      h.defaults := defaults;
      h.ignore := ignore;
      h.ignoring := ignoring;
      h.onSuccess := onSuccess;
      h.onFailure := onFailure;
      h.throw := throw;
      h.debugLog := debugLog.Clone();
    }

    /** `collect($into, ...$cases)`: a clone whose rules gain `$cases` under `$into`'s name. */
    method Collect(into: Fault, cases: seq<HandlerCore.Matcher>) returns (h: Handler)
      ensures fresh(h) && fresh(h.debugLog) && SameLog(h)
      ensures h.collect == HandlerCore.AddRule(collect, into, cases)
      ensures h.options == options && h.defaults == defaults && h.ignore == ignore
      ensures h.ignoring == ignoring && h.onSuccess == onSuccess && h.onFailure == onFailure && h.throw == throw
      ensures Valid() ==> h.Valid()
      ensures Synced() ==> h.Synced()
    {
      h := Clone();
      h.collect := HandlerCore.AddRule(h.collect, into, cases);
      if Valid() {
        HandlerCore.AddRuleUnique(collect, into, cases);
      }
    }

    /**
     * `default($to, ...$cases)`: a clone in which each case's key (no cases: the null key) is
     * assigned `$to`, in order.
     */
    method Default(to: Value, cases: seq<Option<HandlerCore.Matcher>>) returns (h: Handler)
      ensures fresh(h) && fresh(h.debugLog) && SameLog(h)
      ensures h.defaults == HandlerCore.AddDefaults(defaults, to, if cases == [] then [None] else cases)
      ensures h.options == options && h.collect == collect && h.ignore == ignore
      ensures h.ignoring == ignoring && h.onSuccess == onSuccess && h.onFailure == onFailure && h.throw == throw
      ensures Valid() ==> h.Valid()
      ensures Synced() ==> h.Synced()
    {
      var errorCases := if cases == [] then [None] else cases;
      var d := StoreDefaults(defaults, to, errorCases);
      h := Clone();
      h.defaults := d;
    }

    /** `ignore(...$cases)`: a clone whose ignore list gains `$cases` at the end. */
    method Ignore(cases: seq<HandlerCore.Matcher>) returns (h: Handler)
      ensures fresh(h) && fresh(h.debugLog) && SameLog(h)
      ensures h.ignore == ignore + cases
      ensures h.options == options && h.collect == collect && h.defaults == defaults
      ensures h.ignoring == ignoring && h.onSuccess == onSuccess && h.onFailure == onFailure && h.throw == throw
      ensures Valid() ==> h.Valid()
      ensures Synced() ==> h.Synced()
    {
      h := Clone();
      h.ignore := h.ignore + cases;
    }

    /** `throw(...$cases)`: a clone whose rethrow list gains `$cases` at the end. */
    method Throw(cases: seq<HandlerCore.Matcher>) returns (h: Handler)
      ensures fresh(h) && fresh(h.debugLog) && SameLog(h)
      ensures h.throw == throw + cases
      ensures h.options == options && h.collect == collect && h.defaults == defaults && h.ignore == ignore
      ensures h.ignoring == ignoring && h.onSuccess == onSuccess && h.onFailure == onFailure
      ensures Valid() ==> h.Valid()
      ensures Synced() ==> h.Synced()
    {
      h := Clone();
      h.throw := h.throw + cases;
    }

    /** `onSuccess($success)`: a clone with `$success` as its success callback, replacing any other. */
    method OnSuccess(success: HandlerCore.Callable) returns (h: Handler)
      ensures fresh(h) && fresh(h.debugLog) && SameLog(h)
      ensures h.onSuccess == Some(success)
      ensures h.options == options && h.collect == collect && h.defaults == defaults && h.ignore == ignore
      ensures h.ignoring == ignoring && h.onFailure == onFailure && h.throw == throw
      ensures Valid() ==> h.Valid()
      ensures Synced() ==> h.Synced()
    {
      h := Clone();
      h.onSuccess := Some(success);
    }

    /** `onFailure($failure)`: a clone with `$failure` as its failure callback, replacing any other. */
    method OnFailure(failure: HandlerCore.Callable) returns (h: Handler)
      ensures fresh(h) && fresh(h.debugLog) && SameLog(h)
      ensures h.onFailure == Some(failure)
      ensures h.options == options && h.collect == collect && h.defaults == defaults && h.ignore == ignore
      ensures h.ignoring == ignoring && h.onSuccess == onSuccess && h.throw == throw
      ensures Valid() ==> h.Valid()
      ensures Synced() ==> h.Synced()
    {
      h := Clone();
      h.onFailure := Some(failure);
    }

    /**
     * `options($o)`, corrected: a clone whose options are `$o` with the receiver's logger filled
     * in where `$o` has none, and whose own debug log follows those options.
     */
    method Options(o: HandlerOptions.Options) returns (h: Handler)
      ensures fresh(h) && fresh(h.debugLog)
      ensures h.options == HandlerOptions.Merge(o, options) && h.Synced()
      ensures h.debugLog.log == debugLog.log && h.debugLog.sent == debugLog.sent
      ensures h.collect == collect && h.defaults == defaults && h.ignore == ignore
      ensures h.ignoring == ignoring && h.onSuccess == onSuccess && h.onFailure == onFailure && h.throw == throw
      ensures Valid() ==> h.Valid()
    {
      h := Clone();
      h.options := HandlerOptions.Merge(o, options);
      h.debugLog.debug := h.options.debug;
      h.debugLog.logger := h.options.logger;
    }

    /** `options($o)` as written: the receiver's log is reset from the receiver's own options. */
    method OptionsAsWritten(o: HandlerOptions.Options) returns (h: Handler)
      modifies debugLog
      ensures fresh(h) && fresh(h.debugLog)
      ensures h.options == HandlerOptions.Merge(o, options)
      ensures var (mine, theirs) := OptionsLogsAsWritten(options, old(LogSettings(debugLog.debug, debugLog.logger)), o);
        LogSettings(h.debugLog.debug, h.debugLog.logger) == mine && LogSettings(debugLog.debug, debugLog.logger) == theirs
      ensures h.debugLog.log == debugLog.log && h.debugLog.sent == debugLog.sent
      ensures debugLog.log == old(debugLog.log) && debugLog.sent == old(debugLog.sent)
      ensures h.collect == collect && h.defaults == defaults && h.ignore == ignore
      ensures h.ignoring == ignoring && h.onSuccess == onSuccess && h.onFailure == onFailure && h.throw == throw
    {
      h := Clone();
      h.options := HandlerOptions.Merge(o, options);
      debugLog.debug := options.debug;
      debugLog.logger := options.logger;
    }

    /**
     * `logIf($e, $context)`: in debug mode anything is logged, with only a logger faults and
     * throwables; an exception from building the entry escapes.
     */
    method LogIf(env: Registry.Env, amb: LogEntries.Ambient, e: Value, context: Ctx) returns (raised: Option<Throwable>)
      modifies debugLog
      ensures var l := Logged(env, amb, HandlerCore.LogIf(Config(), e, context));
        raised == l.raised && Extends(old(debugLog.log), old(debugLog.sent), l.entries)
      ensures debugLog.debug == old(debugLog.debug) && debugLog.logger == old(debugLog.logger)
    {
      if HandlerCore.Logs(Config(), e) {
        ghost var one := [(e, context)];
        assert HandlerCore.LogIf(Config(), e, context) == one;
        assert one[1..] == [];
        raised := debugLog.AddFrom(env, amb, e, context);
        LoggedSingle(env, amb, e, context);
        match LogEntries.From(env, amb, e, context) {
          case Raised(t) =>
          case Done(x) =>
            assert DebugLogs.SentAll([x]) == [DebugLogs.SentFor(x)];
        }
      } else {
        raised := None;
        assert HandlerCore.LogIf(Config(), e, context) == [];
      }
    }

    /** `rethrowIf`'s scan: whether some `throw` matcher matches (the throw itself is in `Try`). */
    method RethrowIf(s: HandlerCore.Subject) returns (found: bool)
      ensures found == HandlerCore.Rethrows(throw, s)
    {
      var i := 0;
      while i < |throw|
        invariant 0 <= i <= |throw|
        invariant forall k :: 0 <= k < i ==> !HandlerCore.Matches(s, throw[k])
      {
        if HandlerCore.Matches(s, throw[i]) {
          return true;
        }
        i := i + 1;
      }
      return false;
    }

    /** `shouldIgnore($e)`. */
    method ShouldIgnore(s: HandlerCore.Subject) returns (r: bool)
      ensures r == HandlerCore.ShouldIgnore(ignoring, ignore, s)
    {
      if ignoring {
        return true;
      }
      var i := 0;
      while i < |ignore|
        invariant 0 <= i <= |ignore|
        invariant s.FaultS? ==> forall k :: 0 <= k < i ==> ignore[k] != HandlerCore.FaultM(s.f)
        invariant s.ThrowableS? ==> forall k :: 0 <= k < i ==> !(ignore[k].ClassM? && SplClasses.IsA(s.t.tag, ignore[k].name))
      {
        match s {
          case FaultS(f) =>
            if ignore[i] == HandlerCore.FaultM(f) {
              return true;
            }
          case ThrowableS(t) =>
            if ignore[i].ClassM? && SplClasses.IsA(t.tag, ignore[i].name) {
              return true;
            }
        }
        i := i + 1;
      }
      return false;
    }

    /**
     * `collectIf`'s scan: the rules in order; the first rule with a matching case fixes the
     * result and an exact match ends the scan.
     */
    method FindCollect(s: HandlerCore.Subject) returns (collected: Option<Fault>)
      ensures collected == HandlerCore.FirstCollect(collect, s)
    {
      var rules := collect;
      collected := None;
      var i := 0;
      while i < |rules|
        invariant 0 <= i <= |rules|
        invariant collected.None? ==> forall k :: 0 <= k < i ==> !HandlerCore.AnyMatch(rules[k].cases, s)
        invariant collected.Some? ==> collected == HandlerCore.FirstCollect(rules, s)
      {
        var matched, exact := ScanCases(s, rules[i].cases);
        if matched && collected.None? {
          HandlerCore.FirstCollectAt(rules, s, i);
          collected := Some(rules[i].into);
        }
        if exact {
          return;
        }
        i := i + 1;
      }
      if collected.None? {
        HandlerCore.FirstCollectNone(rules, s);
      }
    }

    /**
     * `collectIf($fault)`: the scan, and the `Collected` entry when a rule matched.  The entry is
     * added once the scan is over rather than at the first match; the rest of the scan has no
     * effect, so nothing observable moves.  An exception from the log escapes.
     */
    method CollectIf(env: Registry.Env, amb: LogEntries.Ambient, fault: Fault) returns (collected: Option<Fault>, raised: Option<Throwable>)
      modifies debugLog
      ensures var l := Logged(env, amb, CollectLogs(Config(), fault));
        raised == l.raised && Extends(old(debugLog.log), old(debugLog.sent), l.entries)
      ensures raised.None? ==> collected == HandlerCore.FirstCollect(collect, HandlerCore.FaultS(fault))
      ensures debugLog.debug == old(debugLog.debug) && debugLog.logger == old(debugLog.logger)
    {
      collected := FindCollect(HandlerCore.FaultS(fault));
      if collected.Some? {
        raised := LogIf(env, amb, MessageV(DebugMessages.Collected), [("result", FaultV(fault)), ("fault", FaultV(collected.value))]);
      } else {
        raised := None;
        assert Logged(env, amb, []).entries == [];
      }
    }

    /**
     * The failure branch of `try`, for a thrown exception (seen as `fault`, that is
     * `UncaughtException`) or a returned Fault: log, rethrow, else the other strategies.
     */
    method Handle(env: Registry.Env, amb: LogEntries.Ambient, thrown: Option<Throwable>, fault: Fault, context: Ctx) returns (r: Outcome<Value>)
      modifies debugLog
      ensures var run := HandlerCore.Handle(Config(), thrown, fault, context);
        r == RunOutcome(env, amb, run) &&
        Extends(old(debugLog.log), old(debugLog.sent), Logged(env, amb, run.logs).entries)
      ensures debugLog.debug == old(debugLog.debug) && debugLog.logger == old(debugLog.logger)
    {
      var exception := if thrown.Some? then ThrowableV(thrown.value) else Null;
      var ctx := Put(Put(context, "__exception__", exception), "__fault__", FaultV(fault));
      var subject := if thrown.Some? then HandlerCore.ThrowableS(thrown.value) else HandlerCore.FaultS(fault);
      ghost var logged := HandlerCore.LogIf(Config(), HandlerCore.SubjectValue(subject), ctx);
      ghost var rest := if HandlerCore.Rethrows(throw, subject) then [] else Strategies(Config(), fault, ctx).logs;
      HandleSplits(Config(), thrown, fault, context);
      LoggedAppend(env, amb, logged, rest);
      ghost var log0, sent0 := debugLog.log, debugLog.sent;
      var raised := LogIf(env, amb, HandlerCore.SubjectValue(subject), ctx);
      if raised.Some? {
        return Raised(raised.value);
      }
      var rethrow := RethrowIf(subject);
      if rethrow {
        assert logged + rest == logged;
        r := Settle(env, if thrown.Some? then HandlerCore.Rethrown(thrown.value) else HandlerCore.RethrownFault(fault, ctx));
        return;
      }
      ghost var l0 := Logged(env, amb, logged);
      ghost var lr := Logged(env, amb, rest);
      r := ApplyStrategies(env, amb, fault, ctx);
      assert Logged(env, amb, logged + rest).entries == l0.entries + lr.entries;
      ExtendsTwice(log0, sent0, l0.entries, lr.entries, debugLog.logger);
    }

    /** `collectIf`, `shouldIgnore`, `defaultIf` and dispatch, once nothing was rethrown. */
    method ApplyStrategies(env: Registry.Env, amb: LogEntries.Ambient, fault: Fault, ctx: Ctx) returns (r: Outcome<Value>)
      modifies debugLog
      ensures var run := Strategies(Config(), fault, ctx);
        r == RunOutcome(env, amb, run) &&
        Extends(old(debugLog.log), old(debugLog.sent), Logged(env, amb, run.logs).entries)
      ensures debugLog.debug == old(debugLog.debug) && debugLog.logger == old(debugLog.logger)
    {
      ghost var run := Strategies(Config(), fault, ctx);
      ghost var collectLog := CollectLogs(Config(), fault);
      ghost var ignoreLog := IgnoreLogs(Config(), fault, ctx);
      assert run.logs == collectLog + ignoreLog;
      LoggedAppend(env, amb, collectLog, ignoreLog);
      ghost var l1 := Logged(env, amb, collectLog);
      ghost var l2 := Logged(env, amb, ignoreLog);
      ghost var all := Logged(env, amb, run.logs);
      ghost var log0, sent0 := debugLog.log, debugLog.sent;
      var collected, raised := CollectIf(env, amb, fault);
      if raised.Some? {
        assert all == l1;
        return Raised(raised.value);
      }
      assert all == Logging(l1.entries + l2.entries, l2.raised);
      var result := if collected.Some? then FaultV(collected.value) else Null;
      var ignored := false;
      if collected.Some? {
        ignored := ShouldIgnore(HandlerCore.FaultS(collected.value));
      }
      if ignored {
        assert ignoreLog == HandlerCore.LogIf(Config(), MessageV(DebugMessages.Ignoring), ctx);
        raised := LogIf(env, amb, MessageV(DebugMessages.Ignoring), ctx);
        ExtendsTwice(log0, sent0, l1.entries, l2.entries, debugLog.logger);
        if raised.Some? {
          return Raised(raised.value);
        }
        result := Null;
      } else {
        assert ignoreLog == [] && l2 == Logging([], None);
        assert l1.entries + l2.entries == l1.entries;
      }
      result := HandlerCore.DefaultIf(defaults, result);
      r := Settle(env, HandlerCore.Dispatch(Config(), result));
    }

    /**
     * `try($c, ...$args)`: the run the pipeline prescribes, with every entry it logs appended to
     * this handler's debug log (and passed to its logger, if set).
     */
    method Try(env: Registry.Env, amb: LogEntries.Ambient, c: HandlerCore.Callable, args: seq<Value>) returns (r: Outcome<Value>)
      modifies debugLog
      ensures var run := HandlerCore.Tried(Config(), c, args);
        r == RunOutcome(env, amb, run) &&
        Extends(old(debugLog.log), old(debugLog.sent), Logged(env, amb, run.logs).entries)
      ensures debugLog.debug == old(debugLog.debug) && debugLog.logger == old(debugLog.logger)
    {
      var outcome := c.call(args);
      var result := if outcome.Raised? then FaultV(HandlerCore.Uncaught) else outcome.value;
      var context := HandlerCore.TryContext(c, args, result);
      if outcome.Raised? {
        r := Handle(env, amb, Some(outcome.thrown), HandlerCore.Uncaught, context);
      } else if result.FaultV? {
        r := Handle(env, amb, None, result.f, context);
      } else {
        assert Logged(env, amb, []).entries == [];
        r := Settle(env, HandlerCore.Dispatch(Config(), result));
      }
    }

    /**
     * `tryIgnoring($c, ...$args)`: `try` in ignoring mode, a Fault result becoming null; the
     * mode is off again afterwards, whether or not an exception escaped.
     */
    method TryIgnoring(env: Registry.Env, amb: LogEntries.Ambient, c: HandlerCore.Callable, args: seq<Value>) returns (r: Outcome<Value>)
      modifies this, debugLog
      ensures var run := HandlerCore.Tried(old(Config()).(ignoring := true), c, args);
        r == Ignored(RunOutcome(env, amb, run)) &&
        Extends(old(debugLog.log), old(debugLog.sent), Logged(env, amb, run.logs).entries)
      ensures !ignoring && debugLog == old(debugLog)
      ensures options == old(options) && collect == old(collect) && defaults == old(defaults) && ignore == old(ignore)
      ensures onSuccess == old(onSuccess) && onFailure == old(onFailure) && throw == old(throw)
      ensures debugLog.debug == old(debugLog.debug) && debugLog.logger == old(debugLog.logger)
    {
      ignoring := true;
      var result := Try(env, amb, c, args);
      r := if result.Done? && result.value.FaultV? then Done(Null) else result;
      ignoring := false;
    }

    /** `tryPipe($initial, ...$functions)`: `try` of the closure running the steps on `$initial`. */
    method TryPipe(env: Registry.Env, amb: LogEntries.Ambient, id: nat, initial: Value, functions: seq<HandlerCore.Callable>) returns (r: Outcome<Value>)
      modifies debugLog
      ensures var run := HandlerCore.Tried(Config(), PipeOf(id, functions), [initial]);
        r == RunOutcome(env, amb, run) &&
        Extends(old(debugLog.log), old(debugLog.sent), Logged(env, amb, run.logs).entries)
      ensures debugLog.debug == old(debugLog.debug) && debugLog.logger == old(debugLog.logger)
    {
      r := Try(env, amb, PipeOf(id, functions), [initial]);
    }
  }

  /**
   * The inner loop of `collectIf` over one rule's cases: whether one matches, and whether the scan
   * stops here at an exact match (which is a match too).
   */
  method ScanCases(s: HandlerCore.Subject, cases: seq<HandlerCore.Matcher>) returns (matched: bool, exact: bool)
    ensures matched == HandlerCore.AnyMatch(cases, s)
    ensures exact == (exists m :: 0 <= m < |cases| && HandlerCore.Exact(s, cases[m]))
  {
    matched, exact := false, false;
    ghost var w := 0;
    var j := 0;
    while j < |cases|
      invariant 0 <= j <= |cases|
      invariant matched ==> 0 <= w < j && HandlerCore.Matches(s, cases[w])
      invariant !matched ==> forall m :: 0 <= m < j ==> !HandlerCore.Matches(s, cases[m])
      invariant forall m :: 0 <= m < j ==> !HandlerCore.Exact(s, cases[m])
    {
      if HandlerCore.Exact(s, cases[j]) {
        HandlerCore.ExactMatches(s, cases[j]);
      }
      if HandlerCore.Matches(s, cases[j]) {
        if !matched {
          w := j;
        }
        matched := true;
        if HandlerCore.Exact(s, cases[j]) {
          exact := true;
          return;
        }
      }
      j := j + 1;
    }
  }

  /** The `foreach` of `default()`: each case's key is assigned `to`, in order. */
  method StoreDefaults(defaults: Ctx, to: Value, cases: seq<Option<HandlerCore.Matcher>>) returns (d: Ctx)
    ensures d == HandlerCore.AddDefaults(defaults, to, cases)
    ensures UniqueKeys(defaults) ==> UniqueKeys(d)
  {
    d := defaults;
    var i := 0;
    while i < |cases|
      invariant 0 <= i <= |cases|
      invariant HandlerCore.AddDefaults(d, to, cases[i..]) == HandlerCore.AddDefaults(defaults, to, cases)
      invariant UniqueKeys(defaults) ==> UniqueKeys(d)
    {
      assert cases[i..][1..] == cases[i + 1..];
      if UniqueKeys(d) {
        PutUnique(d, HandlerCore.DefaultKey(cases[i]), to);
      }
      d := Put(d, HandlerCore.DefaultKey(cases[i]), to);
      i := i + 1;
    }
  }

  /** What a set logger is given for `entries`; nothing without one. */
  function Forwarded(logger: Option<nat>, entries: seq<LogEntries.LogEntry>): seq<DebugLogs.Sent> {
    if logger.Some? then DebugLogs.SentAll(entries) else []
  }

  /** Extending a log twice is extending it once by both runs of entries. */
  lemma ExtendsTwice(log0: seq<LogEntries.LogEntry>, sent0: seq<DebugLogs.Sent>, a: seq<LogEntries.LogEntry>, b: seq<LogEntries.LogEntry>, logger: Option<nat>)
    ensures (log0 + a) + b == log0 + (a + b)
    ensures (sent0 + Forwarded(logger, a)) + Forwarded(logger, b) == sent0 + Forwarded(logger, a + b)
  {
    ForwardedAppend(logger, a, b);
    AppendAssoc(log0, a, b);
    AppendAssoc(sent0, Forwarded(logger, a), Forwarded(logger, b));
  }

  lemma AppendAssoc<T>(x: seq<T>, y: seq<T>, z: seq<T>)
    ensures (x + y) + z == x + (y + z)
  {
  }

  lemma ForwardedAppend(logger: Option<nat>, a: seq<LogEntries.LogEntry>, b: seq<LogEntries.LogEntry>)
    ensures Forwarded(logger, a + b) == Forwarded(logger, a) + Forwarded(logger, b)
  {
    DebugLogs.SentAllAppend(a, b);
  }

  /** The failure branch once no rethrow matched: collect, ignore, default, dispatch. */
  function Strategies(cfg: HandlerCore.Config, fault: Fault, ctx: Ctx): HandlerCore.Run {
    var collected := HandlerCore.FirstCollect(cfg.collect, HandlerCore.FaultS(fault));
    var ignored := collected.Some? && HandlerCore.ShouldIgnore(cfg.ignoring, cfg.ignore, HandlerCore.FaultS(collected.value));
    var r := if collected.None? || ignored then Null else FaultV(collected.value);
    HandlerCore.Run(CollectLogs(cfg, fault) + IgnoreLogs(cfg, fault, ctx), HandlerCore.Dispatch(cfg, HandlerCore.DefaultIf(cfg.defaults, r)))
  }

  /** The `Ignoring` entry logged when the collected Fault is ignored. */
  function IgnoreLogs(cfg: HandlerCore.Config, fault: Fault, ctx: Ctx): seq<(Value, Ctx)> {
    var collected := HandlerCore.FirstCollect(cfg.collect, HandlerCore.FaultS(fault));
    if collected.Some? && HandlerCore.ShouldIgnore(cfg.ignoring, cfg.ignore, HandlerCore.FaultS(collected.value)) then
      HandlerCore.LogIf(cfg, MessageV(DebugMessages.Ignoring), ctx)
    else []
  }

  /** `HandlerCore.Handle` is the first log and the rethrow test, then `Strategies`. */
  lemma HandleSplits(cfg: HandlerCore.Config, thrown: Option<Throwable>, fault: Fault, context: Ctx)
    ensures var exception := if thrown.Some? then ThrowableV(thrown.value) else Null;
      var ctx := Put(Put(context, "__exception__", exception), "__fault__", FaultV(fault));
      var subject := if thrown.Some? then HandlerCore.ThrowableS(thrown.value) else HandlerCore.FaultS(fault);
      var logged := HandlerCore.LogIf(cfg, HandlerCore.SubjectValue(subject), ctx);
      HandlerCore.Handle(cfg, thrown, fault, context) ==
        if HandlerCore.Rethrows(cfg.throw, subject) then
          HandlerCore.Run(logged, if thrown.Some? then HandlerCore.Rethrown(thrown.value) else HandlerCore.RethrownFault(fault, ctx))
        else
          HandlerCore.Run(logged + Strategies(cfg, fault, ctx).logs, Strategies(cfg, fault, ctx).verdict)
  {
    var exception := if thrown.Some? then ThrowableV(thrown.value) else Null;
    var ctx := Put(Put(context, "__exception__", exception), "__fault__", FaultV(fault));
    var subject := if thrown.Some? then HandlerCore.ThrowableS(thrown.value) else HandlerCore.FaultS(fault);
    var logged := HandlerCore.LogIf(cfg, HandlerCore.SubjectValue(subject), ctx);
    assert logged + CollectLogs(cfg, fault) + IgnoreLogs(cfg, fault, ctx) == logged + (CollectLogs(cfg, fault) + IgnoreLogs(cfg, fault, ctx));
  }

  /** The `Collected` entry `collectIf` logs, when a rule matches. */
  function CollectLogs(cfg: HandlerCore.Config, fault: Fault): seq<(Value, Ctx)> {
    var collected := HandlerCore.FirstCollect(cfg.collect, HandlerCore.FaultS(fault));
    if collected.Some? then
      HandlerCore.LogIf(cfg, MessageV(DebugMessages.Collected), [("result", FaultV(fault)), ("fault", FaultV(collected.value))])
    else []
  }
}
