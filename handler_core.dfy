/**
 * The decision pipeline of `Handler::try`, on values: which strategy a failure meets (rethrow,
 * collect, ignore, default), what is logged on the way, and how the result is dispatched.  Turning
 * a verdict into a thrown Exceptable needs fault messages, so that is left to `Handlers`; the
 * message subsystem uses this module directly for its own `new Handler()->ignore(...)` calls.
 */
module HandlerCore {
  import opened Wrappers
  import opened Strings
  import opened Values
  import SplClasses
  import ExceptableFaults
  import HandlerFaults
  import DebugMessages

  /** A user callable: an identity (what `$c` shows in a log context) and what calling it does. */
  datatype Callable = Callable(id: nat, call: seq<Value> -> Outcome<Value>)

  const ClosureTag: SplClasses.ClassTag := SplClasses.ClassTag("Closure", {})

  function CallableValue(c: Callable): Value {
    Obj(ClosureTag, c.id)
  }

  /** An error case given to `collect`, `ignore`, `throw` or `default`: a Fault or a class name. */
  datatype Matcher = FaultM(f: Fault) | ClassM(name: string)

  /** What the strategies are tried against: `Fault | Throwable`. */
  datatype Subject = FaultS(f: Fault) | ThrowableS(t: Throwable)

  function SubjectValue(s: Subject): Value {
    match s
    case FaultS(f) => FaultV(f)
    case ThrowableS(t) => ThrowableV(t)
  }

  function SubjectTag(s: Subject): SplClasses.ClassTag {
    match s
    case FaultS(f) => FaultTag(f)
    case ThrowableS(t) => t.tag
  }

  /**
   * `is_a($e, $name)` for a class name; `$e instanceof $fault` for a Fault, which compares
   * classes, so it holds for every case of the same enum.
   */
  predicate Matches(s: Subject, m: Matcher) {
    match m
    case ClassM(n) => SplClasses.IsA(SubjectTag(s), n)
    case FaultM(g) => s.FaultS? && SameEnum(s.f, g)
  }

  /** `get_class($e) === $name` for a class name; `$e === $fault` for a Fault. */
  predicate Exact(s: Subject, m: Matcher) {
    match m
    case ClassM(n) => SubjectTag(s).name == n
    case FaultM(g) => s == FaultS(g)
  }

  /** A Fault matcher matches exactly the cases of its own enum. */
  lemma FaultMatcherIsClassWide(f: Fault, g: Fault)
    ensures Matches(FaultS(f), FaultM(g)) <==> FaultClass(f) == FaultClass(g)
    ensures Exact(FaultS(f), FaultM(g)) <==> f == g
  {
  }

  /** An exact match is a match. */
  lemma ExactMatches(s: Subject, m: Matcher)
    requires Exact(s, m)
    ensures Matches(s, m)
  {
  }

  /** One `collect` entry: the Fault to return and the error cases collected as it. */
  datatype Rule = Rule(into: Fault, cases: seq<Matcher>)

  /** Some rule is stored under `name`. */
  predicate Registered(rules: seq<Rule>, name: string) {
    exists i :: 0 <= i < |rules| && FaultName(rules[i].into) == name
  }

  /** The rules are the values of an array keyed by `name()`: no name twice. */
  predicate UniqueNames(rules: seq<Rule>) {
    forall i, j :: 0 <= i < j < |rules| ==> FaultName(rules[i].into) != FaultName(rules[j].into)
  }

  /**
   * `collect($as, ...$cases)` on the rule list: the list under `$as->name()` is created with `$as`
   * at its head, or `$as` and the cases are pushed onto it, so a repeated `$as` becomes a case.
   */
  function AddRule(rules: seq<Rule>, into: Fault, cases: seq<Matcher>): (r: seq<Rule>)
    ensures |r| == |rules| || |r| == |rules| + 1
    decreases |rules|
  {
    if rules == [] then [Rule(into, cases)]
    else if FaultName(rules[0].into) == FaultName(into) then
      [Rule(rules[0].into, rules[0].cases + [FaultM(into)] + cases)] + rules[1..]
    else [rules[0]] + AddRule(rules[1..], into, cases)
  }

  /** A new name adds its rule at the end, headed by `$as`. */
  lemma {:induction false} AddRuleNew(rules: seq<Rule>, into: Fault, cases: seq<Matcher>)
    requires !Registered(rules, FaultName(into))
    ensures AddRule(rules, into, cases) == rules + [Rule(into, cases)]
    decreases |rules|
  {
    if rules != [] {
      assert FaultName(rules[0].into) != FaultName(into);
      assert !Registered(rules[1..], FaultName(into)) by {
        forall k | 0 <= k < |rules[1..]| ensures FaultName(rules[1..][k].into) != FaultName(into) {
          assert rules[1..][k] == rules[k + 1];
        }
      }
      AddRuleNew(rules[1..], into, cases);
      ConsSnoc(rules, Rule(into, cases));
    }
  }

  /** A known name extends that rule in place: `$as` itself and then the cases. */
  lemma {:induction false} AddRuleExisting(rules: seq<Rule>, into: Fault, cases: seq<Matcher>, i: nat)
    requires UniqueNames(rules) && i < |rules| && FaultName(rules[i].into) == FaultName(into)
    ensures AddRule(rules, into, cases) == rules[i := Rule(rules[i].into, rules[i].cases + [FaultM(into)] + cases)]
    decreases |rules|, 1
  {
    if i > 0 {
      AddRuleExistingLater(rules, into, cases, i);
    } else {
      AddRuleAtHead(rules, into, cases);
    }
  }

  /** A name stored after the head: the head is kept and the tail extended. */
  lemma {:induction false} AddRuleExistingLater(rules: seq<Rule>, into: Fault, cases: seq<Matcher>, i: nat)
    requires UniqueNames(rules) && 0 < i < |rules| && FaultName(rules[i].into) == FaultName(into)
    ensures AddRule(rules, into, cases) == rules[i := Rule(rules[i].into, rules[i].cases + [FaultM(into)] + cases)]
    decreases |rules|, 0
  {
    ExistingInTail(rules, into, i);
    AddRuleExisting(rules[1..], into, cases, i - 1);
    ExistingStep(rules, into, cases, i, Rule(rules[i].into, rules[i].cases + [FaultM(into)] + cases));
  }

  /** A name stored at the head extends the head rule. */
  lemma AddRuleAtHead(rules: seq<Rule>, into: Fault, cases: seq<Matcher>)
    requires rules != [] && FaultName(rules[0].into) == FaultName(into)
    ensures AddRule(rules, into, cases) == rules[0 := Rule(rules[0].into, rules[0].cases + [FaultM(into)] + cases)]
  {
    HeadUpdate(rules, Rule(rules[0].into, rules[0].cases + [FaultM(into)] + cases));
  }

  /** A name stored after the head is stored in the tail, and not at the head. */
  lemma ExistingInTail(rules: seq<Rule>, into: Fault, i: nat)
    requires UniqueNames(rules) && 0 < i < |rules| && FaultName(rules[i].into) == FaultName(into)
    ensures UniqueNames(rules[1..]) && rules[1..][i - 1] == rules[i]
    ensures FaultName(rules[0].into) != FaultName(into)
  {
    assert FaultName(rules[0].into) != FaultName(rules[i].into);
    UniqueTail(rules);
  }

  /** Extending rule `i - 1` of the tail extends rule `i` of the whole list. */
  lemma ExistingStep(rules: seq<Rule>, into: Fault, cases: seq<Matcher>, i: nat, v: Rule)
    requires 0 < i < |rules| && FaultName(rules[0].into) != FaultName(into)
    requires AddRule(rules[1..], into, cases) == rules[1..][i - 1 := v]
    ensures AddRule(rules, into, cases) == rules[i := v]
  {
    AddRuleSkip(rules, into, cases);
    ConsUpdate(rules, i, v);
  }

  /** A rule under another name is kept, and the search goes on in the rest. */
  lemma AddRuleSkip(rules: seq<Rule>, into: Fault, cases: seq<Matcher>)
    requires rules != [] && FaultName(rules[0].into) != FaultName(into)
    ensures AddRule(rules, into, cases) == [rules[0]] + AddRule(rules[1..], into, cases)
  {
  }

  lemma UniqueTail(rules: seq<Rule>)
    requires UniqueNames(rules) && rules != []
    ensures UniqueNames(rules[1..])
  {
    forall a, b | 0 <= a < b < |rules[1..]|
      ensures FaultName(rules[1..][a].into) != FaultName(rules[1..][b].into)
    {
      assert rules[1..][a] == rules[a + 1] && rules[1..][b] == rules[b + 1];
    }
  }

  lemma ConsSnoc<T>(s: seq<T>, v: T)
    requires s != []
    ensures [s[0]] + (s[1..] + [v]) == s + [v]
  {
  }

  lemma HeadUpdate<T>(s: seq<T>, v: T)
    requires s != []
    ensures [v] + s[1..] == s[0 := v]
  {
  }

  lemma ConsUpdate<T>(s: seq<T>, i: nat, v: T)
    requires 0 < i < |s|
    ensures [s[0]] + s[1..][i - 1 := v] == s[i := v]
  {
  }

  /** Adding a rule keeps the names unique. */
  lemma AddRuleUnique(rules: seq<Rule>, into: Fault, cases: seq<Matcher>)
    requires UniqueNames(rules)
    ensures UniqueNames(AddRule(rules, into, cases))
  {
    if Registered(rules, FaultName(into)) {
      var i :| 0 <= i < |rules| && FaultName(rules[i].into) == FaultName(into);
      AddRuleExisting(rules, into, cases, i);
    } else {
      AddRuleNew(rules, into, cases);
      var r := rules + [Rule(into, cases)];
      forall a, b | 0 <= a < b < |r| ensures FaultName(r[a].into) != FaultName(r[b].into) {
        if b == |rules| {
          assert FaultName(rules[a].into) != FaultName(into);
        }
      }
    }
  }

  predicate AnyMatch(cases: seq<Matcher>, s: Subject) {
    exists j :: 0 <= j < |cases| && Matches(s, cases[j])
  }

  /** `collectIf`'s result: the Fault of the first rule with a matching case, else null. */
  function FirstCollect(rules: seq<Rule>, s: Subject): Option<Fault>
    decreases |rules|
  {
    if rules == [] then None
    else if AnyMatch(rules[0].cases, s) then Some(rules[0].into)
    else FirstCollect(rules[1..], s)
  }

  /** The rule that decides: it has a matching case and no earlier rule has one. */
  lemma {:induction false} FirstCollectAt(rules: seq<Rule>, s: Subject, i: nat)
    requires i < |rules| && AnyMatch(rules[i].cases, s)
    requires forall k :: 0 <= k < i ==> !AnyMatch(rules[k].cases, s)
    ensures FirstCollect(rules, s) == Some(rules[i].into)
  {
    if i > 0 {
      assert !AnyMatch(rules[0].cases, s);
      FirstCollectAt(rules[1..], s, i - 1);
    }
  }

  /** With no matching case anywhere, nothing is collected. */
  lemma {:induction false} FirstCollectNone(rules: seq<Rule>, s: Subject)
    requires forall k :: 0 <= k < |rules| ==> !AnyMatch(rules[k].cases, s)
    ensures FirstCollect(rules, s) == None
    decreases |rules|
  {
    if rules != [] {
      assert !AnyMatch(rules[0].cases, s);
      FirstCollectNone(rules[1..], s);
    }
  }

  /** `rethrowIf`'s test: some `throw` matcher matches. */
  predicate Rethrows(throw: seq<Matcher>, s: Subject) {
    exists i :: 0 <= i < |throw| && Matches(s, throw[i])
  }

  /**
   * `shouldIgnore`: always in ignoring mode; a Fault only when the identical Fault is listed;
   * a throwable only through a class-name matcher.
   */
  predicate ShouldIgnore(ignoring: bool, ignore: seq<Matcher>, s: Subject) {
    ignoring ||
    (match s
     case FaultS(f) => exists i :: 0 <= i < |ignore| && ignore[i] == FaultM(f)
     case ThrowableS(t) => exists i :: 0 <= i < |ignore| && ignore[i].ClassM? && SplClasses.IsA(t.tag, ignore[i].name))
  }

  /** Class-name ignores never apply to a Fault. */
  lemma ClassIgnoresSkipFaults(ignoring: bool, ignore: seq<Matcher>, f: Fault, name: string)
    ensures ShouldIgnore(ignoring, ignore + [ClassM(name)], FaultS(f)) == ShouldIgnore(ignoring, ignore, FaultS(f))
  {
    var l := ignore + [ClassM(name)];
    if exists i :: 0 <= i < |l| && l[i] == FaultM(f) {
      var i :| 0 <= i < |l| && l[i] == FaultM(f);
      assert i < |ignore| && ignore[i] == FaultM(f);
    }
    if exists i :: 0 <= i < |ignore| && ignore[i] == FaultM(f) {
      var i :| 0 <= i < |ignore| && ignore[i] == FaultM(f);
      assert l[i] == FaultM(f);
    }
  }

  /** Fault matchers never make a throwable ignored. */
  lemma FaultIgnoresSkipThrowables(ignoring: bool, ignore: seq<Matcher>, t: Throwable, g: Fault)
    ensures ShouldIgnore(ignoring, ignore + [FaultM(g)], ThrowableS(t)) == ShouldIgnore(ignoring, ignore, ThrowableS(t))
  {
    var l := ignore + [FaultM(g)];
    if exists i :: 0 <= i < |l| && l[i].ClassM? && SplClasses.IsA(t.tag, l[i].name) {
      var i :| 0 <= i < |l| && l[i].ClassM? && SplClasses.IsA(t.tag, l[i].name);
      assert i < |ignore| && ignore[i] == l[i];
    }
    if exists i :: 0 <= i < |ignore| && ignore[i].ClassM? && SplClasses.IsA(t.tag, ignore[i].name) {
      var i :| 0 <= i < |ignore| && ignore[i].ClassM? && SplClasses.IsA(t.tag, ignore[i].name);
      assert l[i] == ignore[i];
    }
  }

  /** The key `default()` stores a case under: a Fault's name, a class name, or `""` for null. */
  function DefaultKey(m: Option<Matcher>): string {
    match m
    case None => ""
    case Some(FaultM(f)) => FaultName(f)
    case Some(ClassM(n)) => n
  }

  /** `default($to, ...$cases)`: each case's key is (re)assigned; no cases means the null case. */
  function AddDefaults(defaults: Ctx, to: Value, cases: seq<Option<Matcher>>): Ctx
    decreases |cases|
  {
    if cases == [] then defaults
    else AddDefaults(Put(defaults, DefaultKey(cases[0]), to), to, cases[1..])
  }

  /** `defaultIf`: null becomes `default[""]`, a Fault `default[name]`, when that is set (not null). */
  function DefaultIf(defaults: Ctx, result: Value): (r: Value)
    ensures result == Null && Isset(defaults, "") ==> r == Lookup(defaults, "").value
    ensures result.FaultV? && Isset(defaults, FaultName(result.f)) ==> r == Lookup(defaults, FaultName(result.f)).value
    ensures !(result == Null && Isset(defaults, "")) && !(result.FaultV? && Isset(defaults, FaultName(result.f))) ==> r == result
  {
    if result == Null && Isset(defaults, "") then Lookup(defaults, "").value
    else if result.FaultV? && Isset(defaults, FaultName(result.f)) then Lookup(defaults, FaultName(result.f)).value
    else result
  }

  /** A later `default()` for the same key wins. */
  lemma DefaultOverwrites(defaults: Ctx, a: Value, b: Value, m: Option<Matcher>)
    ensures Lookup(AddDefaults(AddDefaults(defaults, a, [m]), b, [m]), DefaultKey(m)) == Some(b)
  {
    var k := DefaultKey(m);
    assert [m][1..] == [];
    PutLookup(Put(defaults, k, a), k, b, k);
  }

  /** A stored null default changes nothing, since `isset` treats it as absent. */
  lemma NullDefaultInert(defaults: Ctx, m: Option<Matcher>, result: Value)
    requires result == Null || result.FaultV?
    requires DefaultKey(m) == (if result == Null then "" else FaultName(result.f))
    ensures DefaultIf(AddDefaults(defaults, Null, [m]), result) == DefaultIf(Put(defaults, DefaultKey(m), Null), result)
    ensures DefaultIf(AddDefaults(defaults, Null, [m]), result) == result
  {
    var k := DefaultKey(m);
    assert [m][1..] == [];
    PutLookup(defaults, k, Null, k);
  }

  /** `default($to)` with no cases registers the null case. */
  lemma DefaultNoCases(defaults: Ctx, to: Value)
    requires to != Null
    ensures DefaultIf(AddDefaults(defaults, to, [Option<Matcher>.None]), Null) == to
  {
    var none := [Option<Matcher>.None];
    assert none[1..] == [];
    PutLookup(defaults, "", to, "");
  }

  /** A handler's configuration, as far as `try` reads it. */
  datatype Config = Config(
    collect: seq<Rule>,
    defaults: Ctx,
    ignore: seq<Matcher>,
    ignoring: bool,
    onSuccess: Option<Callable>,
    onFailure: Option<Callable>,
    throw: seq<Matcher>,
    debug: bool,
    logger: bool)

  /** `new Handler()` with the default options. */
  function DefaultConfig(): Config {
    Config([], [], [], false, None, None, [], false, false)
  }

  /** `logIf`'s test: debug mode logs anything, a logger alone only faults and throwables. */
  predicate Logs(cfg: Config, e: Value) {
    cfg.debug || (cfg.logger && (e.FaultV? || e.ThrowableV?))
  }

  function LogIf(cfg: Config, e: Value, context: Ctx): seq<(Value, Ctx)> {
    if Logs(cfg, e) then [(e, context)] else []
  }

  /** How `try` ends, before any Exceptable is built. */
  datatype Verdict =
    | Returned(v: Value)
    | Rethrown(t: Throwable)                                        // `throw $e`
    | RethrownFault(f: Fault, context: Ctx)                         // `throw $e($context)`
    | CallbackFailed(hc: HandlerFaults.Case, result: Value, cause: Throwable)

  /** The verdict and the `(message, context)` pairs passed to `debugLog->addFrom`, in order. */
  datatype Run = Run(logs: seq<(Value, Ctx)>, verdict: Verdict)

  function Indexed(args: seq<Value>, from: nat): Ctx
    decreases |args|
  {
    if args == [] then [] else [(IntToString(from), args[0])] + Indexed(args[1..], from + 1)
  }

  /** The context `try` builds: `["tried" => $c, "args" => $args, "result" => $result]`. */
  function TryContext(c: Callable, args: seq<Value>, result: Value): Ctx {
    [("tried", CallableValue(c)), ("args", Arr(Indexed(args, 0))), ("result", result)]
  }

  const Uncaught: Fault := ExceptableFault(ExceptableFaults.UncaughtException)

  /** `doFailure` / `doSuccess`: a Fault goes to `onFailure`, anything else to `onSuccess`. */
  function Dispatch(cfg: Config, r: Value): Verdict {
    var callback := if r.FaultV? then cfg.onFailure else cfg.onSuccess;
    var failed := if r.FaultV? then HandlerFaults.FailureHandlerFailed else HandlerFaults.SuccessHandlerFailed;
    match callback
    case None => Returned(r)
    case Some(cb) =>
      match cb.call([r])
      case Done(v) => Returned(v)
      case Raised(t) => CallbackFailed(failed, r, t)
  }

  /**
   * The failure branch of `try`: log, rethrow, collect (against the Fault, which for a thrown
   * exception is `UncaughtException`), ignore, default, dispatch.
   */
  function Handle(cfg: Config, thrown: Option<Throwable>, fault: Fault, context: Ctx): Run {
    var exception := if thrown.Some? then ThrowableV(thrown.value) else Null;
    var ctx := Put(Put(context, "__exception__", exception), "__fault__", FaultV(fault));
    var subject := if thrown.Some? then ThrowableS(thrown.value) else FaultS(fault);
    var logged := LogIf(cfg, SubjectValue(subject), ctx);
    if Rethrows(cfg.throw, subject) then
      Run(logged, if thrown.Some? then Rethrown(thrown.value) else RethrownFault(fault, ctx))
    else
      var collected := FirstCollect(cfg.collect, FaultS(fault));
      var collectLog :=
        if collected.Some? then LogIf(cfg, MessageV(DebugMessages.Collected), [("result", FaultV(fault)), ("fault", FaultV(collected.value))])
        else [];
      var ignored := collected.Some? && ShouldIgnore(cfg.ignoring, cfg.ignore, FaultS(collected.value));
      var ignoreLog := if ignored then LogIf(cfg, MessageV(DebugMessages.Ignoring), ctx) else [];
      var r := if collected.None? || ignored then Null else FaultV(collected.value);
      Run(logged + collectLog + ignoreLog, Dispatch(cfg, DefaultIf(cfg.defaults, r)))
  }

  /** `try($c, ...$args)`. */
  function Tried(cfg: Config, c: Callable, args: seq<Value>): Run {
    var outcome := c.call(args);
    var result := if outcome.Raised? then FaultV(Uncaught) else outcome.value;
    var context := TryContext(c, args, result);
    if outcome.Raised? then Handle(cfg, Some(outcome.thrown), Uncaught, context)
    else if result.FaultV? then Handle(cfg, None, result.f, context)
    else Run([], Dispatch(cfg, result))
  }

  /** A successful value meets no strategy: no log, no default (not even for null), straight to dispatch. */
  lemma SuccessSkipsStrategies(cfg: Config, c: Callable, args: seq<Value>)
    requires c.call(args).Done? && !c.call(args).value.FaultV?
    ensures Tried(cfg, c, args) == Run([], Dispatch(cfg, c.call(args).value))
  {
  }

  /** Without an `onSuccess`, a successful value, null included, is returned as it is. */
  lemma SuccessReturned(cfg: Config, c: Callable, args: seq<Value>)
    requires c.call(args).Done? && !c.call(args).value.FaultV? && cfg.onSuccess.None?
    ensures Tried(cfg, c, args).verdict == Returned(c.call(args).value)
  {
  }

  /** A callable that returns `v`. */
  function Returning(id: nat, v: Value): Callable {
    Callable(id, (_: seq<Value>) => Done(v))
  }

  /**
   * Past `rethrowIf`, a thrown exception is treated exactly as a returned `UncaughtException`:
   * only `rethrowIf` sees the exception itself.
   */
  lemma ThrownSeenAsUncaught(cfg: Config, c: Callable, args: seq<Value>)
    requires c.call(args).Raised?
    requires !Rethrows(cfg.throw, ThrowableS(c.call(args).thrown)) && !Rethrows(cfg.throw, FaultS(Uncaught))
    ensures Tried(cfg, c, args).verdict == Tried(cfg, Returning(c.id, FaultV(Uncaught)), args).verdict
  {
  }

  /** A Fault that no collect rule matches becomes null before ignore and default. */
  lemma UncollectedBecomesNull(cfg: Config, c: Callable, args: seq<Value>, f: Fault)
    requires c.call(args) == Done(FaultV(f)) && !Rethrows(cfg.throw, FaultS(f))
    requires FirstCollect(cfg.collect, FaultS(f)) == None
    ensures Tried(cfg, c, args).verdict == Dispatch(cfg, DefaultIf(cfg.defaults, Null))
  {
  }

  /** A matched `throw` rule ends `try` right after the first log: a throwable as is, a Fault invoked. */
  lemma RethrowWins(cfg: Config, c: Callable, args: seq<Value>)
    requires c.call(args).Raised? ==> Rethrows(cfg.throw, ThrowableS(c.call(args).thrown))
    requires c.call(args).Done? ==> c.call(args).value.FaultV? && Rethrows(cfg.throw, FaultS(c.call(args).value.f))
    ensures c.call(args).Raised? ==> Tried(cfg, c, args).verdict == Rethrown(c.call(args).thrown)
    ensures c.call(args).Done? ==> Tried(cfg, c, args).verdict.RethrownFault? && Tried(cfg, c, args).verdict.f == c.call(args).value.f
    ensures |Tried(cfg, c, args).logs| <= 1
  {
  }

  /** A collected Fault listed in `ignore` is logged as ignored and becomes null. */
  lemma CollectedThenIgnored(cfg: Config, c: Callable, args: seq<Value>, f: Fault, g: Fault)
    requires c.call(args) == Done(FaultV(f)) && !Rethrows(cfg.throw, FaultS(f))
    requires FirstCollect(cfg.collect, FaultS(f)) == Some(g) && FaultM(g) in cfg.ignore
    ensures Tried(cfg, c, args).verdict == Dispatch(cfg, DefaultIf(cfg.defaults, Null))
  {
    var i :| 0 <= i < |cfg.ignore| && cfg.ignore[i] == FaultM(g);
    assert ShouldIgnore(cfg.ignoring, cfg.ignore, FaultS(g));
  }

  /** In ignoring mode every collected Fault becomes null. */
  lemma IgnoringNullsAll(cfg: Config, c: Callable, args: seq<Value>, f: Fault)
    requires cfg.ignoring && c.call(args) == Done(FaultV(f)) && !Rethrows(cfg.throw, FaultS(f))
    ensures Tried(cfg, c, args).verdict == Dispatch(cfg, DefaultIf(cfg.defaults, Null))
  {
  }

  /** A callback that throws turns into the matching HandlerFault, with the result recorded. */
  lemma CallbackThrows(cfg: Config, r: Value, t: Throwable)
    requires r.FaultV? ==> cfg.onFailure.Some? && cfg.onFailure.value.call([r]) == Raised(t)
    requires !r.FaultV? ==> cfg.onSuccess.Some? && cfg.onSuccess.value.call([r]) == Raised(t)
    ensures Dispatch(cfg, r) == CallbackFailed(
      if r.FaultV? then HandlerFaults.FailureHandlerFailed else HandlerFaults.SuccessHandlerFailed, r, t)
  {
  }

  /** The handler the message subsystem uses: `new Handler()->ignore(...$cases)`. */
  function IgnoringHandler(cases: seq<Matcher>): Config {
    DefaultConfig().(ignore := cases)
  }

  /**
   * Under a handler whose only rule is an ignore, any Fault or throw becomes null and nothing is
   * logged; other values come back unchanged.
   */
  lemma IgnoreOnlyNulls(cases: seq<Matcher>, c: Callable, args: seq<Value>)
    ensures Tried(IgnoringHandler(cases), c, args).logs == []
    ensures Tried(IgnoringHandler(cases), c, args).verdict == Returned(
      if c.call(args).Raised? || c.call(args).value.FaultV? then Null else c.call(args).value)
  {
    var cfg := IgnoringHandler(cases);
    var o := c.call(args);
    if o.Raised? {
      assert !Rethrows(cfg.throw, ThrowableS(o.thrown));
    } else if o.value.FaultV? {
      assert !Rethrows(cfg.throw, FaultS(o.value.f));
    }
    assert !Isset(cfg.defaults, "");
  }

  /** `tryPipe`'s closure: each step gets the running value; a Fault stops the pipe. */
  function Pipe(functions: seq<Callable>, result: Value): Outcome<Value>
    decreases |functions|
  {
    if functions == [] then Done(result)
    else if result.FaultV? then Done(result)
    else
      match functions[0].call([result])
      case Raised(t) => Raised(t)
      case Done(v) => Pipe(functions[1..], v)
  }

  /** The pipe's loop, reassigning the running value. */
  method RunPipe(functions: seq<Callable>, initial: Value) returns (r: Outcome<Value>)
    ensures r == Pipe(functions, initial)
  {
    var result := initial;
    var i := 0;
    while i < |functions|
      invariant 0 <= i <= |functions|
      invariant Pipe(functions[i..], result) == Pipe(functions, initial)
    {
      if result.FaultV? {
        return Done(result);
      }
      var next := functions[i].call([result]);
      if next.Raised? {
        return Raised(next.thrown);
      }
      assert functions[i..][1..] == functions[i + 1..];
      result := next.value;
      i := i + 1;
    }
    return Done(result);
  }

  /** Once the running value is a Fault, no further step is called and the Fault is the result. */
  lemma PipeStopsAtFault(functions: seq<Callable>, f: Fault)
    ensures Pipe(functions, FaultV(f)) == Done(FaultV(f))
  {
  }

  /**
   * Running `a + b` is running `a`, then `b` on what `a` returned; an exception raised in `a`
   * ends the whole pipe.
   */
  lemma {:induction false} PipeAppend(a: seq<Callable>, b: seq<Callable>, v: Value)
    ensures Pipe(a, v).Raised? ==> Pipe(a + b, v) == Pipe(a, v)
    ensures Pipe(a, v).Done? ==> Pipe(a + b, v) == Pipe(b, Pipe(a, v).value)
    decreases |a|
  {
    if a == [] {
      assert a + b == b;
    } else if !v.FaultV? {
      assert (a + b)[0] == a[0];
      match a[0].call([v])
      case Raised(t) =>
      case Done(u) =>
        assert (a + b)[1..] == a[1..] + b;
        PipeAppend(a[1..], b, u);
    }
  }

  /** Whatever the earlier steps return, a step that returns a Fault ends the pipe with that Fault. */
  lemma PipeFaultPropagates(before: seq<Callable>, step: Callable, after: seq<Callable>, v: Value, w: Value, f: Fault)
    requires Pipe(before, v) == Done(w) && !w.FaultV?
    requires step.call([w]) == Done(FaultV(f))
    ensures Pipe(before + [step] + after, v) == Done(FaultV(f))
  {
    assert before + [step] + after == before + ([step] + after);
    PipeAppend(before, [step] + after, v);
    assert ([step] + after)[0] == step && ([step] + after)[1..] == after;
  }
}
