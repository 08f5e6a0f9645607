# exceptable and peekaboo, modelled in Dafny

This project models the core of the PHP libraries `at\exceptable` and `at\peekaboo`. It then proves properties of that model.

- **Faults.** A *Fault* is an enum case that names an error condition. It carries a message template and the exception class to build. Invoking a fault with a context and an optional previous throwable builds an *Exceptable*. An Exceptable records:
  - its fault;
  - its previous throwable and the root of that chain;
  - its context, which is the caller's context with the `__exception__`, `__previous__` and `__root__` entries in front;
  - a message made from the fault's template.
- **Throwable context.** Before a message is formatted, each of the three throwable slots (`exception`, `previous`, `root`) is expanded into six detail keys (`__rootMessage__` and so on).
- **Messages.** The peekaboo side makes the messages:
  - `MessageBundle` rekeys a table of message formats, turning `\` into `_`;
  - `MessageRegistry` keeps groups of bundles, finds a format by a dotted key, and formats it with the fallback `MessageFormatter`;
  - `MessageMapper` and `MessageEnum` try the registry, then the class's own `MESSAGES` table, then the enum's backing value.
- **Handler.** The `Handler` decides what happens to a result that is a fault, or to a call that threw. It can:
  - rethrow it;
  - collect it as another fault;
  - ignore it, which turns it into null;
  - replace it with a default;
  - pass it to the success or failure callback.
- **Debug log.** Along the way the Handler writes `LogEntry` records into its `DebugLog`, and forwards them to a logger when one is configured.

How the model is laid out:

- PHP values are the datatype `Values.Value`. A PHP array is an ordered list of `(key, value)` pairs (`Values.Ctx`), and the model writes out PHP's left-biased `+`, assignment, `??`, `isset` and `ksort` explicitly.
- A PHP call that can throw becomes a function returning `Outcome<T>`, which is either `Done(value)` or `Raised(throwable)`. The model handles the `TypeError`s that `strict_types` raises on the same footing as the library's own exceptions.
- Two kinds of object are classes whose methods change their fields and carry `modifies` clauses:
  - the Handler and its DebugLog, which the source clones and updates;
  - the registry's static bundle list.
- Every loop of the source is a method with invariants, proved against a specification function. These include `findRoot`, `has`, `addThrowableContext`, `rekey`, `findFormatIn`, `findFormat`, the formatter's scanner and replacement map, the Handler's rule scans and the pipe in `tryPipe`.
- The rest is functions and lemmas.

## Model

| member | source | states |
|---|---|---|
| Strings.Translate | peekaboo/src/MessageBundle.php:55 | `strtr` with one one-character pair keeps the length and replaces exactly the occurrences of that character |
| Strings.TranslateRemoves | peekaboo/src/MessageBundle.php:72 | after `\` is translated to `_`, no `\` is left in a key |
| Strings.TranslateIdempotent | peekaboo/src/MessageBundle.php:72 | translating a key twice gives the same key as translating it once |
| Strings.Split | peekaboo/src/MessageRegistry.php:170 | `explode` yields at least one segment, and no segment contains the separator |
| Strings.JoinSplit | peekaboo/src/MessageRegistry.php:170 | joining the exploded segments with the separator gives back the key |
| Strings.SplitWithout | peekaboo/src/MessageRegistry.php:170 | a key without a `.` is a single segment |
| Strings.BelowIrreflexive | exceptable/src/Debug/LogEntry.php:148 | the byte order `ksort` uses on string keys is irreflexive |
| Strings.BelowTransitive | exceptable/src/Debug/LogEntry.php:148 | that order is transitive |
| Strings.BelowTotal | exceptable/src/Debug/LogEntry.php:148 | any two different keys are ordered one way or the other |
| Strings.IntegerKeyByLength | peekaboo/src/MessageBundle.php:69-78 | a canonical digit key of up to 18 digits becomes an integer array key, and one of 20 or more digits stays a string |
| Strings.IntToString | peekaboo/src/MessageRegistry.php:204 | `(string)` of an integer is non-empty and starts with `-` exactly when the integer is negative |
| Strings.LongestKeyAt | peekaboo/stubs/MessageFormatter.php:109-112 | `strtr` with an array picks the longest search string that starts at the current position, or none |
| Strings.StrtrFront | peekaboo/stubs/MessageFormatter.php:109-112 | a longest match at the front is replaced, and scanning resumes after it without rescanning the replacement |
| Strings.StrtrSkip | peekaboo/stubs/MessageFormatter.php:109-112 | a character that starts no search string is copied unchanged |
| Strings.StrtrUntouched | peekaboo/stubs/MessageFormatter.php:109-112 | text that never contains the first character of any search string is returned unchanged |
| Values.Lookup | exceptable/src/_ThrowableContext.php:26 | reading `$a[$k]` finds a value exactly when the key is present, and the value is the one stored under it |
| Values.Coalesce | exceptable/src/_ThrowableContext.php:26 | `$a[$k] ?? $d` is the stored value when it is set and non-null, and `$d` otherwise |
| Values.Union | exceptable/src/IsExceptable.php:47-51 | `$a + $b` keeps `$a` as its prefix, and its key set is the union of both key sets |
| Values.UnionLookup | exceptable/src/IsExceptable.php:47-51 | `$a + $b` is left-biased: a key of `$a` reads from `$a`, and any other key reads from `$b` |
| Values.UnionUnique | exceptable/src/_ThrowableContext.php:28 | `+=` never creates a duplicate key |
| Values.UnionDisjoint | exceptable/src/_ThrowableContext.php:28 | adding keys that are all new appends them in order |
| Values.UnionPresent | exceptable/src/_ThrowableContext.php:28 | adding keys that are all present changes nothing |
| Values.Put | exceptable/src/Handler/Handler.php:118 | assigning `$a[$k]` overwrites in place when the key is present, and appends otherwise |
| Values.PutLookup | exceptable/src/Handler/Handler.php:118 | after `$a[$k] = $v`, key `$k` reads `$v` and every other key is unchanged |
| Values.PutSame | exceptable/src/Handler/Handler.php:118 | storing the value a key already holds leaves the array equal |
| Values.PutUnique | exceptable/src/Handler/Handler.php:118 | assignment keeps keys unique |
| Values.KSort | exceptable/src/Debug/LogEntry.php:148 | `ksort` returns a key-sorted permutation of its input |
| Values.KSortLookup | exceptable/src/Debug/LogEntry.php:148 | `ksort` keeps keys unique and changes no key's value |
| Values.FaultTag | exceptable/src/Fault.php:17 | every fault's class is named after its enum and implements `Fault` |
| SplClasses.Tag | exceptable/src/Spl/OverflowException.php:27-31 | each exceptable SPL class is an `Exceptable`, a `Throwable`, an `Exception` and an instance of its SPL parent class |
| SplClasses.ClassNameInjective | exceptable/src/Spl/SplFault.php:73-91 | different exceptable SPL classes have different class names |
| ExceptableFaults.ExceptableType | exceptable/src/ExceptableFault.php:36-42 | `UnknownFault` and `UnacceptableFault` build a `LogicException`, and only they do; `UncaughtException` builds a `RuntimeException`; the log-message and unknown-error cases build an `InvalidArgumentException` |
| SplFaults.ExceptableTypeInjective | exceptable/src/Spl/SplFault.php:73-91 | different SPL fault cases build different exception classes |
| SplFaults.ExceptableTypeSurjective | exceptable/src/Spl/SplFault.php:73-91 | every exceptable SPL class is built by some case, so the `default` arm is never reached |
| SplFaults.Messages | exceptable/src/Spl/SplFault.php:56-70 | the `MESSAGES` table has one entry per case, keyed by the case name, and each entry's format is `{__rootMessage__}` |
| SplFaults.CaseNameInjective | exceptable/src/Spl/SplFault.php:41-53 | case names are distinct, so the table has no colliding keys |
| SplFaults.CaseNameShape | exceptable/src/Spl/SplFault.php:41-53 | case names are capitalised and contain no `\` or `.`, so rekeying and key splitting leave them whole |
| ErrorFaults.Value | exceptable/src/Spl/ErrorFault.php:26-34 | each case is backed by a single-bit `E_*` constant |
| ErrorFaults.ValueInjective | exceptable/src/Spl/ErrorFault.php:26-34 | the backing values are distinct |
| ErrorFaults.ExceptableType | exceptable/src/Spl/ErrorFault.php:37-42 | `Warning`, `Notice`, `UserError`, `UserWarning` and `UserNotice` build a `RuntimeException`, exactly those do, and the other four build a `LogicException` |
| HandlerFaults.ExceptableType | exceptable/src/Handler/HandlerFault.php:30-35 | both handler faults build a `LogicException` |
| HandlerOptions.Defaults | exceptable/src/Handler/Options.php:21-39 | the default options are: debug off, no logger, scream off, and both error masks 0 |
| HandlerOptions.Merge | exceptable/src/Handler/Handler.php:171-180 | the new options keep every given field, and take the logger from the old options only when no logger is given (`isset` is false only for the nullable logger) |
| HandlerOptions.MergeKeepsGiven | exceptable/src/Handler/Handler.php:176-180 | options that name a logger are taken as they are |
| HandlerOptions.MergeIdempotent | exceptable/src/Handler/Handler.php:176-180 | merging the same old options a second time changes nothing |
| HandlerOptions.MergeDefaults | exceptable/src/Handler/Handler.php:176-180 | merging over the defaults returns the given options |
| Exceptables.Chain | exceptable/src/IsExceptable.php:58-69 | the chain of previous throwables starts with the throwable itself |
| Exceptables.RootOf | exceptable/src/IsExceptable.php:76-83 | the root has no previous throwable |
| Exceptables.RootIsLast | exceptable/src/IsExceptable.php:76-83 | the root is the last link of the previous-chain |
| Exceptables.FindRoot | exceptable/src/IsExceptable.php:76-83 | the loop that follows `getPrevious()` returns the root of the chain |
| Exceptables.Root | exceptable/src/IsExceptable.php:43-45 | `root` is the exceptable itself when it has no previous throwable, and otherwise the root of the previous throwable |
| Exceptables.ContextLookup | exceptable/src/IsExceptable.php:47-51 | `context` reads `__exception__` as the exceptable itself, `__previous__` as its previous throwable (or null) and `__root__` as its root; every other key reads as in the caller's context |
| Exceptables.Construct | exceptable/src/IsExceptable.php:36-55 | the constructor succeeds exactly when the fault's message succeeds on the new context. It then records the fault, the previous throwable, code 0, the class and that message; otherwise it raises what the message raised |
| Exceptables.ConstructRoot | exceptable/src/IsExceptable.php:43-45 | a new exceptable's root is the root of its previous throwable, or the exceptable itself |
| Exceptables.InChainIff | exceptable/src/IsExceptable.php:58-69 | a fault is in the chain exactly when some link of the previous-chain carries it |
| Exceptables.Has | exceptable/src/IsExceptable.php:58-69 | the loop that walks the chain answers `has($fault)` exactly when the fault is in the chain |
| Exceptables.IsThenHas | exceptable/src/IsExceptable.php:58-74 | `is` implies `has`; `has` is inherited from the previous throwable; without a previous throwable the two agree |
| Exceptables.ConstructHas | exceptable/src/IsExceptable.php:36-69 | a new exceptable has a fault exactly when the fault is its own or the previous throwable has it |
| ThrowableContext.From | exceptable/src/_ThrowableContext.php:44-55 | the six detail entries for a slot are the throwable, its message, code, file, line, and its fault (or null) |
| ThrowableContext.AddThrowableContext | exceptable/src/_ThrowableContext.php:24-42 | the loop over the three slots, followed by the root fallback, computes `addThrowableContext` |
| ThrowableContext.FillRoot | exceptable/src/_ThrowableContext.php:33-40 | the root fallback fills the root details from the exception's or the previous exceptable's root, and only when `__root__` is unset |
| ThrowableContext.StepExtends | exceptable/src/_ThrowableContext.php:25-32 | each slot step keeps the caller's entries as a prefix and leaves the slot key present |
| ThrowableContext.StepsExtend | exceptable/src/_ThrowableContext.php:25-32 | after all slot steps, the caller's entries are a prefix and every slot key is present |
| ThrowableContext.AddExtends | exceptable/src/_ThrowableContext.php:24-42 | `addThrowableContext` only appends: the caller's context is a prefix of the result, and all three slot keys are present |
| ThrowableContext.BadSlotRaises | exceptable/src/_ThrowableContext.php:26-28 | a non-null, non-throwable `__exception__` entry makes the call raise a `TypeError` |
| ThrowableContext.NoThrowables | exceptable/src/_ThrowableContext.php:24-42 | with no throwables anywhere, the three slot keys are appended as null |
| ThrowableContext.WithPrevious | exceptable/src/_ThrowableContext.php:24-42 | given only a previous throwable, the result appends a null exception, the previous details and a null root. When the previous throwable is an exceptable, its root's details follow |
| ThrowableContext.FallbackIdempotent | exceptable/src/_ThrowableContext.php:33-40 | the root fallback only appends, and applying it twice changes nothing |
| ThrowableContext.AddIdempotent | exceptable/src/_ThrowableContext.php:24-42 | adding the throwable context twice gives the same result as adding it once |
| ThrowableContext.BenignAdds | exceptable/src/_ThrowableContext.php:24-42 | a context whose slot entries are null or throwables never makes the call raise |
| ThrowableContext.ContextBenign | exceptable/src/IsExceptable.php:47-51 | an exceptable's own context is such a context |
| ThrowableContext.AddKeeps | exceptable/src/_ThrowableContext.php:28 | `+=` never overwrites: every key the caller set keeps its value |
| ThrowableContext.RootMessageFromSlot | exceptable/src/_ThrowableContext.php:24-42 | when `__root__` holds a throwable, `__rootMessage__` becomes that throwable's message |
| ThrowableContext.AddUnique | exceptable/src/_ThrowableContext.php:24-42 | adding the throwable context keeps keys unique |
| ThrowableContext.ExceptableRootMessage | exceptable/src/IsFault.php:62 | the message context of an exceptable carries its root's message as `__rootMessage__` |
| ThrowableContext.ContextUnique | exceptable/src/IsExceptable.php:47-51 | an exceptable's context has unique keys when the caller's does |
| IsFault.ExceptableType | exceptable/src/IsFault.php:94-96 | a fault that does not override the exceptable class builds a `RuntimeException` |
| IsFault.Named | exceptable/src/IsFault.php:59-64 | a message is the fault's name alone when no message was made, and otherwise the name, `: ` and the message |
| IsFault.ToExceptableAlone | exceptable/src/IsFault.php:66-75 | with no previous throwable, `toExceptable` constructs the exceptable from the context as given |
| IsFault.ToExceptableFields | exceptable/src/IsFault.php:66-75 | the exceptable carries the fault, the previous throwable, code 0 and the fault's class. With a previous throwable the context is first expanded; the root is the previous throwable's root |
| IsFault.InvokeIsToExceptable | exceptable/src/IsFault.php:49-52 | invoking with a previous throwable is `toExceptable`, because expanding the context twice equals expanding it once |
| IsFault.InvokeKeepsContext | exceptable/src/IsFault.php:49-52 | invoking keeps the caller's context as a prefix and adds all slot keys |
| EnumeratesFaults.MessageComplete | peekaboo/src/MessageEnum.php:27-31 | when the expanded context fills every token, a backed fault's message is its name, `: ` and its formatted template |
| EnumeratesFaults.MessageStartsWithName | exceptable/src/EnumeratesFaults.php:39-44 | a backed fault's message is its name, or starts with its name followed by `: ` |
| EnumeratesFaults.MessageRaises | exceptable/src/EnumeratesFaults.php:42 | a non-throwable `__exception__` entry makes `message` raise the `TypeError` |
| EnumeratesFaults.FindCase | exceptable/src/EnumeratesFaults.php:32-37 | the lookup of a constant name finds a case with that name, or none exists |
| EnumeratesFaults.TryFromIff | exceptable/src/EnumeratesFaults.php:32-37 | `tryFrom($name)` returns a case exactly when `$name` is that case's constant name |
| EnumeratesFaults.ConstantNameInjective | exceptable/src/EnumeratesFaults.php:32-37 | two cases of one enum with the same constant name are the same case |
| EnumeratesFaults.TryFromRoundTrip | exceptable/src/EnumeratesFaults.php:32-37 | `tryFrom` of a case's constant name returns that case |
| EnumeratesFaults.MessageTotal | exceptable/src/EnumeratesFaults.php:39-44 | on a context whose slots are null or throwables, a backed fault's message never raises |
| EnumeratesFaults.InvokeTotal | exceptable/src/IsFault.php:49-52 | invoking a backed fault on such a context always builds the exceptable |
| EnumeratesFaults.SingleInvoked | exceptable/src/IsFault.php:49-52 | a backed fault invoked with one short key builds an exceptable that keeps that entry |
| EnumeratesFaults.FromUnknown | exceptable/src/EnumeratesFaults.php:26-30 | `from` returns what `tryFrom` finds, and otherwise throws `UnknownFault` with the name in its context and no previous throwable |
| Faults.SplTable | exceptable/src/Spl/SplFault.php:56-70 | the SPL table, as a PHP array, maps each case name to `{__rootMessage__}` |
| Faults.MessageTotal | exceptable/src/IsFault.php:59-64 | every fault's message succeeds on a context whose slots are null or throwables |
| Faults.MessageStartsWithName | exceptable/src/IsFault.php:59-64 | every fault's message is its name, or starts with its name followed by `: ` |
| Faults.InvokeTotal | exceptable/src/IsFault.php:49-75 | invoking any fault on such a context builds an exceptable. Its context is the expanded context, and its message is the fault's message over that exceptable's context |
| Faults.InvokeKeeps | exceptable/src/IsFault.php:49-52 | an invoked fault carries that fault and the given previous, and every key the caller passed keeps its value |
| Faults.SplTableClean | peekaboo/src/MessageBundle.php:34-36 | rekeying the SPL table changes nothing |
| Faults.SplTableFinds | peekaboo/src/MessageRegistry.php:167-185 | every SPL case name finds the format `{__rootMessage__}` in its own bundle |
| Faults.MapperMessageIs | exceptable/src/IsFault.php:59-64 | a fault without a backing value is named with the mapper's message for its case name, looked up with `onlyIf` |
| Faults.RootMessageFormats | peekaboo/src/MessageRegistry.php:54-71 | `{__rootMessage__}` formats to the root message, even under `onlyIf` |
| Faults.SplMakeMessage | peekaboo/src/MessageMapper.php:51-67 | with no registry entry, an SPL fault's message comes from its own table, and a failed format becomes `NoSuchMessage` |
| Faults.SplMadeMessage | peekaboo/src/MessageMapper.php:51-67 | that message is the root message |
| Faults.SplMessage | exceptable/src/IsFault.php:59-64 | an SPL fault's message is its name, `: ` and the root message |
| Faults.BuiltRootMessage | exceptable/src/IsExceptable.php:47-54 | while the exceptable is built, its message context carries its root's message |
| Faults.InvokedGiven | exceptable/src/IsFault.php:49-52 | the expanded invoke context has unique keys, and its `__rootMessage__` is absent or is the message of the previous throwable's root |
| Faults.InvokedAlone | exceptable/src/IsFault.php:49-52 | without a previous throwable the invoke context has no `__rootMessage__` |
| Faults.InvokedAfter | exceptable/src/IsFault.php:49-52 | with a previous throwable, `__rootMessage__` is absent or is the root's message |
| Faults.SplInvokeMessage | exceptable/src/IsFault.php:49-64 | an invoked SPL fault's message is its name, `: ` and the previous throwable's root message (or the empty string) |
| Faults.ErrorMessage | exceptable/src/IsFault.php:59-64 | an error fault's message comes from the registry alone, because `ErrorFault` declares no table |
| HandlerCore.FaultMatcherIsClassWide | exceptable/src/Handler/Handler.php:286-292 | a fault used as a case matches every fault of its enum through `instanceof`, and matches exactly only itself |
| HandlerCore.ExactMatches | exceptable/src/Handler/Handler.php:286-292 | an exact match is also a match |
| HandlerCore.AddRule | exceptable/src/Handler/Handler.php:100-106 | `collect` adds at most one rule |
| HandlerCore.AddRuleNew | exceptable/src/Handler/Handler.php:100-106 | collecting into a new fault name appends a rule |
| HandlerCore.AddRuleExisting | exceptable/src/Handler/Handler.php:100-106 | collecting into a known fault name extends that rule in place, repeating the target fault as a case |
| HandlerCore.AddRuleUnique | exceptable/src/Handler/Handler.php:100-106 | rules stay keyed by distinct fault names |
| HandlerCore.FirstCollectAt | exceptable/src/Handler/Handler.php:277-299 | the result is collected as the target of the first rule with a matching case |
| HandlerCore.FirstCollectNone | exceptable/src/Handler/Handler.php:277-299 | with no matching case, nothing is collected |
| HandlerCore.ClassIgnoresSkipFaults | exceptable/src/Handler/Handler.php:339-357 | a class-name case never causes a fault to be ignored |
| HandlerCore.FaultIgnoresSkipThrowables | exceptable/src/Handler/Handler.php:339-357 | a fault case never causes a throwable to be ignored |
| HandlerCore.DefaultIf | exceptable/src/Handler/Handler.php:301-309 | null becomes the set `""` default, a fault becomes the set default for its name, and anything else is returned unchanged |
| HandlerCore.DefaultOverwrites | exceptable/src/Handler/Handler.php:112-121 | a later `default` for the same case replaces an earlier one |
| HandlerCore.NullDefaultInert | exceptable/src/Handler/Handler.php:112-121 | a null default is the same as no default, because `isset` fails on null |
| HandlerCore.DefaultNoCases | exceptable/src/Handler/Handler.php:112-121 | `default($to)` with no cases replaces null results |
| HandlerCore.SuccessSkipsStrategies | exceptable/src/Handler/Handler.php:211-236 | a result that is not a fault goes straight to the success branch and logs nothing |
| HandlerCore.SuccessReturned | exceptable/src/Handler/Handler.php:321-329 | without `onSuccess`, that result is returned as it is |
| HandlerCore.ThrownSeenAsUncaught | exceptable/src/Handler/Handler.php:213-217 | unless it is rethrown, a thrown exception is handled as the result `UncaughtException` |
| HandlerCore.UncollectedBecomesNull | exceptable/src/Handler/Handler.php:277-299 | a fault that is neither rethrown nor collected becomes null, and only the null default applies |
| HandlerCore.RethrowWins | exceptable/src/Handler/Handler.php:331-337 | a matching `throw` case rethrows the thrown exception, or throws the fault, before anything else happens |
| HandlerCore.CollectedThenIgnored | exceptable/src/Handler/Handler.php:224-229 | a collected fault that is then ignored becomes null |
| HandlerCore.IgnoringNullsAll | exceptable/src/Handler/Handler.php:339-342 | in ignoring mode every fault that is not rethrown becomes null |
| HandlerCore.CallbackThrows | exceptable/src/Handler/Handler.php:311-329 | a callback that throws is reported as `FailureHandlerFailed` or `SuccessHandlerFailed` with the result and the cause |
| HandlerCore.IgnoreOnlyNulls | peekaboo/src/MessageMapper.php:59-66 | a handler with only `ignore` cases logs nothing, turns every fault and throw into null and returns other results |
| HandlerCore.RunPipe | exceptable/src/Handler/Handler.php:264-272 | the loop in `tryPipe` computes the pipe |
| HandlerCore.PipeStopsAtFault | exceptable/src/Handler/Handler.php:264-272 | a fault entering the pipe comes out unchanged |
| HandlerCore.PipeAppend | exceptable/src/Handler/Handler.php:264-272 | running two lists of steps one after the other is running the first, then the second on its result; an exception in the first ends the pipe |
| HandlerCore.PipeFaultPropagates | exceptable/src/Handler/Handler.php:264-272 | whatever the earlier steps returned, a step that returns a fault ends the pipe with that fault, and no later step runs |
| Handlers.LoggedInOrder | exceptable/src/Handler/Handler.php:139-146 | log entries are built in order. Logging stops at the first entry whose construction raises, and that throwable is reported |
| Handlers.Thrown | exceptable/src/Handler/Handler.php:334 | a rethrown fault always ends in a throw: of the exceptable it builds, or of the error that stopped the build |
| Handlers.TooFewArguments | exceptable/src/Handler/Handler.php:264 | calling a one-parameter closure with no argument raises an `ArgumentCountError`, which is a `TypeError` and not an exceptable |
| Handlers.PipeOf | exceptable/src/Handler/Handler.php:263-273 | the closure `tryPipe` passes to `try` keeps the given callable identity |
| Handlers.Bind | exceptable/src/Handler/Handler.php:88-92 | the closure `bind` returns keeps the given callable identity |
| Handlers.Settle | exceptable/src/Handler/Handler.php:311-337 | the outcome is a return exactly when the verdict is, and it returns the verdict's value or throws its throwable |
| Handlers.RethrownFaultThrows | exceptable/src/Handler/Handler.php:334 | a rethrown fault throws an exceptable of that fault with no previous throwable |
| Handlers.CallbackFailureThrows | exceptable/src/Handler/Handler.php:311-329 | a failing callback throws the handler fault, with the cause as previous and the result in its context |
| Handlers.FailureContextSafe | exceptable/src/Handler/Handler.php:218-222 | the context `try` builds for a failure has slots that are null or throwables and well-typed `__file__`, `__line__` and `__handled__` entries |
| Handlers.FaultRethrown | exceptable/src/Handler/Handler.php:331-337 | with debugging off, `try` throws a rethrown fault as an exceptable of that fault |
| Handlers.ThrownRethrown | exceptable/src/Handler/Handler.php:213-223 | with debugging off, `try` rethrows a matching thrown exception unchanged |
| Handlers.SuccessReturnedAsIs | exceptable/src/Handler/Handler.php:211-236 | `try` returns a result that is not a fault unchanged when there is no success callback |
| Handlers.UncollectedReturnsNull | exceptable/src/Handler/Handler.php:224-234 | `try` returns null for an uncollected fault when there is no default and no callback |
| Handlers.Ignored | exceptable/src/Handler/Handler.php:243-251 | `tryIgnoring` never returns a fault, and passes throws and other results through |
| Handlers.BindPassesFaults | exceptable/src/Handler/Handler.php:88-92 | a bound callable returns a fault argument unchanged |
| Handlers.BindTries | exceptable/src/Handler/Handler.php:88-92 | on any other argument, a bound callable is `try` on the callback |
| Handlers.InitialLogAsWritten | exceptable/src/Handler/Handler.php:78-80 | as written, the new debug log ignores the options and keeps its defaults |
| Handlers.InitialLogDropsLogger | exceptable/src/Handler/Handler.php:78-80 | with debug on and a logger, the as-written debug log has neither |
| Handlers.OptionsLogsAsWritten | exceptable/src/Handler/Handler.php:171-184 | as written, `options()` leaves the clone's log settings as they were and writes the receiver's own options into the receiver's log |
| Handlers.OptionsLogsDesync | exceptable/src/Handler/Handler.php:181-182 | so a clone given debug and a logger keeps logging with the old settings |
| Handlers.LoggerNeverCalled | exceptable/src/Debug/DebugLog.php:41-43 | under either slip the configured logger receives no entry, where the intended settings send it one call per entry |
| Handlers.Handler.constructor | exceptable/src/Handler/Handler.php:78-80 | a new handler has the given options, no rules, no callbacks and an empty debug log whose settings follow the options |
| Handlers.Handler.AsWritten | exceptable/src/Handler/Handler.php:78-80 | the constructor as written: the same, except that the debug log keeps its default settings |
| Handlers.Handler.Clone | exceptable/src/Handler/Handler.php:73-76 | a clone has every field equal and its own copy of the debug log |
| Handlers.Handler.Collect | exceptable/src/Handler/Handler.php:100-106 | returns a clone whose collect rules are extended, and nothing else changes |
| Handlers.Handler.Default | exceptable/src/Handler/Handler.php:112-121 | returns a clone whose defaults store the value under each case, or under `""` when there are no cases |
| Handlers.Handler.Ignore | exceptable/src/Handler/Handler.php:127-131 | returns a clone with the cases appended to `ignore` |
| Handlers.Handler.Throw | exceptable/src/Handler/Handler.php:199-203 | returns a clone with the cases appended to `throw` |
| Handlers.Handler.OnSuccess | exceptable/src/Handler/Handler.php:164-168 | returns a clone with the success callback set |
| Handlers.Handler.OnFailure | exceptable/src/Handler/Handler.php:153-157 | returns a clone with the failure callback set |
| Handlers.Handler.Options | exceptable/src/Handler/Handler.php:171-184 | returns a clone with the merged options, whose debug log follows them; the log contents are kept |
| Handlers.Handler.OptionsAsWritten | exceptable/src/Handler/Handler.php:171-184 | as written: the clone's log keeps the old settings, and the receiver's log takes the receiver's options |
| Handlers.Handler.LogIf | exceptable/src/Handler/Handler.php:139-146 | logs when debugging, or when there is a logger and the subject is a fault or a throwable; the log only grows |
| Handlers.Handler.RethrowIf | exceptable/src/Handler/Handler.php:331-337 | the scan of `throw` finds a match exactly when a case matches |
| Handlers.Handler.ShouldIgnore | exceptable/src/Handler/Handler.php:339-357 | ignoring mode ignores everything; otherwise a fault is ignored only by an identical fault case, and a throwable only by a class-name case |
| Handlers.Handler.FindCollect | exceptable/src/Handler/Handler.php:277-299 | the nested scan returns the first rule whose cases match, stopping early on an exact match |
| Handlers.Handler.CollectIf | exceptable/src/Handler/Handler.php:277-299 | collects as above, logging `Collected` once when something is collected |
| Handlers.Handler.Handle | exceptable/src/Handler/Handler.php:219-234 | handles a failure: log, rethrow, collect, ignore, default, then the callbacks |
| Handlers.Handler.ApplyStrategies | exceptable/src/Handler/Handler.php:224-234 | the steps after rethrowing, as the specification run gives them |
| Handlers.Handler.Try | exceptable/src/Handler/Handler.php:211-236 | `try` returns or throws what the decision pipeline decides, and appends exactly its log entries |
| Handlers.Handler.TryIgnoring | exceptable/src/Handler/Handler.php:243-251 | `try` in ignoring mode, returning null for faults; ignoring mode is switched off afterwards |
| Handlers.Handler.TryPipe | exceptable/src/Handler/Handler.php:261-275 | `try` on the pipe of the functions, starting from the initial value |
| Handlers.ScanCases | exceptable/src/Handler/Handler.php:284-295 | the case scan finds whether some case matches and whether some case matches exactly |
| Handlers.StoreDefaults | exceptable/src/Handler/Handler.php:117-119 | the loop stores the value under each case's key and keeps keys unique |
| Handlers.HandleSplits | exceptable/src/Handler/Handler.php:219-234 | handling logs the subject, then rethrows, or goes on with the collect, ignore and default steps |
| DebugLogs.LevelOf | exceptable/src/Debug/DebugLog.php:44-49 | debug entries log at DEBUG, fault entries at NOTICE, error entries at WARNING and throwable entries at ERROR, and only those |
| DebugLogs.SentAll | exceptable/src/Debug/DebugLog.php:50 | each forwarded entry is sent with its level, message and context |
| DebugLogs.DebugLog.constructor | exceptable/src/Debug/DebugLog.php:34-38 | a new log has debug off, no entries and no logger |
| DebugLogs.DebugLog.Clone | exceptable/src/Handler/Handler.php:75 | a cloned log has the same settings and entries |
| DebugLogs.DebugLog.Add | exceptable/src/Debug/DebugLog.php:41-52 | the entry is appended, and it is sent to the logger exactly when one is set |
| DebugLogs.DebugLog.AddFrom | exceptable/src/Debug/DebugLog.php:55-57 | the entry built from the message is added, or the throwable its construction raised is reported and nothing changes |
| LogEntries.NullableString | exceptable/src/Debug/LogEntry.php:121-124 | a `?string` parameter accepts null and strings only, and raises a `TypeError` otherwise |
| LogEntries.NullableInt | exceptable/src/Debug/LogEntry.php:121-123 | a `?int` parameter accepts null and integers only |
| LogEntries.BoolArg | exceptable/src/Debug/LogEntry.php:126 | a `bool` parameter accepts booleans only |
| LogEntries.AugmentLookup | exceptable/src/Debug/LogEntry.php:142-150 | the entry context is sorted with unique keys: file, line and time win over the entry's own keys, which win over the caller's keys |
| LogEntries.BaseKeysWin | exceptable/src/Debug/LogEntry.php:142-150 | `__file__`, `__line__` and `__time__` always hold the entry's own values |
| LogEntries.NewEntryFields | exceptable/src/Debug/LogEntry.php:121-130 | a new entry keeps its arguments and stamps the time, and its context reads every other key as the caller's context does |
| LogEntries.FaultKeyWins | exceptable/src/Debug/FaultLogEntry.php:29-31 | a fault entry's context holds its fault under `__fault__` |
| LogEntries.ThrowableKeysWin | exceptable/src/Debug/ThrowableLogEntry.php:37-40 | a throwable entry's context holds the throwable and its fault |
| LogEntries.ErrorKeysWin | exceptable/src/Debug/ErrorLogEntry.php:29-32 | an error entry's context holds its code and whether it was controlled |
| LogEntries.ConstructTyped | exceptable/src/Debug/LogEntry.php:121-130 | construction succeeds exactly when every argument has its declared type, and the entry then holds those arguments |
| LogEntries.FromFaultEntry | exceptable/src/Debug/LogEntry.php:79-88 | a fault entry takes its message from the fault and its file, line and handled flag from the context |
| LogEntries.FromThrowableEntry | exceptable/src/Debug/LogEntry.php:104-113 | a throwable entry takes the throwable's file, line and message, and carries a fault exactly when it is an exceptable |
| LogEntries.UnacceptableEntry | exceptable/src/Debug/LogEntry.php:49-54 | an unacceptable message is logged as `UnacceptableLogMessage` with `from` and its debug type in the context |
| LogEntries.UnacceptableMessage | exceptable/src/Debug/LogEntry.php:49-54 | the `UnacceptableLogMessage` message over the default-arm context never raises |
| LogEntries.UnacceptableFields | exceptable/src/Debug/LogEntry.php:49-54 | that context has no file, line or handled flag, and holds `from` and its debug type under keys that the entry's own keys do not override |
| LogEntries.ErrorEntryFields | exceptable/src/Debug/ErrorLogEntry.php:24-26 | an error entry's code is the error's type or 0, and it is controlled exactly when `error_reporting()` is 0 |
| LogEntries.FromDispatch | exceptable/src/Debug/LogEntry.php:43-47 | faults, throwables, messages and strings go to their own factory |
| LogEntries.FromDispatchErrors | exceptable/src/Debug/LogEntry.php:48 | arrays and null go to `fromError` |
| LogEntries.FromOtherAccepted | exceptable/src/Debug/LogEntry.php:49-54 | booleans, numbers and objects are logged as unacceptable and never throw |
| LogEntries.DebugMessageEntry | exceptable/src/Debug/LogEntry.php:91-101 | a handler debug message is logged as a debug entry with its formatted text |
| LogEntries.MessageFailureRaises | exceptable/src/Debug/LogEntry.php:91-101 | a message that fails to format is a `MessageFault`, which the `?string` parameter rejects |
| LogEntries.UnknownErrorEntry | exceptable/src/Debug/LogEntry.php:63-76 | with no error information, an error entry with code 0 and the `UnknownError` message is logged |
| LogEntries.DebugMessageUnacceptable | exceptable/src/Debug/LogEntry.php:47 | as written, a handler debug message is logged as `UnacceptableLogMessage` |
| LogEntries.LooseNullRaises | exceptable/src/Debug/LogEntry.php:48 | as written, `false` and `0` reach `fromError(?array)` and raise a `TypeError` |
| LogEntries.MissingErrorRaises | exceptable/src/Debug/LogEntry.php:72 | as written, with no error information `null + array` raises a `TypeError` |
| LogEntries.FromErrorAgrees | exceptable/src/Debug/LogEntry.php:63-76 | when error information exists, the corrected `fromError` equals the code as written |
| MessageBundles.TranslateKey | peekaboo/src/MessageBundle.php:72 | a rekeyed key has the same length and no `\` |
| MessageBundles.Rekey | peekaboo/src/MessageBundle.php:69-78 | the loop over the entries computes `rekey` |
| MessageBundles.RekeyFailsIff | peekaboo/src/MessageBundle.php:69-78 | `rekey` raises exactly when some nested key is an integer, which `strtr` rejects; a digit key beyond the 64-bit range stays a string and does not raise |
| MessageBundles.RekeyedIsClean | peekaboo/src/MessageBundle.php:69-78 | a rekeyed table has unique keys and no `\` in any key, at every depth |
| MessageBundles.RekeyClean | peekaboo/src/MessageBundle.php:69-78 | rekeying a table that is already clean changes nothing |
| MessageBundles.RekeyIdempotent | peekaboo/src/MessageBundle.php:69-78 | rekeying twice gives the same table as rekeying once |
| MessageBundles.RekeyedKeys | peekaboo/src/MessageBundle.php:69-78 | the rekeyed top-level keys are exactly the translated input keys |
| MessageBundles.RekeyedLookup | peekaboo/src/MessageBundle.php:69-78 | when two keys translate to the same key, the later entry's (rekeyed) value is the one kept |
| MessageBundles.NewBundle | peekaboo/src/MessageBundle.php:34-36 | a bundle is built exactly when rekeying succeeds, and it holds a clean table |
| MessageBundles.CountDistinct | peekaboo/src/MessageBundle.php:43-45 | `count()` is the number of distinct translated top-level keys |
| MessageBundles.GetTranslates | peekaboo/src/MessageBundle.php:54-56 | `get` translates its key as well |
| MessageBundles.GetScalar | peekaboo/src/MessageBundle.php:54-67 | `get` returns null for a key that is missing or null, and returns strings and integers as they are |
| MessageBundles.GetNested | peekaboo/src/MessageBundle.php:61-63 | `get` wraps a nested table in a bundle |
| MessageBundles.GetIntKeyThrows | peekaboo/src/MessageBundle.php:55 | `get` with an integer key raises a `TypeError` |
| Formatter.StrtrDoubled | peekaboo/stubs/MessageFormatter.php:35 | escaping doubles every `\` |
| Formatter.UnescapeDoubled | peekaboo/stubs/MessageFormatter.php:35-112 | the final unescaping undoes that doubling, so backslashes round-trip |
| Formatter.Step | peekaboo/stubs/MessageFormatter.php:41-98 | each iteration moves forward and stays within the pattern |
| Formatter.Advance | peekaboo/stubs/MessageFormatter.php:42-98 | the switch body computes one iteration of the scanner |
| Formatter.RewriteToken | peekaboo/stubs/MessageFormatter.php:33-100 | the constructor strips spaces inside braces and keeps a plain token as `{name}` |
| Formatter.TokenInText | peekaboo/stubs/MessageFormatter.php:33-112 | a token in plain text is replaced by its context value, and by nothing else |
| Formatter.RewriteQuotedQuote | peekaboo/stubs/MessageFormatter.php:43-49 | a doubled quote is a literal quote |
| Formatter.RewriteQuotedToken | peekaboo/stubs/MessageFormatter.php:58-62 | a quoted brace is marked as escaped |
| Formatter.FormatQuotedToken | peekaboo/stubs/MessageFormatter.php:33-112 | a quoted token stays literal even when the context has its key |
| Formatter.ReplacementMap | peekaboo/stubs/MessageFormatter.php:102-106 | every search string is a key wrapped in braces |
| Formatter.ReplacementMapLookup | peekaboo/stubs/MessageFormatter.php:102-106 | `{k}` is replaced by the last context value stored under `k` |
| Formatter.MessageFormatter.constructor | peekaboo/stubs/MessageFormatter.php:33-100 | the loop builds the rewritten pattern |
| Formatter.MessageFormatter.Format | peekaboo/stubs/MessageFormatter.php:102-113 | the loop builds the replacement map, and the result is the two `strtr` passes over the stored pattern |
| Registry.SelectLocale | peekaboo/src/MessageRegistry.php:187-190 | the locale is the given one, else the default locale, else `root` |
| Registry.Prep | peekaboo/src/MessageRegistry.php:192-199 | each context value is converted to its formatting string, and keys and order are kept |
| Registry.WordEnd | peekaboo/src/MessageRegistry.php:65 | a token name extends over word characters only |
| Registry.Tokens | peekaboo/src/MessageRegistry.php:65 | every token found is a non-empty word |
| Registry.PlainTokens | peekaboo/src/MessageRegistry.php:65 | the tokens of plain text around one `{name}` are just `name` |
| Registry.FormatPlain | peekaboo/src/MessageRegistry.php:54-71 | without `onlyIf`, `formatMessage` is the formatter's output |
| Registry.OnlyIfComplete | peekaboo/src/MessageRegistry.php:64-69 | when the context has every token, `onlyIf` changes nothing |
| Registry.MissingTokenFails | peekaboo/src/MessageRegistry.php:64-69 | a token missing from the context makes `onlyIf` fail with `IncompleteFormattingContext` |
| Registry.FindFormatInLoop | peekaboo/src/MessageRegistry.php:167-185 | the loop over key segments computes `findFormatIn` |
| Registry.FindTopLevel | peekaboo/src/MessageRegistry.php:167-185 | a top-level string format is found |
| Registry.MissingTopLevel | peekaboo/src/MessageRegistry.php:167-185 | a missing top-level key gives `NoSuchMessage` |
| Registry.FindNested | peekaboo/src/MessageRegistry.php:167-185 | a dotted key walks into a nested table |
| Registry.MissingOuter | peekaboo/src/MessageRegistry.php:167-185 | walking past a missing key gives `NotAMessage` |
| Registry.SearchListFinds | peekaboo/src/MessageRegistry.php:155-160 | a group's search returns the format of the first bundle that has one |
| Registry.ZeroGroupAlone | peekaboo/src/MessageRegistry.php:152 | because `empty("0")` holds, group `"0"` is searched without the `""` fallback |
| Registry.NamedGroupFallback | peekaboo/src/MessageRegistry.php:151-165 | a named group that has no format falls back to the `""` group |
| Registry.AppendKeepsResult | peekaboo/src/MessageRegistry.php:123-125 | registering a later bundle never changes a result found earlier |
| Registry.RemoveFirst | peekaboo/src/MessageRegistry.php:133-140 | `unregister` removes one occurrence of the bundle, or nothing when it is absent |
| Registry.RegisterUnregister | peekaboo/src/MessageRegistry.php:123-140 | unregistering a bundle just registered restores the list |
| Registry.UnregisterOne | peekaboo/src/MessageRegistry.php:133-140 | a bundle registered twice is still present after one `unregister` |
| Registry.MessageRegistry.constructor | peekaboo/src/MessageRegistry.php:41-43 | the registry starts with no default locale and no bundles |
| Registry.MessageRegistry.Register | peekaboo/src/MessageRegistry.php:123-125 | the bundle is appended to its group and nothing else changes |
| Registry.MessageRegistry.Unregister | peekaboo/src/MessageRegistry.php:133-140 | one occurrence is removed from the group, when the group exists |
| Registry.MessageRegistry.FindFormatLoop | peekaboo/src/MessageRegistry.php:151-165 | the nested loop computes `findFormat` |
| Registry.MessageMissing | peekaboo/src/MessageRegistry.php:83-93 | `message` with no format found returns `NoMessages` |
| Registry.MessageFromFound | peekaboo/src/MessageRegistry.php:105-115 | `messageFrom` formats the format that was found |
| Registry.SoleToken | peekaboo/src/MessageRegistry.php:54-71 | a format that is one token formats to that key's value |
| MessageMapper.MakeMessageChain | peekaboo/src/MessageMapper.php:51-67 | `makeMessage` tries the registry, then the class table, then gives `NoSuchMessage` |
| MessageMapper.MakeMessageFails | peekaboo/src/MessageMapper.php:51-67 | it fails only with `NoSuchMessage`, and exactly when both sources produce nothing |
| MessageMapper.RegistryWins | peekaboo/src/MessageMapper.php:60 | a registry format that formats is used |
| MessageMapper.LocaleIgnored | peekaboo/src/MessageMapper.php:51-67 | the locale argument does not change the message |
| MessageMapper.TableFallback | peekaboo/src/MessageMapper.php:61-65 | without a registry entry, the class table's format is used |
| MessageMapper.UndefinedTable | peekaboo/src/MessageMapper.php:42-49 | a class without `MESSAGES` falls through to `NoSuchMessage` |
| MessageMapper.BadTable | peekaboo/src/MessageMapper.php:42-46 | a `MESSAGES` that is not an array raises `BadMessages` with its type |
| MessageMapper.EnumMakeMessageFallback | peekaboo/src/MessageEnum.php:34-38 | an enum's `makeMessage` uses the mapper's message, and otherwise the enum's own backing-value message |

## Left out

- `Handler::retry` (Handler.php:187-192) is left out: `try` never reads the retry list, so it has no effect on any result.
- The options `scream`, `throwErrorExceptions` and `returnErrors` are carried in `HandlerOptions.Options` and merged, but nothing in the core reads them.
- `IsFault::adjustExceptable` rewrites the file and line from the stack trace, which is outside the model. An exceptable's file and line are left as given.
- `microtime(true)`, `error_reporting()` and `error_get_last()` are parameters, bundled as `LogEntries.Ambient`. The time is an opaque string.
- The PSR-3 logger is not called. Each call it would receive is recorded in `DebugLogs.DebugLog.sent`, and `logger` is an identifier.
- User callables are Dafny functions from arguments to an outcome, and their identity is a number. Side effects of callables are not modelled.
- Exception classes are tags: a name and a set of ancestor names. `instanceof` and `is_a` are set membership, and inheritance outside this library is not modelled. Class names compare exactly: PHP's `is_a` on a class-name string (Handler.php:286, 333, 351) ignores case and a leading `\`, which the model does not.
- `MessageRegistry::toFormattingValue` is a parameter `encode` for the `json_encode`, float and resource branches, and for `__toString` on objects.
- The `intl` `MessageFormatter` and `ResourceBundle` are not part of this model. Only the fallback formatter in `peekaboo/stubs` is modelled, so the locale never changes the output.
- `MessageFormatter` stub: reading one character past the end of the pattern after a trailing `'` gives `""` in PHP, with a warning. The model treats it as "not a quote", with no warning.
- `ksort`: keys are compared as byte strings. PHP compares keys that look like integers numerically; the model treats such keys as plain strings.
- Debug-type names and the text of PHP's `TypeError` messages are approximated.
- `DebugLog::getIterator` is `Entries()`, which returns the list of entries.
- `Handlers.Handler.TryPipe`: an empty argument list raises `Handlers.TooFewArguments`, modelling PHP's `ArgumentCountError`, rather than a specific subclass.
- HandlerCore.AddRule: its ensures bounds only the number of rules; what it does to them is stated by `HandlerCore.AddRuleNew`, `HandlerCore.AddRuleExisting` and `HandlerCore.AddRuleUnique`.
- Handlers.Bind: its ensures states only the callable identity; its behaviour is stated by `Handlers.BindPassesFaults` and `Handlers.BindTries`.
- Handlers.PipeOf: its ensures states only the callable identity; its behaviour on arguments is `HandlerCore.Pipe`, which `HandlerCore.RunPipe`, `HandlerCore.PipeStopsAtFault` and `HandlerCore.PipeFaultPropagates` describe.
- IsFault.ExceptableType: its ensures covers the default branch only; the overrides are stated by each fault enum's own `ExceptableType`.
- The handler's logging uses `LogEntries.From`, the corrected `LogEntry::from` of the LogEntry.php:47 finding. As written, every `DebugMessages::Ignoring` and `DebugMessages::Collected` call goes to the default arm of `LogEntry::from` (LogEntry.php:49-54). It is recorded as an `UnacceptableLogMessage` fault entry at notice level, with `type`, `from` and `context` keys, not as a debug entry holding the formatted message; `LogEntries.DebugMessageUnacceptable` states that entry. Faults and throwables, the only other subjects the handler logs, are dispatched alike by both versions. The next lines name the members whose log contents are stated through the corrected dispatch.
- DebugLogs.DebugLog.AddFrom: adds the entry the corrected `LogEntries.From` builds; for a `DebugMessages` case the code adds the `UnacceptableLogMessage` entry instead.
- Handlers.LoggedInOrder: the entries are those of the corrected `LogEntries.From`, so a handler debug message yields a debug entry rather than the code's `UnacceptableLogMessage` entry.
- Handlers.Handler.LogIf: logs through the corrected dispatch; a `DebugMessages` subject is recorded as a debug entry, not as the code's `UnacceptableLogMessage` entry.
- Handlers.Handler.CollectIf: its `Collected` entry is the corrected debug entry, not the code's `UnacceptableLogMessage` entry.
- Handlers.Handler.Handle: its `Ignoring` and `Collected` entries are the corrected debug entries, not the code's `UnacceptableLogMessage` entries.
- Handlers.Handler.ApplyStrategies: its `Ignoring` and `Collected` entries are the corrected debug entries, not the code's `UnacceptableLogMessage` entries.
- Handlers.Handler.Try: the log entries it appends for `Ignoring` and `Collected` are the corrected debug entries, not the code's `UnacceptableLogMessage` entries.
- Handlers.Handler.TryIgnoring: the log entries it appends for `Ignoring` and `Collected` are the corrected debug entries, not the code's `UnacceptableLogMessage` entries.
- Handlers.Handler.TryPipe: the log entries it appends for `Ignoring` and `Collected` are the corrected debug entries, not the code's `UnacceptableLogMessage` entries.
- EnumeratesFaults.TryFromIff: only the canonical name `Class::CASE` is resolved. `tryFrom` (EnumeratesFaults.php:33-37) uses `defined($name)` and `constant($name)`, so it also accepts the class part in any letter case, a leading `\`, and any global or class constant whose value is a case of the enum. Constants are not modelled.
- `Handler::logIf` with a string or an array subject goes to `LogEntry::from` like any other subject. Only faults, throwables and handler debug messages reach it from the core.
- Concurrency and global state other than the registry's static fields are not modelled.
- `assert()` is modelled as disabled, as in production (IsFault.php:91-92 calls such checks development aids). With assertions on, `MessageEnum::message` (MessageEnum.php:28) fails for the backed fault enums, which implement `Fault` but not `EnumeratesMessages`, and `MessageMapper::makeMessage` (MessageMapper.php:57) fails for `SplFault` and `ErrorFault`, because `Fault` does not extend `HasMessages`. Every fault message and every invoke would then raise an `AssertionError`; the model returns the message instead.
- Handlers.Handler.constructor and Handlers.Handler.Options: `Options` is a value here, copied into the handler. In PHP it is an object handle. The handler keeps the caller's object (Handler.php:78), so later changes to it by the caller show through. `options()` writes the inherited settings into the caller's object (Handler.php:173-178). All default-constructed handlers share the one `DefaultOptions` instance (Handler.php:25). None of this aliasing is modelled.
- Strings are sequences of characters, while PHP's `strtr`, PCRE `\s` and `\w` (Formatter.IsSpace, Formatter.IsWord), the formatter stub and `ksort` (Strings.Below) work on bytes. For ASCII text the results agree. For other characters, the byte-wise treatment of multi-byte sequences is not modelled.

Where the code and its own documentation disagree, the model follows the code:

- The `Handler` class documentation (Handler.php:47-55) says that fault values are passed to the `onFailure()` callbacks, and `try`'s documentation (Handler.php:209) says it returns a fault on failure. The code of `collectIf` (Handler.php:277-299) returns null for a fault that no rule collects, and `try` assigns that result (Handler.php:224). Such a fault therefore becomes null and takes the success path; see `HandlerCore.UncollectedBecomesNull`.

## Findings

| source | as written | input that shows it | evidently intended | confidence | as-written member | corrected member |
|---|---|---|---|---|---|---|
| exceptable/src/Handler/Handler.php:79 | the handler passes its debug and logger options to `new DebugLog(...)`, but `DebugLog` has no constructor, so they are ignored | `new Handler(options with debug = true and a logger)`: entries are still recorded, but the configured logger never receives any | the new debug log follows the options | not executed | Handlers.InitialLogDropsLogger | Handlers.Handler.constructor |
| exceptable/src/Handler/Handler.php:181-182 | `options()` writes `$this->options` into `$this->debugLog`, so the receiver's log gets its own old options and the clone's log is never updated | `$h->options(options with a logger)` on a default handler: the new handler records entries, but the configured logger never receives any | the clone's debug log follows the merged options | not executed | Handlers.OptionsLogsDesync | Handlers.Handler.Options |
| exceptable/src/Debug/LogEntry.php:47 | `DebugMessages` implements `HasMessages`, not `EnumeratesMessages`, so `from` sends it to the default arm | `logIf(DebugMessages::Ignoring, ...)` with debug on | a debug entry with the formatted message | not executed | LogEntries.DebugMessageUnacceptable | LogEntries.DebugMessageEntry |
| exceptable/src/Debug/LogEntry.php:48 | `$from == null` is a loose comparison, so `false` and `0` are passed to `fromError(?array)` and raise a `TypeError` under strict types | `LogEntry::from(false)` | `$from === null`: `false` and `0` are logged as unacceptable | not executed | LogEntries.LooseNullRaises | LogEntries.FromOtherAccepted |
| exceptable/src/Debug/LogEntry.php:72 | with no error information, `$error` is still null and `$error + $context` raises a `TypeError` | `LogEntry::fromError(null)` with `error_get_last()` null | an `UnknownError` entry | not executed | LogEntries.MissingErrorRaises | LogEntries.UnknownErrorEntry |
