/**
 * `DebugLog`: an append-only list of log entries, with `debug` and `logger` settings the owner may
 * change.  When a logger is set, every added entry is also passed to it once, at a level chosen by
 * the entry's kind; the logger itself is outside the model, and what it received is kept in `sent`.
 */
module DebugLogs {
  import opened Wrappers
  import opened Values
  import Registry
  import LogEntries

  /** The PSR-3 level an entry is passed on at. */
  datatype Level = DEBUG | NOTICE | WARNING | ERROR

  /** The `match (true)` of `add`: debug, fault, error and throwable entries, in that order. */
  function LevelOf(kind: LogEntries.Kind): (l: Level)
    ensures l == DEBUG <==> kind.DebugEntry?
    ensures l == NOTICE <==> kind.FaultEntry?
    ensures l == WARNING <==> kind.ErrorEntry?
    ensures l == ERROR <==> kind.ThrowableEntry?
  {
    match kind
    case DebugEntry => DEBUG
    case FaultEntry(_) => NOTICE
    case ErrorEntry(_, _) => WARNING
    case ThrowableEntry(_, _) => ERROR
  }

  /** One call `$logger->log($level, $entry->message, $entry->context)`. */
  datatype Sent = Sent(level: Level, message: Option<string>, context: Ctx)

  function SentFor(e: LogEntries.LogEntry): Sent {
    Sent(LevelOf(e.kind), e.message, e.context)
  }

  /** What a logger receives for a run of entries: one call per entry, in order. */
  function SentAll(entries: seq<LogEntries.LogEntry>): (r: seq<Sent>)
    ensures |r| == |entries|
    ensures forall i :: 0 <= i < |entries| ==> r[i] == SentFor(entries[i])
  {
    if entries == [] then [] else [SentFor(entries[0])] + SentAll(entries[1..])
  }

  lemma {:induction false} SentAllAppend(a: seq<LogEntries.LogEntry>, b: seq<LogEntries.LogEntry>)
    ensures SentAll(a + b) == SentAll(a) + SentAll(b)
  {
    if a == [] {
      assert a + b == b;
    } else {
      assert (a + b)[0] == a[0];
      assert (a + b)[1..] == a[1..] + b;
      SentAllAppend(a[1..], b);
      assert SentAll(a + b) == [SentFor(a[0])] + SentAll(a[1..] + b);
      assert SentAll(a) == [SentFor(a[0])] + SentAll(a[1..]);
      ConsAssoc(SentFor(a[0]), SentAll(a[1..]), SentAll(b));
    }
  }

  lemma ConsAssoc<T>(x: T, s: seq<T>, t: seq<T>)
    ensures [x] + (s + t) == ([x] + s) + t
  {
  }

  class DebugLog {
    var debug: bool
    var log: seq<LogEntries.LogEntry>
    var logger: Option<nat>
    /** What the logger has been given, oldest first. */
    var sent: seq<Sent>

    /** `new DebugLog()`: the property defaults. */
    constructor ()
      ensures !debug && log == [] && logger.None? && sent == []
    {
      debug := false;
      log := [];
      logger := None;
      sent := [];
    }

    /** `clone $debugLog`: a separate log holding the same entries and settings. */
    method Clone() returns (c: DebugLog)
      ensures fresh(c)
      ensures c.debug == debug && c.log == log && c.logger == logger && c.sent == sent
    {
      c := new DebugLog();
      c.debug := debug;
      c.log := log;
      c.logger := logger;
      c.sent := sent;
    }

    /** `add($entry)`: appended at the end; passed on once when a logger is set. */
    method Add(entry: LogEntries.LogEntry)
      modifies this
      ensures log == old(log) + [entry]
      ensures sent == old(sent) + (if logger.Some? then [SentFor(entry)] else [])
      ensures debug == old(debug) && logger == old(logger)
    {
      log := log + [entry];
      if logger.Some? {
        sent := sent + [SentFor(entry)];
      }
    }

    /**
     * `addFrom($message, $context)`: `add(LogEntry::from($message, $context))`.  When building the
     * entry raises, nothing is added and the exception is returned.
     */
    method AddFrom(env: Registry.Env, amb: LogEntries.Ambient, message: Value, context: Ctx) returns (raised: Option<Throwable>)
      modifies this
      ensures var e := LogEntries.From(env, amb, message, context);
        (e.Raised? ==> raised == Some(e.thrown) && log == old(log) && sent == old(sent)) &&
        (e.Done? ==> raised.None? && log == old(log) + [e.value] &&
                     sent == old(sent) + (if logger.Some? then [SentFor(e.value)] else []))
      ensures debug == old(debug) && logger == old(logger)
    {
      var e := LogEntries.From(env, amb, message, context);
      if e.Raised? {
        return Some(e.thrown);
      }
      Add(e.value);
      return None;
    }

    /** `getIterator()`: the entries in the order they were added. */
    function Entries(): seq<LogEntries.LogEntry>
      reads this
    {
      log
    }
  }
}
