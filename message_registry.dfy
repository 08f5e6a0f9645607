/**
 * `MessageRegistry`: the process-wide list of registered message bundles, grouped by name, and
 * the formatting entry points `formatMessage`, `message` and `messageFrom`.
 */
module Registry {
  import opened Wrappers
  import opened Strings
  import opened Values
  import opened MessageBundles
  import Formatter
  import MessageFaults

  const RootLocale: string := "root"

  /** What the formatting functions return: a message, or the MessageFault case explaining why not. */
  datatype MessageResult = Msg(s: string) | Failed(fault: MessageFaults.Case)

  /** The registry's static state. */
  datatype RegistryState = RegistryState(defaultLocale: Option<string>, bundles: map<string, seq<Bundle>>)

  /**
   * What the registry needs from outside the model: its state, and the renderings of values that
   * go through `json_encode` or `__toString` (arrays and objects).
   */
  datatype Env = Env(registry: RegistryState, encode: Value -> string)

  /** The locale `messageFormatter` passes on: the argument, else the default locale, else root. */
  function SelectLocale(locale: Option<string>, defaultLocale: Option<string>): (r: string)
    ensures locale.Some? ==> r == locale.value
    ensures locale.None? ==> r == defaultLocale.GetOr(RootLocale)
  {
    match locale
    case Some(l) => l
    case None => defaultLocale.GetOr(RootLocale)
  }

  // ---------------------------------------------------------------------------------------------
  // Formatting

  /** `toFormattingValue`: strings as they are, numbers in decimal, other values through `encode`. */
  function FormattingValue(v: Value, encode: Value -> string): string {
    match v
    case Str(s) => s
    case Int(i) => IntToString(i)
    case Float(text) => text
    case Bool(b) => if b then "true" else "false"
    case Null => "null"
    case _ => encode(v)
  }

  /** `prepFormattingContext`: every value rendered, keys and order kept. */
  function Prep(context: Ctx, encode: Value -> string): (r: seq<(string, string)>)
    ensures |r| == |context|
    ensures forall i :: 0 <= i < |r| ==> r[i] == (context[i].0, FormattingValue(context[i].1, encode))
  {
    if context == [] then []
    else [(context[0].0, FormattingValue(context[0].1, encode))] + Prep(context[1..], encode)
  }

  /** Index just past the run of word characters starting at `i`. */
  function WordEnd(s: string, i: nat): (j: nat)
    requires i <= |s|
    ensures i <= j <= |s| && AllWordChars(s[i..j]) && (j < |s| ==> !IsWord(s[j]))
    decreases |s| - i
  {
    if i < |s| && IsWord(s[i]) then
      var j := WordEnd(s, i + 1);
      assert s[i..j] == [s[i]] + s[i + 1..j];
      j
    else i
  }

  predicate AllWordChars(s: string) {
    forall i :: 0 <= i < |s| ==> IsWord(s[i])
  }

  /** The first capture group of every match of `\{(\w+)\}` in `s`, left to right (`preg_match_all`). */
  function Tokens(s: string): (ts: seq<string>)
    ensures forall t :: t in ts ==> |t| > 0 && AllWordChars(t)
    decreases |s|
  {
    if s == [] then []
    else if s[0] == '{' then
      var j := WordEnd(s, 1);
      if j > 1 && j < |s| && s[j] == '}' then [s[1..j]] + Tokens(s[j + 1..])
      else Tokens(s[1..])
    else Tokens(s[1..])
  }

  /** `array_flip($tokens)` for the first `n` tokens: each token maps to its (last) index. */
  function Flip(tokens: seq<string>, n: nat): Ctx
    requires n <= |tokens|
  {
    if n == 0 then [] else Put(Flip(tokens, n - 1), tokens[n - 1], Int(n - 1))
  }

  /**
   * `formatMessage($format, $context, $locale, $onlyIf)`.  The fallback formatter ignores the
   * locale and never fails, so `FormatFailed` is not produced.  With `onlyIf`, the message is
   * formatted again with every missing token filled in (`$context + array_flip($tokens)`); a
   * different result means the context was incomplete.
   */
  function FormatMessage(format: string, context: Ctx, onlyIf: bool, encode: Value -> string): MessageResult
    decreases if onlyIf then 1 else 0
  {
    var message := Formatter.Formatted(format, Prep(context, encode));
    if onlyIf then
      var tokens := Tokens(format);
      match FormatMessage(format, Union(context, Flip(tokens, |tokens|)), false, encode)
      case Msg(full) => if message != full then Failed(MessageFaults.IncompleteFormattingContext) else Msg(message)
      case Failed(_) => Failed(MessageFaults.IncompleteFormattingContext)
    else Msg(message)
  }

  /** Without `onlyIf`, formatting always yields the formatter's output. */
  lemma FormatPlain(format: string, context: Ctx, encode: Value -> string)
    ensures FormatMessage(format, context, false, encode) == Msg(Formatter.Formatted(format, Prep(context, encode)))
  {
  }

  /** If the context already has every token of the format, `onlyIf` changes nothing. */
  lemma OnlyIfComplete(format: string, context: Ctx, encode: Value -> string)
    requires forall t :: t in Tokens(format) ==> HasKey(context, t)
    ensures FormatMessage(format, context, true, encode) == FormatMessage(format, context, false, encode)
  {
    var tokens := Tokens(format);
    FlipKeys(tokens, |tokens|);
    UnionCovered(context, Flip(tokens, |tokens|));
  }

  /** The keys of `array_flip($tokens)` are the tokens. */
  lemma {:induction false} FlipKeys(tokens: seq<string>, n: nat)
    requires n <= |tokens|
    ensures forall k :: HasKey(Flip(tokens, n), k) ==> k in tokens[..n]
  {
    if n > 0 {
      FlipKeys(tokens, n - 1);
      var f := Flip(tokens, n - 1);
      forall k | HasKey(Flip(tokens, n), k) ensures k in tokens[..n] {
        PutLookup(f, tokens[n - 1], Int(n - 1), k);
        if k != tokens[n - 1] {
          assert HasKey(f, k);
          assert tokens[..n - 1] == tokens[..n][..n - 1];
        }
        assert tokens[..n][n - 1] == tokens[n - 1];
      }
    }
  }

  /** `$a + $b` is `$a` when `$a` has every key of `$b`. */
  lemma {:induction false} UnionCovered(a: Ctx, b: Ctx)
    requires forall k :: HasKey(b, k) ==> HasKey(a, k)
    ensures Union(a, b) == a
    decreases |b|
  {
    if b != [] {
      assert HasKey(b, b[0].0);
      forall k | HasKey(b[1..], k) ensures HasKey(a, k) {
        HasKeyCons(b, k);
      }
      UnionCovered(a, b[1..]);
    }
  }

  /**
   * With `onlyIf`, a format `a{name}b` over plain text whose context lacks `name` is reported
   * as incomplete.
   */
  lemma MissingTokenFails(a: string, name: string, b: string, context: Ctx, encode: Value -> string)
    requires Formatter.Plain(a) && Formatter.Plain(b) && '\\' !in a && '\\' !in b
    requires |name| > 0 && Formatter.AllWord(name)
    requires !HasKey(context, name)
    ensures FormatMessage(a + ("{" + (name + ("}" + b))), context, true, encode)
         == Failed(MessageFaults.IncompleteFormattingContext)
  {
    var f := a + ("{" + (name + ("}" + b)));
    PlainTokens(a, name, b);
    assert Flip(Tokens(f), 1) == [(name, Int(0))];
    UnionFresh(context, name, Int(0));
    TokenLeft(a, name, b, context, encode);
    TokenFilled(a, name, b, context, encode);
    var m1 := a + (("{" + name + "}") + b);
    var m2 := a + ("0" + b);
    assert m1[|a|] == '{' && m2[|a|] == '0';
  }

  /** `$context + [$name => $v]` appends when the key is new. */
  lemma UnionFresh(context: Ctx, name: string, v: Value)
    requires !HasKey(context, name)
    ensures Union(context, [(name, v)]) == context + [(name, v)]
  {
    var one := [(name, v)];
    assert one[0].0 == name && one[1..] == [];
    assert Union(context + one, []) == context + one;
  }

  /** A token the context lacks is left in the message. */
  lemma TokenLeft(a: string, name: string, b: string, context: Ctx, encode: Value -> string)
    requires Formatter.Plain(a) && Formatter.Plain(b) && '\\' !in a && '\\' !in b
    requires |name| > 0 && Formatter.AllWord(name)
    requires !HasKey(context, name)
    ensures Formatter.Formatted(a + ("{" + (name + ("}" + b))), Prep(context, encode)) == a + (("{" + name + "}") + b)
  {
    var p := Prep(context, encode);
    Formatter.ReplacementMapLookup(p, name);
    forall i | 0 <= i < |p| ensures p[i].0 != name {
      assert p[i].0 == context[i].0;
    }
    Formatter.TokenInText(a, "", name, b, p);
    assert "" + (name + ("}" + b)) == name + ("}" + b);
  }

  /** The token filled with `0`, as `array_flip` fills it, is replaced by `0`. */
  lemma TokenFilled(a: string, name: string, b: string, context: Ctx, encode: Value -> string)
    requires Formatter.Plain(a) && Formatter.Plain(b) && '\\' !in a && '\\' !in b
    requires |name| > 0 && Formatter.AllWord(name)
    ensures Formatter.Formatted(a + ("{" + (name + ("}" + b))), Prep(context + [(name, Int(0))], encode)) == a + ("0" + b)
  {
    var p := Prep(context + [(name, Int(0))], encode);
    assert p[|p| - 1] == (name, "0");
    Formatter.ReplacementMapLookup(p, name);
    Formatter.TokenInText(a, "", name, b, p);
    assert "" + (name + ("}" + b)) == name + ("}" + b);
  }

  /** The only token of `a{name}b` over plain text is `name`. */
  lemma PlainTokens(a: string, name: string, b: string)
    requires Formatter.Plain(a) && Formatter.Plain(b) && |name| > 0 && Formatter.AllWord(name)
    ensures Tokens(a + ("{" + (name + ("}" + b)))) == [name]
  {
    var rest := "{" + (name + ("}" + b));
    NoBraceTokens(a, rest);
    var j := WordEnd(rest, 1);
    WordRun(rest, 1, |name|);
    assert rest[1..|name| + 1] == name;
    assert rest[|name| + 2..] == b;
    NoBraceTokens(b, "");
    assert b + "" == b;
  }

  /** `WordEnd` stops right after a run of `n` word characters followed by a non-word one. */
  lemma {:induction false} WordRun(s: string, i: nat, n: nat)
    requires i + n < |s| && !IsWord(s[i + n])
    requires forall j :: i <= j < i + n ==> IsWord(s[j])
    ensures WordEnd(s, i) == i + n
    decreases n
  {
    if n > 0 {
      WordRun(s, i + 1, n - 1);
    }
  }

  /** Text without braces contributes no token. */
  lemma {:induction false} NoBraceTokens(a: string, rest: string)
    requires Formatter.Plain(a)
    ensures Tokens(a + rest) == Tokens(rest)
  {
    if a != [] {
      assert (a + rest)[0] == a[0];
      assert (a + rest)[1..] == a[1..] + rest;
      NoBraceTokens(a[1..], rest);
    } else {
      assert a + rest == rest;
    }
  }

  // ---------------------------------------------------------------------------------------------
  // Looking up formats

  /** The last value of a key walk: a format string is found, null means no such message. */
  function Final(e: Entry): MessageResult {
    match e
    case Text(s) => Msg(s)
    case Absent => Failed(MessageFaults.NoSuchMessage)
    case _ => Failed(MessageFaults.NotAMessage)
  }

  /** Following the segments from `cur`: another step from anything but a bundle is `NotAMessage`. */
  function Walk(cur: Entry, segments: seq<string>): Outcome<MessageResult>
    decreases |segments|
  {
    if segments == [] then Done(Final(cur))
    else if !cur.Tree? then Done(Failed(MessageFaults.NotAMessage))
    else
      match MessageBundles.Get(cur.messages, StrKey(segments[0]))
      case Raised(t) => Raised(t)
      case Done(next) => Walk(next, segments[1..])
  }

  /** `findFormatIn($messages, $key)`: the key is translated and split on dots. */
  function FindFormatIn(messages: Ctx, key: string): Outcome<MessageResult> {
    Walk(Tree(messages), Split(TranslateKey(key), '.'))
  }

  /** The loop of `findFormatIn`, reassigning the current value one segment at a time. */
  method FindFormatInLoop(messages: Ctx, key: string) returns (r: Outcome<MessageResult>)
    ensures r == FindFormatIn(messages, key)
  {
    var segments := Split(TranslateKey(key), '.');
    var message: Entry := Tree(messages);
    var i := 0;
    while i < |segments|
      invariant 0 <= i <= |segments|
      invariant Walk(message, segments[i..]) == FindFormatIn(messages, key)
    {
      if !message.Tree? {
        return Done(Failed(MessageFaults.NotAMessage));
      }
      var next := MessageBundles.Get(message.messages, StrKey(segments[i]));
      if next.Raised? {
        return Raised(next.thrown);
      }
      assert segments[i..][1..] == segments[i + 1..];
      message := next.value;
      i := i + 1;
    }
    return Done(Final(message));
  }

  /** A key without dots names a top-level entry; a string there is the format. */
  lemma FindTopLevel(b: Bundle, key: string, format: string)
    requires '.' !in key && Lookup(b.messages, TranslateKey(key)) == Some(Str(format))
    ensures FindFormatIn(b.messages, key) == Done(Msg(format))
  {
    var tk := TranslateKey(key);
    SplitOne(key);
    GetScalar(b.messages, key);
    GetTranslates(b.messages, key);
    assert MessageBundles.Get(b.messages, StrKey(tk)) == Done(Text(format));
    assert Walk(Tree(b.messages), [tk]) == Walk(Text(format), []);
  }

  /** A missing top-level key gives `NoSuchMessage`. */
  lemma MissingTopLevel(b: Bundle, key: string)
    requires '.' !in key && Lookup(b.messages, TranslateKey(key)) == None
    ensures FindFormatIn(b.messages, key) == Done(Failed(MessageFaults.NoSuchMessage))
  {
    var tk := TranslateKey(key);
    SplitOne(key);
    GetScalar(b.messages, key);
    GetTranslates(b.messages, key);
    assert MessageBundles.Get(b.messages, StrKey(tk)) == Done(Absent);
    assert Walk(Tree(b.messages), [tk]) == Walk(Absent, []);
  }

  /** The translated form of a key without dots is a single segment. */
  lemma SplitOne(key: string)
    requires '.' !in key
    ensures Split(TranslateKey(key), '.') == [TranslateKey(key)]
  {
    var r := TranslateKey(key);
    assert r == Translate(key, '\\', '_');
    forall i | 0 <= i < |r| ensures r[i] != '.' {
      assert r[i] == (if key[i] == '\\' then '_' else key[i]);
    }
    SplitWithout(r, '.');
  }

  /** `outer.inner` splits into its two segments. */
  lemma SplitTwo(outer: string, inner: string)
    requires '.' !in outer && '.' !in inner
    ensures Split(outer + "." + inner, '.') == [outer, inner]
  {
    var key := outer + "." + inner;
    assert key[|outer|] == '.' && key[..|outer|] == outer;
    IndexOfAt(key, '.', |outer|);
    assert key[|outer| + 1..] == inner;
    SplitWithout(inner, '.');
  }

  /** Two steps of the walk from a bundle. */
  lemma WalkTwo(messages: Ctx, outer: string, inner: string, next: Entry)
    requires MessageBundles.Get(messages, StrKey(outer)) == Done(next)
    ensures Walk(Tree(messages), [outer, inner]) == Walk(next, [inner])
  {
    assert [outer, inner][1..] == [inner];
  }

  /** `outer.inner` names `inner` inside the bundle at `outer`. */
  lemma FindNested(b: Bundle, outer: string, inner: string, es: Ctx, format: string)
    requires Clean(Arr(b.messages))
    requires '.' !in outer && '.' !in inner && '\\' !in outer && '\\' !in inner
    requires Lookup(b.messages, outer) == Some(Arr(es)) && Lookup(es, inner) == Some(Str(format))
    ensures FindFormatIn(b.messages, outer + "." + inner) == Done(Msg(format))
  {
    var key := outer + "." + inner;
    NoBackslashKey(outer, inner);
    SplitTwo(outer, inner);
    NoBackslashTranslate(outer);
    NoBackslashTranslate(inner);
    GetNested(b.messages, outer, es);
    WalkTwo(b.messages, outer, inner, Tree(es));
    GetScalar(es, inner);
    assert Walk(Tree(es), [inner]) == Walk(Text(format), []);
  }

  /** A missing first segment of a two-segment key gives `NotAMessage`, not `NoSuchMessage`. */
  lemma MissingOuter(b: Bundle, outer: string, inner: string)
    requires '.' !in outer && '.' !in inner && '\\' !in outer && '\\' !in inner
    requires Lookup(b.messages, outer) == None
    ensures FindFormatIn(b.messages, outer + "." + inner) == Done(Failed(MessageFaults.NotAMessage))
  {
    NoBackslashKey(outer, inner);
    SplitTwo(outer, inner);
    NoBackslashTranslate(outer);
    GetScalar(b.messages, outer);
    WalkTwo(b.messages, outer, inner, Absent);
  }

  lemma NoBackslashKey(outer: string, inner: string)
    requires '\\' !in outer && '\\' !in inner
    ensures TranslateKey(outer + "." + inner) == outer + "." + inner
  {
    var key := outer + "." + inner;
    forall i | 0 <= i < |key| ensures key[i] != '\\' {
      if i < |outer| { assert key[i] == outer[i]; }
      else if i > |outer| { assert key[i] == inner[i - |outer| - 1]; }
    }
    NoBackslashTranslate(key);
  }

  /** The first occurrence of `c` is at `i` when `s[i]` is `c` and no earlier character is. */
  lemma {:induction false} IndexOfAt(s: string, c: char, i: nat)
    requires i < |s| && s[i] == c && c !in s[..i]
    ensures IndexOf(s, c) == i
  {
    if i > 0 {
      assert s[0] == s[..i][0];
      assert s[1..][..i - 1] == s[..i][1..];
      IndexOfAt(s[1..], c, i - 1);
    }
  }

  /** `empty($group)`: the empty string and `"0"`. */
  predicate EmptyGroup(group: string) {
    group == "" || group == "0"
  }

  /** The groups `findFormat` searches, in order. */
  function Groups(group: string): seq<string> {
    if EmptyGroup(group) then [group] else [group, ""]
  }

  function ListOf(bundles: map<string, seq<Bundle>>, name: string): seq<Bundle> {
    if name in bundles then bundles[name] else []
  }

  /** The first format string found in the bundles of one group, in registration order. */
  function SearchList(list: seq<Bundle>, key: string): Outcome<Option<string>>
    decreases |list|
  {
    if list == [] then Done(None)
    else
      match FindFormatIn(list[0].messages, key)
      case Raised(t) => Raised(t)
      case Done(Msg(f)) => Done(Some(f))
      case Done(Failed(_)) => SearchList(list[1..], key)
  }

  function SearchGroups(bundles: map<string, seq<Bundle>>, groups: seq<string>, key: string): Outcome<Option<string>>
    decreases |groups|
  {
    if groups == [] then Done(None)
    else
      match SearchList(ListOf(bundles, groups[0]), key)
      case Raised(t) => Raised(t)
      case Done(Some(f)) => Done(Some(f))
      case Done(None) => SearchGroups(bundles, groups[1..], key)
  }

  /** `findFormat($key, $group)`. */
  function FindFormat(bundles: map<string, seq<Bundle>>, key: string, group: string): Outcome<Option<string>> {
    SearchGroups(bundles, Groups(group), key)
  }

  /**
   * A group's search finds `f` exactly when some bundle yields `f` and every earlier bundle
   * yields no string (and does not throw).
   */
  lemma {:induction false} SearchListFinds(list: seq<Bundle>, key: string, f: string)
    ensures SearchList(list, key) == Done(Some(f)) <==> exists i :: 0 <= i < |list| && FoundAt(list, key, f, i)
    decreases |list|
  {
    if list != [] {
      var first := FindFormatIn(list[0].messages, key);
      if first.Done? && first.value.Failed? {
        SearchListFinds(list[1..], key, f);
        assert !FoundAt(list, key, f, 0);
        if exists i :: 0 <= i < |list| && FoundAt(list, key, f, i) {
          var i :| 0 <= i < |list| && FoundAt(list, key, f, i);
          FoundAtShift(list, key, f, i);
          assert FoundAt(list[1..], key, f, i - 1);
        }
        if exists i :: 0 <= i < |list[1..]| && FoundAt(list[1..], key, f, i) {
          var i :| 0 <= i < |list[1..]| && FoundAt(list[1..], key, f, i);
          FoundAtShift(list, key, f, i + 1);
        }
      } else {
        assert !NoneAt(list, key, 0);
        forall i | 1 <= i < |list| ensures !FoundAt(list, key, f, i) {
          assert !NoneBefore(list, key, i);
        }
        if first.Done? {
          assert NoneBefore(list, key, 0);
          assert FoundAt(list, key, f, 0) <==> first.value.s == f;
        }
      }
    }
  }

  /** Bundle `i` yields `f` and every earlier bundle yields nothing. */
  predicate FoundAt(list: seq<Bundle>, key: string, f: string, i: nat)
    requires i < |list|
  {
    FindFormatIn(list[i].messages, key) == Done(Msg(f)) && NoneBefore(list, key, i)
  }

  /** Bundle `j` yields no format string and does not throw. */
  predicate NoneAt(list: seq<Bundle>, key: string, j: nat)
    requires j < |list|
  {
    FindFormatIn(list[j].messages, key).Done? && FindFormatIn(list[j].messages, key).value.Failed?
  }

  predicate NoneBefore(list: seq<Bundle>, key: string, i: nat)
    requires i <= |list|
  {
    forall j :: 0 <= j < i ==> NoneAt(list, key, j)
  }

  /** Past a first bundle without a format, finding at `i` is finding at `i - 1` in the rest. */
  lemma FoundAtShift(list: seq<Bundle>, key: string, f: string, i: nat)
    requires 1 <= i < |list| && NoneAt(list, key, 0)
    ensures FoundAt(list, key, f, i) <==> FoundAt(list[1..], key, f, i - 1)
  {
    assert list[1..][i - 1] == list[i];
    if NoneBefore(list, key, i) {
      NoneBeforeTail(list, key, i);
    }
    if NoneBefore(list[1..], key, i - 1) {
      NoneBeforeCons(list, key, i);
    }
  }

  lemma NoneBeforeTail(list: seq<Bundle>, key: string, i: nat)
    requires 1 <= i <= |list| && NoneBefore(list, key, i)
    ensures NoneBefore(list[1..], key, i - 1)
  {
    forall j | 0 <= j < i - 1 ensures NoneAt(list[1..], key, j) {
      assert list[1..][j] == list[j + 1];
      assert NoneAt(list, key, j + 1);
    }
  }

  lemma NoneBeforeCons(list: seq<Bundle>, key: string, i: nat)
    requires 1 <= i <= |list| && NoneAt(list, key, 0) && NoneBefore(list[1..], key, i - 1)
    ensures NoneBefore(list, key, i)
  {
    forall j | 0 <= j < i ensures NoneAt(list, key, j) {
      if j > 0 {
        assert list[1..][j - 1] == list[j];
        assert NoneAt(list[1..], key, j - 1);
      }
    }
  }

  /** An empty group is searched alone: `"0"` counts as empty, so the `""` group is not consulted. */
  lemma ZeroGroupAlone(bundles: map<string, seq<Bundle>>, key: string)
    ensures FindFormat(bundles, key, "0") == SearchList(ListOf(bundles, "0"), key)
  {
    assert Groups("0") == ["0"];
    SearchOneGroup(bundles, "0", key);
  }

  /** A named group falls back to the `""` group when it has no format. */
  lemma NamedGroupFallback(bundles: map<string, seq<Bundle>>, key: string, group: string)
    requires !EmptyGroup(group) && SearchList(ListOf(bundles, group), key) == Done(None)
    ensures FindFormat(bundles, key, group) == SearchList(ListOf(bundles, ""), key)
  {
    assert Groups(group) == [group, ""];
    assert [group, ""][1..] == [""];
    SearchOneGroup(bundles, "", key);
  }

  lemma SearchOneGroup(bundles: map<string, seq<Bundle>>, name: string, key: string)
    ensures SearchGroups(bundles, [name], key) == SearchList(ListOf(bundles, name), key)
  {
    assert [name][0] == name && [name][1..] == [];
    match SearchList(ListOf(bundles, name), key)
    case Raised(_) =>
    case Done(Some(_)) =>
    case Done(None) =>
  }

  /** A bundle registered later cannot change a result an earlier bundle decided. */
  lemma {:induction false} AppendKeepsResult(list: seq<Bundle>, b: Bundle, key: string)
    requires SearchList(list, key) != Done(None)
    ensures SearchList(list + [b], key) == SearchList(list, key)
    decreases |list|
  {
    assert list != [];
    var l := list + [b];
    AppendedFront(list, b);
    var first := FindFormatIn(list[0].messages, key);
    if first.Done? && first.value.Failed? {
      SearchListSkip(list, key);
      SearchListSkip(l, key);
      AppendKeepsResult(list[1..], b, key);
    } else {
      SearchListDecided(list, key);
      SearchListDecided(l, key);
    }
  }

  lemma AppendedFront<T>(list: seq<T>, b: T)
    requires list != []
    ensures (list + [b])[0] == list[0] && (list + [b])[1..] == list[1..] + [b]
  {
  }

  /** A first bundle that yields a format, or throws, decides the search. */
  lemma SearchListDecided(list: seq<Bundle>, key: string)
    requires list != [] && !(FindFormatIn(list[0].messages, key).Done? && FindFormatIn(list[0].messages, key).value.Failed?)
    ensures var first := FindFormatIn(list[0].messages, key);
      SearchList(list, key) == if first.Raised? then Raised(first.thrown) else Done(Some(first.value.s))
  {
  }

  /** A first bundle without a format leaves the search to the rest. */
  lemma SearchListSkip(list: seq<Bundle>, key: string)
    requires list != [] && FindFormatIn(list[0].messages, key).Done? && FindFormatIn(list[0].messages, key).value.Failed?
    ensures SearchList(list, key) == SearchList(list[1..], key)
  {
  }

  // ---------------------------------------------------------------------------------------------
  // The registry

  /**
   * `unregister`'s removal: `array_search` with strict comparison finds the first identical bundle
   * (the same object, that is the same `id`), which is unset; the order of the rest is kept.
   */
  function RemoveFirst(list: seq<Bundle>, b: Bundle): (r: seq<Bundle>)
    ensures b in list ==> |r| == |list| - 1 && multiset(r) == multiset(list) - multiset{b}
    ensures b !in list ==> r == list
  {
    assert list != [] ==> list == [list[0]] + list[1..];
    if list == [] then []
    else if list[0] == b then list[1..]
    else [list[0]] + RemoveFirst(list[1..], b)
  }

  /** Registering a bundle and unregistering it again restores the group, if it was not in it. */
  lemma {:induction false} RegisterUnregister(list: seq<Bundle>, b: Bundle)
    requires b !in list
    ensures RemoveFirst(list + [b], b) == list
  {
    if list == [] {
      assert list + [b] == [b];
    } else {
      var l := list + [b];
      assert l[0] == list[0] != b;
      assert l[1..] == list[1..] + [b];
      RegisterUnregister(list[1..], b);
      assert RemoveFirst(l, b) == [list[0]] + RemoveFirst(l[1..], b);
      assert list == [list[0]] + list[1..];
    }
  }

  /** A bundle registered twice stays registered once after one `unregister`. */
  lemma UnregisterOne(list: seq<Bundle>, b: Bundle)
    requires multiset(list)[b] >= 2
    ensures b in RemoveFirst(list, b)
  {
    assert b in list;
    assert multiset(RemoveFirst(list, b))[b] >= 1;
  }

  class MessageRegistry {
    /** `MessageRegistry::$defaultLocale`. */
    var defaultLocale: Option<string>
    /** `MessageRegistry::$bundles`: registered bundles per group name, in registration order. */
    var bundles: map<string, seq<Bundle>>

    /** The static state before anything is registered. */
    constructor()
      ensures defaultLocale == None && bundles == map[]
    {
      defaultLocale := None;
      bundles := map[];
    }

    function State(): RegistryState
      reads this
    {
      RegistryState(defaultLocale, bundles)
    }

    /** `register($messages, $name)`: appends to the group. */
    method Register(messages: Bundle, name: string)
      modifies this
      ensures bundles == old(bundles)[name := ListOf(old(bundles), name) + [messages]]
      ensures defaultLocale == old(defaultLocale)
    {
      bundles := bundles[name := ListOf(bundles, name) + [messages]];
    }

    /** `unregister($messages, $name)`: removes the first identical bundle; otherwise a no-op. */
    method Unregister(messages: Bundle, name: string)
      modifies this
      ensures name in old(bundles) ==> bundles == old(bundles)[name := RemoveFirst(old(bundles)[name], messages)]
      ensures name !in old(bundles) ==> bundles == old(bundles)
      ensures defaultLocale == old(defaultLocale)
    {
      if name in bundles {
        bundles := bundles[name := RemoveFirst(bundles[name], messages)];
      }
    }

    /** `findFormat`: the groups in order, each group's bundles in order, the first string wins. */
    method FindFormatLoop(key: string, group: string) returns (r: Outcome<Option<string>>)
      ensures r == FindFormat(bundles, key, group)
    {
      var groups := Groups(group);
      var g := 0;
      while g < |groups|
        invariant 0 <= g <= |groups|
        invariant SearchGroups(bundles, groups[g..], key) == FindFormat(bundles, key, group)
      {
        var list := ListOf(bundles, groups[g]);
        var i := 0;
        while i < |list|
          invariant 0 <= i <= |list|
          invariant SearchList(list[i..], key) == SearchList(list, key)
        {
          var format := FindFormatInLoop(list[i].messages, key);
          assert list[i..][0] == list[i] && list[i..][1..] == list[i + 1..];
          if format.Raised? {
            return Raised(format.thrown);
          }
          if format.value.Msg? {
            return Done(Some(format.value.s));
          }
          i := i + 1;
        }
        assert groups[g..][1..] == groups[g + 1..];
        g := g + 1;
      }
      return Done(None);
    }
  }

  /** `message($key, $context, $locale, $group, $onlyIf)`: `NoMessages` when no format is found. */
  function Message(st: RegistryState, key: string, context: Ctx, group: string, onlyIf: bool, encode: Value -> string)
    : Outcome<MessageResult>
  {
    match FindFormat(st.bundles, key, group)
    case Raised(t) => Raised(t)
    case Done(None) => Done(Failed(MessageFaults.NoMessages))
    case Done(Some(format)) => Done(FormatMessage(format, context, onlyIf, encode))
  }

  /** `messageFrom($messages, $key, ...)`: the same for one bundle. */
  function MessageFrom(messages: Ctx, key: string, context: Ctx, onlyIf: bool, encode: Value -> string)
    : Outcome<MessageResult>
  {
    match FindFormatIn(messages, key)
    case Raised(t) => Raised(t)
    case Done(Failed(_)) => Done(Failed(MessageFaults.NoMessages))
    case Done(Msg(format)) => Done(FormatMessage(format, context, onlyIf, encode))
  }

  /** `message` never reports `NoSuchMessage` itself: a missing format is `NoMessages`. */
  lemma MessageMissing(st: RegistryState, key: string, context: Ctx, group: string, encode: Value -> string)
    requires FindFormat(st.bundles, key, group) == Done(None)
    ensures Message(st, key, context, group, false, encode) == Done(Failed(MessageFaults.NoMessages))
  {
  }

  /** A format found in a bundle is formatted with the context. */
  lemma MessageFromFound(messages: Ctx, key: string, context: Ctx, format: string, onlyIf: bool, encode: Value -> string)
    requires FindFormatIn(messages, key) == Done(Msg(format))
    ensures MessageFrom(messages, key, context, onlyIf, encode) == Done(FormatMessage(format, context, onlyIf, encode))
  {
  }

  /**
   * A format that is a single token is replaced by the formatted value under that key, with or
   * without `onlyIf`.
   */
  lemma SoleToken(name: string, context: Ctx, v: Value, onlyIf: bool, encode: Value -> string)
    requires |name| > 0 && Formatter.AllWord(name)
    requires UniqueKeys(context) && Lookup(context, name) == Some(v) && '\\' !in FormattingValue(v, encode)
    ensures FormatMessage("{" + name + "}", context, onlyIf, encode) == Msg(FormattingValue(v, encode))
  {
    var format := "{" + name + "}";
    SoleTokenFormatted(name, context, v, encode);
    FormatPlain(format, context, encode);
    if onlyIf {
      SoleTokenTokens(name);
      OnlyIfComplete(format, context, encode);
    }
  }

  lemma SoleTokenTokens(name: string)
    requires |name| > 0 && Formatter.AllWord(name)
    ensures Tokens("{" + name + "}") == [name]
  {
    var f := "" + ("{" + (name + ("}" + "")));
    assert f == "{" + name + "}" by {
      assert "}" + "" == "}";
      assert "{" + (name + "}") == "{" + name + "}";
    }
    PlainTokens("", name, "");
  }

  lemma SoleTokenFormatted(name: string, context: Ctx, v: Value, encode: Value -> string)
    requires |name| > 0 && Formatter.AllWord(name)
    requires UniqueKeys(context) && Lookup(context, name) == Some(v) && '\\' !in FormattingValue(v, encode)
    ensures Formatter.Formatted("{" + name + "}", Prep(context, encode)) == FormattingValue(v, encode)
  {
    SoleTokenMapped(name, context, v, encode);
    Formatter.FormatSoleToken(name, Prep(context, encode));
  }

  /** The replacement for `{name}` is the formatting value stored under `name`. */
  lemma SoleTokenMapped(name: string, context: Ctx, v: Value, encode: Value -> string)
    requires UniqueKeys(context) && Lookup(context, name) == Some(v)
    ensures var m := Formatter.ReplacementMap(Prep(context, encode));
      "{" + name + "}" in m && m["{" + name + "}"] == FormattingValue(v, encode)
  {
    var p := Prep(context, encode);
    var i :| 0 <= i < |context| && context[i] == (name, v);
    forall j | i < j < |p| ensures p[j].0 != name {
      assert context[j].0 != context[i].0;
    }
    assert p[i] == (name, FormattingValue(v, encode));
    Formatter.ReplacementMapLookup(p, name);
  }
}
