/**
 * The fallback `MessageFormatter` used when the intl extension is absent.  Its constructor rewrites
 * an ICU-style pattern with a character-by-character state machine (quote escaping, token nesting,
 * whitespace and option skipping); `format` then substitutes `{key}` tokens with one `strtr` pass
 * and undoes the internal escape sequences.
 */
module Formatter {
  import opened Wrappers
  import opened Strings

  /** The escape applied before rewriting: every backslash is doubled. */
  const DoubleMap: map<string, string> := map["\\" := "\\\\"]

  /** Undoes the internal escapes after substitution: `\\` to `\` and `{\` to `{`. */
  const UnescapeMap: map<string, string> := map["\\\\" := "\\", "{\\" := "{"]

  /** Character-wise description of doubling backslashes. */
  function Doubled(s: string): string {
    if s == [] then [] else (if s[0] == '\\' then "\\\\" else [s[0]]) + Doubled(s[1..])
  }

  /** Copying the first character: no key of `m` is a prefix of `s`. */
  lemma StrtrCopy(s: string, m: map<string, string>)
    requires s != [] && forall l :: 0 < l <= |s| ==> s[..l] !in m
    ensures Strtr(s, m) == [s[0]] + Strtr(s[1..], m)
  {
    LongestNone(s, m, |s|);
  }

  /** `strtr` with the doubling map doubles every backslash and nothing else. */
  lemma {:induction false} StrtrDoubled(s: string)
    ensures Strtr(s, DoubleMap) == Doubled(s)
  {
    if s != [] {
      StrtrDoubled(s[1..]);
      if s[0] == '\\' {
        assert s == "\\" + s[1..];
        StrtrFront("\\", s[1..], DoubleMap);
      } else {
        assert s == [s[0]] + s[1..];
        StrtrSkip(s[0], s[1..], DoubleMap);
      }
    }
  }

  /** A brace not followed by a backslash is copied, and the rest unescapes on its own. */
  lemma UnescapeLoneBrace(s: string)
    requires |s| > 0 && s[0] == '{' && !(|s| > 1 && s[1] == '\\')
    requires Strtr(Doubled(s[1..]), UnescapeMap) == s[1..]
    ensures Strtr(Doubled(s), UnescapeMap) == s
  {
    var d := Doubled(s[1..]);
    var t := Doubled(s);
    assert t == "{" + d;
    assert |s| > 1 ==> d == [s[1]] + Doubled(s[2..]);
    UnescapeKeysShort();
    forall l | 0 < l <= |t| ensures t[..l] !in UnescapeMap {
      if l == 2 {
        assert t[..l][0] == '{' && t[..l][1] != '\\';
      } else {
        assert |t[..l]| == l;
      }
    }
    StrtrCopy(t, UnescapeMap);
    assert t[1..] == d;
    HeadSplit(s);
  }

  /** Unescaping undoes the doubling: backslashes in a pattern's text survive the round trip. */
  lemma {:induction false} UnescapeDoubled(s: string)
    ensures Strtr(Doubled(s), UnescapeMap) == s
    decreases |s|, 0
  {
    if s != [] {
      if s[0] == '\\' {
        UnescapeDoubled(s[1..]);
        UnescapeLeadBackslash(s);
      } else if s[0] == '{' && |s| > 1 && s[1] == '\\' {
        UnescapeBackslashDoubled(s[2..]);
        UnescapeBraceBackslash(s);
      } else if s[0] == '{' {
        UnescapeDoubled(s[1..]);
        UnescapeLoneBrace(s);
      } else {
        UnescapeDoubled(s[1..]);
        UnescapeOther(s);
      }
    }
  }

  /** A doubled backslash unescapes to one. */
  lemma UnescapeLeadBackslash(s: string)
    requires |s| > 0 && s[0] == '\\'
    requires Strtr(Doubled(s[1..]), UnescapeMap) == s[1..]
    ensures Strtr(Doubled(s), UnescapeMap) == s
  {
    var d := Doubled(s[1..]);
    assert Doubled(s) == "\\\\" + d;
    StrtrFront("\\\\", d, UnescapeMap);
    HeadSplit(s);
  }

  /** `{` before a doubled backslash: the `{\\` key fires, leaving the lone backslash's run. */
  lemma UnescapeBraceBackslash(s: string)
    requires |s| > 1 && s[0] == '{' && s[1] == '\\'
    requires Strtr("\\" + Doubled(s[2..]), UnescapeMap) == "\\" + s[2..]
    ensures Strtr(Doubled(s), UnescapeMap) == s
  {
    var k := "{\\";
    var rest := "\\" + Doubled(s[2..]);
    DoubledBraceBackslash(s);
    UnescapeKeysShort();
    forall l | |k| < l <= |k + rest| ensures (k + rest)[..l] !in UnescapeMap {
      assert |(k + rest)[..l]| == l;
    }
    StrtrFront(k, rest, UnescapeMap);
    BraceBackslashSplit(s);
  }

  lemma BraceBackslashSplit(s: string)
    requires |s| > 1 && s[0] == '{' && s[1] == '\\'
    ensures "{" + ("\\" + s[2..]) == s
  {
    assert s == [s[0]] + ([s[1]] + s[2..]);
  }

  lemma DoubledBraceBackslash(s: string)
    requires |s| > 1 && s[0] == '{' && s[1] == '\\'
    ensures Doubled(s) == "{\\" + ("\\" + Doubled(s[2..]))
  {
    var t := s[1..];
    var d := Doubled(s[2..]);
    assert Doubled(s) == [s[0]] + Doubled(t);
    assert t[0] == '\\' && t[1..] == s[2..];
    assert Doubled(t) == "\\\\" + d;
    Regroup(s[0], '\\', d);
  }

  /** Regrouping a doubled backslash behind its first character, one step of `UnescapeDoubled`. */
  lemma Regroup(a: char, b: char, d: string)
    ensures [a] + ([b, b] + d) == [a, b] + ([b] + d)
  {
  }

  /** A non-empty string is its first character followed by the rest. */
  lemma HeadSplit(s: string)
    requires |s| > 0
    ensures [s[0]] + s[1..] == s
  {
  }

  /** Both unescaping keys are two characters long. */
  lemma UnescapeKeysShort()
    ensures forall k :: k in UnescapeMap ==> |k| == 2
    ensures "{\\" in UnescapeMap && UnescapeMap["{\\"] == "{"
    ensures "\\\\" in UnescapeMap && UnescapeMap["\\\\"] == "\\"
  {
  }

  /** Any other character is copied. */
  lemma UnescapeOther(s: string)
    requires |s| > 0 && s[0] != '\\' && s[0] != '{'
    requires Strtr(Doubled(s[1..]), UnescapeMap) == s[1..]
    ensures Strtr(Doubled(s), UnescapeMap) == s
  {
    var d := Doubled(s[1..]);
    assert Doubled(s) == [s[0]] + d;
    StrtrSkip(s[0], d, UnescapeMap);
    HeadSplit(s);
  }

  lemma {:induction false} UnescapeBackslashDoubled(t: string)
    ensures Strtr("\\" + Doubled(t), UnescapeMap) == "\\" + t
    decreases |t|, 1
  {
    var x := "\\" + Doubled(t);
    if t == [] {
      assert x == "\\";
      StrtrCopy(x, UnescapeMap);
    } else if t[0] == '\\' {
      UnescapeBackslashDoubled(t[1..]);
      assert x == "\\\\" + ("\\" + Doubled(t[1..]));
      StrtrFront("\\\\", "\\" + Doubled(t[1..]), UnescapeMap);
      assert t == "\\" + t[1..];
    } else {
      UnescapeDoubled(t);
      assert Doubled(t) == [t[0]] + Doubled(t[1..]);
      forall l | 0 < l <= |x| ensures x[..l] !in UnescapeMap {
        if l == 2 { assert x[..l][1] == t[0]; }
      }
      StrtrCopy(x, UnescapeMap);
      assert x[1..] == Doubled(t);
    }
  }

  // ---------------------------------------------------------------------------------------------
  // The pattern rewriter

  /** The constructor's loop state. */
  datatype ScanState = ScanState(escaped: bool, nesting: nat, hungry: bool, skip: bool)

  const Start: ScanState := ScanState(false, 0, false, false)

  /**
   * One iteration of the constructor's loop at position `i`: the text it appends, the next position
   * and the next state.
   */
  function Step(f: string, i: nat, st: ScanState): (r: (string, nat, ScanState))
    requires i < |f|
    ensures i < r.1 <= |f|
  {
    if f[i] == '\'' then
      if i + 1 < |f| && f[i + 1] == '\'' then ("'", i + 2, st)     // a doubled quote is a literal quote
      else ("", i + 1, st.(escaped := !st.escaped))                  // a lone quote toggles escaping
    else if f[i] == '{' then
      if st.escaped then ("{\\", i + 1, st)                          // escaped brace, marked as such
      else if st.nesting == 0 then ("{", i + 1, st.(hungry := true, nesting := 1))
      else ("", i + 1, st.(nesting := st.nesting + 1))
    else if f[i] == '}' then
      var n := if st.nesting > 0 then st.nesting - 1 else 0;
      if n == 0 then ("}", i + 1, st.(nesting := 0, skip := false))
      else ("", i + 1, st.(nesting := n))
    else if st.hungry && IsSpace(f[i]) then ("", i + 1, st)           // whitespace after an opening brace
    else if st.skip || (st.nesting > 0 && !IsWord(f[i])) then ("", i + 1, st.(skip := true))
    else ([f[i]], i + 1, st.(hungry := false))
  }

  /** What the constructor appends while scanning `f` from position `i` in state `st`. */
  function Scan(f: string, i: nat, st: ScanState): string
    decreases |f| - i
  {
    if i >= |f| then ""
    else
      var r := Step(f, i, st);
      r.0 + Scan(f, r.1, r.2)
  }

  /** The pattern the constructor stores for `pattern`. */
  function Rewrite(pattern: string): string {
    Scan(Strtr(pattern, DoubleMap), 0, Start)
  }

  /** The replacement pairs `format` builds: each context key `k` becomes the search string `{k}`. */
  function ReplacementMap(context: seq<(string, string)>): (m: map<string, string>)
    ensures forall k :: k in m ==> |k| >= 2 && k[0] == '{' && k[|k| - 1] == '}'
  {
    if context == [] then map[]
    else
      var last := context[|context| - 1];
      ReplacementMap(context[..|context| - 1])["{" + last.0 + "}" := last.1]
  }

  /** What `new MessageFormatter($locale, $pattern)->format($context)` returns. */
  function Formatted(pattern: string, context: seq<(string, string)>): string {
    Strtr(Strtr(Rewrite(pattern), ReplacementMap(context)), UnescapeMap)
  }

  // ---------------------------------------------------------------------------------------------
  // What formatting does

  /** Text with no quote and no brace: the rewriter's plain characters. */
  predicate Plain(s: string) {
    forall i :: 0 <= i < |s| ==> s[i] != '\'' && s[i] != '{' && s[i] != '}'
  }

  predicate AllWord(s: string) {
    forall i :: 0 <= i < |s| ==> IsWord(s[i])
  }

  predicate AllSpace(s: string) {
    forall i :: 0 <= i < |s| ==> IsSpace(s[i])
  }

  lemma {:induction false} DoubledAppend(a: string, b: string)
    ensures Doubled(a + b) == Doubled(a) + Doubled(b)
  {
    if a != [] {
      assert (a + b)[1..] == a[1..] + b;
      DoubledAppend(a[1..], b);
    } else {
      assert a + b == b;
    }
  }

  lemma {:induction false} DoubledPlain(s: string)
    requires Plain(s)
    ensures Plain(Doubled(s))
  {
    if s != [] {
      DoubledPlain(s[1..]);
    }
  }

  lemma {:induction false} DoubledNoBackslash(s: string)
    requires '\\' !in s
    ensures Doubled(s) == s
  {
    if s != [] {
      DoubledNoBackslash(s[1..]);
      assert s == [s[0]] + s[1..];
    }
  }

  /** Scanning from position `i` depends only on the text from `i` on. */
  lemma {:induction false} ScanShift(f: string, i: nat, st: ScanState)
    requires i <= |f|
    ensures Scan(f, i, st) == Scan(f[i..], 0, st)
    decreases |f| - i
  {
    if i < |f| {
      var g := f[i..];
      assert g[0] == f[i];
      assert i + 1 < |f| ==> g[1] == f[i + 1];
      var r := Step(f, i, st);
      assert Step(g, 0, st) == (r.0, r.1 - i, r.2);
      ScanShift(f, r.1, r.2);
      ScanShift(g, r.1 - i, r.2);
      assert g[r.1 - i..] == f[r.1..];
    }
  }

  /** Plain text scanned from the start state is copied. */
  lemma {:induction false} ScanPlainPrefix(a: string, rest: string)
    requires Plain(a)
    ensures Scan(a + rest, 0, Start) == a + Scan(rest, 0, Start)
  {
    if a != [] {
      var f := a + rest;
      assert f[0] == a[0];
      assert Step(f, 0, Start) == ([a[0]], 1, Start);
      ScanShift(f, 1, Start);
      assert f[1..] == a[1..] + rest;
      ScanPlainPrefix(a[1..], rest);
      assert a == [a[0]] + a[1..];
    } else {
      assert a + rest == rest;
    }
  }

  /** While `hungry`, whitespace is dropped. */
  lemma {:induction false} ScanSpacePrefix(sp: string, rest: string, st: ScanState)
    requires AllSpace(sp) && st.hungry
    ensures Scan(sp + rest, 0, st) == Scan(rest, 0, st)
  {
    if sp != [] {
      var f := sp + rest;
      assert f[0] == sp[0] && IsSpace(sp[0]);
      assert Step(f, 0, st) == ("", 1, st);
      ScanShift(f, 1, st);
      assert f[1..] == sp[1..] + rest;
      ScanSpacePrefix(sp[1..], rest, st);
    } else {
      assert sp + rest == rest;
    }
  }

  /** A word is copied and clears `hungry`. */
  lemma {:induction false} ScanWordPrefix(w: string, rest: string, st: ScanState)
    requires |w| > 0 && AllWord(w) && !st.skip
    ensures Scan(w + rest, 0, st) == w + Scan(rest, 0, st.(hungry := false))
  {
    var f := w + rest;
    var st1 := st.(hungry := false);
    assert f[0] == w[0] && IsWord(w[0]);
    assert Step(f, 0, st) == ([w[0]], 1, st1);
    assert Scan(f, 0, st) == [w[0]] + Scan(f, 1, st1);
    ScanShift(f, 1, st1);
    assert f[1..] == w[1..] + rest;
    var tail := Scan(rest, 0, st1);
    if |w| > 1 {
      ScanWordPrefix(w[1..], rest, st1);
      assert st1.(hungry := false) == st1;
    } else {
      assert w[1..] + rest == rest;
    }
    assert Scan(f, 1, st1) == w[1..] + tail;
    HeadJoin(w, tail);
  }

  /** Putting the head back in front of the tail. */
  lemma HeadJoin(w: string, t: string)
    requires |w| > 0
    ensures [w[0]] + (w[1..] + t) == w + t
  {
    assert w == [w[0]] + w[1..];
  }

  /** Unescaping text without backslashes changes nothing. */
  lemma {:induction false} UnescapeNoBackslash(s: string)
    requires '\\' !in s
    ensures Strtr(s, UnescapeMap) == s
  {
    if s != [] {
      UnescapeNoBackslash(s[1..]);
      forall l | 0 < l <= |s| ensures s[..l] !in UnescapeMap {
        if l == 2 { assert s[..l][1] == s[1]; }
      }
      StrtrCopy(s, UnescapeMap);
      assert s == [s[0]] + s[1..];
    }
  }

  /** `strtr` copies a prefix in which no key (all keys start with `{`) can start. */
  lemma {:induction false} StrtrPlainPrefix(a: string, rest: string, m: map<string, string>)
    requires forall k :: k in m ==> |k| > 0 && k[0] == '{'
    requires '{' !in a
    ensures Strtr(a + rest, m) == a + Strtr(rest, m)
  {
    if a != [] {
      assert a + rest == [a[0]] + (a[1..] + rest);
      StrtrSkip(a[0], a[1..] + rest, m);
      StrtrPlainPrefix(a[1..], rest, m);
      assert a == [a[0]] + a[1..];
    } else {
      assert a + rest == rest;
    }
  }

  /** The `{k}` search string determines `k`. */
  lemma BraceInjective(a: string, b: string)
    requires "{" + a + "}" == "{" + b + "}"
    ensures a == b
  {
    assert a == ("{" + a + "}")[1..|a| + 1];
    assert b == ("{" + b + "}")[1..|b| + 1];
  }

  /**
   * The replacement for `{k}` is the value of the last context entry with key `k`, and there is a
   * replacement for `{k}` exactly when some entry has key `k`.
   */
  lemma {:induction false} ReplacementMapLookup(context: seq<(string, string)>, k: string)
    ensures ("{" + k + "}" in ReplacementMap(context)) <==> exists i :: 0 <= i < |context| && context[i].0 == k
    ensures forall i :: (0 <= i < |context| && context[i].0 == k &&
                         forall j :: i < j < |context| ==> context[j].0 != k) ==>
                        ReplacementMap(context)["{" + k + "}"] == context[i].1
  {
    if context != [] {
      var init := context[..|context| - 1];
      var last := context[|context| - 1];
      ReplacementMapLookup(init, k);
      if "{" + last.0 + "}" == "{" + k + "}" {
        BraceInjective(last.0, k);
      }
      if exists i :: 0 <= i < |context| && context[i].0 == k {
        var i :| 0 <= i < |context| && context[i].0 == k;
        if i < |context| - 1 {
          assert init[i].0 == k;
        }
      }
      forall i | 0 <= i < |init| && init[i].0 == k ensures context[i].0 == k {
        assert context[i] == init[i];
      }
    }
  }

  lemma NoBackslashInSpaces(sp: string)
    requires AllSpace(sp)
    ensures '\\' !in sp
  {
    assert forall i :: 0 <= i < |sp| ==> IsSpace(sp[i]);
  }

  lemma NoBackslashInWord(w: string)
    requires AllWord(w)
    ensures '\\' !in w && '{' !in w && '}' !in w
  {
    assert forall i :: 0 <= i < |w| ==> IsWord(w[i]);
  }

  /** An opening brace outside quotes starts a token and makes the scanner hungry. */
  lemma ScanOpen(rest: string)
    ensures Scan("{" + rest, 0, Start) == "{" + Scan(rest, 0, ScanState(false, 1, true, false))
  {
    var f := "{" + rest;
    assert f[0] == '{';
    ScanShift(f, 1, ScanState(false, 1, true, false));
    assert f[1..] == rest;
  }

  /** The closing brace of a one-level token ends it; plain text after it is copied. */
  lemma ScanClose(b: string)
    requires Plain(b)
    ensures Scan("}" + b, 0, ScanState(false, 1, false, false)) == "}" + b
  {
    var f := "}" + b;
    assert f[0] == '}';
    ScanShift(f, 1, Start);
    assert f[1..] == b;
    ScanPlainPrefix(b, "");
    assert b + "" == b;
  }

  /** A token `{  name}` is scanned to `{name}`. */
  lemma ScanToken(spaces: string, name: string, b: string)
    requires AllSpace(spaces) && |name| > 0 && AllWord(name) && Plain(b)
    ensures Scan("{" + (spaces + (name + ("}" + b))), 0, Start) == "{" + (name + ("}" + b))
  {
    var st1 := ScanState(false, 1, true, false);
    ScanOpen(spaces + (name + ("}" + b)));
    ScanSpacePrefix(spaces, name + ("}" + b), st1);
    ScanWordPrefix(name, "}" + b, st1);
    ScanClose(b);
  }

  /** Text of plain characters and a token contains no backslash when its parts contain none. */
  lemma NoBackslashInToken(a: string, spaces: string, name: string, b: string)
    requires '\\' !in a && '\\' !in b && AllSpace(spaces) && AllWord(name)
    ensures '\\' !in a + ("{" + (spaces + (name + ("}" + b))))
  {
    NoBackslashInSpaces(spaces);
    NoBackslashInWord(name);
  }

  /** The rewriter turns `a{  name}b` into `a{name}b` for plain, backslash-free `a` and `b`. */
  lemma RewriteToken(a: string, spaces: string, name: string, b: string)
    requires Plain(a) && Plain(b) && '\\' !in a && '\\' !in b
    requires AllSpace(spaces) && |name| > 0 && AllWord(name)
    ensures Rewrite(a + ("{" + (spaces + (name + ("}" + b))))) == a + ("{" + (name + ("}" + b)))
  {
    var rest := "{" + (spaces + (name + ("}" + b)));
    var p := a + rest;
    NoBackslashInToken(a, spaces, name, b);
    StrtrDoubled(p);
    DoubledNoBackslash(p);
    ScanPlainPrefix(a, rest);
    ScanToken(spaces, name, b);
  }

  /** `strtr` on `{name}` followed by brace-free text: the token is replaced if it is a key. */
  lemma SubstituteToken(name: string, b: string, m: map<string, string>)
    requires |name| > 0 && AllWord(name) && Plain(b)
    requires forall k :: k in m ==> |k| >= 2 && k[0] == '{' && k[|k| - 1] == '}'
    ensures var tok := "{" + name + "}";
      Strtr(tok + b, m) == (if tok in m then m[tok] else tok) + b
  {
    var tok := "{" + name + "}";
    var s := tok + b;
    StrtrUntouched(b, m, '{');
    if tok in m {
      forall l | |tok| < l <= |s| ensures s[..l] !in m {
        assert s[..l][l - 1] == b[l - 1 - |tok|];
      }
      StrtrFront(tok, b, m);
    } else {
      TokenNoPrefixKey(name, b, m);
      StrtrCopy(s, m);
      assert s[1..] == name + "}" + b;
      TokenTailNoBrace(name, b);
      StrtrUntouched(name + "}" + b, m, '{');
      assert s == [s[0]] + s[1..];
    }
  }

  /** No prefix of `{name}` followed by plain text is a key, when `{name}` itself is not one. */
  lemma TokenNoPrefixKey(name: string, b: string, m: map<string, string>)
    requires |name| > 0 && AllWord(name) && Plain(b)
    requires forall k :: k in m ==> |k| >= 2 && k[0] == '{' && k[|k| - 1] == '}'
    requires "{" + name + "}" !in m
    ensures var s := "{" + name + "}" + b;
      forall l :: 0 < l <= |s| ==> s[..l] !in m
  {
    var tok := "{" + name + "}";
    var s := tok + b;
    forall l | 0 < l <= |s| ensures s[..l] !in m {
      if 1 < l < |tok| {
        assert s[..l][l - 1] == name[l - 2];
      } else if l > |tok| {
        assert s[..l][l - 1] == b[l - 1 - |tok|];
      } else if l == |tok| {
        assert s[..l] == tok;
      }
    }
  }

  /** What follows the opening brace of a token in plain text holds no other opening brace. */
  lemma TokenTailNoBrace(name: string, b: string)
    requires AllWord(name) && Plain(b)
    ensures '{' !in name + "}" + b
  {
    var t := name + "}" + b;
    forall i | 0 <= i < |t| ensures t[i] != '{' {
      if i < |name| {
        assert t[i] == name[i] && IsWord(name[i]);
      } else if i > |name| {
        assert t[i] == b[i - |name| - 1];
      }
    }
  }

  /**
   * A `{name}` token (optionally with whitespace after the brace) in plain text is replaced by the
   * context value for `name`, and left as `{name}` when the context has no such key.
   */
  lemma TokenInText(a: string, spaces: string, name: string, b: string, context: seq<(string, string)>)
    requires Plain(a) && Plain(b) && '\\' !in a && '\\' !in b
    requires AllSpace(spaces) && |name| > 0 && AllWord(name)
    requires var m := ReplacementMap(context); "{" + name + "}" in m ==> '\\' !in m["{" + name + "}"]
    ensures var m := ReplacementMap(context); var tok := "{" + name + "}";
      Formatted(a + ("{" + (spaces + (name + ("}" + b)))), context)
        == a + ((if tok in m then m[tok] else tok) + b)
  {
    var m := ReplacementMap(context);
    var tok := "{" + name + "}";
    var v := if tok in m then m[tok] else tok;
    RewriteToken(a, spaces, name, b);
    assert "{" + (name + ("}" + b)) == tok + b;
    StrtrPlainPrefix(a, tok + b, m);
    SubstituteToken(name, b, m);
    NoBackslashInValue(name, v, tok in m);
    UnescapeNoBackslash(a + (v + b));
  }

  lemma NoBackslashInValue(name: string, v: string, found: bool)
    requires AllWord(name) && (!found ==> v == "{" + name + "}") && (found ==> '\\' !in v)
    ensures '\\' !in v
  {
    NoBackslashInWord(name);
  }

  /** One character that is not the start of a doubled quote is consumed on its own. */
  lemma ScanOne(c: char, rest: string, st: ScanState)
    requires !(c == '\'' && rest != [] && rest[0] == '\'')
    ensures var r := Step([c] + rest, 0, st);
      r.1 == 1 && Scan([c] + rest, 0, st) == r.0 + Scan(rest, 0, r.2)
  {
    var f := [c] + rest;
    assert f[0] == c;
    assert rest != [] ==> f[1] == rest[0];
    ScanShift(f, 1, Step(f, 0, st).2);
    assert f[1..] == rest;
  }

  /** A doubled quote in plain text is a literal quote. */
  lemma RewriteQuotedQuote(a: string, b: string)
    requires Plain(a) && Plain(b) && '\\' !in a && '\\' !in b
    ensures Rewrite(a + ("''" + b)) == a + ("'" + b)
  {
    var rest := "''" + b;
    assert '\\' !in a + rest;
    StrtrDoubled(a + rest);
    DoubledNoBackslash(a + rest);
    ScanPlainPrefix(a, rest);
    assert rest[0] == '\'' && rest[1] == '\'';
    ScanShift(rest, 2, Start);
    assert rest[2..] == b;
    ScanPlainPrefix(b, "");
    assert b + "" == b;
  }

  /** Inside quotes a brace is marked as escaped and the token's text is copied. */
  lemma RewriteQuotedToken(name: string)
    requires AllWord(name)
    ensures Rewrite("'{" + name + "}'") == "{\\" + name + "}"
  {
    var p := "'{" + name + "}'";
    NoBackslashInWord(name);
    assert '\\' !in p;
    StrtrDoubled(p);
    DoubledNoBackslash(p);
    var esc := ScanState(true, 0, false, false);
    var s1 := "{" + (name + ("}" + "'"));
    var s2 := name + ("}" + "'");
    assert p == ['\''] + s1;
    assert s1 == ['{'] + s2;
    ScanOne('\'', s1, Start);
    assert Step(['\''] + s1, 0, Start).2 == esc;
    ScanOne('{', s2, esc);
    assert Step(['{'] + s2, 0, esc) == ("{\\", 1, esc);
    QuotedTokenTail(name);
  }

  /** Inside quotes, a token's name and closing brace are copied, and the closing quote ends the quoting. */
  lemma QuotedTokenTail(name: string)
    requires AllWord(name)
    ensures Scan(name + ("}" + "'"), 0, ScanState(true, 0, false, false)) == name + "}"
  {
    var esc := ScanState(true, 0, false, false);
    var tail := Scan("}" + "'", 0, esc);
    ScanOne('}', "'", esc);
    assert Step(['}'] + "'", 0, esc) == ("}", 1, esc);
    ScanOne('\'', "", esc);
    assert tail == "}";
    if |name| > 0 {
      ScanWordPrefix(name, "}" + "'", esc);
    } else {
      assert name + ("}" + "'") == "}" + "'";
    }
  }

  /** A pattern that is one token formats to that token's replacement, or stays as it is. */
  lemma FormatSoleToken(name: string, context: seq<(string, string)>)
    requires |name| > 0 && AllWord(name)
    requires var m := ReplacementMap(context); "{" + name + "}" in m ==> '\\' !in m["{" + name + "}"]
    ensures var m := ReplacementMap(context); var tok := "{" + name + "}";
      Formatted(tok, context) == if tok in m then m[tok] else tok
  {
    var m := ReplacementMap(context);
    var tok := "{" + name + "}";
    TokenInText("", "", name, "", context);
    SoleTokenText(name);
    var out := (if tok in m then m[tok] else tok);
    assert "" + (out + "") == out;
  }

  /** The pattern a lone `{name}` token rewrites to, with the empty text around it dropped. */
  lemma SoleTokenText(name: string)
    ensures "" + ("{" + ("" + (name + ("}" + "")))) == "{" + name + "}"
  {
    assert "}" + "" == "}";
    assert "" + (name + "}") == name + "}";
  }

  /** No search string matches an escaped brace unless it is the whole escaped token. */
  lemma SubstituteEscaped(name: string, m: map<string, string>)
    requires AllWord(name)
    requires forall k :: k in m ==> |k| >= 2 && k[0] == '{' && k[|k| - 1] == '}'
    requires "{\\" + name + "}" !in m
    ensures Strtr("{\\" + name + "}", m) == "{\\" + name + "}"
  {
    var q := "{\\" + name + "}";
    NoBackslashInWord(name);
    forall l | 0 < l <= |q| ensures q[..l] !in m {
      if l < |q| {
        assert q[..l][l - 1] != '}' by {
          if l >= 3 { assert q[..l][l - 1] == name[l - 3]; }
        }
      } else {
        assert q[..l] == q;
      }
    }
    StrtrCopy(q, m);
    assert q[1..] == "\\" + (name + "}");
    StrtrUntouched(q[1..], m, '{');
  }

  /** The escaped brace is unescaped to a plain brace. */
  lemma UnescapeEscaped(name: string)
    requires AllWord(name)
    ensures Strtr("{\\" + name + "}", UnescapeMap) == "{" + name + "}"
  {
    var q := "{\\" + name + "}";
    NoBackslashInWord(name);
    assert q == "{\\" + (name + "}");
    forall l | 2 < l <= |q| ensures q[..l] !in UnescapeMap {
      assert |q[..l]| > 2;
    }
    StrtrFront("{\\", name + "}", UnescapeMap);
    UnescapeNoBackslash(name + "}");
  }

  /** A token inside quotes is kept literally: `'{name}'` formats as `{name}`. */
  lemma FormatQuotedToken(name: string, context: seq<(string, string)>)
    requires AllWord(name)
    requires "{\\" + name + "}" !in ReplacementMap(context)
    ensures Formatted("'{" + name + "}'", context) == "{" + name + "}"
  {
    RewriteQuotedToken(name);
    SubstituteEscaped(name, ReplacementMap(context));
    UnescapeEscaped(name);
  }

  /** The body of the constructor's loop: handles the character at `i`. */
  method Advance(f: string, i: nat, escaped0: bool, nesting0: nat, hungry0: bool, skip0: bool)
    returns (emit: string, next: nat, escaped: bool, nesting: nat, hungry: bool, skip: bool)
    requires i < |f|
    ensures (emit, next, ScanState(escaped, nesting, hungry, skip))
         == Step(f, i, ScanState(escaped0, nesting0, hungry0, skip0))
  {
    escaped, nesting, hungry, skip := escaped0, nesting0, hungry0, skip0;
    var c := f[i];
    emit := "";
    next := i + 1;
    if c == '\'' {
      if i + 1 < |f| && f[i + 1] == '\'' {
        emit := "'";
        next := i + 2;
      } else if escaped {
        escaped := false;
      } else {
        escaped := true;
      }
    } else if c == '{' {
      if escaped {
        emit := "{\\";
      } else {
        if nesting == 0 {
          hungry := true;
          emit := "{";
        }
        nesting := nesting + 1;
      }
    } else if c == '}' {
      if nesting > 0 {
        nesting := nesting - 1;
      }
      if nesting == 0 {
        emit := "}";
        skip := false;
      }
    } else if !(hungry && IsSpace(c)) {
      if nesting > 0 && !IsWord(c) {
        skip := true;
      }
      if !skip {
        hungry := false;
        emit := [c];
      }
    }
  }

  class MessageFormatter {
    /** The rewritten pattern. */
    var format: string

    /** Rewrites `pattern`; the locale is ignored. */
    constructor(locale: string, pattern: string)
      ensures format == Rewrite(pattern)
    {
      var f := Strtr(pattern, DoubleMap);
      var out := "";
      var escaped, nesting, hungry, skip := false, 0, false, false;
      var i := 0;
      while i < |f|
        invariant 0 <= i <= |f|
        invariant out + Scan(f, i, ScanState(escaped, nesting, hungry, skip)) == Scan(f, 0, Start)
        decreases |f| - i
      {
        ghost var st := ScanState(escaped, nesting, hungry, skip);
        var emit, next;
        emit, next, escaped, nesting, hungry, skip := Advance(f, i, escaped, nesting, hungry, skip);
        assert Step(f, i, st) == (emit, next, ScanState(escaped, nesting, hungry, skip));
        out := out + emit;
        i := next;
      }
      format := out;
    }

    /** Substitutes the (already stringified) context into the stored pattern. */
    method Format(context: seq<(string, string)>) returns (r: string)
      ensures r == Strtr(Strtr(format, ReplacementMap(context)), UnescapeMap)
    {
      var findAndReplace: map<string, string> := map[];
      for i := 0 to |context|
        invariant findAndReplace == ReplacementMap(context[..i])
      {
        assert context[..i + 1][..i] == context[..i];
        findAndReplace := findAndReplace["{" + context[i].0 + "}" := context[i].1];
      }
      assert context[..|context|] == context;
      r := Strtr(Strtr(format, findAndReplace), UnescapeMap);
    }

    /** Always 1: the fallback formatter has no error reporting. */
    function GetErrorCode(): int {
      1
    }

    function GetErrorMessage(): string {
      "UNKNOWN_ERROR"
    }
  }
}
