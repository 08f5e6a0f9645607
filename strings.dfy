/**
 * String helpers shared by the model.  A PHP string is a byte string; here every `char` stands for
 * one byte, so the character classes below are those PCRE and `ctype` use without UTF-8 mode.
 */
module Strings {
  import opened Wrappers

  /** Decimal digit for 0..9. */
  function Digit(d: nat): (c: char)
    requires d < 10
    ensures '0' <= c <= '9'
  {
    "0123456789"[d]
  }

  /** Decimal rendering of a natural number, as PHP's `(string)` cast prints a non-negative int. */
  function NatToString(n: nat): (s: string)
    ensures |s| >= 1
    ensures forall i :: 0 <= i < |s| ==> '0' <= s[i] <= '9'
    decreases n
  {
    if n < 10 then [Digit(n)] else NatToString(n / 10) + [Digit(n % 10)]
  }

  /** Decimal rendering of an int, with a leading minus sign for negative values. */
  function IntToString(i: int): (s: string)
    ensures |s| >= 1
    ensures (s[0] == '-') <==> i < 0
  {
    if i < 0 then "-" + NatToString(-i) else NatToString(i)
  }

  /** PCRE `\s` without UTF mode: space, tab, line feed, vertical tab, form feed, carriage return. */
  predicate IsSpace(c: char) {
    c == ' ' || c == '\t' || c == '\n' || c == '\U{0B}' || c == '\U{0C}' || c == '\r'
  }

  /** PCRE `\w` in the C locale: ASCII letters, digits and underscore. */
  predicate IsWord(c: char) {
    ('a' <= c <= 'z') || ('A' <= c <= 'Z') || ('0' <= c <= '9') || c == '_'
  }

  /**
   * `strtr($s, [$from => $to])` for one single-character key: every occurrence of `from` becomes `to`.
   */
  function Translate(s: string, from: char, to: char): (r: string)
    ensures |r| == |s|
    ensures forall i :: 0 <= i < |s| ==> r[i] == (if s[i] == from then to else s[i])
  {
    if s == [] then [] else [if s[0] == from then to else s[0]] + Translate(s[1..], from, to)
  }

  /** After translating `from` to a different `to`, no `from` is left. */
  lemma TranslateRemoves(s: string, from: char, to: char)
    requires from != to
    ensures from !in Translate(s, from, to)
  {
    var r := Translate(s, from, to);
    forall i | 0 <= i < |r| ensures r[i] != from {
      assert r[i] == (if s[i] == from then to else s[i]);
    }
  }

  /** Translating twice is translating once (the second pass finds nothing to replace). */
  lemma TranslateIdempotent(s: string, from: char, to: char)
    requires from != to
    ensures Translate(Translate(s, from, to), from, to) == Translate(s, from, to)
  {
    var r := Translate(s, from, to);
    var rr := Translate(r, from, to);
    assert |rr| == |r|;
    forall i | 0 <= i < |r| ensures rr[i] == r[i] {
      assert r[i] == (if s[i] == from then to else s[i]);
    }
  }

  /** Index of the first `sep` in `s`. */
  function IndexOf(s: string, sep: char): (i: nat)
    requires sep in s
    ensures i < |s| && s[i] == sep && sep !in s[..i]
  {
    if s[0] == sep then 0 else 1 + IndexOf(s[1..], sep)
  }

  /** `explode($sep, $s)`: the pieces between separators, in order; the empty string gives `[""]`. */
  function Split(s: string, sep: char): (parts: seq<string>)
    ensures |parts| >= 1
    ensures forall p :: p in parts ==> sep !in p
    decreases |s|
  {
    if sep !in s then [s]
    else
      var i := IndexOf(s, sep);
      [s[..i]] + Split(s[i + 1..], sep)
  }

  /** `implode($sep, $parts)`. */
  function Join(parts: seq<string>, sep: char): string
    requires |parts| >= 1
  {
    if |parts| == 1 then parts[0] else parts[0] + [sep] + Join(parts[1..], sep)
  }

  /** Splitting and joining again gives back the original string. */
  lemma {:induction false} JoinSplit(s: string, sep: char)
    ensures Join(Split(s, sep), sep) == s
    decreases |s|
  {
    if sep in s {
      var i := IndexOf(s, sep);
      JoinSplit(s[i + 1..], sep);
      assert s == s[..i] + [sep] + s[i + 1..];
    }
  }

  /** A string with no separator splits into itself alone. */
  lemma SplitWithout(s: string, sep: char)
    requires sep !in s
    ensures Split(s, sep) == [s]
  {
  }

  /** Byte-wise lexicographic order, as `strcmp` orders non-numeric strings. */
  predicate Below(a: string, b: string)
    decreases |a|
  {
    if |a| == 0 then |b| > 0
    else if |b| == 0 then false
    else a[0] < b[0] || (a[0] == b[0] && Below(a[1..], b[1..]))
  }

  lemma {:induction false} BelowIrreflexive(a: string)
    ensures !Below(a, a)
    decreases |a|
  {
    if |a| > 0 { BelowIrreflexive(a[1..]); }
  }

  lemma {:induction false} BelowTransitive(a: string, b: string, c: string)
    requires Below(a, b) && Below(b, c)
    ensures Below(a, c)
    decreases |a|
  {
    if |a| > 0 && |b| > 0 && |c| > 0 && a[0] == b[0] && b[0] == c[0] {
      BelowTransitive(a[1..], b[1..], c[1..]);
    }
  }

  lemma {:induction false} BelowTotal(a: string, b: string)
    requires a != b
    ensures Below(a, b) || Below(b, a)
    decreases |a|
  {
    if |a| > 0 && |b| > 0 && a[0] == b[0] {
      assert a == [a[0]] + a[1..] && b == [b[0]] + b[1..];
      BelowTotal(a[1..], b[1..]);
    }
  }

  /** `PHP_INT_MAX` on a 64-bit build. */
  const PhpIntMax: nat := 0x7FFF_FFFF_FFFF_FFFF

  /**
   * A canonical decimal integer string ("0", "17", "-3", not "007" or "-0") within the range
   * of PHP's 64-bit int: PHP turns such an array key into an int key, and keeps a longer one,
   * such as "9223372036854775808", as a string.
   */
  predicate IntegerKey(k: string) {
    if |k| > 0 && k[0] == '-' then
      |k| > 1 && AllDigits(k[1..]) && k[1] != '0' && DigitsValue(k[1..]) <= PhpIntMax + 1
    else |k| > 0 && AllDigits(k) && (k[0] != '0' || k == "0") && DigitsValue(k) <= PhpIntMax
  }

  predicate AllDigits(s: string) {
    forall i :: 0 <= i < |s| ==> '0' <= s[i] <= '9'
  }

  /** The number a string of decimal digits denotes. */
  function DigitsValue(s: string): nat
    requires AllDigits(s)
    decreases |s|
  {
    if s == [] then 0 else 10 * DigitsValue(s[..|s| - 1]) + (s[|s| - 1] as int - '0' as int)
  }

  /** Ten to the power `n`. */
  function Pow10(n: nat): nat {
    if n == 0 then 1 else 10 * Pow10(n - 1)
  }

  /** `n` digits denote less than `10^n`. */
  lemma {:induction false} DigitsBelow(s: string)
    requires AllDigits(s)
    ensures DigitsValue(s) < Pow10(|s|)
    decreases |s|
  {
    if s != [] {
      var p := s[..|s| - 1];
      DigitsBelow(p);
      assert DigitsValue(s) == 10 * DigitsValue(p) + (s[|s| - 1] as int - '0' as int);
    }
  }

  /** `n` digits without a leading zero denote at least `10^(n-1)`. */
  lemma {:induction false} DigitsAbove(s: string)
    requires AllDigits(s) && |s| > 0 && s[0] != '0'
    ensures DigitsValue(s) >= Pow10(|s| - 1)
    decreases |s|
  {
    if |s| > 1 {
      var p := s[..|s| - 1];
      assert p[0] == s[0];
      DigitsAbove(p);
      assert DigitsValue(s) >= 10 * DigitsValue(p);
    }
  }

  /**
   * The 64-bit bound decides only for 19-digit keys: every canonical key of up to 18 digits
   * is an integer key, and no key of 20 digits or more is.
   */
  lemma IntegerKeyByLength(k: string)
    requires AllDigits(k) && |k| > 0 && (k[0] != '0' || k == "0")
    ensures |k| <= 18 ==> IntegerKey(k)
    ensures |k| >= 20 ==> !IntegerKey(k)
  {
    Pow10Sum(6, 6);
    Pow10Sum(12, 6);
    assert Pow10(6) == 1_000_000;
    if |k| <= 18 {
      DigitsBelow(k);
      Pow10Mono(|k|, 18);
    }
    if |k| >= 20 {
      DigitsAbove(k);
      Pow10Mono(19, |k| - 1);
      Pow10Sum(18, 1);
    }
  }

  lemma {:induction false} Pow10Sum(a: nat, b: nat)
    ensures Pow10(a + b) == Pow10(a) * Pow10(b)
    decreases b
  {
    if b > 0 {
      Pow10Sum(a, b - 1);
    }
  }

  lemma {:induction false} Pow10Mono(m: nat, n: nat)
    requires m <= n
    ensures Pow10(m) <= Pow10(n)
    decreases n
  {
    if m < n {
      Pow10Mono(m, n - 1);
    }
  }

  /** A string with a character that is neither a digit nor a leading minus is no integer key. */
  lemma NotIntegerKey(k: string, i: nat)
    requires i < |k| && !('0' <= k[i] <= '9') && (i == 0 ==> k[0] != '-')
    ensures !IntegerKey(k)
  {
    if |k| > 0 && k[0] == '-' {
      assert k[1..][i - 1] == k[i];
    }
  }

  /**
   * The longest key of `m` that is a prefix of `s` and at most `len` long (empty keys are
   * ignored, as PHP's `strtr` ignores them).
   */
  function LongestKeyAt(s: string, m: map<string, string>, len: nat): (r: Option<string>)
    requires len <= |s|
    ensures r.Some? ==> 0 < |r.value| <= len && r.value == s[..|r.value|] && r.value in m
    ensures r.Some? ==> forall l :: |r.value| < l <= len ==> s[..l] !in m
    ensures r.None? ==> forall l :: 0 < l <= len ==> s[..l] !in m
  {
    if len == 0 then None else if s[..len] in m then Some(s[..len]) else LongestKeyAt(s, m, len - 1)
  }

  /**
   * `strtr($s, $m)` with an array of pairs: scanning left to right, the longest key found at the
   * current position is replaced and scanning resumes after it, so replaced text is never rescanned.
   */
  function Strtr(s: string, m: map<string, string>): string
    decreases |s|
  {
    if s == [] then []
    else match LongestKeyAt(s, m, |s|)
      case Some(k) => m[k] + Strtr(s[|k|..], m)
      case None => [s[0]] + Strtr(s[1..], m)
  }

  lemma {:induction false} LongestNone(s: string, m: map<string, string>, len: nat)
    requires len <= |s|
    requires forall l :: 0 < l <= len ==> s[..l] !in m
    ensures LongestKeyAt(s, m, len) == None
  {
    if len > 0 { LongestNone(s, m, len - 1); }
  }

  lemma {:induction false} LongestSome(s: string, m: map<string, string>, j: nat, len: nat)
    requires 0 < j <= len <= |s| && s[..j] in m
    requires forall l :: j < l <= len ==> s[..l] !in m
    ensures LongestKeyAt(s, m, len) == Some(s[..j])
  {
    if len > j { LongestSome(s, m, j, len - 1); }
  }

  /** No key starts with `ch`: nothing matches at a position holding `ch`. */
  lemma NoKeyAtChar(s: string, m: map<string, string>)
    requires s != [] && forall k :: k in m ==> |k| > 0 && k[0] != s[0]
    ensures LongestKeyAt(s, m, |s|) == None
  {
    forall l | 0 < l <= |s| ensures s[..l] !in m {
      assert s[..l][0] == s[0];
    }
    LongestNone(s, m, |s|);
  }

  /** Text in which no key can start is left untouched. */
  lemma {:induction false} StrtrUntouched(s: string, m: map<string, string>, c: char)
    requires forall k :: k in m ==> |k| > 0 && k[0] == c
    requires c !in s
    ensures Strtr(s, m) == s
    decreases |s|
  {
    if s != [] {
      assert s[0] != c;
      NoKeyAtChar(s, m);
      StrtrUntouched(s[1..], m, c);
      assert s == [s[0]] + s[1..];
    }
  }

  /** Replacement at the front: a key found at the start is replaced, then the rest is scanned. */
  lemma StrtrFront(k: string, rest: string, m: map<string, string>)
    requires k in m && |k| > 0
    requires forall l :: |k| < l <= |k + rest| ==> (k + rest)[..l] !in m
    ensures Strtr(k + rest, m) == m[k] + Strtr(rest, m)
  {
    var s := k + rest;
    assert s[..|k|] == k;
    assert s[|k|..] == rest;
    LongestSome(s, m, |k|, |s|);
  }

  /** A character no key starts with is copied, then the rest is scanned. */
  lemma StrtrSkip(ch: char, rest: string, m: map<string, string>)
    requires forall k :: k in m ==> |k| > 0 && k[0] != ch
    ensures Strtr([ch] + rest, m) == [ch] + Strtr(rest, m)
  {
    var s := [ch] + rest;
    NoKeyAtChar(s, m);
    assert s[1..] == rest;
  }
}
