/**
 * The PHP values the library passes around: faults (enum cases), throwables, arrays used as
 * ordered maps ("contexts"), scalars and opaque objects, with the array operations the library
 * relies on: lookup, `??`, `isset`, assignment, the left-biased `+` union and `ksort`.
 */
module Values {
  import opened Wrappers
  import Strings
  import SplClasses
  import ExceptableFaults
  import SplFaults
  import ErrorFaults
  import HandlerFaults
  import MessageFaults
  import DebugMessages

  /** Interfaces every Fault enum implements. */
  const FaultInterface: string := "at\\exceptable\\Fault"

  /** A Fault: one case of one of the library's Fault enums.  Enum cases are singletons, so `==` is `===`. */
  datatype Fault =
    | ExceptableFault(ec: ExceptableFaults.Case)
    | SplFault(sc: SplFaults.Case)
    | ErrorFault(rc: ErrorFaults.Case)
    | HandlerFault(hc: HandlerFaults.Case)
    | MessageFault(mc: MessageFaults.Case)

  /** The enum class declaring the case (`static::class`). */
  function FaultClass(f: Fault): string {
    match f
    case ExceptableFault(_) => ExceptableFaults.ClassName
    case SplFault(_) => SplFaults.ClassName
    case ErrorFault(_) => ErrorFaults.ClassName
    case HandlerFault(_) => HandlerFaults.ClassName
    case MessageFault(_) => MessageFaults.ClassName
  }

  /** The enum case name (`$this->name`). */
  function CaseName(f: Fault): string {
    match f
    case ExceptableFault(c) => ExceptableFaults.CaseName(c)
    case SplFault(c) => SplFaults.CaseName(c)
    case ErrorFault(c) => ErrorFaults.CaseName(c)
    case HandlerFault(c) => HandlerFaults.CaseName(c)
    case MessageFault(c) => MessageFaults.CaseName(c)
  }

  /** `name()`: the declaring class, a dot, and the case name. */
  function FaultName(f: Fault): string {
    FaultClass(f) + "." + CaseName(f)
  }

  /** `$a instanceof $b` for two enum cases: true iff they are cases of the same enum. */
  predicate SameEnum(a: Fault, b: Fault) {
    FaultClass(a) == FaultClass(b)
  }

  /** The class tag of a Fault case, for `is_a($fault, $name)`. */
  function FaultTag(f: Fault): (t: SplClasses.ClassTag)
    ensures t.name == FaultClass(f)
    ensures SplClasses.IsA(t, FaultInterface)
  {
    SplClasses.ClassTag(FaultClass(f),
      {FaultInterface, "UnitEnum"} + (if f.SplFault? then {} else {"BackedEnum"}))
  }

  /**
   * A throwable.  `previous` is `getPrevious()`; `fault` is present exactly for Exceptables, and
   * `given` is the context an Exceptable's constructor received (its `context` property is
   * computed from it, see `Exceptables.Context`).
   */
  datatype Throwable = Throwable(
    tag: SplClasses.ClassTag,
    message: string,
    code: int,
    file: string,
    line: int,
    previous: Option<Throwable>,
    fault: Option<Fault>,
    given: seq<(string, Value)>)

  /** `$t instanceof Exceptable`. */
  predicate IsExceptable(t: Throwable) {
    t.fault.Some?
  }

  /** A PHP value as the library sees it. */
  datatype Value =
    | Null
    | Bool(b: bool)
    | Int(i: int)
    | Float(text: string)                // a float, represented by its string conversion
    | Str(s: string)
    | FaultV(f: Fault)                   // a Fault enum case
    | MessageV(m: DebugMessages.Case)    // a message enum case that is not a Fault
    | ThrowableV(t: Throwable)
    | Arr(entries: seq<(string, Value)>)
    | Obj(tag: SplClasses.ClassTag, id: nat)   // any other object, by class and identity

  /** A PHP array used as an ordered map from string keys to values. */
  type Ctx = seq<(string, Value)>

  /** The result of PHP code that either completes with a value or throws. */
  datatype Outcome<T> = Done(value: T) | Raised(thrown: Throwable) {
    predicate IsDone() { Done? }
  }

  /** A `TypeError` raised by the runtime; its file and line are not modelled. */
  function TypeError(message: string): (t: Throwable)
    ensures !IsExceptable(t)
  {
    Throwable(SplClasses.TypeErrorTag, message, 0, "", 0, None, None, [])
  }

  // ---------------------------------------------------------------------------------------------
  // Arrays as ordered maps

  predicate HasKey(c: Ctx, k: string) {
    exists i :: 0 <= i < |c| && c[i].0 == k
  }

  /** Every key occurs at most once, as in every PHP array. */
  predicate UniqueKeys(c: Ctx) {
    forall i, j :: 0 <= i < j < |c| ==> c[i].0 != c[j].0
  }

  function Keys(c: Ctx): (ks: seq<string>)
    ensures |ks| == |c| && forall i :: 0 <= i < |c| ==> ks[i] == c[i].0
  {
    if c == [] then [] else [c[0].0] + Keys(c[1..])
  }

  /** `$c[$k]` when the key exists, `None` otherwise. */
  function Lookup(c: Ctx, k: string): (r: Option<Value>)
    ensures r.Some? <==> HasKey(c, k)
    ensures r.Some? ==> exists i :: 0 <= i < |c| && c[i] == (k, r.value)
  {
    if c == [] then None
    else if c[0].0 == k then Some(c[0].1)
    else
      var r := Lookup(c[1..], k);
      assert r.Some? ==> exists i :: 0 <= i < |c[1..]| && c[1..][i] == (k, r.value);
      assert HasKey(c[1..], k) ==> HasKey(c, k) by {
        if HasKey(c[1..], k) {
          var i :| 0 <= i < |c[1..]| && c[1..][i].0 == k;
          assert c[i + 1].0 == k;
        }
      }
      r
  }

  /** With unique keys, the entry at index `i` is what lookup finds for its key. */
  lemma LookupAt(c: Ctx, i: int)
    requires UniqueKeys(c) && 0 <= i < |c|
    ensures Lookup(c, c[i].0) == Some(c[i].1)
  {
    if i > 0 {
      LookupAt(c[1..], i - 1);
    }
  }

  /** `isset($c[$k])`: present and not null. */
  predicate Isset(c: Ctx, k: string) {
    Lookup(c, k).Some? && Lookup(c, k).value != Null
  }

  /** `$c[$k] ?? $d`. */
  function Coalesce(c: Ctx, k: string, d: Value): (r: Value)
    ensures Isset(c, k) ==> r == Lookup(c, k).value
    ensures !Isset(c, k) ==> r == d
  {
    match Lookup(c, k)
    case Some(v) => if v != Null then v else d
    case None => d
  }

  /** `$c[$k] ?? null`. */
  function Get(c: Ctx, k: string): Value {
    Coalesce(c, k, Null)
  }

  lemma HasKeyCons(b: Ctx, k: string)
    requires b != []
    ensures HasKey(b, k) <==> k == b[0].0 || HasKey(b[1..], k)
  {
    if HasKey(b, k) && k != b[0].0 {
      var i :| 0 <= i < |b| && b[i].0 == k;
      assert b[1..][i - 1].0 == k;
    }
    if HasKey(b[1..], k) {
      var i :| 0 <= i < |b[1..]| && b[1..][i].0 == k;
      assert b[i + 1].0 == k;
    }
  }

  lemma HasKeySnoc(a: Ctx, e: (string, Value), k: string)
    ensures HasKey(a + [e], k) <==> HasKey(a, k) || k == e.0
  {
    if HasKey(a + [e], k) && k != e.0 {
      var i :| 0 <= i < |a| + 1 && (a + [e])[i].0 == k;
      assert a[i].0 == k;
    }
    if HasKey(a, k) {
      var i :| 0 <= i < |a| && a[i].0 == k;
      assert (a + [e])[i].0 == k;
    }
    assert (a + [e])[|a|].0 == e.0;
  }

  /** `$a + $b`: all of `a`, then the entries of `b` whose key `a` does not have. */
  function Union(a: Ctx, b: Ctx): (r: Ctx)
    decreases |b|
    ensures |r| >= |a| && r[..|a|] == a
    ensures forall k :: HasKey(r, k) <==> HasKey(a, k) || HasKey(b, k)
  {
    if b == [] then a
    else
      var a' := if HasKey(a, b[0].0) then a else a + [b[0]];
      var r := Union(a', b[1..]);
      assert a'[..|a|] == a;
      assert r[..|a|] == r[..|a'|][..|a|];
      assert forall k :: HasKey(b, k) <==> k == b[0].0 || HasKey(b[1..], k) by {
        forall k { HasKeyCons(b, k); }
      }
      assert forall k :: HasKey(a', k) <==> HasKey(a, k) || k == b[0].0 by {
        forall k { HasKeySnoc(a, b[0], k); }
      }
      r
  }

  /** Lookup in a concatenation finds the left part's entry first. */
  lemma {:induction false} LookupAppend(a: Ctx, rest: Ctx, k: string)
    ensures Lookup(a + rest, k) == if HasKey(a, k) then Lookup(a, k) else Lookup(rest, k)
  {
    if a != [] {
      assert (a + rest)[0] == a[0];
      assert (a + rest)[1..] == a[1..] + rest;
      HasKeyCons(a, k);
      if a[0].0 != k {
        LookupAppend(a[1..], rest, k);
      }
    } else {
      assert a + rest == rest;
    }
  }

  /** Lookup past two parts that lack the key reaches the third. */
  lemma LookupPastTwo(a: Ctx, b: Ctx, c: Ctx, k: string)
    requires !HasKey(a, k) && !HasKey(b, k)
    ensures Lookup(a + b + c, k) == Lookup(c, k)
  {
    assert a + b + c == a + (b + c);
    LookupAppend(a, b + c, k);
    LookupAppend(b, c, k);
  }

  /** `+` is left-biased: a key of `a` keeps `a`'s value; other keys come from `b`. */
  lemma {:induction false} UnionLookup(a: Ctx, b: Ctx, k: string)
    decreases |b|
    ensures Lookup(Union(a, b), k) == if HasKey(a, k) then Lookup(a, k) else Lookup(b, k)
  {
    if b != [] {
      var a' := if HasKey(a, b[0].0) then a else a + [b[0]];
      UnionLookup(a', b[1..], k);
      HasKeySnoc(a, b[0], k);
      HasKeyCons(b, k);
      LookupAppend(a, [b[0]], k);
    }
  }

  /** `+` of arrays yields an array: keys stay unique. */
  lemma {:induction false} UnionUnique(a: Ctx, b: Ctx)
    decreases |b|
    requires UniqueKeys(a)
    ensures UniqueKeys(Union(a, b))
  {
    if b != [] {
      var a' := if HasKey(a, b[0].0) then a else a + [b[0]];
      if !HasKey(a, b[0].0) {
        forall i, j | 0 <= i < j < |a'| ensures a'[i].0 != a'[j].0 {
          if j == |a| {
            assert a'[i] == a[i];
          }
        }
      }
      UnionUnique(a', b[1..]);
    }
  }

  /** `$c[$k] = $v`: overwrites an existing key in place, or appends a new one. */
  function Put(c: Ctx, k: string, v: Value): (r: Ctx)
    ensures HasKey(c, k) ==> |r| == |c| && forall i :: 0 <= i < |c| ==> r[i].0 == c[i].0
    ensures !HasKey(c, k) ==> r == c + [(k, v)]
  {
    if c == [] then [(k, v)]
    else if c[0].0 == k then [(k, v)] + c[1..]
    else
      HasKeyCons(c, k);
      [c[0]] + Put(c[1..], k, v)
  }

  /** After the assignment the key maps to the new value and every other key is unchanged. */
  lemma {:induction false} PutLookup(c: Ctx, k: string, v: Value, k': string)
    ensures Lookup(Put(c, k, v), k') == if k' == k then Some(v) else Lookup(c, k')
  {
    if c != [] && c[0].0 != k {
      HasKeyCons(c, k);
      PutLookup(c[1..], k, v, k');
    }
  }

  /** Assigning a key the value it already has changes nothing. */
  lemma {:induction false} PutSame(c: Ctx, k: string, v: Value)
    requires Lookup(c, k) == Some(v)
    ensures Put(c, k, v) == c
  {
    if c[0].0 != k {
      HasKeyCons(c, k);
      PutSame(c[1..], k, v);
    }
  }

  /** `+` with an array none of whose keys are present is concatenation. */
  lemma {:induction false} UnionDisjoint(a: Ctx, b: Ctx)
    requires UniqueKeys(b)
    requires forall i :: 0 <= i < |b| ==> !HasKey(a, b[i].0)
    ensures Union(a, b) == a + b
    decreases |b|
  {
    if b != [] {
      var a' := a + [b[0]];
      UnionHeadNew(a, b);
      DisjointAfterHead(a, b);
      UniqueKeysTail(b);
      UnionDisjoint(a', b[1..]);
      SnocHead(a, b);
    }
  }

  /** A head whose key `a` lacks is appended, and the rest of `b` follows. */
  lemma UnionHeadNew(a: Ctx, b: Ctx)
    requires b != [] && !HasKey(a, b[0].0)
    ensures Union(a, b) == Union(a + [b[0]], b[1..])
  {
  }

  lemma SnocHead<T>(a: seq<T>, b: seq<T>)
    requires b != []
    ensures (a + [b[0]]) + b[1..] == a + b
  {
    assert b == [b[0]] + b[1..];
  }

  /** Moving the head of `b` onto `a` keeps the rest of `b`'s keys out of it. */
  lemma DisjointAfterHead(a: Ctx, b: Ctx)
    requires b != [] && UniqueKeys(b)
    requires forall i :: 0 <= i < |b| ==> !HasKey(a, b[i].0)
    ensures forall i :: 0 <= i < |b[1..]| ==> !HasKey(a + [b[0]], b[1..][i].0)
  {
    forall i | 0 <= i < |b[1..]| ensures !HasKey(a + [b[0]], b[1..][i].0) {
      HasKeySnoc(a, b[0], b[i + 1].0);
      assert b[0].0 != b[i + 1].0;
    }
  }

  /** The tail of an array with unique keys has unique keys. */
  lemma UniqueKeysTail(b: Ctx)
    requires b != [] && UniqueKeys(b)
    ensures UniqueKeys(b[1..])
  {
    forall i, j | 0 <= i < j < |b[1..]| ensures b[1..][i].0 != b[1..][j].0 {
      assert b[1..][i] == b[i + 1] && b[1..][j] == b[j + 1];
    }
  }

  /** `+` with an array whose keys are all present changes nothing. */
  lemma {:induction false} UnionPresent(a: Ctx, b: Ctx)
    requires forall i :: 0 <= i < |b| ==> HasKey(a, b[i].0)
    ensures Union(a, b) == a
    decreases |b|
  {
    if b != [] {
      assert HasKey(a, b[0].0);
      forall i | 0 <= i < |b[1..]| ensures HasKey(a, b[1..][i].0) {
        assert b[1..][i] == b[i + 1];
      }
      UnionPresent(a, b[1..]);
    }
  }

  /** Assignment keeps the keys unique. */
  lemma PutUnique(c: Ctx, k: string, v: Value)
    requires UniqueKeys(c)
    ensures UniqueKeys(Put(c, k, v))
  {
    var r := Put(c, k, v);
    if !HasKey(c, k) {
      forall i, j | 0 <= i < j < |r| ensures r[i].0 != r[j].0 {
        if j == |c| {
          assert r[i] == c[i];
        }
      }
    }
  }

  // ---------------------------------------------------------------------------------------------
  // ksort

  /** `ksort` order on the library's (non-numeric) string keys: byte-wise comparison. */
  predicate KeyLe(a: string, b: string) {
    !Strings.Below(b, a)
  }

  predicate SortedByKey(c: Ctx) {
    forall i, j :: 0 <= i < j < |c| ==> KeyLe(c[i].0, c[j].0)
  }

  function InsertByKey(e: (string, Value), c: Ctx): (r: Ctx)
    requires SortedByKey(c)
    ensures SortedByKey(r)
    ensures multiset(r) == multiset(c) + multiset{e}
  {
    if c == [] then [e]
    else if KeyLe(e.0, c[0].0) then
      var r := [e] + c;
      forall j | 0 < j < |r| ensures KeyLe(r[0].0, r[j].0) {
        if j > 1 {
          assert KeyLe(c[0].0, c[j - 1].0);
          if Strings.Below(c[j - 1].0, e.0) {
            Strings.BelowTotal(c[0].0, e.0);
            if c[0].0 != e.0 && Strings.Below(c[j - 1].0, c[0].0) {
            } else if c[0].0 != e.0 {
              Strings.BelowTransitive(c[j - 1].0, e.0, c[0].0);
            }
          }
        }
      }
      r
    else
      var t := InsertByKey(e, c[1..]);
      var r := [c[0]] + t;
      assert Strings.Below(c[0].0, e.0);
      assert multiset(c) == multiset{c[0]} + multiset(c[1..]) by { assert c == [c[0]] + c[1..]; }
      forall j | 0 < j < |r| ensures KeyLe(r[0].0, r[j].0) {
        assert r[j] in multiset(t);
        assert r[j] in multiset(c[1..]) + multiset{e};
        if r[j] == e {
          Strings.BelowIrreflexive(c[0].0);
          if Strings.Below(e.0, c[0].0) {
            Strings.BelowTransitive(c[0].0, e.0, c[0].0);
          }
        } else {
          assert r[j] in c[1..];
          var m :| 0 <= m < |c[1..]| && c[1..][m] == r[j];
          assert KeyLe(c[0].0, c[m + 1].0);
        }
      }
      r
  }

  /** `ksort($c)`: the same entries, reordered by key. */
  function KSort(c: Ctx): (r: Ctx)
    ensures SortedByKey(r)
    ensures multiset(r) == multiset(c)
  {
    if c == [] then []
    else
      assert c == [c[0]] + c[1..];
      InsertByKey(c[0], KSort(c[1..]))
  }

  /** Sorting by key does not change what any key maps to. */
  lemma KSortLookup(c: Ctx, k: string)
    requires UniqueKeys(c)
    ensures UniqueKeys(KSort(c))
    ensures Lookup(KSort(c), k) == Lookup(c, k)
  {
    var r := KSort(c);
    forall i, j | 0 <= i < j < |r| ensures r[i].0 != r[j].0 {
      assert r[i] in multiset(c) && r[j] in multiset(c);
      var p :| 0 <= p < |c| && c[p] == r[i];
      var q :| 0 <= q < |c| && c[q] == r[j];
      if r[i].0 == r[j].0 {
        assert p == q;
        assert r[i] == r[j];
        MultisetTwice(r, i, j);
        assert multiset(c)[r[i]] >= 2;
        MultisetOnce(c, p);
      }
    }
    if HasKey(c, k) {
      var p :| 0 <= p < |c| && c[p].0 == k;
      LookupAt(c, p);
      assert c[p] in multiset(r);
      var i :| 0 <= i < |r| && r[i] == c[p];
      LookupAt(r, i);
    } else {
      forall i | 0 <= i < |r| ensures r[i].0 != k {
        assert r[i] in multiset(c);
        var p :| 0 <= p < |c| && c[p] == r[i];
      }
    }
  }

  lemma MultisetTwice<T>(s: seq<T>, i: int, j: int)
    requires 0 <= i < j < |s| && s[i] == s[j]
    ensures multiset(s)[s[i]] >= 2
  {
    assert s == s[..i] + [s[i]] + s[i + 1..j] + [s[j]] + s[j + 1..];
  }

  lemma MultisetOnce(c: Ctx, p: int)
    requires UniqueKeys(c) && 0 <= p < |c|
    ensures multiset(c)[c[p]] == 1
  {
    assert c == c[..p] + [c[p]] + c[p + 1..];
    forall i | 0 <= i < p ensures c[..p][i] != c[p] {
      assert c[i].0 != c[p].0;
    }
    var t := c[p + 1..];
    forall i | 0 <= i < |t| ensures t[i] != c[p] {
      assert t[i] == c[p + 1 + i];
    }
  }

  // ---------------------------------------------------------------------------------------------
  // Loose comparison

  /** `$v == null` under PHP 8's loose comparison. */
  predicate LooseNull(v: Value) {
    match v
    case Null => true
    case Bool(b) => !b
    case Int(i) => i == 0
    case Float(t) => t == "0" || t == "-0"
    case Str(s) => s == ""
    case Arr(e) => e == []
    case _ => false
  }

  /** `get_debug_type($v)`: the scalar type name, or the class of an object or enum case. */
  function DebugType(v: Value): string {
    match v
    case Null => "null"
    case Bool(_) => "bool"
    case Int(_) => "int"
    case Float(_) => "float"
    case Str(_) => "string"
    case Arr(_) => "array"
    case FaultV(f) => FaultClass(f)
    case MessageV(_) => DebugMessages.ClassName
    case ThrowableV(t) => t.tag.name
    case Obj(tag, _) => tag.name
  }
}
