/**
 * `MessageBundle`: a tree of message formats read from a PHP array.  Keys have every backslash
 * replaced by an underscore (so namespaced class names can be keys), at every depth, when the
 * bundle is built and again when a key is looked up.
 *
 * A bundle never changes after construction, so it is a value here; `id` stands for the object's
 * identity, which only `MessageRegistry::unregister` observes.
 */
module MessageBundles {
  import opened Wrappers
  import opened Strings
  import opened Values

  /** `strtr($key, ["\\" => "_"])`. */
  function TranslateKey(k: string): (r: string)
    ensures |r| == |k| && '\\' !in r
  {
    TranslateRemoves(k, '\\', '_');
    Translate(k, '\\', '_')
  }

  /** The runtime's complaint when `strtr` receives an int key under strict types. */
  const StrtrOnInt: Throwable := TypeError("strtr(): Argument #1 ($string) must be of type string, int given")

  /** The runtime's complaint when `get` would return a value its declared return type excludes. */
  function ReturnTypeError(given: string): Throwable {
    TypeError("at\\peekaboo\\MessageBundle::get(): Return value must be of type ResourceBundle|array|string|int|null, "
      + given + " returned")
  }

  // ---------------------------------------------------------------------------------------------
  // Rekeying

  /** `rekey` applied to a value: arrays are rekeyed, anything else is kept. */
  function Rekeyed(v: Value): Outcome<Value>
    decreases v, 1
  {
    if v.Arr? then
      match RekeyedPrefix(v, |v.entries|)
      case Done(c) => Done(Arr(c))
      case Raised(t) => Raised(t)
    else Done(v)
  }

  /**
   * The array `rekey` has built after the first `n` entries of `v`: each key is translated and
   * assigned in turn (so translated keys that collide merge, the later value winning); an integer
   * key makes `strtr` throw.
   */
  function RekeyedPrefix(v: Value, n: nat): Outcome<Ctx>
    requires v.Arr? && n <= |v.entries|
    decreases v, 0, n
  {
    if n == 0 then Done([])
    else
      match RekeyedPrefix(v, n - 1)
      case Raised(t) => Raised(t)
      case Done(acc) =>
        var e := v.entries[n - 1];
        assert e in v.entries;
        if IntegerKey(e.0) then Raised(StrtrOnInt)
        else
          match Rekeyed(e.1)
          case Raised(t) => Raised(t)
          case Done(x) => Done(Put(acc, TranslateKey(e.0), x))
  }

  /** The array `rekey` returns for `messages`. */
  function RekeyedArray(messages: Ctx): Outcome<Ctx> {
    RekeyedPrefix(Arr(messages), |messages|)
  }

  /**
   * `rekey`: a `foreach` over the entries that assigns each translated key, recursing into
   * nested arrays.
   */
  method Rekey(messages: Ctx) returns (r: Outcome<Ctx>)
    ensures r == RekeyedArray(messages)
    decreases Arr(messages)
  {
    var rekeyed: Ctx := [];
    var i := 0;
    while i < |messages|
      invariant 0 <= i <= |messages|
      invariant RekeyedPrefix(Arr(messages), i) == Done(rekeyed)
    {
      var (key, value) := messages[i];
      RekeyStep(messages, i, rekeyed);
      if IntegerKey(key) {
        RaisedStays(Arr(messages), i + 1);
        return Raised(StrtrOnInt);
      }
      var x := value;
      if value.Arr? {
        assert messages[i] in messages;
        var nested := Rekey(value.entries);
        if nested.Raised? {
          RaisedStays(Arr(messages), i + 1);
          return Raised(nested.thrown);
        }
        x := Arr(nested.value);
      }
      assert Rekeyed(value) == Done(x);
      rekeyed := Put(rekeyed, TranslateKey(key), x);
      i := i + 1;
    }
    return Done(rekeyed);
  }

  /** One more entry: an integer key throws, otherwise the rekeyed value is put under the translated key. */
  lemma RekeyStep(messages: Ctx, i: nat, acc: Ctx)
    requires i < |messages| && RekeyedPrefix(Arr(messages), i) == Done(acc)
    ensures var e := messages[i];
      RekeyedPrefix(Arr(messages), i + 1) ==
        if IntegerKey(e.0) then Raised(StrtrOnInt)
        else match Rekeyed(e.1)
          case Raised(t) => Raised(t)
          case Done(x) => Done(Put(acc, TranslateKey(e.0), x))
  {
  }

  /** Once `rekey` has thrown, the later entries do not matter. */
  lemma {:induction false} RaisedStays(v: Value, n: nat)
    requires v.Arr? && 0 < n <= |v.entries|
    requires RekeyedPrefix(v, n).Raised?
    ensures RekeyedArray(v.entries) == RekeyedPrefix(v, n)
    decreases |v.entries| - n
  {
    if n < |v.entries| {
      assert RekeyedPrefix(v, n + 1) == RekeyedPrefix(v, n);
      RaisedStays(v, n + 1);
    }
  }

  // ---------------------------------------------------------------------------------------------
  // What rekeying guarantees

  /** Some key of the array, at any depth, is an integer key. */
  predicate HasIntegerKey(v: Value)
    decreases v
  {
    v.Arr? && IntegerKeyBefore(v, |v.entries|)
  }

  /** One of the first `n` entries has an integer key at some depth. */
  predicate IntegerKeyBefore(v: Value, n: nat)
    requires v.Arr? && n <= |v.entries|
    decreases v, 1
  {
    exists i :: 0 <= i < n && IntegerKeyAt(v, i)
  }

  predicate IntegerKeyAt(v: Value, i: nat)
    requires v.Arr? && i < |v.entries|
    decreases v, 0
  {
    assert v.entries[i] in v.entries;
    IntegerKey(v.entries[i].0) || HasIntegerKey(v.entries[i].1)
  }

  /** A rekeyed tree: unique keys, no backslash and no integer key, at every depth. */
  predicate Clean(v: Value)
    decreases v
  {
    v.Arr? ==> UniqueKeys(v.entries) && forall i :: 0 <= i < |v.entries| ==> CleanAt(v, i)
  }

  predicate CleanAt(v: Value, i: nat)
    requires v.Arr? && i < |v.entries|
    decreases v, 0
  {
    assert v.entries[i] in v.entries;
    '\\' !in v.entries[i].0 && !IntegerKey(v.entries[i].0) && Clean(v.entries[i].1)
  }

  /** `rekey` throws exactly when some key, at any depth, is an integer. */
  lemma {:induction false} RekeyFailsIff(v: Value)
    ensures Rekeyed(v).Raised? <==> HasIntegerKey(v)
    decreases v, 1
  {
    if v.Arr? {
      RekeyPrefixFailsIff(v, |v.entries|);
      assert Rekeyed(v).Raised? <==> RekeyedPrefix(v, |v.entries|).Raised?;
    }
  }

  lemma {:induction false} RekeyPrefixFailsIff(v: Value, n: nat)
    requires v.Arr? && n <= |v.entries|
    ensures RekeyedPrefix(v, n).Raised? <==> IntegerKeyBefore(v, n)
    decreases v, 0, n
  {
    if n > 0 {
      RekeyPrefixFailsIff(v, n - 1);
      var e := v.entries[n - 1];
      assert e in v.entries;
      RekeyFailsIff(e.1);
      assert IntegerKeyAt(v, n - 1) <==> IntegerKey(e.0) || HasIntegerKey(e.1);
      assert RekeyedPrefix(v, n).Raised? <==>
        RekeyedPrefix(v, n - 1).Raised? || IntegerKey(e.0) || Rekeyed(e.1).Raised?;
      if IntegerKeyAt(v, n - 1) {
        assert IntegerKeyBefore(v, n);
      }
      if IntegerKeyBefore(v, n) {
        var i :| 0 <= i < n && IntegerKeyAt(v, i);
        if i < n - 1 {
          assert IntegerKeyBefore(v, n - 1);
        }
      }
      if IntegerKeyBefore(v, n - 1) {
        var i :| 0 <= i < n - 1 && IntegerKeyAt(v, i);
        assert IntegerKeyBefore(v, n);
      }
    }
  }

  /** What `rekey` returns is clean. */
  lemma {:induction false} RekeyedIsClean(v: Value)
    requires Rekeyed(v).Done?
    ensures Clean(Rekeyed(v).value)
    decreases v, 1
  {
    if v.Arr? {
      RekeyedPrefixIsClean(v, |v.entries|);
    }
  }

  lemma {:induction false} RekeyedPrefixIsClean(v: Value, n: nat)
    requires v.Arr? && n <= |v.entries| && RekeyedPrefix(v, n).Done?
    ensures Clean(Arr(RekeyedPrefix(v, n).value))
    decreases v, 0, n
  {
    if n > 0 {
      RekeyedPrefixIsClean(v, n - 1);
      var acc := RekeyedPrefix(v, n - 1).value;
      var e := v.entries[n - 1];
      assert e in v.entries;
      RekeyedIsClean(e.1);
      var k := TranslateKey(e.0);
      var x := Rekeyed(e.1).value;
      var r := Put(acc, k, x);
      assert RekeyedPrefix(v, n).value == r;
      PutUnique(acc, k, x);
      assert !IntegerKey(k) by { NotIntegerAfterRekey(e.0); }
      forall i | 0 <= i < |r| ensures CleanAt(Arr(r), i) {
        PutEntry(acc, k, x, i);
        if r[i] != (k, x) {
          assert CleanAt(Arr(acc), i);
        }
      }
    }
  }

  /** An entry of `Put(c, k, v)` is the new pair or the entry of `c` at the same index. */
  lemma PutEntry(c: Ctx, k: string, v: Value, i: nat)
    requires i < |Put(c, k, v)|
    ensures Put(c, k, v)[i] == (k, v) || (i < |c| && Put(c, k, v)[i] == c[i])
  {
    if c != [] && c[0].0 != k && i > 0 {
      PutEntry(c[1..], k, v, i - 1);
    }
  }

  /** Translation never produces an integer key from a non-integer one. */
  lemma NotIntegerAfterRekey(k: string)
    requires !IntegerKey(k)
    ensures !IntegerKey(TranslateKey(k))
  {
    var r := TranslateKey(k);
    assert r == Translate(k, '\\', '_');
    if '\\' in k {
      var i :| 0 <= i < |k| && k[i] == '\\';
      assert r[i] == '_';
      assert r[0] == (if k[0] == '\\' then '_' else k[0]);
      NotIntegerKey(r, i);
    } else {
      NoBackslashTranslate(k);
    }
  }

  /** Rekeying a clean tree changes nothing. */
  lemma {:induction false} RekeyClean(v: Value)
    requires Clean(v)
    ensures Rekeyed(v) == Done(v)
    decreases v, 1
  {
    if v.Arr? {
      RekeyPrefixClean(v, |v.entries|);
      assert v.entries[..|v.entries|] == v.entries;
    }
  }

  lemma {:induction false} RekeyPrefixClean(v: Value, n: nat)
    requires v.Arr? && Clean(v) && n <= |v.entries|
    ensures RekeyedPrefix(v, n) == Done(v.entries[..n])
    decreases v, 0, n
  {
    if n > 0 {
      RekeyPrefixClean(v, n - 1);
      var e := v.entries[n - 1];
      assert e in v.entries;
      assert CleanAt(v, n - 1);
      RekeyClean(e.1);
      NoBackslashTranslate(e.0);
      FreshKeyInPrefix(v.entries, n - 1);
      assert v.entries[..n - 1] + [e] == v.entries[..n];
    }
  }

  /** With unique keys, the key at index `n` does not occur before it. */
  lemma FreshKeyInPrefix(c: Ctx, n: nat)
    requires UniqueKeys(c) && n < |c|
    ensures !HasKey(c[..n], c[n].0)
  {
    var acc := c[..n];
    forall i | 0 <= i < |acc| ensures acc[i].0 != c[n].0 {
      assert acc[i] == c[i];
    }
  }

  lemma NoBackslashTranslate(k: string)
    requires '\\' !in k
    ensures TranslateKey(k) == k
  {
    var r := TranslateKey(k);
    forall i | 0 <= i < |k| ensures r[i] == k[i] { }
  }

  /** Rekeying is idempotent: a rekeyed tree rekeys to itself. */
  lemma RekeyIdempotent(v: Value)
    requires Rekeyed(v).Done?
    ensures Rekeyed(Rekeyed(v).value) == Rekeyed(v)
  {
    RekeyedIsClean(v);
    RekeyClean(Rekeyed(v).value);
  }

  /** The top-level keys after rekeying are the translated input keys. */
  lemma {:induction false} RekeyedKeys(v: Value, n: nat, k: string)
    requires v.Arr? && n <= |v.entries| && RekeyedPrefix(v, n).Done?
    ensures HasKey(RekeyedPrefix(v, n).value, k) <==> exists i :: 0 <= i < n && TranslateKey(v.entries[i].0) == k
    decreases n
  {
    if n > 0 {
      PrefixPut(v, n);
      RekeyedKeys(v, n - 1, k);
      KeysStepHas(v, n, k, RekeyedPrefix(v, n - 1).value, Rekeyed(v.entries[n - 1].1).value);
    }
  }

  /**
   * Keys that collide after translation merge into one entry holding the later value: the last
   * entry whose key translates to a given key supplies its (rekeyed) value.
   */
  lemma {:induction false} RekeyedLookup(v: Value, n: nat, i: nat)
    requires v.Arr? && i < n <= |v.entries| && RekeyedPrefix(v, n).Done?
    requires forall j :: i < j < n ==> TranslateKey(v.entries[j].0) != TranslateKey(v.entries[i].0)
    ensures Rekeyed(v.entries[i].1).Done?
    ensures Lookup(RekeyedPrefix(v, n).value, TranslateKey(v.entries[i].0)) == Some(Rekeyed(v.entries[i].1).value)
    decreases n
  {
    if i < n - 1 {
      PrefixPut(v, n);
      RekeyedLookup(v, n - 1, i);
      PutOther(RekeyedPrefix(v, n - 1).value, TranslateKey(v.entries[n - 1].0), Rekeyed(v.entries[n - 1].1).value,
        TranslateKey(v.entries[i].0));
    } else {
      assert n == i + 1;
      PrefixPut(v, i + 1);
      PutOther(RekeyedPrefix(v, i).value, TranslateKey(v.entries[i].0), Rekeyed(v.entries[i].1).value,
        TranslateKey(v.entries[i].0));
    }
  }

  lemma PutOther(c: Ctx, k: string, x: Value, k': string)
    ensures k' != k ==> Lookup(Put(c, k, x), k') == Lookup(c, k')
    ensures k' == k ==> Lookup(Put(c, k, x), k') == Some(x)
  {
    PutLookup(c, k, x, k');
  }

  /** One assignment of `rekey` adds its translated key to the key set. */
  lemma KeysStepHas(v: Value, n: nat, k: string, acc: Ctx, x: Value)
    requires v.Arr? && 0 < n <= |v.entries|
    requires HasKey(acc, k) <==> exists i :: 0 <= i < n - 1 && TranslateKey(v.entries[i].0) == k
    ensures HasKey(Put(acc, TranslateKey(v.entries[n - 1].0), x), k) <==> exists i :: 0 <= i < n && TranslateKey(v.entries[i].0) == k
  {
    var k' := TranslateKey(v.entries[n - 1].0);
    PutLookup(acc, k', x, k);
    if k' == k {
      assert TranslateKey(v.entries[n - 1].0) == k;
    }
  }

  /** The `n`-th turn of `rekey`, when everything completes, assigns under the translated key. */
  lemma PrefixPut(v: Value, n: nat)
    requires v.Arr? && 0 < n <= |v.entries| && RekeyedPrefix(v, n).Done?
    ensures RekeyedPrefix(v, n - 1).Done? && Rekeyed(v.entries[n - 1].1).Done?
    ensures RekeyedPrefix(v, n).value ==
      Put(RekeyedPrefix(v, n - 1).value, TranslateKey(v.entries[n - 1].0), Rekeyed(v.entries[n - 1].1).value)
  {
    assert v.entries[n - 1] in v.entries;
  }

  // ---------------------------------------------------------------------------------------------
  // Bundles

  /** A constructed `MessageBundle`: its identity and its (rekeyed) messages. */
  datatype Bundle = Bundle(id: nat, messages: Ctx)

  /** `new MessageBundle($messages)`, given the identity the new object receives. */
  function NewBundle(id: nat, messages: Ctx): (r: Outcome<Bundle>)
    ensures r.Done? <==> !HasIntegerKey(Arr(messages))
    ensures r.Done? ==> r.value.id == id && Clean(Arr(r.value.messages))
  {
    RekeyFailsIff(Arr(messages));
    match RekeyedArray(messages)
    case Done(c) =>
      RekeyedIsClean(Arr(messages));
      Done(Bundle(id, c))
    case Raised(t) => Raised(t)
  }

  /** `count()`: the number of top-level keys. */
  function Count(b: Bundle): nat {
    |b.messages|
  }

  /** The count is the number of distinct translated top-level keys of the input. */
  lemma CountDistinct(id: nat, messages: Ctx)
    requires NewBundle(id, messages).Done?
    ensures Count(NewBundle(id, messages).value) == |set i | 0 <= i < |messages| :: TranslateKey(messages[i].0)|
  {
    var c := NewBundle(id, messages).value.messages;
    assert Clean(Arr(c));
    var ks := set i | 0 <= i < |messages| :: TranslateKey(messages[i].0);
    var cs := set i | 0 <= i < |c| :: c[i].0;
    forall k ensures k in cs <==> k in ks {
      RekeyedKeys(Arr(messages), |messages|, k);
      if k in cs {
        var i :| 0 <= i < |c| && c[i].0 == k;
        assert HasKey(c, k);
      }
      if k in ks {
        assert HasKey(c, k);
        var i :| 0 <= i < |c| && c[i].0 == k;
        assert k == c[i].0;
      }
    }
    assert cs == ks;
    DistinctCount(c);
  }

  /** With unique keys, the number of entries is the number of keys. */
  lemma {:induction false} DistinctCount(c: Ctx)
    requires UniqueKeys(c)
    ensures |set i | 0 <= i < |c| :: c[i].0| == |c|
  {
    if c != [] {
      var t := c[1..];
      DistinctCount(t);
      var s := set i | 0 <= i < |c| :: c[i].0;
      var s' := set i | 0 <= i < |t| :: t[i].0;
      assert s == {c[0].0} + s' by {
        forall k | k in s ensures k in {c[0].0} + s' {
          var i :| 0 <= i < |c| && c[i].0 == k;
          if i > 0 { assert t[i - 1].0 == k; }
        }
        forall k | k in s' ensures k in s {
          var i :| 0 <= i < |t| && t[i].0 == k;
          assert c[i + 1].0 == k;
        }
      }
      assert c[0].0 !in s' by {
        forall i | 0 <= i < |t| ensures t[i].0 != c[0].0 {
          assert t[i] == c[i + 1];
        }
      }
    }
  }

  /** The key `get` receives: `string|int`. */
  datatype Key = StrKey(s: string) | IntKey(i: int)

  /** What `get` returns: a format string, an int, a nested bundle (by its messages) or null. */
  datatype Entry = Text(s: string) | Number(i: int) | Tree(messages: Ctx) | Absent

  /** `MessageBundle::get($key)`. */
  function Get(messages: Ctx, key: Key): Outcome<Entry> {
    match key
    case IntKey(_) => Raised(StrtrOnInt)
    case StrKey(s) =>
      var k := TranslateKey(s);
      if !Isset(messages, k) then Done(Absent)
      else
        match Lookup(messages, k).value
        case Str(t) => Done(Text(t))
        case Int(i) => Done(Number(i))
        case Bool(_) => Raised(ReturnTypeError("bool"))
        case Float(_) => Raised(ReturnTypeError("float"))
        case Arr(es) =>
          (match RekeyedArray(es)
           case Done(c) => Done(Tree(c))
           case Raised(t) => Raised(t))
        case _ => Done(Absent)
  }

  /** `get` translates its key the same way the constructor did. */
  lemma GetTranslates(messages: Ctx, s: string)
    ensures Get(messages, StrKey(s)) == Get(messages, StrKey(TranslateKey(s)))
  {
    TranslateIdempotent(s, '\\', '_');
  }

  /** A present string or int is returned as it is; an absent or null key gives null. */
  lemma GetScalar(messages: Ctx, s: string)
    ensures Lookup(messages, TranslateKey(s)) == None ==> Get(messages, StrKey(s)) == Done(Absent)
    ensures Lookup(messages, TranslateKey(s)) == Some(Null) ==> Get(messages, StrKey(s)) == Done(Absent)
    ensures forall t :: Lookup(messages, TranslateKey(s)) == Some(Str(t)) ==> Get(messages, StrKey(s)) == Done(Text(t))
    ensures forall i :: Lookup(messages, TranslateKey(s)) == Some(Int(i)) ==> Get(messages, StrKey(s)) == Done(Number(i))
  {
  }

  /** In a constructed bundle, a nested array comes back as a bundle with the same keys. */
  lemma GetNested(messages: Ctx, s: string, es: Ctx)
    requires Clean(Arr(messages)) && Lookup(messages, TranslateKey(s)) == Some(Arr(es))
    ensures Get(messages, StrKey(s)) == Done(Tree(es))
  {
    var i :| 0 <= i < |messages| && messages[i] == (TranslateKey(s), Arr(es));
    assert CleanAt(Arr(messages), i);
    RekeyClean(Arr(es));
    GetTree(messages, s, es);
  }

  /** A nested array that `rekey` leaves alone comes back as it is. */
  lemma GetTree(messages: Ctx, s: string, es: Ctx)
    requires Lookup(messages, TranslateKey(s)) == Some(Arr(es)) && Rekeyed(Arr(es)) == Done(Arr(es))
    ensures Get(messages, StrKey(s)) == Done(Tree(es))
  {
    assert RekeyedArray(es) == Done(es);
  }

  /** An int key always makes `get` throw, although its signature admits ints. */
  lemma GetIntKeyThrows(messages: Ctx, i: int)
    ensures Get(messages, IntKey(i)) == Raised(StrtrOnInt)
  {
  }
}
