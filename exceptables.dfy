/**
 * `IsExceptable`: the Exceptable implementation every Spl exception class uses.  An Exceptable
 * is a `Values.Throwable` whose `fault` is set; its `root` and `context` properties are computed
 * from it here instead of being stored, since `context` refers to the exceptable itself.
 */
module Exceptables {
  import opened Wrappers
  import opened Values
  import SplClasses

  /** The exception chain from `t` through `getPrevious()`. */
  function Chain(t: Throwable): (c: seq<Throwable>)
    ensures |c| >= 1 && c[0] == t
    decreases t
  {
    match t.previous
    case None => [t]
    case Some(p) => [t] + Chain(p)
  }

  /** The end of the chain. */
  function RootOf(t: Throwable): (r: Throwable)
    ensures r.previous.None?
    decreases t
  {
    match t.previous
    case None => t
    case Some(p) => RootOf(p)
  }

  /** The root is the last link of the chain. */
  lemma {:induction false} RootIsLast(t: Throwable)
    ensures RootOf(t) == Chain(t)[|Chain(t)| - 1]
    decreases t
  {
    match t.previous
    case None =>
    case Some(p) =>
      RootIsLast(p);
      assert Chain(t) == [t] + Chain(p);
  }

  /** `findRoot($t)`: follows `getPrevious()` until there is none. */
  method FindRoot(t: Throwable) returns (root: Throwable)
    ensures root == RootOf(t)
  {
    root := t;
    while root.previous.Some?
      invariant RootOf(root) == RootOf(t)
      decreases root
    {
      root := root.previous.value;
    }
  }

  /** The `root` property: the root of `previous` when there is one, else the exceptable itself. */
  function Root(x: Throwable): (r: Throwable)
    ensures r == RootOf(x)
  {
    match x.previous
    case Some(p) => RootOf(p)
    case None => x
  }

  /** The three entries the constructor puts in front of the given context. */
  function Head(x: Throwable): Ctx {
    [("__exception__", ThrowableV(x)),
     ("__previous__", if x.previous.Some? then ThrowableV(x.previous.value) else Null),
     ("__root__", ThrowableV(Root(x)))]
  }

  /**
   * The `context` property: the exceptable, its previous and its root under `__exception__`,
   * `__previous__` and `__root__`, then the given context (`+`: any given entries under those
   * three keys are dropped).
   */
  function Context(x: Throwable): Ctx {
    Union(Head(x), x.given)
  }

  /** What the `context` property holds under each key. */
  lemma ContextLookup(x: Throwable, k: string)
    ensures Lookup(Context(x), k) ==
      if k == "__exception__" then Some(ThrowableV(x))
      else if k == "__previous__" then Some(if x.previous.Some? then ThrowableV(x.previous.value) else Null)
      else if k == "__root__" then Some(ThrowableV(RootOf(x)))
      else Lookup(x.given, k)
  {
    var h := Head(x);
    UnionLookup(h, x.given, k);
    if k == "__exception__" {
      assert h[0].0 == k;
    } else if k == "__previous__" {
      assert h[1].0 == k;
    } else if k == "__root__" {
      assert h[2].0 == k;
    } else {
      assert !HasKey(h, k);
    }
  }

  /** The object as it stands when the constructor asks its Fault for a message: no message yet. */
  function Partial(fault: Fault, cls: SplClasses.SplClass, context: Ctx, previous: Option<Throwable>): Throwable {
    Throwable(SplClasses.Tag(cls), "", 0, "", 0, previous, Some(fault), context)
  }

  /**
   * `new $cls($fault, $context, $previous)`: the message is `$fault->message($this->context)`
   * (given here as `message`), asked while the object's own message is still empty; the code is 0.
   * Whatever `message` raises, the constructor raises.
   */
  function Construct(fault: Fault, cls: SplClasses.SplClass, context: Ctx, previous: Option<Throwable>, message: Ctx -> Outcome<string>)
    : (r: Outcome<Throwable>)
    ensures r.Done? <==> message(Context(Partial(fault, cls, context, previous))).Done?
    ensures r.Raised? ==> r == Raised(message(Context(Partial(fault, cls, context, previous))).thrown)
    ensures r.Done? ==> r.value.fault == Some(fault) && r.value.previous == previous && r.value.code == 0
    ensures r.Done? ==> r.value.tag == SplClasses.Tag(cls) && r.value.given == context
    ensures r.Done? ==> r.value.message == message(Context(Partial(fault, cls, context, previous))).value
  {
    var self := Partial(fault, cls, context, previous);
    match message(Context(self))
    case Raised(t) => Raised(t)
    case Done(m) => Done(self.(message := m))
  }

  /** A constructed exceptable's root: its own previous chain's root, or itself. */
  lemma ConstructRoot(fault: Fault, cls: SplClasses.SplClass, context: Ctx, previous: Option<Throwable>, message: Ctx -> Outcome<string>)
    requires Construct(fault, cls, context, previous, message).Done?
    ensures var x := Construct(fault, cls, context, previous, message).value;
      Root(x) == (if previous.Some? then RootOf(previous.value) else x)
  {
  }

  /** Some link of the chain is an Exceptable carrying `f`. */
  predicate InChain(t: Throwable, f: Fault)
    decreases t
  {
    t.fault == Some(f) || (t.previous.Some? && InChain(t.previous.value, f))
  }

  /** `InChain` is membership in the chain. */
  lemma {:induction false} InChainIff(t: Throwable, f: Fault)
    ensures InChain(t, f) <==> exists i :: 0 <= i < |Chain(t)| && Chain(t)[i].fault == Some(f)
    decreases t
  {
    var c := Chain(t);
    assert c[0] == t;
    match t.previous
    case None =>
      assert c == [t];
      assert InChain(t, f) <==> t.fault == Some(f);
    case Some(p) =>
      assert InChain(t, f) <==> t.fault == Some(f) || InChain(p, f);
      InChainIff(p, f);
      assert c == [t] + Chain(p);
      if InChain(p, f) {
        var i :| 0 <= i < |Chain(p)| && Chain(p)[i].fault == Some(f);
        assert c[i + 1] == Chain(p)[i];
      }
      if exists i :: 0 <= i < |c| && c[i].fault == Some(f) {
        var i :| 0 <= i < |c| && c[i].fault == Some(f);
        if i > 0 {
          assert Chain(p)[i - 1] == c[i];
        }
      }
  }

  /** `has($fault)`: walks the chain from the exceptable itself. */
  method Has(x: Throwable, f: Fault) returns (r: bool)
    ensures r == InChain(x, f)
  {
    var t: Option<Throwable> := Some(x);
    while t.Some?
      invariant InChain(x, f) == (t.Some? && InChain(t.value, f))
      decreases t
    {
      if IsExceptable(t.value) && t.value.fault == Some(f) {
        assert InChain(t.value, f);
        return true;
      }
      t := t.value.previous;
    }
    return false;
  }

  /** `is($fault)`: the exceptable's own fault, by identity. */
  predicate Is(x: Throwable, f: Fault) {
    x.fault == Some(f)
  }

  /** What `is` finds, `has` finds; `has` also finds faults further down the chain. */
  lemma IsThenHas(x: Throwable, f: Fault, p: Throwable)
    ensures Is(x, f) ==> InChain(x, f)
    ensures x.previous == Some(p) && InChain(p, f) ==> InChain(x, f)
    ensures x.previous.None? ==> (InChain(x, f) <==> Is(x, f))
  {
  }

  /** A constructed exceptable has its own fault, and every fault of its previous chain. */
  lemma ConstructHas(fault: Fault, cls: SplClasses.SplClass, context: Ctx, previous: Option<Throwable>, message: Ctx -> Outcome<string>, g: Fault)
    requires Construct(fault, cls, context, previous, message).Done?
    ensures var x := Construct(fault, cls, context, previous, message).value;
      InChain(x, g) <==> g == fault || (previous.Some? && InChain(previous.value, g))
  {
  }
}
