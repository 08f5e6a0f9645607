/**
 * `_ThrowableContext`: fills a message context with details of the exception, previous and root
 * throwables (`__exception__`, `__previousMessage__`, `__rootCode__`, ...), so that message
 * templates can refer to them.
 */
module ThrowableContext {
  import opened Wrappers
  import opened Values
  import Exceptables

  /** The three enum cases, in declaration order. */
  datatype Slot = Exception | Previous | Root

  const Slots: seq<Slot> := [Exception, Previous, Root]

  /** `__{type}__`. */
  function SlotKey(s: Slot): string {
    match s
    case Exception => "__exception__"
    case Previous => "__previous__"
    case Root => "__root__"
  }

  /** The six keys `throwableContextFrom` fills for a slot, in order. */
  function DetailKeys(s: Slot): seq<string> {
    match s
    case Exception =>
      ["__exception__", "__exceptionMessage__", "__exceptionCode__", "__exceptionFile__", "__exceptionLine__", "__exceptionFault__"]
    case Previous =>
      ["__previous__", "__previousMessage__", "__previousCode__", "__previousFile__", "__previousLine__", "__previousFault__"]
    case Root =>
      ["__root__", "__rootMessage__", "__rootCode__", "__rootFile__", "__rootLine__", "__rootFault__"]
  }

  /** `throwableContextFrom($t, $type)`: the throwable, its message, code, file, line and fault (or null). */
  function From(t: Throwable, s: Slot): (r: Ctx)
    ensures |r| == 6 && forall i :: 0 <= i < 6 ==> r[i].0 == DetailKeys(s)[i]
    ensures r[0].1 == ThrowableV(t) && r[1].1 == Str(t.message) && r[2].1 == Int(t.code)
    ensures r[3].1 == Str(t.file) && r[4].1 == Int(t.line)
    ensures r[5].1 == (if t.fault.Some? then FaultV(t.fault.value) else Null)
  {
    var k := DetailKeys(s);
    [(k[0], ThrowableV(t)), (k[1], Str(t.message)), (k[2], Int(t.code)), (k[3], Str(t.file)), (k[4], Int(t.line)),
     (k[5], if t.fault.Some? then FaultV(t.fault.value) else Null)]
  }

  /** The runtime's complaint when a slot holds something that is not a throwable. */
  function NotAThrowable(v: Value): Throwable {
    TypeError("at\\exceptable\\_ThrowableContext::throwableContextFrom(): Argument #1 ($throwable) must be of type Throwable, "
      + DebugType(v) + " given")
  }

  /** The throwable passed explicitly for a slot; callers only ever pass `previous:`. */
  function Explicit(s: Slot, previous: Option<Throwable>): Option<Throwable> {
    if s == Previous then previous else None
  }

  /** `$throwables[$type->value] ?? $context["__{$type->value}__"] ?? null`. */
  function Source(context: Ctx, previous: Option<Throwable>, s: Slot): Value {
    match Explicit(s, previous)
    case Some(t) => ThrowableV(t)
    case None => Get(context, SlotKey(s))
  }

  /**
   * One turn of the loop: a throwable adds its details (`+=`, so present keys are kept),
   * nothing sets the slot to null, anything else is a type error.
   */
  function Step(context: Ctx, previous: Option<Throwable>, s: Slot): Outcome<Ctx> {
    var v := Source(context, previous, s);
    if v == Null then Done(Put(context, SlotKey(s), Null))
    else if v.ThrowableV? then Done(Union(context, From(v.t, s)))
    else Raised(NotAThrowable(v))
  }

  function Steps(context: Ctx, previous: Option<Throwable>, slots: seq<Slot>): Outcome<Ctx>
    decreases |slots|
  {
    if slots == [] then Done(context)
    else
      match Step(context, previous, slots[0])
      case Raised(t) => Raised(t)
      case Done(c) => Steps(c, previous, slots[1..])
  }

  /**
   * After the loop: with no root set, the root of the exception (or else the previous), when that
   * is an Exceptable, supplies the root details; `__root__` itself stays null.
   */
  function RootFallback(context: Ctx): Ctx {
    var x := Coalesce(context, "__exception__", Get(context, "__previous__"));
    if !Isset(context, "__root__") && x.ThrowableV? && IsExceptable(x.t) then
      Union(context, From(Exceptables.Root(x.t), Root))
    else context
  }

  /** The remaining turns of the loop over `slots`, then the root fallback. */
  function AddOver(context: Ctx, previous: Option<Throwable>, slots: seq<Slot>): Outcome<Ctx> {
    match Steps(context, previous, slots)
    case Raised(t) => Raised(t)
    case Done(c) => Done(RootFallback(c))
  }

  /** `addThrowableContext($context, previous: $previous)`. */
  function Add(context: Ctx, previous: Option<Throwable>): Outcome<Ctx> {
    AddOver(context, previous, Slots)
  }

  /** One turn less: a raising turn ends everything, a completing one leaves the rest to do. */
  lemma AddOverStep(c: Ctx, previous: Option<Throwable>, slots: seq<Slot>)
    requires slots != []
    ensures Step(c, previous, slots[0]).Raised? ==> AddOver(c, previous, slots) == Step(c, previous, slots[0])
    ensures Step(c, previous, slots[0]).Done? ==>
      AddOver(c, previous, slots) == AddOver(Step(c, previous, slots[0]).value, previous, slots[1..])
  {
  }

  /** One turn of the loop: the `i`-th case ends everything or leaves the cases after it. */
  lemma LoopTurn(c: Ctx, previous: Option<Throwable>, i: nat)
    requires i < |Slots|
    ensures Step(c, previous, Slots[i]).Raised? ==> AddOver(c, previous, Slots[i..]) == Step(c, previous, Slots[i])
    ensures Step(c, previous, Slots[i]).Done? ==>
      AddOver(c, previous, Slots[i..]) == AddOver(Step(c, previous, Slots[i]).value, previous, Slots[i + 1..])
  {
    assert Slots[i..][0] == Slots[i] && Slots[i..][1..] == Slots[i + 1..];
    AddOverStep(c, previous, Slots[i..]);
  }

  /** After the last case only the root fallback is left. */
  lemma AddOverNone(c: Ctx, previous: Option<Throwable>)
    ensures AddOver(c, previous, []) == Done(RootFallback(c))
  {
  }

  /** The loop over the cases, as written. */
  method AddThrowableContext(context: Ctx, previous: Option<Throwable>) returns (r: Outcome<Ctx>)
    ensures r == Add(context, previous)
  {
    var c := context;
    ghost var goal := Add(context, previous);
    for i := 0 to |Slots|
      invariant goal == AddOver(c, previous, Slots[i..])
    {
      var step := Turn(c, previous, Slots[i]);
      LoopTurn(c, previous, i);
      if step.Raised? {
        return step;
      }
      c := step.value;
    }
    AddOverNone(c, previous);
    c := FillRoot(c);
    return Done(c);
  }

  /** The body of the loop for one case. */
  method Turn(c: Ctx, previous: Option<Throwable>, s: Slot) returns (r: Outcome<Ctx>)
    ensures r == Step(c, previous, s)
  {
    var throwable := if Explicit(s, previous).Some? then ThrowableV(Explicit(s, previous).value) else Get(c, SlotKey(s));
    assert throwable == Source(c, previous, s);
    if throwable == Null {
      r := Done(Put(c, SlotKey(s), Null));
    } else if throwable.ThrowableV? {
      r := Done(Union(c, From(throwable.t, s)));
    } else {
      r := Raised(NotAThrowable(throwable));
    }
  }

  /** The statements after the loop: the root fallback. */
  method FillRoot(context: Ctx) returns (c: Ctx)
    ensures c == RootFallback(context)
  {
    c := context;
    if !Isset(c, "__root__") {
      var x := Coalesce(c, "__exception__", Get(c, "__previous__"));
      if x.ThrowableV? && IsExceptable(x.t) {
        c := Union(c, From(Exceptables.Root(x.t), Root));
      }
    }
  }

  // ---------------------------------------------------------------------------------------------
  // Properties

  /** Every step keeps what the context already holds. */
  lemma StepExtends(context: Ctx, previous: Option<Throwable>, s: Slot)
    requires Step(context, previous, s).Done?
    ensures var r := Step(context, previous, s).value; |r| >= |context| && r[..|context|] == context
    ensures HasKey(Step(context, previous, s).value, SlotKey(s))
  {
    var k := SlotKey(s);
    var exp := Explicit(s, previous);
    if exp.Some? || Get(context, k).ThrowableV? {
      var t := if exp.Some? then exp.value else Get(context, k).t;
      var f := From(t, s);
      assert HasKey(f, k) by { assert f[0].0 == k; }
    } else if HasKey(context, k) {
      assert Lookup(context, k) == Some(Null);
      PutSame(context, k, Null);
    } else {
      var r := Put(context, k, Null);
      assert r[|context|].0 == k;
    }
  }

  /** A key that is present stays present. */
  lemma KeyKept(a: Ctx, b: Ctx, k: string)
    requires |b| >= |a| && b[..|a|] == a && HasKey(a, k)
    ensures HasKey(b, k)
  {
    var i :| 0 <= i < |a| && a[i].0 == k;
    assert b[i] == a[i];
  }

  lemma {:induction false} StepsExtend(context: Ctx, previous: Option<Throwable>, slots: seq<Slot>)
    requires Steps(context, previous, slots).Done?
    ensures var r := Steps(context, previous, slots).value; |r| >= |context| && r[..|context|] == context
    ensures forall i :: 0 <= i < |slots| ==> HasKey(Steps(context, previous, slots).value, SlotKey(slots[i]))
    decreases |slots|
  {
    if slots != [] {
      StepExtends(context, previous, slots[0]);
      var c := Step(context, previous, slots[0]).value;
      StepsExtend(c, previous, slots[1..]);
      var r := Steps(context, previous, slots).value;
      assert r == Steps(c, previous, slots[1..]).value;
      assert r[..|context|] == r[..|c|][..|context|];
      forall i | 0 <= i < |slots| ensures HasKey(r, SlotKey(slots[i])) {
        if i == 0 {
          KeyKept(c, r, SlotKey(slots[0]));
        } else {
          assert slots[1..][i - 1] == slots[i];
        }
      }
    }
  }

  /**
   * The caller's context is never changed, only extended, and afterwards all three slot keys
   * are present.
   */
  lemma AddExtends(context: Ctx, previous: Option<Throwable>)
    requires Add(context, previous).Done?
    ensures var r := Add(context, previous).value; |r| >= |context| && r[..|context|] == context
    ensures forall s :: HasKey(Add(context, previous).value, SlotKey(s))
  {
    StepsExtend(context, previous, Slots);
    var c := Steps(context, previous, Slots).value;
    var r := RootFallback(c);
    assert Add(context, previous).value == r;
    FallbackExtends(c);
    PrefixTrans(context, c, r);
    forall s ensures HasKey(r, SlotKey(s)) {
      var i := if s == Exception then 0 else if s == Previous then 1 else 2;
      assert Slots[i] == s;
      KeyKept(c, r, SlotKey(s));
    }
  }

  /** The root fallback only appends. */
  lemma FallbackExtends(c: Ctx)
    ensures |RootFallback(c)| >= |c| && RootFallback(c)[..|c|] == c
  {
  }

  /** A prefix of a prefix is a prefix. */
  lemma PrefixTrans(a: Ctx, b: Ctx, c: Ctx)
    requires |b| >= |a| && b[..|a|] == a && |c| >= |b| && c[..|b|] == b
    ensures c[..|a|] == a
  {
    assert c[..|a|] == c[..|b|][..|a|];
  }

  /** The first slot that holds something other than null or a throwable raises a type error. */
  lemma BadSlotRaises(context: Ctx, v: Value)
    requires Get(context, "__exception__") == v && v != Null && !v.ThrowableV?
    ensures Add(context, None) == Raised(NotAThrowable(v))
  {
  }

  /** None of the three slot keys is present. */
  predicate NoSlots(context: Ctx) {
    !HasKey(context, "__exception__") && !HasKey(context, "__previous__") && !HasKey(context, "__root__")
  }

  /** A slot with no explicit throwable and no entry is appended as null. */
  lemma StepAbsent(c: Ctx, previous: Option<Throwable>, s: Slot)
    requires Explicit(s, previous).None? && !HasKey(c, SlotKey(s))
    ensures Step(c, previous, s) == Done(c + [(SlotKey(s), Null)])
  {
  }

  /** A slot whose source is a throwable whose details are all new appends those details. */
  lemma StepFresh(c: Ctx, previous: Option<Throwable>, s: Slot, t: Throwable)
    requires Source(c, previous, s) == ThrowableV(t)
    requires forall i :: 0 <= i < 6 ==> !HasKey(c, DetailKeys(s)[i])
    ensures Step(c, previous, s) == Done(c + From(t, s))
  {
    FromUnique(t, s);
    UnionDisjoint(c, From(t, s));
  }

  /** A key missing from `a` and different from `e`'s key is missing from `a + [e]`. */
  lemma StillAbsent(a: Ctx, e: (string, Value), k: string)
    requires !HasKey(a, k) && k != e.0
    ensures !HasKey(a + [e], k)
  {
    HasKeySnoc(a, e, k);
  }

  /** A key missing from both parts is missing from their concatenation. */
  lemma AbsentFromBoth(a: Ctx, b: Ctx, k: string)
    requires !HasKey(a, k) && !HasKey(b, k)
    ensures !HasKey(a + b, k)
  {
    forall i | 0 <= i < |a + b| ensures (a + b)[i].0 != k {
      if i < |a| {
        assert (a + b)[i] == a[i];
      } else {
        assert (a + b)[i] == b[i - |a|];
      }
    }
  }

  /** The three turns without a throwable, in a context without slot keys. */
  lemma NoThrowablesSteps(context: Ctx)
    requires NoSlots(context)
    ensures Add(context, None) ==
      Done(RootFallback(context + [("__exception__", Null)] + [("__previous__", Null)] + [("__root__", Null)]))
  {
    var c1 := context + [("__exception__", Null)];
    var c2 := c1 + [("__previous__", Null)];
    StepAbsent(context, None, Exception);
    StillAbsent(context, ("__exception__", Null), "__previous__");
    StepAbsent(c1, None, Previous);
    StillAbsent(context, ("__exception__", Null), "__root__");
    StillAbsent(c1, ("__previous__", Null), "__root__");
    StepAbsent(c2, None, Root);
    SlotsShape();
    AddOverStep(context, None, Slots);
    AddOverStep(c1, None, [Previous, Root]);
    AddOverStep(c2, None, [Root]);
  }

  /** With the three slots null, the root fallback has nothing to add. */
  lemma NullSlotsKept(context: Ctx)
    requires NoSlots(context)
    ensures var c := context + [("__exception__", Null), ("__previous__", Null), ("__root__", Null)];
      RootFallback(c) == c
  {
    var tail: Ctx := [("__exception__", Null), ("__previous__", Null), ("__root__", Null)];
    LookupAppend(context, tail, "__exception__");
    LookupAppend(context, tail, "__previous__");
    LookupAppend(context, tail, "__root__");
  }

  /** Without any throwable, the three slots are appended as nulls and nothing else changes. */
  lemma NoThrowables(context: Ctx)
    requires NoSlots(context)
    ensures Add(context, None) == Done(context + [("__exception__", Null), ("__previous__", Null), ("__root__", Null)])
  {
    NoThrowablesSteps(context);
    NullSlotsKept(context);
    AppendThree(context, ("__exception__", Null), ("__previous__", Null), ("__root__", Null));
  }

  lemma AppendThree<T>(s: seq<T>, a: T, b: T, c: T)
    ensures s + [a] + [b] + [c] == s + [a, b, c]
  {
  }

  /** An entry whose key is already present adds nothing to a union. */
  lemma UnionSkip(a: Ctx, b: Ctx)
    requires b != [] && HasKey(a, b[0].0)
    ensures Union(a, b) == Union(a, b[1..])
  {
  }

  /** The context lacks every key the previous throwable's and its root's details would use. */
  predicate FreshFor(context: Ctx) {
    NoSlots(context) &&
    (forall i :: 0 <= i < 6 ==> !HasKey(context, DetailKeys(Previous)[i])) &&
    (forall i :: 0 <= i < 6 ==> !HasKey(context, DetailKeys(Root)[i]))
  }

  /** Detail keys are unique within a slot. */
  lemma FromUnique(t: Throwable, s: Slot)
    ensures UniqueKeys(From(t, s))
  {
  }

  /** The detail keys of two different slots never meet, nor a slot's keys and another slot's key. */
  lemma DetailKeysApart(s: Slot, s': Slot, i: nat)
    requires s != s' && i < 6
    ensures DetailKeys(s)[i] != SlotKey(s')
    ensures forall j :: 0 <= j < 6 ==> DetailKeys(s)[i] != DetailKeys(s')[j]
  {
    assert DetailKeys(s)[i][2] != DetailKeys(s')[0][2];
    forall j | 0 <= j < 6 ensures DetailKeys(s)[i] != DetailKeys(s')[j] {
      assert DetailKeys(s)[i][2] != DetailKeys(s')[j][2];
    }
  }

  /** Each of the three turns with a previous throwable, in a fresh context. */
  lemma PreviousTurns(context: Ctx, p: Throwable)
    requires FreshFor(context)
    ensures var c1 := context + [("__exception__", Null)];
      var c2 := c1 + From(p, Previous);
      Step(context, Some(p), Exception) == Done(c1) &&
      Step(c1, Some(p), Previous) == Done(c2) &&
      Step(c2, Some(p), Root) == Done(c2 + [("__root__", Null)])
  {
    var c1 := context + [("__exception__", Null)];
    StepAbsent(context, Some(p), Exception);
    PreviousDetailsNew(context);
    assert Source(c1, Some(p), Previous) == ThrowableV(p);
    StepFresh(c1, Some(p), Previous, p);
    RootStillAbsent(context, p);
    StepAbsent(c1 + From(p, Previous), Some(p), Root);
  }

  /** After the exception turn the previous's detail keys are still all new. */
  lemma PreviousDetailsNew(context: Ctx)
    requires FreshFor(context)
    ensures forall i :: 0 <= i < 6 ==> !HasKey(context + [("__exception__", Null)], DetailKeys(Previous)[i])
  {
    forall i | 0 <= i < 6 ensures !HasKey(context + [("__exception__", Null)], DetailKeys(Previous)[i]) {
      DetailKeysApart(Previous, Exception, i);
      StillAbsent(context, ("__exception__", Null), DetailKeys(Previous)[i]);
    }
  }

  /** After the previous turn the root slot is still absent. */
  lemma RootStillAbsent(context: Ctx, p: Throwable)
    requires FreshFor(context)
    ensures !HasKey(context + [("__exception__", Null)] + From(p, Previous), "__root__")
  {
    var fp := From(p, Previous);
    StillAbsent(context, ("__exception__", Null), "__root__");
    assert !HasKey(fp, "__root__") by {
      forall i | 0 <= i < 6 ensures fp[i].0 != "__root__" {
        DetailKeysApart(Previous, Root, i);
      }
    }
    AbsentFromBoth(context + [("__exception__", Null)], fp, "__root__");
  }

  /** A completing turn leaves the remaining turns to do. */
  lemma AddOverDone(c: Ctx, previous: Option<Throwable>, slots: seq<Slot>, c': Ctx)
    requires slots != [] && Step(c, previous, slots[0]) == Done(c')
    ensures AddOver(c, previous, slots) == AddOver(c', previous, slots[1..])
  {
  }

  /** The appended entries, regrouped. */
  lemma PreviousTailSplit(context: Ctx, p: Throwable)
    ensures context + [("__exception__", Null)] + From(p, Previous) + [("__root__", Null)] == context + PreviousTail(p)
  {
  }

  /** The three turns with a previous throwable, one after the other. */
  lemma PreviousChain(context: Ctx, p: Throwable)
    requires FreshFor(context)
    ensures AddOver(context, Some(p), Slots) ==
      AddOver(context + [("__exception__", Null)] + From(p, Previous) + [("__root__", Null)], Some(p), [])
  {
    var c1 := context + [("__exception__", Null)];
    var c2 := c1 + From(p, Previous);
    PreviousTurns(context, p);
    SlotsShape();
    AddOverDone(context, Some(p), Slots, c1);
    AddOverDone(c1, Some(p), [Previous, Root], c2);
    AddOverDone(c2, Some(p), [Root], c2 + [("__root__", Null)]);
  }

  /** The order of the turns, one case at a time. */
  lemma SlotsShape()
    ensures Slots[0] == Exception && Slots[1..] == [Previous, Root]
    ensures [Previous, Root][0] == Previous && [Previous, Root][1..] == [Root]
    ensures [Root][0] == Root && [Root][1..] == []
  {
    assert Slots[1..] == [Previous, Root];
  }

  /** The state after the three turns with a previous throwable, in a fresh context. */
  lemma WithPreviousSteps(context: Ctx, p: Throwable)
    requires FreshFor(context)
    ensures Add(context, Some(p)) == Done(RootFallback(context + PreviousTail(p)))
  {
    PreviousChain(context, p);
    PreviousTailSplit(context, p);
    var c3 := context + PreviousTail(p);
    assert AddOver(c3, Some(p), []) == Done(RootFallback(c3));
  }

  /**
   * With a previous throwable: the exception slot is null, the previous's details follow, the
   * root slot is null, and when the previous is an Exceptable its root's details close the
   * context (all but `__root__`, which is already there).
   */
  lemma WithPrevious(context: Ctx, p: Throwable)
    requires FreshFor(context)
    ensures Add(context, Some(p)) == Done(
      context + PreviousTail(p)
      + (if IsExceptable(p) then From(Exceptables.Root(p), Root)[1..] else []))
  {
    WithPreviousSteps(context, p);
    PreviousFallback(context, p);
  }

  /** The entries the three turns append when only a previous throwable is given. */
  function PreviousTail(p: Throwable): Ctx {
    [("__exception__", Null)] + From(p, Previous) + [("__root__", Null)]
  }

  /** What the fallback reads after those turns: no root, no exception, the previous throwable. */
  lemma PreviousTailLookups(context: Ctx, p: Throwable)
    requires NoSlots(context)
    ensures var c := context + PreviousTail(p);
      !Isset(c, "__root__") && HasKey(c, "__root__") &&
      Coalesce(c, "__exception__", Get(c, "__previous__")) == ThrowableV(p)
  {
    var tail := PreviousTail(p);
    PreviousTailFinds(p);
    LookupAppend(context, tail, "__exception__");
    LookupAppend(context, tail, "__previous__");
    LookupAppend(context, tail, "__root__");
  }

  /** The three slot entries of the tail: null, the previous throwable, null. */
  lemma PreviousTailFinds(p: Throwable)
    ensures Lookup(PreviousTail(p), "__exception__") == Some(Null)
    ensures Lookup(PreviousTail(p), "__previous__") == Some(ThrowableV(p))
    ensures Lookup(PreviousTail(p), "__root__") == Some(Null)
  {
    var fp := From(p, Previous);
    var tail := PreviousTail(p);
    assert tail[0] == ("__exception__", Null) && tail[1] == fp[0];
    assert tail == [tail[0]] + (fp + [("__root__", Null)]);
    assert !HasKey(fp, "__root__") by {
      forall j | 0 <= j < 6 ensures fp[j].0 != "__root__" {
        DetailKeysApart(Previous, Root, j);
      }
    }
    LookupAppend([tail[0]], fp + [("__root__", Null)], "__root__");
    LookupAppend(fp, [("__root__", Null)], "__root__");
  }

  /** The root's details other than `__root__` are all new after those turns. */
  lemma RootDetailsFresh(context: Ctx, p: Throwable, r: Throwable)
    requires FreshFor(context)
    ensures var rest := From(r, Root)[1..];
      forall i :: 0 <= i < |rest| ==> !HasKey(context + PreviousTail(p), rest[i].0)
  {
    var fp := From(p, Previous);
    var rest := From(r, Root)[1..];
    forall i | 0 <= i < |rest| ensures !HasKey(context + PreviousTail(p), rest[i].0) {
      var k := rest[i].0;
      assert k == DetailKeys(Root)[i + 1];
      DetailKeysApart(Root, Exception, i + 1);
      DetailKeysApart(Root, Previous, i + 1);
      assert !HasKey(fp, k);
      AbsentFromBoth([("__exception__", Null)], fp, k);
      AbsentFromBoth([("__exception__", Null)] + fp, [("__root__", Null)], k);
      AbsentFromBoth(context, PreviousTail(p), k);
    }
  }

  /** A root's details over a context holding `__root__` and none of the other five root keys. */
  lemma RootDetailsAppended(c: Ctx, r: Throwable)
    requires HasKey(c, "__root__")
    requires var rest := From(r, Root)[1..]; forall i :: 0 <= i < |rest| ==> !HasKey(c, rest[i].0)
    ensures Union(c, From(r, Root)) == c + From(r, Root)[1..]
  {
    var fr := From(r, Root);
    assert fr[0].0 == "__root__" by { assert DetailKeys(Root)[0] == "__root__"; }
    UnionSkip(c, fr);
    RestUnique(r);
    UnionDisjoint(c, fr[1..]);
  }

  /** The root's details after `__root__` have distinct keys. */
  lemma RestUnique(r: Throwable)
    ensures UniqueKeys(From(r, Root)[1..])
  {
    FromUnique(r, Root);
    var fr := From(r, Root);
    forall i, j | 0 <= i < j < |fr[1..]|
      ensures fr[1..][i].0 != fr[1..][j].0
    {
      assert fr[1..][i] == fr[i + 1] && fr[1..][j] == fr[j + 1];
    }
  }

  /** After the turns with a previous throwable, the fallback adds its root's details when it is an Exceptable. */
  lemma PreviousFallback(context: Ctx, p: Throwable)
    requires FreshFor(context)
    ensures var c := context + PreviousTail(p);
      RootFallback(c) == c + (if IsExceptable(p) then From(Exceptables.Root(p), Root)[1..] else [])
  {
    var c3 := context + PreviousTail(p);
    PreviousTailLookups(context, p);
    if IsExceptable(p) {
      assert RootFallback(c3) == Union(c3, From(Exceptables.Root(p), Root));
      RootDetailsFresh(context, p, Exceptables.Root(p));
      RootDetailsAppended(c3, Exceptables.Root(p));
    }
  }

  // ---------------------------------------------------------------------------------------------
  // Idempotence: a context that went through `addThrowableContext` comes back unchanged

  /** The slot's key is present and its source, when a throwable, has all its details present. */
  predicate SlotSettled(c: Ctx, previous: Option<Throwable>, s: Slot) {
    HasKey(c, SlotKey(s)) &&
    (Source(c, previous, s) == Null ||
     (Source(c, previous, s).ThrowableV? && forall i :: 0 <= i < 6 ==> HasKey(c, DetailKeys(s)[i])))
  }

  /** A settled slot's turn changes nothing. */
  lemma SettledStep(c: Ctx, previous: Option<Throwable>, s: Slot)
    requires SlotSettled(c, previous, s)
    ensures Step(c, previous, s) == Done(c)
  {
    var k := SlotKey(s);
    var v := Source(c, previous, s);
    if v == Null {
      assert Explicit(s, previous).None?;
      assert Lookup(c, k) == Some(Null);
      PutSame(c, k, Null);
    } else {
      var f := From(v.t, s);
      forall i | 0 <= i < |f| ensures HasKey(c, f[i].0) {
        assert f[i].0 == DetailKeys(s)[i];
      }
      UnionPresent(c, f);
    }
  }

  /** Extending a context keeps a slot settled. */
  lemma SettledExtends(c: Ctx, c': Ctx, previous: Option<Throwable>, s: Slot)
    requires SlotSettled(c, previous, s) && |c'| >= |c| && c'[..|c|] == c
    ensures SlotSettled(c', previous, s)
  {
    var k := SlotKey(s);
    KeyKept(c, c', k);
    assert c' == c + c'[|c|..];
    LookupAppend(c, c'[|c|..], k);
    assert Source(c', previous, s) == Source(c, previous, s);
    if Source(c, previous, s) != Null {
      forall i | 0 <= i < 6 ensures HasKey(c', DetailKeys(s)[i]) {
        KeyKept(c, c', DetailKeys(s)[i]);
      }
    }
  }

  /** After its turn, a slot is settled. */
  lemma StepSettles(c: Ctx, previous: Option<Throwable>, s: Slot)
    requires Step(c, previous, s).Done?
    ensures SlotSettled(Step(c, previous, s).value, previous, s)
  {
    var k := SlotKey(s);
    var v := Source(c, previous, s);
    var c' := Step(c, previous, s).value;
    StepExtends(c, previous, s);
    if v == Null {
      PutLookup(c, k, Null, k);
      assert Explicit(s, previous).None?;
    } else {
      var f := From(v.t, s);
      forall i | 0 <= i < 6 ensures HasKey(c', DetailKeys(s)[i]) {
        assert f[i].0 == DetailKeys(s)[i];
        assert HasKey(f, DetailKeys(s)[i]);
      }
      if Explicit(s, previous).None? {
        UnionLookup(c, f, k);
      }
    }
  }

  /** After the turns over `slots`, every one of them is settled. */
  lemma {:induction false} StepsSettle(c: Ctx, previous: Option<Throwable>, slots: seq<Slot>)
    requires Steps(c, previous, slots).Done?
    ensures forall i :: 0 <= i < |slots| ==> SlotSettled(Steps(c, previous, slots).value, previous, slots[i])
    decreases |slots|
  {
    if slots != [] {
      var c1 := Step(c, previous, slots[0]).value;
      var r := Steps(c, previous, slots).value;
      assert r == Steps(c1, previous, slots[1..]).value;
      StepsSettle(c1, previous, slots[1..]);
      StepSettles(c, previous, slots[0]);
      StepsExtend(c1, previous, slots[1..]);
      SettledExtends(c1, r, previous, slots[0]);
      forall i | 0 <= i < |slots| ensures SlotSettled(r, previous, slots[i]) {
        if i > 0 { assert slots[1..][i - 1] == slots[i]; }
      }
    }
  }

  /** Turns over settled slots change nothing. */
  lemma {:induction false} SettledSteps(c: Ctx, previous: Option<Throwable>, slots: seq<Slot>)
    requires forall i :: 0 <= i < |slots| ==> SlotSettled(c, previous, slots[i])
    ensures Steps(c, previous, slots) == Done(c)
    decreases |slots|
  {
    if slots != [] {
      SettledStep(c, previous, slots[0]);
      forall i | 0 <= i < |slots[1..]| ensures SlotSettled(c, previous, slots[1..][i]) {
        assert slots[1..][i] == slots[i + 1];
      }
      SettledSteps(c, previous, slots[1..]);
    }
  }

  /** The root fallback only extends the context, and a second fallback adds nothing. */
  lemma FallbackIdempotent(c: Ctx)
    ensures |RootFallback(c)| >= |c| && RootFallback(c)[..|c|] == c
    ensures RootFallback(RootFallback(c)) == RootFallback(c)
  {
    FallbackExtends(c);
    var x := Coalesce(c, "__exception__", Get(c, "__previous__"));
    if !Isset(c, "__root__") && x.ThrowableV? && IsExceptable(x.t) {
      var f := From(Exceptables.Root(x.t), Root);
      var r := Union(c, f);
      RootDetailsNoSlots(Exceptables.Root(x.t));
      UnionLookup(c, f, "__exception__");
      UnionLookup(c, f, "__previous__");
      assert RootFallback(c) == r;
      assert Coalesce(r, "__exception__", Get(r, "__previous__")) == x;
      UnionCovers(c, f);
      FallbackSettled(r, x.t);
    }
  }

  /** A context that already holds every root detail of its throwable is left as it is. */
  lemma FallbackSettled(r: Ctx, t: Throwable)
    requires IsExceptable(t) && Coalesce(r, "__exception__", Get(r, "__previous__")) == ThrowableV(t)
    requires forall i :: 0 <= i < |From(Exceptables.Root(t), Root)| ==> HasKey(r, From(Exceptables.Root(t), Root)[i].0)
    ensures RootFallback(r) == r
  {
    UnionPresent(r, From(Exceptables.Root(t), Root));
  }

  /** The root's details hold neither the exception nor the previous slot key. */
  lemma RootDetailsNoSlots(t: Throwable)
    ensures !HasKey(From(t, Root), "__exception__") && !HasKey(From(t, Root), "__previous__")
  {
    var f := From(t, Root);
    forall i | 0 <= i < 6 ensures f[i].0 != "__exception__" && f[i].0 != "__previous__" {
      DetailKeysApart(Root, Exception, i);
      DetailKeysApart(Root, Previous, i);
    }
  }

  /** Every key of `b` is in `a + b`. */
  lemma UnionCovers(a: Ctx, b: Ctx)
    ensures forall i :: 0 <= i < |b| ==> HasKey(Union(a, b), b[i].0)
  {
    forall i | 0 <= i < |b| ensures HasKey(Union(a, b), b[i].0) {
      assert HasKey(b, b[i].0);
    }
  }

  /**
   * `addThrowableContext` is idempotent: its result, augmented again with the same previous
   * throwable, comes back unchanged.
   */
  lemma AddIdempotent(context: Ctx, previous: Option<Throwable>)
    requires Add(context, previous).Done?
    ensures Add(Add(context, previous).value, previous) == Add(context, previous)
  {
    var c := Steps(context, previous, Slots).value;
    var r := RootFallback(c);
    assert Add(context, previous) == Done(r);
    StepsSettle(context, previous, Slots);
    FallbackIdempotent(c);
    forall i | 0 <= i < |Slots| ensures SlotSettled(r, previous, Slots[i]) {
      SettledExtends(c, r, previous, Slots[i]);
    }
    SettledSteps(r, previous, Slots);
  }

  // ---------------------------------------------------------------------------------------------
  // When `addThrowableContext` cannot raise

  /** Every slot key holds nothing, null or a throwable. */
  predicate Benign(c: Ctx) {
    forall s: Slot :: Get(c, SlotKey(s)) == Null || Get(c, SlotKey(s)).ThrowableV?
  }

  /** A slot's details hold, among the slot keys, only the slot's own key. */
  lemma LookupFrom(t: Throwable, s: Slot, s': Slot)
    ensures Lookup(From(t, s), SlotKey(s')) == if s == s' then Some(ThrowableV(t)) else None
  {
    var f := From(t, s);
    if s == s' {
      assert f[0].0 == SlotKey(s');
    } else {
      forall i | 0 <= i < 6 ensures f[i].0 != SlotKey(s') {
        DetailKeysApart(s, s', i);
      }
    }
  }

  /** On a benign context a turn completes, and leaves the context benign. */
  lemma BenignStep(c: Ctx, previous: Option<Throwable>, s: Slot)
    requires Benign(c)
    ensures Step(c, previous, s).Done? && Benign(Step(c, previous, s).value)
  {
    var k := SlotKey(s);
    var v := Source(c, previous, s);
    assert v == Null || v.ThrowableV?;
    var c' := Step(c, previous, s).value;
    forall s': Slot ensures Get(c', SlotKey(s')) == Null || Get(c', SlotKey(s')).ThrowableV? {
      var k' := SlotKey(s');
      if v == Null {
        PutLookup(c, k, Null, k');
      } else {
        UnionLookup(c, From(v.t, s), k');
        LookupFrom(v.t, s, s');
      }
    }
  }

  lemma {:induction false} BenignSteps(c: Ctx, previous: Option<Throwable>, slots: seq<Slot>)
    requires Benign(c)
    ensures Steps(c, previous, slots).Done?
    decreases |slots|
  {
    if slots != [] {
      BenignStep(c, previous, slots[0]);
      BenignSteps(Step(c, previous, slots[0]).value, previous, slots[1..]);
    }
  }

  /** A benign context never makes `addThrowableContext` raise. */
  lemma BenignAdds(c: Ctx, previous: Option<Throwable>)
    requires Benign(c)
    ensures Add(c, previous).Done?
  {
    BenignSteps(c, previous, Slots);
  }

  /** An Exceptable's own `context` property is benign: its slots hold itself, its previous and its root. */
  lemma ContextBenign(x: Throwable)
    ensures Benign(Exceptables.Context(x))
  {
    forall s: Slot ensures Get(Exceptables.Context(x), SlotKey(s)) == Null || Get(Exceptables.Context(x), SlotKey(s)).ThrowableV? {
      Exceptables.ContextLookup(x, SlotKey(s));
    }
  }

  // ---------------------------------------------------------------------------------------------
  // Where the root details come from

  /** A turn changes no key outside its own six detail keys. */
  lemma StepOtherKey(c: Ctx, previous: Option<Throwable>, s: Slot, k: string)
    requires Step(c, previous, s).Done? && forall i :: 0 <= i < 6 ==> DetailKeys(s)[i] != k
    ensures Lookup(Step(c, previous, s).value, k) == Lookup(c, k)
  {
    var v := Source(c, previous, s);
    if v == Null {
      assert SlotKey(s) == DetailKeys(s)[0];
      PutLookup(c, SlotKey(s), Null, k);
    } else {
      UnionLookup(c, From(v.t, s), k);
    }
  }

  /** Keys present before `addThrowableContext` keep their values. */
  lemma AddKeeps(c: Ctx, previous: Option<Throwable>, k: string)
    requires Add(c, previous).Done? && HasKey(c, k)
    ensures Lookup(Add(c, previous).value, k) == Lookup(c, k)
  {
    AddExtends(c, previous);
    PrefixLookup(c, Add(c, previous).value, k);
  }

  /** A key of a prefix is found there. */
  lemma PrefixLookup(a: Ctx, r: Ctx, k: string)
    requires |r| >= |a| && r[..|a|] == a && HasKey(a, k)
    ensures Lookup(r, k) == Lookup(a, k)
  {
    assert r == a + r[|a|..];
    LookupAppend(a, r[|a|..], k);
  }

  /**
   * When the root slot already holds a throwable and the context has no root message, the root
   * message is that throwable's message, whatever the other two slots hold.
   */
  lemma RootMessageFromSlot(c: Ctx, previous: Option<Throwable>, r: Throwable)
    requires Benign(c) && Get(c, "__root__") == ThrowableV(r) && !HasKey(c, "__rootMessage__")
    ensures Add(c, previous).Done? && Lookup(Add(c, previous).value, "__rootMessage__") == Some(Str(r.message))
  {
    BenignStep(c, previous, Exception);
    var c1 := Step(c, previous, Exception).value;
    BenignStep(c1, previous, Previous);
    var c2 := Step(c1, previous, Previous).value;
    OtherTurnKeepsRoot(c, previous, Exception);
    OtherTurnKeepsRoot(c1, previous, Previous);
    SlotsShape();
    AddOverStep(c, previous, Slots);
    AddOverStep(c1, previous, [Previous, Root]);
    RootTurn(c2, previous, r);
  }

  /** The exception and previous turns leave the root entries alone. */
  lemma OtherTurnKeepsRoot(c: Ctx, previous: Option<Throwable>, s: Slot)
    requires s != Root && Step(c, previous, s).Done?
    ensures Lookup(Step(c, previous, s).value, "__root__") == Lookup(c, "__root__")
    ensures Lookup(Step(c, previous, s).value, "__rootMessage__") == Lookup(c, "__rootMessage__")
  {
    forall i | 0 <= i < 6
      ensures DetailKeys(s)[i] != "__root__" && DetailKeys(s)[i] != "__rootMessage__"
    {
      DetailKeysApart(s, Root, i);
      assert DetailKeys(Root)[1] == "__rootMessage__";
    }
    StepOtherKey(c, previous, s, "__root__");
    StepOtherKey(c, previous, s, "__rootMessage__");
  }

  /** The root turn over a root throwable adds its message; the fallback then has nothing to do. */
  lemma RootTurn(c: Ctx, previous: Option<Throwable>, r: Throwable)
    requires Get(c, "__root__") == ThrowableV(r) && !HasKey(c, "__rootMessage__")
    ensures AddOver(c, previous, [Root]).Done?
    ensures Lookup(AddOver(c, previous, [Root]).value, "__rootMessage__") == Some(Str(r.message))
  {
    var c3 := Union(c, From(r, Root));
    RootStep(c, previous, r);
    RootDetailsOver(c, r);
    SlotsShape();
    AddOverDone(c, previous, [Root], c3);
    AddOverNone(c3, previous);
  }

  /** The root turn reads the root slot and adds the details of the throwable there. */
  lemma RootStep(c: Ctx, previous: Option<Throwable>, r: Throwable)
    requires Get(c, "__root__") == ThrowableV(r)
    ensures Step(c, previous, Root) == Done(Union(c, From(r, Root)))
  {
    assert Source(c, previous, Root) == ThrowableV(r);
  }

  /** A root's details over a context whose root slot already holds it: the message is new. */
  lemma RootDetailsOver(c: Ctx, r: Throwable)
    requires Get(c, "__root__") == ThrowableV(r) && !HasKey(c, "__rootMessage__")
    ensures var c3 := Union(c, From(r, Root));
      Isset(c3, "__root__") && RootFallback(c3) == c3 &&
      Lookup(c3, "__rootMessage__") == Some(Str(r.message))
  {
    var f := From(r, Root);
    var c3 := Union(c, f);
    UnionLookup(c, f, "__rootMessage__");
    UnionLookup(c, f, "__root__");
    RootMessageLookup(r);
    RootSetSettled(c3);
  }

  /** The root's details give its message under `__rootMessage__`. */
  lemma RootMessageLookup(r: Throwable)
    ensures Lookup(From(r, Root), "__rootMessage__") == Some(Str(r.message))
  {
    var f := From(r, Root);
    assert f[0].0 != "__rootMessage__" && f[1] == ("__rootMessage__", Str(r.message));
    assert Lookup(f[1..], "__rootMessage__") == Some(Str(r.message));
  }

  /** With the root slot set, the fallback leaves the context alone. */
  lemma RootSetSettled(c: Ctx)
    requires Isset(c, "__root__")
    ensures RootFallback(c) == c
  {
  }

  /** `addThrowableContext` keeps the keys of an array unique. */
  lemma AddUnique(c: Ctx, previous: Option<Throwable>)
    requires UniqueKeys(c) && Add(c, previous).Done?
    ensures UniqueKeys(Add(c, previous).value)
  {
    var c1 := Step(c, previous, Exception).value;
    StepUnique(c, previous, Exception);
    var c2 := Step(c1, previous, Previous).value;
    StepUnique(c1, previous, Previous);
    var c3 := Step(c2, previous, Root).value;
    StepUnique(c2, previous, Root);
    SlotsShape();
    assert Steps(c, previous, Slots) == Done(c3);
    var x := Coalesce(c3, "__exception__", Get(c3, "__previous__"));
    if !Isset(c3, "__root__") && x.ThrowableV? && IsExceptable(x.t) {
      UnionUnique(c3, From(Exceptables.Root(x.t), Root));
    }
  }

  lemma StepUnique(c: Ctx, previous: Option<Throwable>, s: Slot)
    requires UniqueKeys(c) && Step(c, previous, s).Done?
    ensures UniqueKeys(Step(c, previous, s).value)
  {
    var v := Source(c, previous, s);
    if v == Null {
      PutUnique(c, SlotKey(s), Null);
    } else {
      UnionUnique(c, From(v.t, s));
    }
  }

  /**
   * While an Exceptable is being built, its message context carries the message of the end of its
   * chain as `__rootMessage__`, unless the given context already supplies one.
   */
  lemma ExceptableRootMessage(x: Throwable)
    requires !HasKey(x.given, "__rootMessage__")
    ensures Add(Exceptables.Context(x), None).Done?
    ensures Lookup(Add(Exceptables.Context(x), None).value, "__rootMessage__") == Some(Str(Exceptables.RootOf(x).message))
  {
    ContextBenign(x);
    Exceptables.ContextLookup(x, "__root__");
    Exceptables.ContextLookup(x, "__rootMessage__");
    RootMessageFromSlot(Exceptables.Context(x), None, Exceptables.RootOf(x));
  }

  /** An Exceptable's message context has unique keys when the given context does. */
  lemma ContextUnique(x: Throwable)
    requires UniqueKeys(x.given)
    ensures UniqueKeys(Exceptables.Context(x))
  {
    var h := Exceptables.Head(x);
    assert UniqueKeys(h);
    UnionUnique(h, x.given);
  }
}
