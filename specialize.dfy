/**
 * Type specialization of calls (`pydrofoil/specialize.py`). A function
 * whose arguments include integers, bitvectors or booleans gets a
 * `Specializer`; a call to it whose arguments narrow to machine integers or
 * small bitvectors, or are small constants, is described by a key, and the
 * call is redirected to a stub variant named after that key. The variants
 * are cached per key, with at most 64 made (plus the one that reaches the
 * cap), and a key whose variant is still being built reads as "no variant".
 *
 * The stub's graph is built here as the source builds it before inlining;
 * what inlining and `simplify` then make of it is not part of this model,
 * except for the one outcome the variant's name and result type depend on:
 * the narrower type found for the single returned value, given to each
 * `Specializer` as the function `narrow` of the key.
 */
module Specialize {
  import opened Wrappers
  import opened Types
  import opened Ir
  import opened IrGraph
  import opened Text
  import opened Dataflow
  import opened Peephole
  import Topo

  /** The number of variants past which no new one is made. */
  const MaxVariants: nat := 64

  function Min(a: nat, b: nat): nat { if a <= b then a else b }

  // ---------------------------------------------------------------------
  // usefully_specializable

  /** The argument types worth specializing on. */
  predicate SpecializableType(t: Type) { t.Int? || t.GenericBitVector? || t.MachineInt? || t.Bool? }

  /**
   * `usefully_specializable(graph)`: some argument has a type worth
   * specializing on, no reachable block returns without a value, and fewer
   * than 100 blocks are reachable.
   */
  method UsefullySpecializable(g: Graph) returns (r: bool)
    requires g.Wf()
    ensures var order := Dfs(g.blocks, [g.start], {});
      r <==> (exists a | a in g.args :: SpecializableType(ValueType(g.defs, a))) &&
             (forall b | b in order :: g.blocks[b].next != Return(None)) && |order| < 100
  {
    if !exists a | a in g.args :: SpecializableType(ValueType(g.defs, a)) {
      return false;
    }
    var order := g.IterBlocks();
    var numblocks := 0;
    while numblocks < |order|
      invariant 0 <= numblocks <= |order|
      invariant forall j | 0 <= j < numblocks :: g.blocks[order[j]].next != Return(None)
    {
      if g.blocks[order[numblocks]].next == Return(None) {
        return false;
      }
      numblocks := numblocks + 1;
    }
    r := numblocks < 100;
  }

  // ---------------------------------------------------------------------
  // Specializer.__init__

  predicate ReturnsValue(blocks: map<BlockId, Block>, b: BlockId)
    requires b in blocks
  {
    blocks[b].next.Return? && blocks[b].next.value.Some?
  }

  /** `resulttyp`: the type of the value returned by the last block of `order` that returns one. */
  function LastReturnType(blocks: map<BlockId, Block>, defs: map<OpId, Def>, order: seq<BlockId>): (r: Option<Type>)
    requires forall b | b in order :: b in blocks
  {
    if order == [] then None
    else
      var b := order[|order| - 1];
      if ReturnsValue(blocks, b) then Some(ValueType(defs, blocks[b].next.value.value))
      else LastReturnType(blocks, defs, order[..|order| - 1])
  }

  /**
   * There is no result type exactly when no block returns a value, and
   * otherwise it is the type returned by a block after which no block
   * returns a value.
   */
  lemma {:induction false} LastReturnTypeSpec(blocks: map<BlockId, Block>, defs: map<OpId, Def>, order: seq<BlockId>)
    requires forall b | b in order :: b in blocks
    ensures var r := LastReturnType(blocks, defs, order);
      (r.None? <==> forall i | 0 <= i < |order| :: !ReturnsValue(blocks, order[i])) &&
      (r.Some? ==> exists i | 0 <= i < |order| ::
         ReturnsValue(blocks, order[i]) && r.value == ValueType(defs, blocks[order[i]].next.value.value) &&
         forall j | i < j < |order| :: !ReturnsValue(blocks, order[j]))
  {
    if order != [] {
      var n := |order| - 1;
      var init := order[..n];
      assert forall i | 0 <= i < n :: init[i] == order[i];
      LastReturnTypeSpec(blocks, defs, init);
      if !ReturnsValue(blocks, order[n]) && LastReturnType(blocks, defs, init).Some? {
        var i :| 0 <= i < n && ReturnsValue(blocks, init[i]) &&
          LastReturnType(blocks, defs, init).value == ValueType(defs, blocks[init[i]].next.value.value) &&
          forall j | i < j < n :: !ReturnsValue(blocks, init[j]);
        assert forall j | i < j < |order| :: !ReturnsValue(blocks, order[j]);
      }
    }
  }

  /** The loop of the constructor that keeps the type of the last returned value. */
  method ResultType(g: Graph) returns (r: Option<Type>)
    requires g.Wf()
    ensures r == LastReturnType(g.blocks, g.defs, Dfs(g.blocks, [g.start], {}))
  {
    var order := g.IterBlocks();
    r := None;
    var i := 0;
    while i < |order|
      invariant 0 <= i <= |order|
      invariant r == LastReturnType(g.blocks, g.defs, order[..i])
    {
      assert order[..i + 1][..i] == order[..i];
      var n := g.blocks[order[i]].next;
      if n.Return? && n.value.Some? {
        r := Some(ValueType(g.defs, n.value.value));
      }
      i := i + 1;
    }
    assert order[..i] == order;
  }

  /**
   * `demanded_argtyps[index]`: an `Int` argument whose conversion to a
   * machine integer is anticipated at the start block is demanded as one.
   */
  function Demand(arg: Value, typ: Type, anticipated: set<CastTo>): Option<Type>
  {
    if typ == Int && (arg, MachineInt) in anticipated then Some(MachineInt) else None
  }

  /** The loop of the constructor over `enumerate(graph.args)`. */
  method DemandedArgtypes(args: seq<Value>, argtyps: seq<Type>, anticipated: set<CastTo>) returns (r: seq<Option<Type>>)
    requires |argtyps| == |args|
    ensures |r| == |args| && forall i | 0 <= i < |args| :: r[i] == Demand(args[i], argtyps[i], anticipated)
    ensures forall i | 0 <= i < |args| :: r[i].Some? ==> r[i] == Some(MachineInt) && argtyps[i] == Int
  {
    r := seq(|args|, _ => None);
    for index := 0 to |args|
      invariant |r| == |args|
      invariant forall i | 0 <= i < index :: r[i] == Demand(args[i], argtyps[i], anticipated)
      invariant forall i | index <= i < |args| :: r[i] == None
    {
      if argtyps[index] == Int && (args[index], MachineInt) in anticipated {
        r := r[index := Some(MachineInt)];
      }
    }
  }

  /** The argument names and types of a graph. */
  function Params(defs: map<OpId, Def>, args: seq<Value>): (r: seq<(string, Type)>)
    ensures |r| == |args| && forall i | 0 <= i < |args| :: r[i].1 == ValueType(defs, args[i])
  {
    seq(|args|, i requires 0 <= i < |args| => (if args[i].Argument? then args[i].name else "", ValueType(defs, args[i])))
  }

  function TypesOf(params: seq<(string, Type)>): (r: seq<Type>)
    ensures |r| == |params| && forall i | 0 <= i < |params| :: r[i] == params[i].1
  {
    seq(|params|, i requires 0 <= i < |params| => params[i].1)
  }

  /** The anticipated casts of the start block, or none when the analysis has no entry for it. */
  function StartCasts(m: map<BlockId, set<CastTo>>, start: BlockId): set<CastTo>
  {
    if start in m then m[start] else {}
  }

  // ---------------------------------------------------------------------
  // Specializer._extract_key

  /** The fixed value of a specialized argument: none, a small machine integer or a boolean. */
  datatype KeyValue = NoValue | IntValue(n: int) | BoolValue(b: bool)

  /** One position of a key: the type the variant takes there and the value it is fixed to. */
  type KeyItem = (Type, KeyValue)

  /**
   * What one argument contributes: its key item, the value passed to the
   * variant, and what it does to `useful` (`None`: leaves it alone).
   */
  datatype Entry = Entry(item: KeyItem, arg: Term, useful: Option<bool>)

  /** The fall-through of the loop body: a demanded conversion, or the argument as it is. */
  function Fallback(ctx: Ctx, arg: Value, demanded: Option<Type>): (r: Entry)
    ensures demanded == Some(MachineInt) ==>
      r == Entry((MachineInt, NoValue), New(Operation, IntToInt64, [Val(arg)], MachineInt), Some(true))
    ensures demanded != Some(MachineInt) ==> r == Entry((ValueType(ctx.defs, arg), NoValue), Val(arg), None)
  {
    if demanded == Some(MachineInt) then Entry((MachineInt, NoValue), New(Operation, IntToInt64, [Val(arg)], MachineInt), Some(true))
    else Entry((ValueType(ctx.defs, arg), NoValue), Val(arg), None)
  }

  /** The value an extracted machine integer is fixed to: a constant between 0 and 64. */
  function SmallValue(t: Term): (r: KeyValue)
    ensures r.IntValue? <==> t.Val? && t.v.Const? && t.v.c.MachineIntConstant? && 0 <= t.v.c.mi <= 64
    ensures r.IntValue? ==> t == Val(Const(MachineIntConstant(r.n)))
    ensures !r.BoolValue?
  {
    if t.Val? && t.v.Const? && t.v.c.MachineIntConstant? && 0 <= t.v.c.mi <= 64 then IntValue(t.v.c.mi) else NoValue
  }

  /**
   * The body of the loop of `_extract_key` for one argument. An integer
   * parameter takes the argument narrowed to a machine integer, fixed to it
   * when it is a constant from 0 to 64; a generic bitvector parameter takes
   * the argument narrowed to a small bitvector; a boolean parameter takes a
   * boolean constant; otherwise a demanded conversion or the argument itself.
   * A narrowing that raises something other than `NoMatchException` fails.
   */
  function KeyEntry(ctx: Ctx, arg: Value, argtyp: Type, demanded: Option<Type>): (r: Result<Entry>)
    ensures r.Ok? && r.value.item.1.IntValue? ==>
      r.value.item.0 == MachineInt && (argtyp.Int? || argtyp.MachineInt?) &&
      0 <= r.value.item.1.n <= 64 && r.value.arg == Val(Const(MachineIntConstant(r.value.item.1.n)))
    ensures r.Ok? && r.value.item.1.BoolValue? ==>
      argtyp.Bool? && r.value.item.0 == Bool && r.value.arg == Val(arg) && arg == Const(BooleanConstant(r.value.item.1.b))
    ensures r.Ok? && r.value.useful == Some(false) ==>
      argtyp == MachineInt && r.value.item == (MachineInt, NoValue)
    ensures r.Ok? && r.value.useful.None? ==>
      r.value == Entry((ValueType(ctx.defs, arg), NoValue), Val(arg), None) && demanded != Some(MachineInt)
    ensures (argtyp.Int? || argtyp.MachineInt?) && ValueType(ctx.defs, arg) == MachineInt ==>
      r.Ok? && r.value.arg == Val(arg) && r.value.item == (MachineInt, SmallValue(Val(arg))) &&
      r.value.useful == Some(argtyp.Int? || SmallValue(Val(arg)) != NoValue)
    ensures argtyp.GenericBitVector? && IsSmallFixed(ValueType(ctx.defs, arg)) ==>
      r == Ok(Entry((ValueType(ctx.defs, arg), NoValue), Val(arg), Some(true)))
    ensures r.Failure? ==>
      ((argtyp.Int? || argtyp.MachineInt?) && ExtractMachineInt(ctx, arg, true, true, {}).Crash?) ||
      (argtyp.GenericBitVector? && ExtractSmallFixed(ctx, arg).Crash?)
  {
    if argtyp.Int? || argtyp.MachineInt? then
      match ExtractMachineInt(ctx, arg, true, true, {})
      case Crash(msg) => Failure(msg)
      case NoMatch => Ok(Fallback(ctx, arg, demanded))
      case Found(t) =>
        var value := SmallValue(t);
        Ok(Entry((MachineInt, value), t, Some(argtyp.Int? || value != NoValue)))
    else if argtyp.GenericBitVector? then
      match ExtractSmallFixed(ctx, arg)
      case Crash(msg) => Failure(msg)
      case NoMatch => Ok(Fallback(ctx, arg, demanded))
      case Found(p) => Ok(Entry((p.1, NoValue), p.0, Some(true)))
    else if argtyp.Bool? && arg.Const? && arg.c.BooleanConstant? then
      Ok(Entry((Bool, BoolValue(arg.c.b)), Val(arg), Some(true)))
    else Ok(Fallback(ctx, arg, demanded))
  }

  /** The loop of `_extract_key` over the first `n` positions, stopping at the first failure. */
  function Entries(ctx: Ctx, args: seq<Value>, argtyps: seq<Type>, demanded: seq<Option<Type>>, n: nat): (r: Result<seq<Entry>>)
    requires n <= |args| && n <= |argtyps| && n <= |demanded|
    ensures r.Ok? ==> |r.value| == n
  {
    if n == 0 then Ok([])
    else
      var w := Entries(ctx, args, argtyps, demanded, n - 1);
      if w.Failure? then w
      else
        var e := KeyEntry(ctx, args[n - 1], argtyps[n - 1], demanded[n - 1]);
        if e.Failure? then Failure(e.msg) else Ok(w.value + [e.value])
  }

  /** A completed loop holds the entry of every position. */
  lemma {:induction false} EntriesAt(ctx: Ctx, args: seq<Value>, argtyps: seq<Type>, demanded: seq<Option<Type>>, n: nat)
    requires n <= |args| && n <= |argtyps| && n <= |demanded|
    ensures var r := Entries(ctx, args, argtyps, demanded, n);
      r.Ok? ==> forall i | 0 <= i < n :: KeyEntry(ctx, args[i], argtyps[i], demanded[i]) == Ok(r.value[i])
  {
    if n > 0 {
      EntriesAt(ctx, args, argtyps, demanded, n - 1);
      var w := Entries(ctx, args, argtyps, demanded, n - 1);
      var e := KeyEntry(ctx, args[n - 1], argtyps[n - 1], demanded[n - 1]);
      if w.Ok? && e.Ok? {
        var es := w.value + [e.value];
        assert Entries(ctx, args, argtyps, demanded, n) == Ok(es);
        forall i | 0 <= i < n
          ensures KeyEntry(ctx, args[i], argtyps[i], demanded[i]) == Ok(es[i])
        {
          if i < n - 1 {
            assert es[i] == w.value[i];
          }
        }
      }
    }
  }

  function Items(es: seq<Entry>): (r: seq<KeyItem>)
    ensures |r| == |es| && forall i | 0 <= i < |es| :: r[i] == es[i].item
  {
    seq(|es|, i requires 0 <= i < |es| => es[i].item)
  }

  function Passed(es: seq<Entry>): (r: seq<Term>)
    ensures |r| == |es| && forall i | 0 <= i < |es| :: r[i] == es[i].arg
  {
    seq(|es|, i requires 0 <= i < |es| => es[i].arg)
  }

  /** `useful` at the end of the loop as written: the last entry that assigns it decides. */
  function UsefulAsWritten(es: seq<Entry>): bool
  {
    if es == [] then false
    else
      var e := es[|es| - 1];
      if e.useful.Some? then e.useful.value else UsefulAsWritten(es[..|es| - 1])
  }

  /** `useful` as evidently intended: some argument makes the variant worth having. */
  predicate Useful(es: seq<Entry>)
  {
    exists i | 0 <= i < |es| :: es[i].useful == Some(true)
  }

  const Uncovered: string := "key does not cover every argument"

  /** The end of `_extract_key`: no key unless useful, and the length check of its assertion. */
  function KeyOf(es: seq<Entry>, ncall: nat, useful: bool): (r: Result<Option<(seq<KeyItem>, seq<Term>)>>)
    ensures r.Ok? && r.value.Some? ==> useful && r.value.value == (Items(es), Passed(es)) && |es| == ncall
    ensures !useful ==> r == Ok(None)
    ensures r.Failure? <==> useful && |es| != ncall
  {
    if !useful then Ok(None)
    else if |es| != ncall then Failure(Uncovered)
    else Ok(Some((Items(es), Passed(es))))
  }

  function Positions(args: seq<Value>, argtyps: seq<Type>, demanded: seq<Option<Type>>): nat
  {
    Min(|args|, Min(|argtyps|, |demanded|))
  }

  /** `_extract_key` as written. */
  function KeyAsWritten(ctx: Ctx, args: seq<Value>, argtyps: seq<Type>, demanded: seq<Option<Type>>)
    : Result<Option<(seq<KeyItem>, seq<Term>)>>
  {
    var es := Entries(ctx, args, argtyps, demanded, Positions(args, argtyps, demanded));
    if es.Failure? then Failure(es.msg) else KeyOf(es.value, |args|, UsefulAsWritten(es.value))
  }

  /** `_extract_key` with `useful` only ever switched on. */
  function KeyCorrected(ctx: Ctx, args: seq<Value>, argtyps: seq<Type>, demanded: seq<Option<Type>>)
    : Result<Option<(seq<KeyItem>, seq<Term>)>>
  {
    var es := Entries(ctx, args, argtyps, demanded, Positions(args, argtyps, demanded));
    if es.Failure? then Failure(es.msg) else KeyOf(es.value, |args|, Useful(es.value))
  }

  /** The as-written `useful` is only set when some argument made it so. */
  lemma {:induction false} UsefulAsWrittenUseful(es: seq<Entry>)
    ensures UsefulAsWritten(es) ==> Useful(es)
  {
    if es != [] {
      var init := es[..|es| - 1];
      UsefulAsWrittenUseful(init);
      if UsefulAsWritten(init) && es[|es| - 1].useful.None? {
        var i :| 0 <= i < |init| && init[i].useful == Some(true);
        assert es[i] == init[i];
      }
    }
  }

  /**
   * The corrected key: a key exactly when some argument is specialized
   * usefully, covering every argument of the call; and wherever the
   * as-written key exists, it is the corrected one.
   */
  lemma ExtractKeyCorrected(ctx: Ctx, args: seq<Value>, argtyps: seq<Type>, demanded: seq<Option<Type>>)
    ensures var r := KeyCorrected(ctx, args, argtyps, demanded);
      var es := Entries(ctx, args, argtyps, demanded, Positions(args, argtyps, demanded));
      (r.Failure? <==> es.Failure? || (Useful(es.value) && |args| > Min(|argtyps|, |demanded|))) &&
      (r.Ok? ==> (r.value.Some? <==> exists i | 0 <= i < Positions(args, argtyps, demanded) ::
                    KeyEntry(ctx, args[i], argtyps[i], demanded[i]).Ok? &&
                    KeyEntry(ctx, args[i], argtyps[i], demanded[i]).value.useful == Some(true))) &&
      (r.Ok? && r.value.Some? ==> |r.value.value.0| == |r.value.value.1| == |args|)
    ensures var w := KeyAsWritten(ctx, args, argtyps, demanded);
      w.Ok? && w.value.Some? ==> KeyCorrected(ctx, args, argtyps, demanded) == w
  {
    var es := Entries(ctx, args, argtyps, demanded, Positions(args, argtyps, demanded));
    if es.Ok? {
      EntriesAt(ctx, args, argtyps, demanded, Positions(args, argtyps, demanded));
      UsefulAsWrittenUseful(es.value);
      assert forall i | 0 <= i < |es.value| :: KeyEntry(ctx, args[i], argtyps[i], demanded[i]) == Ok(es.value[i]);
    }
  }

  /**
   * `useful` is reassigned, not switched on: a boolean constant followed by
   * an unknown machine integer gives no key, though the constant alone
   * would have made a variant.
   */
  lemma LateArgumentDropsKey()
    ensures var ctx := Ctx(map[], map[], 0, {}, map[], map[], false, false);
      var args := [TRUE, Argument("x", MachineInt)];
      var argtyps := [Bool, MachineInt];
      KeyAsWritten(ctx, args, argtyps, [None, None]) == Ok(None) &&
      KeyCorrected(ctx, args, argtyps, [None, None]) ==
        Ok(Some(([(Bool, BoolValue(true)), (MachineInt, NoValue)], [Val(TRUE), Val(Argument("x", MachineInt))])))
  {
    var ctx := Ctx(map[], map[], 0, {}, map[], map[], false, false);
    var args := [TRUE, Argument("x", MachineInt)];
    var argtyps := [Bool, MachineInt];
    var dem: seq<Option<Type>> := [None, None];
    var e0 := Entry((Bool, BoolValue(true)), Val(TRUE), Some(true));
    var e1 := Entry((MachineInt, NoValue), Val(Argument("x", MachineInt)), Some(false));
    assert KeyEntry(ctx, args[0], argtyps[0], dem[0]) == Ok(e0);
    assert KeyEntry(ctx, args[1], argtyps[1], dem[1]) == Ok(e1);
    var w0 := Entries(ctx, args, argtyps, dem, 0);
    assert w0 == Ok([]);
    var w1 := Entries(ctx, args, argtyps, dem, 1);
    assert w1 == Ok(w0.value + [e0]);
    var w2 := Entries(ctx, args, argtyps, dem, 2);
    assert w2 == Ok(w1.value + [e1]);
    assert w1.value == [e0];
    assert w1.value + [e1] == [e0, e1];
    assert [e0, e1][..1] == [e0];
    assert Useful([e0, e1]) by { assert [e0, e1][0].useful == Some(true); }
    assert UsefulAsWritten([e0, e1]) == false;
    assert Items([e0, e1]) == [e0.item, e1.item];
    assert Passed([e0, e1]) == [e0.arg, e1.arg];
  }

  /** Once the loop has failed, it stays failed with the same message. */
  lemma {:induction false} EntriesStop(ctx: Ctx, args: seq<Value>, argtyps: seq<Type>, demanded: seq<Option<Type>>, i: nat, m: nat)
    requires i <= m <= |args| && m <= |argtyps| && m <= |demanded|
    requires Entries(ctx, args, argtyps, demanded, i).Failure?
    ensures Entries(ctx, args, argtyps, demanded, m) == Entries(ctx, args, argtyps, demanded, i)
    decreases m
  {
    if m > i {
      EntriesStop(ctx, args, argtyps, demanded, i, m - 1);
    }
  }

  /** One more turn of the loop. */
  lemma EntriesStep(es: seq<Entry>, e: Entry)
    ensures UsefulAsWritten(es + [e]) == if e.useful.Some? then e.useful.value else UsefulAsWritten(es)
  {
    assert (es + [e])[..|es|] == es;
  }

  /** The loop of `_extract_key`. */
  method ExtractKey(ctx: Ctx, args: seq<Value>, argtyps: seq<Type>, demanded: seq<Option<Type>>)
    returns (r: Result<Option<(seq<KeyItem>, seq<Term>)>>)
    ensures r == KeyAsWritten(ctx, args, argtyps, demanded)
  {
    var n := Positions(args, argtyps, demanded);
    var es: seq<Entry> := [];
    var useful := false;
    var i := 0;
    while i < n
      invariant 0 <= i <= n
      invariant Entries(ctx, args, argtyps, demanded, i) == Ok(es)
      invariant useful == UsefulAsWritten(es)
    {
      var e := NextEntry(ctx, args, argtyps, demanded, i, es);
      if e.Failure? {
        return Failure(e.msg);
      }
      es := es + [e.value];
      if e.value.useful.Some? {
        useful := e.value.useful.value;
      }
      i := i + 1;
    }
    ExtractDone(ctx, args, argtyps, demanded, es);
    r := FinishKey(es, useful, |args|);
  }

  /** The end of `_extract_key` once the loop is done. */
  method FinishKey(es: seq<Entry>, useful: bool, ncall: nat) returns (r: Result<Option<(seq<KeyItem>, seq<Term>)>>)
    requires useful == UsefulAsWritten(es)
    ensures r == KeyOf(es, ncall, UsefulAsWritten(es))
  {
    if !useful {
      return Ok(None);
    }
    if |es| != ncall {
      return Failure(Uncovered);
    }
    r := Ok(Some((Items(es), Passed(es))));
  }

  /** One turn of the loop of `ExtractKey`. */
  lemma ExtractStep(ctx: Ctx, args: seq<Value>, argtyps: seq<Type>, demanded: seq<Option<Type>>, i: nat, es: seq<Entry>, e: Entry)
    requires i < Positions(args, argtyps, demanded)
    requires Entries(ctx, args, argtyps, demanded, i) == Ok(es) && KeyEntry(ctx, args[i], argtyps[i], demanded[i]) == Ok(e)
    ensures Entries(ctx, args, argtyps, demanded, i + 1) == Ok(es + [e])
    ensures UsefulAsWritten(es + [e]) == if e.useful.Some? then e.useful.value else UsefulAsWritten(es)
  {
    EntriesStep(es, e);
  }

  /** The entry of position `i` in the loop of `ExtractKey`. */
  method NextEntry(ctx: Ctx, args: seq<Value>, argtyps: seq<Type>, demanded: seq<Option<Type>>, i: nat, es: seq<Entry>)
    returns (e: Result<Entry>)
    requires i < Positions(args, argtyps, demanded) && Entries(ctx, args, argtyps, demanded, i) == Ok(es)
    ensures e.Failure? ==> KeyAsWritten(ctx, args, argtyps, demanded) == Failure(e.msg)
    ensures e.Ok? ==> Entries(ctx, args, argtyps, demanded, i + 1) == Ok(es + [e.value])
    ensures e.Ok? ==> UsefulAsWritten(es + [e.value]) == if e.value.useful.Some? then e.value.useful.value else UsefulAsWritten(es)
  {
    e := KeyEntry(ctx, args[i], argtyps[i], demanded[i]);
    if e.Failure? {
      ExtractFails(ctx, args, argtyps, demanded, i, es, e.msg);
    } else {
      ExtractStep(ctx, args, argtyps, demanded, i, es, e.value);
    }
  }

  /** A failing turn of the loop of `ExtractKey` ends it. */
  lemma ExtractFails(ctx: Ctx, args: seq<Value>, argtyps: seq<Type>, demanded: seq<Option<Type>>, i: nat, es: seq<Entry>, msg: string)
    requires i < Positions(args, argtyps, demanded)
    requires Entries(ctx, args, argtyps, demanded, i) == Ok(es) && KeyEntry(ctx, args[i], argtyps[i], demanded[i]) == Failure(msg)
    ensures KeyAsWritten(ctx, args, argtyps, demanded) == Failure(msg)
  {
    EntriesStop(ctx, args, argtyps, demanded, i + 1, Positions(args, argtyps, demanded));
  }

  /** The end of the loop of `ExtractKey`. */
  lemma ExtractDone(ctx: Ctx, args: seq<Value>, argtyps: seq<Type>, demanded: seq<Option<Type>>, es: seq<Entry>)
    requires Entries(ctx, args, argtyps, demanded, Positions(args, argtyps, demanded)) == Ok(es)
    ensures KeyAsWritten(ctx, args, argtyps, demanded) == KeyOf(es, |args|, UsefulAsWritten(es))
  {
  }

  // ---------------------------------------------------------------------
  // Specializer._make_stub

  /** `str(value).replace('-', 'minus')` for a fixed value. */
  function ValueTag(v: KeyValue): string
  {
    match v
    case NoValue => "None"
    case IntValue(n) => if n < 0 then "minus" + NatToString(-n) else NatToString(n)
    case BoolValue(b) => if b then "True" else "False"
  }

  /** The value as Python's `int` sees it (a boolean is 0 or 1). */
  function IntOf(v: KeyValue): int
  {
    match v
    case NoValue => 0
    case IntValue(n) => n
    case BoolValue(b) => if b then 1 else 0
  }

  predicate Truthy(v: KeyValue)
  {
    match v
    case NoValue => false
    case IntValue(n) => n != 0
    case BoolValue(b) => b
  }

  /**
   * What `_make_stub` makes of one argument: its part of the variant's name,
   * the variant's parameter, the conversion it emits (if any) and the value
   * passed on to the original function.
   */
  datatype Piece = Piece(tag: string, param: Value, op: Option<Def>, callarg: Value)

  /**
   * The loop body of `_make_stub`. A machine integer where the original takes
   * something else is widened back with `int64_to_int` (from the constant,
   * when the key fixes one; tag: the value, or `i`); a small bitvector is cast
   * back (tag `bv<width>`); an argument of the original type is passed on, or
   * replaced by the constant the key fixes (tag: the value, or `o`).
   */
  function MakePiece(param: (string, Type), item: KeyItem, k: OpId): (r: Result<Piece>)
    ensures r.Ok? ==> r.value.param == Argument(param.0, item.0)
    ensures r.Ok? && r.value.op.Some? ==> r.value.callarg == OpRef(k)
    ensures r.Ok? && r.value.op.None? ==> !r.value.callarg.OpRef?
    ensures r.Failure? <==>
      (item.0 != param.1 && item.0 != MachineInt && !IsSmallFixed(item.0)) ||
      (item.0 == param.1 && !item.1.NoValue? && item.0 != Bool && item.0 != MachineInt)
  {
    if item.0 != param.1 then ConvertedPiece(param, item, k) else PassedPiece(param, item)
  }

  /** An argument whose type the key changes: it is converted back to the original type. */
  function ConvertedPiece(param: (string, Type), item: KeyItem, k: OpId): (r: Result<Piece>)
  {
    var arg := Argument(param.0, item.0);
    if item.0 == MachineInt then
      var value := item.1;
      var input := if value.NoValue? then arg else Const(MachineIntConstant(IntOf(value)));
      Ok(Piece(if value.NoValue? then "i" else ValueTag(value), arg, Some(Op(Operation, Int64ToInt, [input], Int)), OpRef(k)))
    else if IsSmallFixed(item.0) then
      Ok(Piece("bv" + NatToString(SmallWidth(item.0)), arg, Some(MakeCast(arg, param.1)), OpRef(k)))
    else Failure(BadItem)
  }

  /** An argument of the original type: passed on, or replaced by the constant the key fixes. */
  function PassedPiece(param: (string, Type), item: KeyItem): (r: Result<Piece>)
  {
    var arg := Argument(param.0, item.0);
    var value := item.1;
    if value.NoValue? then Ok(Piece("o", arg, None, arg))
    else if item.0 == Bool then Ok(Piece(ValueTag(value), arg, None, if Truthy(value) then TRUE else FALSE))
    else if item.0 == MachineInt then Ok(Piece(ValueTag(value), arg, None, Const(MachineIntConstant(IntOf(value)))))
    else Failure(BadItem)
  }

  /** The failed assertion of `_make_stub` on a key item it cannot convert. */
  const BadItem: string := "key item does not fit the parameter"
  const NoResult: string := "the function returns no value"

  function OptSeq<T>(o: Option<T>): (r: seq<T>)
    ensures |r| == (if o.Some? then 1 else 0) && (o.Some? ==> r == [o.value])
  {
    if o.Some? then [o.value] else []
  }

  /** The accumulated lists of `_make_stub`. */
  datatype Pieces = Pieces(tags: seq<string>, params: seq<Value>, ops: seq<Def>, callargs: seq<Value>)

  /** The loop of `_make_stub` over the first `n` positions of `zip(graph.args, key)`. */
  function StubPieces(params: seq<(string, Type)>, key: seq<KeyItem>, n: nat): (r: Result<Pieces>)
    requires n <= |params| && n <= |key|
    ensures r.Ok? ==> |r.value.tags| == |r.value.params| == |r.value.callargs| == n && |r.value.ops| <= n
  {
    if n == 0 then Ok(Pieces([], [], [], []))
    else
      var w := StubPieces(params, key, n - 1);
      if w.Failure? then w
      else
        var p := MakePiece(params[n - 1], key[n - 1], |w.value.ops|);
        if p.Failure? then Failure(p.msg)
        else Ok(Pieces(w.value.tags + [p.value.tag], w.value.params + [p.value.param],
                       w.value.ops + OptSeq(p.value.op), w.value.callargs + [p.value.callarg]))
  }

  /** A value passed on that is an operation is one of the conversions emitted before it. */
  lemma {:induction false} StubPiecesRefs(params: seq<(string, Type)>, key: seq<KeyItem>, n: nat)
    requires n <= |params| && n <= |key|
    ensures var r := StubPieces(params, key, n);
      r.Ok? ==> forall i | 0 <= i < n :: r.value.callargs[i].OpRef? ==> r.value.callargs[i].id < |r.value.ops|
  {
    if n > 0 {
      StubPiecesRefs(params, key, n - 1);
      var w := StubPieces(params, key, n - 1);
      if w.Ok? {
        var p := MakePiece(params[n - 1], key[n - 1], |w.value.ops|);
        if p.Ok? {
          var ops := w.value.ops + OptSeq(p.value.op);
          var callargs := w.value.callargs + [p.value.callarg];
          assert StubPieces(params, key, n) == Ok(Pieces(w.value.tags + [p.value.tag], w.value.params + [p.value.param], ops, callargs));
          assert |w.value.ops| <= |ops|;
          forall i | 0 <= i < n && callargs[i].OpRef?
            ensures callargs[i].id < |ops|
          {
            if i < n - 1 {
              assert callargs[i] == w.value.callargs[i];
            }
          }
        }
      }
    }
  }

  lemma {:induction false} StubPiecesStop(params: seq<(string, Type)>, key: seq<KeyItem>, i: nat, m: nat)
    requires i <= m <= |params| && m <= |key|
    requires StubPieces(params, key, i).Failure?
    ensures StubPieces(params, key, m) == StubPieces(params, key, i)
    decreases m
  {
    if m > i {
      StubPiecesStop(params, key, i, m - 1);
    }
  }

  /** `"_".join(parts)`. */
  function Join(parts: seq<string>): string
  {
    if parts == [] then "" else if |parts| == 1 then parts[0]
    else Join(parts[..|parts| - 1]) + "_" + parts[|parts| - 1]
  }

  /**
   * A variant as `_make_stub` builds it before inlining: its name, its
   * parameters, and the operations of its one block (arena slots 0, 1, ...
   * in order), which convert the arguments and end with the call of the
   * original function that the block returns.
   */
  datatype Stub = Stub(name: string, params: seq<Value>, ops: seq<Def>)

  function StubDefs(ops: seq<Def>): (r: map<OpId, Def>)
    ensures forall i | 0 <= i < |ops| :: i in r && r[i] == ops[i]
  {
    map i | 0 <= i < |ops| :: ops[i]
  }

  /** The result types a variant may have in place of `resulttyp`. */
  predicate Fits(resulttyp: Type, restype: Type)
  {
    restype == resulttyp || (resulttyp == Int && restype == MachineInt) ||
    (resulttyp == GenericBitVector && IsSmallFixed(restype))
  }

  /**
   * The name and result type of the variant: `__i` when the returned value
   * narrows to a machine integer, `__bv<width>` when it narrows to a small
   * bitvector, and otherwise the original result type.
   */
  function Returned(base: string, resulttyp: Type, narrowed: Option<Type>): (r: (string, Type))
    ensures Fits(resulttyp, r.1)
  {
    if resulttyp == Int && narrowed == Some(MachineInt) then (base + "__i", MachineInt)
    else if resulttyp == GenericBitVector && narrowed.Some? && IsSmallFixed(narrowed.value) then
      (base + "__bv" + NatToString(SmallWidth(narrowed.value)), narrowed.value)
    else (base, resulttyp)
  }

  /**
   * `_make_stub(key)`: the variant and its result type. `narrowed` is what
   * narrowing the single returned value of the simplified variant gives.
   */
  function MakeStub(name: string, params: seq<(string, Type)>, key: seq<KeyItem>, resulttyp: Option<Type>,
                    narrowed: Option<Type>): (r: Result<(Stub, Type)>)
  {
    var p := StubPieces(params, key, Min(|params|, |key|));
    if p.Failure? then Failure(p.msg)
    else if resulttyp.None? then Failure(NoResult)
    else
      var call := Op(Operation, name, p.value.callargs, resulttyp.value);
      var named := Returned(name + "_specialized_" + Join(p.value.tags), resulttyp.value, narrowed);
      Ok((Stub(named.0, p.value.params, p.value.ops + [call]), named.1))
  }

  /**
   * The variant calls the original function with one value per position of
   * the key, its name extends the original's with `_specialized_`, and its
   * result type fits the original's.
   */
  lemma MakeStubSpec(name: string, params: seq<(string, Type)>, key: seq<KeyItem>, resulttyp: Option<Type>, narrowed: Option<Type>)
    ensures var r := MakeStub(name, params, key, resulttyp, narrowed);
      r.Ok? ==>
        var (stub, restype) := r.value;
        resulttyp.Some? && Fits(resulttyp.value, restype) &&
        |stub.name| >= |name + "_specialized_"| && stub.name[..|name + "_specialized_"|] == name + "_specialized_" &&
        |stub.params| == Min(|params|, |key|) && stub.ops != [] &&
        var call := stub.ops[|stub.ops| - 1];
        call.Op? && call.kind == Operation && call.name == name && call.typ == resulttyp.value &&
        |call.args| == Min(|params|, |key|)
  {
    var r := MakeStub(name, params, key, resulttyp, narrowed);
    if r.Ok? {
      var p := StubPieces(params, key, Min(|params|, |key|));
      var base := name + "_specialized_" + Join(p.value.tags);
      assert base[..|name + "_specialized_"|] == name + "_specialized_";
      var named := Returned(base, resulttyp.value, narrowed);
      assert named.0[..|base|] == base;
    }
  }

  /** A key item the variant can take in place of a parameter of type `oldtyp`. */
  predicate ItemFits(oldtyp: Type, item: KeyItem)
  {
    var (typ, value) := item;
    if typ == oldtyp then value.NoValue? || typ == Bool || typ == MachineInt
    else (typ == MachineInt && oldtyp == Int) || IsSmallFixed(typ)
  }

  /**
   * For a key whose items fit the parameters, the pieces exist and every
   * value passed on to the original function has the type of the original
   * parameter: the variant restores the original signature.
   */
  lemma {:induction false} StubPiecesTypes(params: seq<(string, Type)>, key: seq<KeyItem>, n: nat)
    requires n <= |params| && n <= |key|
    requires forall i | 0 <= i < n :: ItemFits(params[i].1, key[i])
    ensures var r := StubPieces(params, key, n);
      r.Ok? && CallTypes(params, r.value.ops, r.value.callargs, n)
  {
    if n > 0 {
      StubPiecesTypes(params, key, n - 1);
      var w := StubPieces(params, key, n - 1).value;
      var p := MakePiece(params[n - 1], key[n - 1], |w.ops|);
      PiecesTypesStep(params, key, n, w.ops, w.callargs, p);
      assert StubPieces(params, key, n) == Ok(Pieces(w.tags + [p.value.tag], w.params + [p.value.param],
                                                     w.ops + OptSeq(p.value.op), w.callargs + [p.value.callarg]));
    }
  }

  /**
   * The first `m` values passed on by a variant with operations `ops` have
   * the types of the parameters, and the operations they refer to exist.
   */
  ghost predicate CallTypes(params: seq<(string, Type)>, ops: seq<Def>, callargs: seq<Value>, m: nat)
  {
    m <= |params| && |callargs| == m &&
    (forall i | 0 <= i < m :: ValueType(StubDefs(ops), callargs[i]) == params[i].1) &&
    (forall i | 0 <= i < m :: callargs[i].OpRef? ==> callargs[i].id < |ops|)
  }

  /** A key item that fits gives a piece whose value passed on has the parameter's type. */
  lemma PieceType(param: (string, Type), item: KeyItem, k: OpId)
    requires ItemFits(param.1, item)
    ensures var r := MakePiece(param, item, k);
      r.Ok? &&
      (r.value.op.Some? ==> r.value.callarg == OpRef(k) && r.value.op.value.typ == param.1) &&
      (r.value.op.None? ==> !r.value.callarg.OpRef? && ValueType(map[], r.value.callarg) == param.1)
  {
  }

  /** Appending the piece of a fitting item keeps the types of the values before it and gives the new one its type. */
  lemma PiecesTypesStep(params: seq<(string, Type)>, key: seq<KeyItem>, n: nat, ops: seq<Def>, callargs: seq<Value>,
                        p: Result<Piece>)
    requires 0 < n <= |params| && n <= |key| && ItemFits(params[n - 1].1, key[n - 1])
    requires CallTypes(params, ops, callargs, n - 1)
    requires p == MakePiece(params[n - 1], key[n - 1], |ops|)
    ensures p.Ok? && CallTypes(params, ops + OptSeq(p.value.op), callargs + [p.value.callarg], n)
  {
    PieceType(params[n - 1], key[n - 1], |ops|);
    var ops' := ops + OptSeq(p.value.op);
    var callargs' := callargs + [p.value.callarg];
    forall i | 0 <= i < n
      ensures ValueType(StubDefs(ops'), callargs'[i]) == params[i].1
    {
      if i < n - 1 {
        assert callargs'[i] == callargs[i];
        if callargs[i].OpRef? {
          assert StubDefs(ops')[callargs[i].id] == ops'[callargs[i].id] == ops[callargs[i].id];
        }
      } else if p.value.op.Some? {
        assert StubDefs(ops')[|ops|] == p.value.op.value;
      }
    }
  }

  /** A variant whose key fits restores the original signature in its call. */
  lemma StubKeepsSignature(name: string, params: seq<(string, Type)>, key: seq<KeyItem>, resulttyp: Type, narrowed: Option<Type>)
    requires |key| == |params| && forall i | 0 <= i < |key| :: ItemFits(params[i].1, key[i])
    ensures var r := MakeStub(name, params, key, Some(resulttyp), narrowed);
      r.Ok? &&
      var call := r.value.0.ops[|r.value.0.ops| - 1];
      |call.args| == |params| &&
      forall i | 0 <= i < |params| :: ValueType(StubDefs(r.value.0.ops), call.args[i]) == params[i].1
  {
    var n := Min(|params|, |key|);
    StubPiecesTypes(params, key, n);
    StubPiecesRefs(params, key, n);
    var p := StubPieces(params, key, n).value;
    var ops := p.ops + [Op(Operation, name, p.callargs, resulttyp)];
    forall i | 0 <= i < |params|
      ensures ValueType(StubDefs(ops), p.callargs[i]) == params[i].1
    {
      if p.callargs[i].OpRef? {
        assert StubDefs(ops)[p.callargs[i].id] == StubDefs(p.ops)[p.callargs[i].id];
      }
    }
  }

  /** The name of a variant from the name parts of its pieces. */
  lemma StubName(name: string, params: seq<(string, Type)>, key: seq<KeyItem>, resulttyp: Type, narrowed: Option<Type>)
    requires |params| == |key| && StubPieces(params, key, |key|).Ok?
    ensures var r := MakeStub(name, params, key, Some(resulttyp), narrowed);
      r.Ok? && r.value.0.name == Returned(name + "_specialized_" + Join(StubPieces(params, key, |key|).value.tags), resulttyp, narrowed).0 &&
      r.value.1 == Returned(name + "_specialized_" + Join(StubPieces(params, key, |key|).value.tags), resulttyp, narrowed).1
  {
  }

  /** `"_".join` of two and of three parts. */
  lemma JoinSmall(a: string, b: string, c: string)
    ensures Join([a, b]) == a + "_" + b
    ensures Join([a, b, c]) == a + "_" + b + "_" + c
  {
    assert [a, b, c][..2] == [a, b];
    assert [a, b][..1] == [a];
    assert Join([a]) == a;
  }

  /** One more part of the name of a variant. */
  lemma TagsStep(params: seq<(string, Type)>, key: seq<KeyItem>, n: nat)
    requires 0 < n <= |params| && n <= |key|
    requires StubPieces(params, key, n - 1).Ok?
    requires MakePiece(params[n - 1], key[n - 1], |StubPieces(params, key, n - 1).value.ops|).Ok?
    ensures StubPieces(params, key, n).Ok?
    ensures StubPieces(params, key, n).value.tags ==
      StubPieces(params, key, n - 1).value.tags + [MakePiece(params[n - 1], key[n - 1], |StubPieces(params, key, n - 1).value.ops|).value.tag]
  {
  }

  /** A generic bitvector narrowed to `w` bits is tagged `bv<w>`. */
  lemma BitsTag(param: (string, Type), w: nat, k: OpId)
    requires param.1 == GenericBitVector
    ensures MakePiece(param, (SmallFixedBitVector(w), NoValue), k).Ok?
    ensures MakePiece(param, (SmallFixedBitVector(w), NoValue), k).value.tag == "bv" + NatToString(w)
  {
  }

  /** An integer fixed to a small constant is tagged with the constant. */
  lemma ConstantTag(param: (string, Type), n: nat, k: OpId)
    requires param.1 == Int
    ensures MakePiece(param, (MachineInt, IntValue(n)), k).Ok?
    ensures MakePiece(param, (MachineInt, IntValue(n)), k).value.tag == NatToString(n)
  {
  }

  /** An argument passed on as it is is tagged `o`. */
  lemma OpenTag(param: (string, Type), k: OpId)
    ensures MakePiece(param, (param.1, NoValue), k).Ok?
    ensures MakePiece(param, (param.1, NoValue), k).value.tag == "o"
  {
  }

  /** The numbers in the names of the test variants. */
  lemma Numbers()
    ensures NatToString(52) == "52" && NatToString(51) == "51"
    ensures NatToString(32) == "32" && NatToString(2) == "2"
  {
  }

  /** The name of the first test variant, spelled out. */
  lemma SubrangeSpelling()
    ensures "zis_zzero_subrange" + "_specialized_" + ("bv" + "52" + "_" + "51" + "_" + "o") == "zis_zzero_subrange_specialized_bv52_51_o"
  {
  }

  /** The name parts of a variant shaped like the first test variant. */
  lemma SubrangeTags(p: seq<(string, Type)>, k: seq<KeyItem>, w: nat, c: nat)
    requires |p| == 3 && p[0].1 == GenericBitVector && p[1].1 == Int && p[2].1 == Int
    requires |k| == 3 && k[0] == (SmallFixedBitVector(w), NoValue) && k[1] == (MachineInt, IntValue(c)) && k[2] == (Int, NoValue)
    ensures var r := StubPieces(p, k, 3);
      r.Ok? && r.value.tags == ["bv" + NatToString(w), NatToString(c), "o"]
  {
    BitsTag(p[0], w, 0);
    TagsStep(p, k, 1);
    ConstantTag(p[1], c, |StubPieces(p, k, 1).value.ops|);
    TagsStep(p, k, 2);
    OpenTag(p[2], |StubPieces(p, k, 2).value.ops|);
    TagsStep(p, k, 3);
  }

  /**
   * The variant of `zis_zzero_subrange` for a 52-bit vector, the constant 51
   * and an unknown integer: its name spells the key out.
   */
  lemma StubNameSubrange(p: seq<(string, Type)>, k: seq<KeyItem>)
    requires |p| == 3 && p[0].1 == GenericBitVector && p[1].1 == Int && p[2].1 == Int
    requires |k| == 3 && k[0] == (SmallFixedBitVector(52), NoValue) && k[1] == (MachineInt, IntValue(51)) && k[2] == (Int, NoValue)
    ensures var r := MakeStub("zis_zzero_subrange", p, k, Some(Bool), None);
      r.Ok? && r.value.0.name == "zis_zzero_subrange_specialized_bv52_51_o" && r.value.1 == Bool
  {
    SubrangeTags(p, k, 52, 51);
    StubName("zis_zzero_subrange", p, k, Bool, None);
    Numbers();
    JoinSmall("bv" + NatToString(52), NatToString(51), "o");
    SubrangeSpelling();
  }

  /** The name of the second test variant, spelled out. */
  lemma RorSpelling()
    ensures "zROR" + "_specialized_" + ("bv" + "32" + "_" + "2") + "__bv" + "32" == "zROR_specialized_bv32_2__bv32"
  {
  }

  /** The name parts of a variant shaped like the second test variant. */
  lemma RorTags(p: seq<(string, Type)>, k: seq<KeyItem>, w: nat, c: nat)
    requires |p| == 2 && p[0].1 == GenericBitVector && p[1].1 == Int
    requires |k| == 2 && k[0] == (SmallFixedBitVector(w), NoValue) && k[1] == (MachineInt, IntValue(c))
    ensures var r := StubPieces(p, k, 2);
      r.Ok? && r.value.tags == ["bv" + NatToString(w), NatToString(c)]
  {
    BitsTag(p[0], w, 0);
    TagsStep(p, k, 1);
    ConstantTag(p[1], c, |StubPieces(p, k, 1).value.ops|);
    TagsStep(p, k, 2);
  }

  /** The variant of `zROR` for a 32-bit vector and the constant 2, whose result narrows to 32 bits. */
  lemma StubNameRor(p: seq<(string, Type)>, k: seq<KeyItem>)
    requires |p| == 2 && p[0].1 == GenericBitVector && p[1].1 == Int
    requires |k| == 2 && k[0] == (SmallFixedBitVector(32), NoValue) && k[1] == (MachineInt, IntValue(2))
    ensures var r := MakeStub("zROR", p, k, Some(GenericBitVector), Some(SmallFixedBitVector(32)));
      r.Ok? && r.value.0.name == "zROR_specialized_bv32_2__bv32" && r.value.1 == SmallFixedBitVector(32)
  {
    RorTags(p, k, 32, 2);
    StubName("zROR", p, k, GenericBitVector, Some(SmallFixedBitVector(32)));
    Numbers();
    JoinSmall("bv" + NatToString(32), NatToString(2), "");
    RorSpelling();
  }

  /** The loop of `_make_stub`, then the call, the name and the result type. */
  method BuildStub(name: string, params: seq<(string, Type)>, key: seq<KeyItem>, resulttyp: Option<Type>,
                   narrowed: Option<Type>) returns (r: Result<(Stub, Type)>)
    ensures r == MakeStub(name, params, key, resulttyp, narrowed)
  {
    var n := Min(|params|, |key|);
    var w := Pieces([], [], [], []);
    var i := 0;
    while i < n
      invariant 0 <= i <= n
      invariant StubPieces(params, key, i) == Ok(w)
    {
      var p := NextPiece(params, key, i, w);
      if p.Failure? {
        return Failure(p.msg);
      }
      w := Pieces(w.tags + [p.value.tag], w.params + [p.value.param], w.ops + OptSeq(p.value.op), w.callargs + [p.value.callarg]);
      i := i + 1;
    }
    r := FinishStub(name, params, key, resulttyp, narrowed, w);
  }

  /** The end of `_make_stub` once the loop is done: the call of the original function, the name and the result type. */
  method FinishStub(name: string, params: seq<(string, Type)>, key: seq<KeyItem>, resulttyp: Option<Type>,
                    narrowed: Option<Type>, w: Pieces) returns (r: Result<(Stub, Type)>)
    requires StubPieces(params, key, Min(|params|, |key|)) == Ok(w)
    ensures r == MakeStub(name, params, key, resulttyp, narrowed)
  {
    if resulttyp.None? {
      return Failure(NoResult);
    }
    var named := Returned(name + "_specialized_" + Join(w.tags), resulttyp.value, narrowed);
    r := Ok((Stub(named.0, w.params, w.ops + [Op(Operation, name, w.callargs, resulttyp.value)]), named.1));
  }

  /** The piece of position `i` in the loop of `BuildStub`. */
  method NextPiece(params: seq<(string, Type)>, key: seq<KeyItem>, i: nat, w: Pieces) returns (p: Result<Piece>)
    requires i < Min(|params|, |key|) && StubPieces(params, key, i) == Ok(w)
    ensures p.Failure? ==> StubPieces(params, key, Min(|params|, |key|)) == Failure(p.msg)
    ensures p.Ok? ==>
      StubPieces(params, key, i + 1) ==
        Ok(Pieces(w.tags + [p.value.tag], w.params + [p.value.param], w.ops + OptSeq(p.value.op), w.callargs + [p.value.callarg]))
  {
    p := MakePiece(params[i], key[i], |w.ops|);
    if p.Failure? {
      PieceFails(params, key, i, w, p.msg);
    } else {
      PieceStep(params, key, i, w, p.value);
    }
  }

  /** A failing turn of the loop of `BuildStub` ends it. */
  lemma PieceFails(params: seq<(string, Type)>, key: seq<KeyItem>, i: nat, w: Pieces, msg: string)
    requires i < Min(|params|, |key|) && StubPieces(params, key, i) == Ok(w)
    requires MakePiece(params[i], key[i], |w.ops|) == Failure(msg)
    ensures StubPieces(params, key, Min(|params|, |key|)) == Failure(msg)
  {
    StubPiecesStop(params, key, i + 1, Min(|params|, |key|));
  }

  /** One turn of the loop of `BuildStub`. */
  lemma PieceStep(params: seq<(string, Type)>, key: seq<KeyItem>, i: nat, w: Pieces, p: Piece)
    requires i < Min(|params|, |key|) && StubPieces(params, key, i) == Ok(w)
    requires MakePiece(params[i], key[i], |w.ops|) == Ok(p)
    ensures StubPieces(params, key, i + 1) == Ok(Pieces(w.tags + [p.tag], w.params + [p.param], w.ops + OptSeq(p.op), w.callargs + [p.callarg]))
  {
  }

  // ---------------------------------------------------------------------
  // Specializer.specialize_call

  /**
   * The replacement of a specialized call: a call of the variant, brought
   * back to the type of the original call where the variant's differs. A
   * machine integer result goes through `zz5i64zDzKz5i`, a small bitvector
   * is cast to a generic one; any other difference fails the source's
   * assertions. The replacement has the call's type exactly when the
   * variant's result type fits it.
   */
  function Redirect(stub: Stub, restype: Type, args: seq<Term>, calltyp: Type): (r: Result<Term>)
    ensures var call := New(Operation, stub.name, args, restype);
      r.Ok? ==> r.value == call || (r.value.New? && r.value.args == [call])
    ensures (r.Ok? && r.value.New? && r.value.typ == calltyp) <==> Fits(calltyp, restype)
  {
    var call := New(Operation, stub.name, args, restype);
    if restype == calltyp then Ok(call)
    else if restype == MachineInt then Ok(New(Operation, Int64ToInt, [call], Int))
    else if IsSmallFixed(restype) && calltyp == GenericBitVector then Ok(New(Cast, "$cast", [call], GenericBitVector))
    else Failure("the result type of the variant does not fit the call")
  }

  /** `Redirect` as the outcome of `specialize_call`. */
  function Redirected(value: (Stub, Type), args: seq<Term>, calltyp: Type): Result<Option<Term>>
  {
    var t := Redirect(value.0, value.1, args, calltyp);
    if t.Failure? then Failure(t.msg) else Ok(Some(t.value))
  }

  /**
   * A `Specializer`: what its constructor computes from the graph, and the
   * cache from keys to variants, where `None` marks a variant being built.
   * `narrow` stands for narrowing the returned value of the simplified
   * variant of a key.
   */
  class Specializer {
    const name: string
    const params: seq<(string, Type)>
    const argtyps: seq<Type>
    const demanded: seq<Option<Type>>
    const resulttyp: Option<Type>
    const narrow: seq<KeyItem> -> Option<Type>
    var cache: map<seq<KeyItem>, Option<(Stub, Type)>>

    /**
     * The argument types are the parameters', a demanded type is a machine
     * integer for an `Int` parameter, the cache holds at most one entry past
     * the limit, and every finished entry is the variant of its key.
     */
    ghost predicate Valid()
      reads this
    {
      argtyps == TypesOf(params) && |demanded| == |argtyps| &&
      (forall i | 0 <= i < |demanded| :: demanded[i].Some? ==> demanded[i] == Some(MachineInt) && argtyps[i] == Int) &&
      |cache| <= MaxVariants + 1 &&
      forall key | key in cache && cache[key].Some? :: MakeStub(name, params, key, resulttyp, narrow(key)) == Ok(cache[key].value)
    }

    constructor (name: string, params: seq<(string, Type)>, demanded: seq<Option<Type>>, resulttyp: Option<Type>,
                 narrow: seq<KeyItem> -> Option<Type>)
      requires |demanded| == |params|
      requires forall i | 0 <= i < |demanded| :: demanded[i].Some? ==> demanded[i] == Some(MachineInt) && params[i].1 == Int
      ensures Valid()
      ensures this.name == name && this.params == params && this.demanded == demanded
      ensures this.resulttyp == resulttyp && this.narrow == narrow && cache == map[]
    {
      this.name := name;
      this.params := params;
      this.argtyps := TypesOf(params);
      this.demanded := demanded;
      this.resulttyp := resulttyp;
      this.narrow := narrow;
      cache := map[];
    }

    /**
     * `specialize_call(call, optimizer)`: no replacement without a key, for
     * a key whose variant is being built, or for a new key once more than
     * `MaxVariants` variants exist; otherwise a call of the cached variant,
     * or of one built now and cached, marked in progress while it is built.
     * When the variant's original result type is the call's, so is the
     * replacement's.
     */
    method SpecializeCall(ctx: Ctx, call: Def) returns (r: Result<Option<Term>>)
      requires Valid() && call.Op?
      modifies this`cache
      ensures Valid()
      ensures var k := KeyAsWritten(ctx, call.args, argtyps, demanded);
        (k.Failure? ==> r.Failure? && cache == old(cache)) &&
        (k.Ok? && k.value.None? ==> r == Ok(None) && cache == old(cache)) &&
        (k.Ok? && k.value.Some? ==>
          var (key, passed) := k.value.value;
          (key in old(cache) ==>
             cache == old(cache) &&
             (old(cache)[key].None? ==> r == Ok(None)) &&
             (old(cache)[key].Some? ==> r == Redirected(old(cache)[key].value, passed, call.typ))) &&
          (key !in old(cache) && |old(cache)| > MaxVariants ==> r == Ok(None) && cache == old(cache)) &&
          (key !in old(cache) && |old(cache)| <= MaxVariants ==>
            var s := MakeStub(name, params, key, resulttyp, narrow(key));
            (s.Failure? ==> r.Failure? && cache == old(cache)[key := None]) &&
            (s.Ok? ==> cache == old(cache)[key := Some(s.value)] && r == Redirected(s.value, passed, call.typ))))
      ensures r.Ok? && r.value.Some? && resulttyp == Some(call.typ) ==> r.value.value.New? && r.value.value.typ == call.typ
    {
      var k := ExtractKey(ctx, call.args, argtyps, demanded);
      if k.Failure? {
        return Failure(k.msg);
      }
      if k.value.None? {
        return Ok(None);
      }
      var (key, passed) := k.value.value;
      var v := Variant(key);
      if v.Failure? {
        return Failure(v.msg);
      }
      if v.value.None? {
        return Ok(None);
      }
      var value := v.value.value;
      StubFits(name, params, key, resulttyp, narrow(key));
      var t := Redirect(value.0, value.1, passed, call.typ);
      if t.Failure? {
        return Failure(t.msg);
      }
      r := Ok(Some(t.value));
    }

    /**
     * The cache lookup of `specialize_call`: the cached entry, nothing once
     * the cache is over its limit, or a variant built now, the key marked in
     * progress while it is built.
     */
    method Variant(key: seq<KeyItem>) returns (v: Result<Option<(Stub, Type)>>)
      requires Valid()
      modifies this`cache
      ensures Valid()
      ensures key in old(cache) ==> cache == old(cache) && v == Ok(old(cache)[key])
      ensures key !in old(cache) && |old(cache)| > MaxVariants ==> cache == old(cache) && v == Ok(None)
      ensures key !in old(cache) && |old(cache)| <= MaxVariants ==>
        var s := MakeStub(name, params, key, resulttyp, narrow(key));
        (s.Failure? ==> v.Failure? && cache == old(cache)[key := None]) &&
        (s.Ok? ==> v == Ok(Some(s.value)) && cache == old(cache)[key := Some(s.value)])
      ensures v.Ok? && v.value.Some? ==> MakeStub(name, params, key, resulttyp, narrow(key)) == Ok(v.value.value)
    {
      if key in cache {
        return Ok(cache[key]);
      }
      if |cache| > MaxVariants {
        return Ok(None);
      }
      cache := cache[key := None];
      var s := BuildStub(name, params, key, resulttyp, narrow(key));
      if s.Failure? {
        return Failure(s.msg);
      }
      cache := cache[key := Some(s.value)];
      v := Ok(Some(s.value));
    }
  }

  /** A variant's result type fits the original's. */
  lemma StubFits(name: string, params: seq<(string, Type)>, key: seq<KeyItem>, resulttyp: Option<Type>, narrowed: Option<Type>)
    ensures var r := MakeStub(name, params, key, resulttyp, narrowed);
      r.Ok? ==> resulttyp.Some? && Fits(resulttyp.value, r.value.1)
  {
    MakeStubSpec(name, params, key, resulttyp, narrowed);
  }

  /**
   * `SpecializingOptimizer._optimize_op`: a plain operation whose name has
   * a specializer is replaced by what that specializer makes of the call,
   * when it makes anything; every other operation is kept. The source's
   * `isinstance(op, ir.Operation)` also accepts the subclasses of
   * `Operation`; here only operations of kind `Operation` are rewritten.
   */
  method SpecializeOp(ctx: Ctx, o: OpId, specializers: map<string, Specializer>) returns (r: Result<Rewrite>)
    requires forall n | n in specializers :: specializers[n].Valid()
    modifies set n | n in specializers :: specializers[n]
    ensures forall n | n in specializers :: specializers[n].Valid()
    ensures !(o in ctx.defs && ctx.defs[o].Op? && ctx.defs[o].kind == Operation && ctx.defs[o].name in specializers) ==>
      r == Ok(Keep)
    ensures r.Ok? && r.value.ReplaceBy? ==>
      var d := ctx.defs[o];
      d.Op? && d.name in specializers &&
      (specializers[d.name].resulttyp == Some(d.typ) ==> r.value.t.New? && r.value.t.typ == d.typ)
    ensures r.Ok? ==> r.value.Keep? || r.value.ReplaceBy?
  {
    if !(o in ctx.defs && ctx.defs[o].Op? && ctx.defs[o].kind == Operation && ctx.defs[o].name in specializers) {
      return Ok(Keep);
    }
    var d := ctx.defs[o];
    var specializer := specializers[d.name];
    var newop := specializer.SpecializeCall(ctx, d);
    if newop.Failure? {
      return Failure(newop.msg);
    }
    if newop.value.Some? {
      return Ok(ReplaceBy(newop.value.value));
    }
    r := Ok(Keep);
  }

  /**
   * `Specializer.__init__`: the result type is that of the last returned
   * value in block order, and an `Int` argument is demanded as a machine
   * integer when that conversion is anticipated at the start block. An
   * analysis that finds no order fails.
   */
  method Create(g: Graph, narrow: seq<KeyItem> -> Option<Type>) returns (r: Result<Specializer>, ghost topo: seq<BlockId>)
    requires g.Wf()
    ensures r.Ok? ==> fresh(r.value) && r.value.Valid() && r.value.cache == map[]
    ensures r.Ok? ==>
      var sp := r.value;
      sp.name == g.name && sp.params == Params(g.defs, g.args) && sp.narrow == narrow &&
      sp.resulttyp == LastReturnType(g.blocks, g.defs, Dfs(g.blocks, [g.start], {})) &&
      |sp.demanded| == |g.args| && (forall b | b in Reversed(topo) :: b in g.blocks) &&
      forall i | 0 <= i < |g.args| ::
        sp.demanded[i] == Demand(g.args[i], ValueType(g.defs, g.args[i]),
                                 StartCasts(Anticipated(g.blocks, g.defs, Reversed(topo)), g.start))
    ensures var rs := Reachable(g.blocks, g.start);
      Topo.Acyclic(g.blocks, rs) ==> r.Ok?
  {
    var resulttyp := ResultType(g);
    var params := Params(g.defs, g.args);
    var argtyps := TypesOf(params);
    var casts;
    casts, topo := FindAnticipatedCasts(g);
    if casts.Failure? {
      return Failure(casts.msg), topo;
    }
    var demanded := DemandedArgtypes(g.args, argtyps, StartCasts(casts.value, g.start));
    var sp := new Specializer(g.name, params, demanded, resulttyp, narrow);
    r := Ok(sp);
  }
}
