/**
 * The peephole rules of `LocalOptimizer` and the helpers of `BaseOptimizer`
 * they use: following the replacement map, narrowing a value to a small
 * bitvector or a machine integer, the `symmetric` retry, and the rules for
 * casts, `@not`, boolean equality, the integer conversions, addition and
 * multiplication, together with the constant folding that is distributed over
 * a phi.
 *
 * A rule is a function of the optimizer's state. Where the source builds new
 * operations with `newop`/`newcast`/`newphi`, a rule returns a `Term` that
 * describes them; module `Optimizer` emits a term into the arena in the order
 * in which the source creates the operations.
 */
module Peephole {
  import opened Wrappers
  import opened Types
  import opened Ir
  import opened IrGraph
  import opened Passes
  import opened Dataflow

  /** The outcome of a helper or rule: a result, `NoMatchException` (or a rule returning `None`), or another exception. */
  datatype Match<T> = Found(value: T) | NoMatch | Crash(msg: string)

  /** A value a rule produces: an existing value, or operations still to be emitted. */
  datatype Term =
    | Val(v: Value)
    | New(kind: OpKind, name: string, args: seq<Term>, typ: Type)
    /** A phi put in front of the current block (`home == None`) or of block `home`. */
    | NewPhi(prevblocks: seq<BlockId>, inputs: seq<Term>, typ: Type, home: Option<BlockId>)

  /**
   * What a rule sees: the arena, the block being optimized, the anticipated
   * casts of that block, the replacements made so far and the builtin-name
   * map of the code generator.
   */
  datatype Ctx = Ctx(blocks: map<BlockId, Block>, defs: map<OpId, Def>, current: BlockId,
                     anticipated: set<CastTo>, repl: map<Value, Value>, builtins: map<string, string>,
                     hasLoop: bool, doubleCasts: bool)

  /** Python's `int` on a 64-bit host; larger numbers are `long`s. */
  predicate IsPyInt(n: int) { -0x8000_0000_0000_0000 <= n < 0x8000_0000_0000_0000 }

  const Int64ToInt: string := "zz5i64zDzKz5i"

  /** The type of the value a term denotes once emitted. */
  function TermType(defs: map<OpId, Def>, t: Term): Type
  {
    match t
    case Val(v) => ValueType(defs, v)
    case New(_, _, _, typ) => typ
    case NewPhi(_, _, typ, _) => typ
  }

  /**
   * A term that can be emitted into the arena whose block ids are `keys`:
   * every new phi has the input blocks of an existing phi (one of `lists`)
   * and, when it has a home block, that block exists.
   */
  predicate TermOk(t: Term, keys: set<BlockId>, lists: set<seq<BlockId>>)
    decreases t
  {
    match t
    case Val(_) => true
    case New(_, _, args, _) => forall i | 0 <= i < |args| :: TermOk(args[i], keys, lists)
    case NewPhi(pbs, ins, _, home) =>
      pbs in lists && (home.Some? ==> home.value in keys) && forall i | 0 <= i < |ins| :: TermOk(ins[i], keys, lists)
  }

  /** The input-block lists of the phis of the arena. */
  function PhiLists(defs: map<OpId, Def>): set<seq<BlockId>>
  {
    set o | o in defs && defs[o].Phi? :: defs[o].prevblocks
  }

  /** A term the rules may hand to the emitter. */
  predicate Placeable(ctx: Ctx, t: Term)
  {
    TermOk(t, ctx.blocks.Keys, PhiLists(ctx.defs))
  }

  /** `name.lstrip("$@")`. */
  function LStrip(s: string): (r: string)
    ensures |r| <= |s| && r == s[|s| - |r|..]
    ensures r == [] || (r[0] != '$' && r[0] != '@')
  {
    if s != [] && (s[0] == '$' || s[0] == '@') then LStrip(s[1..]) else s
  }

  /** `sub in s` for strings. */
  predicate Contains(s: string, sub: string)
  {
    |sub| <= |s| && (s[..|sub|] == sub || Contains(s[1..], sub))
  }

  /** The operation or phi a value refers to, if any. */
  function DefOf(defs: map<OpId, Def>, v: Value): Option<Def>
  {
    if v.OpRef? && v.id in defs then Some(defs[v.id]) else None
  }

  predicate IsKind(defs: map<OpId, Def>, v: Value, k: OpKind)
  {
    DefOf(defs, v).Some? && DefOf(defs, v).value.Op? && DefOf(defs, v).value.kind == k
  }

  // ---------------------------------------------------------------------
  // The replacement map

  /**
   * `_get_op_replacement`: follow the replacement map as long as the value
   * is a key. Each key is followed at most once, so a cyclic map, on which
   * the source does not terminate, ends after one turn of the cycle.
   */
  function GetReplacement(repl: map<Value, Value>, v: Value): (r: Value)
    ensures v !in repl ==> r == v
    ensures Resolved(repl) ==> r == Replaced(v, repl)
    ensures r == v || r in repl.Values
    decreases |repl|
  {
    if v in repl then
      var r := GetReplacement(repl - {v}, repl[v]);
      assert (repl - {v}).Values <= repl.Values;
      r
    else v
  }

  /** A chain of replacements that ends at a value that is no key is followed to its end. */
  lemma {:induction false} GetReplacementChain(repl: map<Value, Value>, a: Value, b: Value)
    requires a in repl && GetReplacement(repl - {a}, repl[a]) == b && b !in repl
    ensures GetReplacement(repl, a) == b
  {
  }

  lemma {:induction false} GetReplacementEnds(repl: map<Value, Value>, v: Value)
    requires forall k | k in repl :: repl[k] !in repl || repl[repl[k]] !in repl
    ensures GetReplacement(repl, v) !in repl
  {
    if v in repl {
      var w := repl[v];
      if w in repl {
        var x := repl[w];
        assert x !in repl;
        assert w != v;
        assert GetReplacement(repl - {v} - {w}, x) == x;
      }
    }
  }

  /** `_args`: the arguments of an operation, each followed through the replacements. */
  function Args(repl: map<Value, Value>, args: seq<Value>): (r: seq<Value>)
    ensures |r| == |args| && forall i | 0 <= i < |args| :: r[i] == GetReplacement(repl, args[i])
  {
    seq(|args|, i requires 0 <= i < |args| => GetReplacement(repl, args[i]))
  }

  // ---------------------------------------------------------------------
  // Narrowing to a small bitvector

  /** The types that the block's anticipated casts convert `arg` to, looking one step through the replacements. */
  function AnticipatedTypes(ctx: Ctx, arg: Value): set<Type>
  {
    set p | p in ctx.anticipated && Replaced(p.0, ctx.repl) == arg :: p.1
  }

  lemma Singleton<X>(s: set<X>)
    requires |s| == 1
    ensures exists x :: s == {x}
  {
    var x :| x in s;
    assert |s - {x}| == 0;
    assert s - {x} == {};
  }

  function SingleOf<X>(s: set<X>): (r: X)
    requires |s| == 1
    ensures s == {r}
  {
    Singleton(s);
    var x :| s == {x}; x
  }

  /**
   * `_extract_smallfixedbitvector`: a small bitvector value that stands for
   * `arg`, with its type. A value of such a type is itself; a cast is
   * looked through; otherwise a value with exactly one anticipated cast is
   * cast to that type. A cast from a type that is neither small, generic nor
   * big fails the source's assertion.
   */
  function ExtractSmallFixed(ctx: Ctx, arg: Value): (r: Match<(Term, Type)>)
    ensures IsSmallFixed(ValueType(ctx.defs, arg)) ==> r == Found((Val(arg), ValueType(ctx.defs, arg)))
    ensures r.Found? ==> TermType(ctx.defs, r.value.0) == r.value.1
    ensures r.Found? ==> IsSmallFixed(r.value.1) || AnticipatedTypes(ctx, arg) == {r.value.1}
    ensures r.Found? && !r.value.0.Val? ==>
      r.value.0 == New(Cast, "$cast", [Val(arg)], r.value.1) && AnticipatedTypes(ctx, arg) == {r.value.1} &&
      !IsKind(ctx.defs, arg, Cast)
    ensures r.Crash? ==> IsKind(ctx.defs, arg, Cast)
    ensures r.Found? ==> Placeable(ctx, r.value.0)
  {
    var t := ValueType(ctx.defs, arg);
    if IsSmallFixed(t) then Found((Val(arg), t))
    else if !IsKind(ctx.defs, arg, Cast) then
      var casts := AnticipatedTypes(ctx, arg);
      if |casts| == 1 then
        var typ := SingleOf(casts);
        Found((New(Cast, "$cast", [Val(arg)], typ), typ))
      else NoMatch
    else
      var d := ctx.defs[arg.id];
      if d.args == [] then Crash("cast without argument")
      else
        var expr := d.args[0];
        var typ := ValueType(ctx.defs, expr);
        if IsSmallFixed(typ) then Found((Val(expr), typ))
        else if typ.GenericBitVector? || typ.BigFixedBitVector? then NoMatch
        else Crash("cast from a type that is not a bitvector")
  }

  // ---------------------------------------------------------------------
  // Narrowing to a machine integer

  /** The first input block of a phi that jumps unconditionally to a block holding the phi. */
  function HomeBlock(blocks: map<BlockId, Block>, prevblocks: seq<BlockId>, o: OpId): (r: Option<BlockId>)
    ensures r.Some? ==> (r.value in blocks && o in blocks[r.value].ops &&
                         exists pb | pb in prevblocks :: pb in blocks && blocks[pb].next == Goto(r.value))
  {
    if prevblocks == [] then None
    else
      var pb := prevblocks[0];
      if pb in blocks && blocks[pb].next.Goto? && blocks[pb].next.target in blocks &&
         o in blocks[blocks[pb].next.target].ops
      then Some(blocks[pb].next.target)
      else
        var r := HomeBlock(blocks, prevblocks[1..], o);
        assert r.Some? ==> exists pb | pb in prevblocks :: pb in blocks && blocks[pb].next == Goto(r.value) by {
          if r.Some? {
            var pb' :| pb' in prevblocks[1..] && pb' in blocks && blocks[pb'].next == Goto(r.value);
            assert pb' in prevblocks;
          }
        }
        r
  }

  /** The current block's operations, as the source's `self.current_block.operations`. */
  function CurrentOps(ctx: Ctx): seq<OpId>
  {
    if ctx.current in ctx.blocks then ctx.blocks[ctx.current].ops else []
  }

  /** A call whose builtin name is `int64_to_int`. */
  predicate IsWidening(ctx: Ctx, v: Value)
  {
    DefOf(ctx.defs, v).Some? && DefOf(ctx.defs, v).value.Op? &&
    BuiltinName(ctx.builtins, DefOf(ctx.defs, v).value.name) == "int64_to_int"
  }

  /**
   * `_extract_machineint`: a machine integer that stands for `arg`. A
   * machine integer is itself; an integer constant that is a Python `int`
   * becomes a machine constant (when constants are wanted); a default value
   * becomes the machine default; `int64_to_int(x)` gives `x`; a cast reaches
   * the source's debugger stop; an anticipated `int_to_int64` is made; a phi
   * is narrowed input by input (inner phis only when the graph has no loop)
   * and the new phi goes in front of the current block, or of the block the
   * phi lives in. `visited` holds the phis being narrowed; meeting one again
   * is the source's unbounded recursion.
   */
  function ExtractMachineInt(ctx: Ctx, arg: Value, wantConstant: bool, canRecurse: bool, visited: set<OpId>): (r: Match<Term>)
    ensures ValueType(ctx.defs, arg) == MachineInt ==> r == Found(Val(arg))
    ensures r.Found? ==> (TermType(ctx.defs, r.value) == MachineInt ||
                          (IsWidening(ctx, arg) && ctx.defs[arg.id].args != [] && r.value == Val(ctx.defs[arg.id].args[0])))
    ensures !wantConstant && arg.Const? && arg.c.IntConstant? ==> r.NoMatch?
    ensures r.Found? && r.value.New? ==>
      r.value == New(Operation, IntToInt64, [Val(arg)], MachineInt) && (arg, MachineInt) in ctx.anticipated
    ensures r.Found? && r.value.NewPhi? ==>
      DefOf(ctx.defs, arg).Some? && DefOf(ctx.defs, arg).value.Phi? && canRecurse &&
      r.value.prevblocks == DefOf(ctx.defs, arg).value.prevblocks &&
      |r.value.inputs| == |DefOf(ctx.defs, arg).value.prevvalues|
    ensures r.Found? ==> Placeable(ctx, r.value)
    decreases |ctx.defs.Keys - visited|, 0, 0
  {
    if ValueType(ctx.defs, arg) == MachineInt then Found(Val(arg))
    else if arg.Const? && arg.c.IntConstant? && !wantConstant then NoMatch
    else if arg.Const? && arg.c.IntConstant? && IsPyInt(arg.c.n) then Found(Val(Const(MachineIntConstant(arg.c.n))))
    else if arg.Const? && arg.c.DefaultValue? then Found(Val(Const(DefaultValue(MachineInt))))
    else if IsWidening(ctx, arg) then
      if ctx.defs[arg.id].args == [] then Crash("int64_to_int without argument")
      else Found(Val(ctx.defs[arg.id].args[0]))
    else if IsKind(ctx.defs, arg, Cast) then Crash("narrowing a cast")
    else if (arg, MachineInt) in ctx.anticipated then Found(New(Operation, IntToInt64, [Val(arg)], MachineInt))
    else if DefOf(ctx.defs, arg).Some? && DefOf(ctx.defs, arg).value.Phi? && canRecurse then
      var o := arg.id;
      var d := ctx.defs[o];
      if o in visited then Crash("unbounded recursion")
      else
        CardRemove(ctx.defs.Keys, visited, o);
        var ins := ExtractInputs(ctx, d.prevvalues, wantConstant, !ctx.hasLoop, visited + {o});
        if !ins.Found? then Demote(ins)
        else if o in CurrentOps(ctx) then
          assert d.prevblocks in PhiLists(ctx.defs);
          Found(NewPhi(d.prevblocks, ins.value, MachineInt, None))
        else
          var home := HomeBlock(ctx.blocks, d.prevblocks, o);
          assert d.prevblocks in PhiLists(ctx.defs);
          if home.Some? then Found(NewPhi(d.prevblocks, ins.value, MachineInt, home))
          else NoMatch
    else NoMatch
  }

  /** A failed outcome, retyped. */
  function Demote<A, B>(m: Match<A>): (r: Match<B>)
    requires !m.Found?
    ensures m.NoMatch? <==> r.NoMatch?
  {
    if m.NoMatch? then NoMatch else Crash(m.msg)
  }

  /** The inputs of a phi, each followed through the replacements and narrowed. */
  function ExtractInputs(ctx: Ctx, vs: seq<Option<Value>>, wantConstant: bool, canRecurse: bool, visited: set<OpId>)
    : (r: Match<seq<Term>>)
    ensures r.Found? ==> |r.value| == |vs|
    ensures r.Found? ==> forall i | 0 <= i < |r.value| :: Placeable(ctx, r.value[i])
    decreases |ctx.defs.Keys - visited|, 1, |vs|
  {
    if vs == [] then Found([])
    else if vs[0].None? then Crash("phi input missing")
    else
      var h := ExtractMachineInt(ctx, GetReplacement(ctx.repl, vs[0].value), wantConstant, canRecurse, visited);
      if !h.Found? then Demote(h)
      else
        var t := ExtractInputs(ctx, vs[1..], wantConstant, canRecurse, visited);
        if !t.Found? then t else Found([h.value] + t.value)
  }

  /**
   * The machine constant `_extract_number` finds, independently of how
   * `_extract_machineint` searches: a machine constant, an integer constant
   * that is a Python `int`, or the argument of an `int64_to_int` call that
   * is itself a machine constant.
   */
  function NumberOf(ctx: Ctx, arg: Value): Option<int>
  {
    match arg
    case Const(MachineIntConstant(n)) => Some(n)
    case Const(IntConstant(n)) => if IsPyInt(n) then Some(n) else None
    case Argument(_, _) => None
    case Const(_) => None
    case OpRef(o) =>
      if IsWidening(ctx, arg) && ValueType(ctx.defs, arg) != MachineInt
         && ctx.defs[o].args != [] && ctx.defs[o].args[0].Const? && ctx.defs[o].args[0].c.MachineIntConstant?
      then Some(ctx.defs[o].args[0].c.mi)
      else None
  }

  /**
   * `_extract_number`: the machine constant that stands for `arg`, when
   * narrowing it gives a constant. It finds exactly what `NumberOf` names.
   */
  function ExtractNumber(ctx: Ctx, arg: Value): (r: Match<int>)
    ensures r.Found? <==> NumberOf(ctx, arg).Some?
    ensures r.Found? ==> r.value == NumberOf(ctx, arg).value
  {
    if arg.Const? && arg.c.MachineIntConstant? then Found(arg.c.mi)
    else
      var m := ExtractMachineInt(ctx, arg, true, true, {});
      if m.Found? && m.value.Val? && m.value.v.Const? && m.value.v.c.MachineIntConstant? then Found(m.value.v.c.mi)
      else if m.Crash? then Crash(m.msg)
      else NoMatch
  }

  /** A number the source finds by building a fresh `MachineIntConstant`, which is identical to no other value. */
  predicate FreshNumber(arg: Value) { arg.Const? && arg.c.IntConstant? }

  /** `_convert_to_machineint`: narrow, or else call `int_to_int64`. */
  function ConvertToMachineInt(ctx: Ctx, arg: Value): (r: Match<Term>)
    ensures r.NoMatch? ==> false
    ensures ExtractMachineInt(ctx, arg, true, true, {}).NoMatch? ==> r == Found(New(Operation, IntToInt64, [Val(arg)], MachineInt))
    ensures r.Found? ==> Placeable(ctx, r.value)
  {
    var m := ExtractMachineInt(ctx, arg, true, true, {});
    if m.NoMatch? then Found(New(Operation, IntToInt64, [Val(arg)], MachineInt)) else m
  }

  // ---------------------------------------------------------------------
  // The symmetric retry

  /**
   * `symmetric`: try the rule with the arguments as given and, when it does
   * not match, with the arguments swapped. An exception other than
   * `NoMatchException` in the first try is not caught.
   */
  function Symmetric(f: (Value, Value) -> Match<Term>, a0: Value, a1: Value): (r: Match<Term>)
  {
    var first := f(a0, a1);
    if first.Found? || first.Crash? then first else f(a1, a0)
  }

  /** The retry finds a rewrite exactly when one of the two orders does, and prefers the given order. */
  lemma SymmetricSpec(f: (Value, Value) -> Match<Term>, a0: Value, a1: Value)
    ensures Symmetric(f, a0, a1).Found? <==> f(a0, a1).Found? || (f(a0, a1).NoMatch? && f(a1, a0).Found?)
    ensures f(a0, a1).Found? ==> Symmetric(f, a0, a1) == f(a0, a1)
    ensures f(a0, a1).NoMatch? ==> Symmetric(f, a0, a1) == f(a1, a0)
    ensures f(a0, a1).NoMatch? && f(a1, a0).NoMatch? ==> Symmetric(f, a0, a1) == Symmetric(f, a1, a0)
  {
  }

  // ---------------------------------------------------------------------
  // Rules

  /** `_optimize_Cast`: a cast to the type it already has disappears; a cast of a cast is folded. */
  function OptimizeCast(ctx: Ctx, d: Def): (r: Match<Term>)
    requires d.Op?
    ensures |d.args| != 1 ==> r.Crash?
    ensures |d.args| == 1 && d.typ == ValueType(ctx.defs, GetReplacement(ctx.repl, d.args[0])) ==>
      r == Found(Val(GetReplacement(ctx.repl, d.args[0])))
    ensures r.Found? ==> TermType(ctx.defs, r.value) == d.typ
    ensures r.NoMatch? ==> |d.args| == 1 && !(ctx.doubleCasts && IsKind(ctx.defs, GetReplacement(ctx.repl, d.args[0]), Cast))
    ensures r.Found? ==> Placeable(ctx, r.value)
  {
    var args := Args(ctx.repl, d.args);
    if |args| != 1 then Crash("cast takes one argument")
    else
      var arg := args[0];
      if d.typ == ValueType(ctx.defs, arg) then Found(Val(arg))
      else if ctx.doubleCasts && IsKind(ctx.defs, arg, Cast) then
        var inner := Args(ctx.repl, ctx.defs[arg.id].args);
        if |inner| != 1 then Crash("cast takes one argument")
        else if ValueType(ctx.defs, inner[0]) == d.typ then Found(Val(inner[0]))
        else Found(New(Cast, "$cast", [Val(inner[0])], d.typ))
      else NoMatch
  }

  /** `optimize_not`: fold a constant, cancel a double negation, or standardise the name to `@not`. */
  function OptimizeNot(ctx: Ctx, d: Def): (r: Match<Term>)
    requires d.Op?
    ensures |d.args| == 1 ==>
      var a := GetReplacement(ctx.repl, d.args[0]);
      (a.Const? && a.c.BooleanConstant? ==> r == Found(Val(Const(BooleanConstant(!a.c.b))))) &&
      ((!a.Const? && DefOf(ctx.defs, a).Some? && DefOf(ctx.defs, a).value.Op? &&
        DefOf(ctx.defs, a).value.name == "@not" && |DefOf(ctx.defs, a).value.args| >= 1) ==>
         r == Found(Val(GetReplacement(ctx.repl, DefOf(ctx.defs, a).value.args[0])))) &&
      (r.NoMatch? <==> (d.name == "@not" && !(a.Const? && a.c.BooleanConstant?) &&
                        !(DefOf(ctx.defs, a).Some? && DefOf(ctx.defs, a).value.Op? && DefOf(ctx.defs, a).value.name == "@not")))
    ensures r.Found? && r.value.New? ==> r.value.name == "@not" && d.name != "@not" && r.value.typ == Bool
    ensures r.Found? ==> Placeable(ctx, r.value)
  {
    var args := Args(ctx.repl, d.args);
    if |args| != 1 then Crash("not takes one argument")
    else
      var a := args[0];
      if a.Const? && a.c.BooleanConstant? then Found(Val(Const(BooleanConstant(!a.c.b))))
      else if DefOf(ctx.defs, a).Some? && DefOf(ctx.defs, a).value.Op? && DefOf(ctx.defs, a).value.name == "@not" then
        var inner := Args(ctx.repl, ctx.defs[a.id].args);
        if inner == [] then Crash("not takes one argument") else Found(Val(inner[0]))
      else if d.name != "@not" then Found(New(Operation, "@not", [Val(a)], Bool))
      else NoMatch
  }

  /** `optimize_eq_bool` with a constant first argument: `true == x` is `x`, `false == x` is `@not(x)`. */
  function EqBool(a0: Value, a1: Value): (r: Match<Term>)
    ensures r.Found? <==> a0.Const? && a0.c.BooleanConstant?
    ensures r.Found? ==> r.value == (if a0.c.b then Val(a1) else New(Operation, "@not", [Val(a1)], Bool))
  {
    if !(a0.Const? && a0.c.BooleanConstant?) then NoMatch
    else if a0.c.b then Found(Val(a1))
    else Found(New(Operation, "@not", [Val(a1)], Bool))
  }

  /** `optimize_int64_to_int`: a machine constant becomes an integer constant; `int64_to_int(int_to_int64(x))` is `x`. */
  function OptimizeInt64ToInt(ctx: Ctx, d: Def): (r: Match<Term>)
    requires d.Op?
    ensures r.Found? ==> r.value.Val?
    ensures |d.args| == 1 ==>
      var a := GetReplacement(ctx.repl, d.args[0]);
      (a.Const? && a.c.MachineIntConstant? ==> r == Found(Val(Const(IntConstant(a.c.mi))))) &&
      ((r.Found? && !(a.Const? && a.c.MachineIntConstant?)) ==>
         (ctx.doubleCasts && DefOf(ctx.defs, a).Some? && DefOf(ctx.defs, a).value.Op? &&
          BuiltinName(ctx.builtins, DefOf(ctx.defs, a).value.name) == "int_to_int64" &&
          |DefOf(ctx.defs, a).value.args| >= 1 && r == Found(Val(DefOf(ctx.defs, a).value.args[0]))))
  {
    var args := Args(ctx.repl, d.args);
    if |args| != 1 then Crash("one argument")
    else
      var a := args[0];
      if a.Const? && a.c.MachineIntConstant? then Found(Val(Const(IntConstant(a.c.mi))))
      else if !ctx.doubleCasts then NoMatch
      else if !(DefOf(ctx.defs, a).Some? && DefOf(ctx.defs, a).value.Op? &&
                BuiltinName(ctx.builtins, DefOf(ctx.defs, a).value.name) == "int_to_int64") then NoMatch
      else if ctx.defs[a.id].args == [] then Crash("one argument")
      else Found(Val(ctx.defs[a.id].args[0]))
  }

  /** `optimize_int_to_int64`: an integer constant becomes a machine constant; `int_to_int64(int64_to_int(x))` is `x`. */
  function OptimizeIntToInt64(ctx: Ctx, d: Def): (r: Match<Term>)
    requires d.Op?
    ensures r.Found? ==> r.value.Val?
    ensures |d.args| == 1 ==>
      var a := GetReplacement(ctx.repl, d.args[0]);
      (a.Const? && a.c.IntConstant? && IsPyInt(a.c.n) ==> r == Found(Val(Const(MachineIntConstant(a.c.n))))) &&
      (a.Const? && a.c.IntConstant? && !IsPyInt(a.c.n) ==> r.Crash?) &&
      ((r.Found? && !(a.Const? && a.c.IntConstant?)) ==>
         (DefOf(ctx.defs, a).Some? && DefOf(ctx.defs, a).value.Op? &&
          BuiltinName(ctx.builtins, DefOf(ctx.defs, a).value.name) == "int64_to_int" &&
          |DefOf(ctx.defs, a).value.args| >= 1 && r == Found(Val(DefOf(ctx.defs, a).value.args[0]))))
  {
    var args := Args(ctx.repl, d.args);
    if |args| != 1 then Crash("one argument")
    else
      var a := args[0];
      if a.Const? && a.c.IntConstant? then
        if IsPyInt(a.c.n) then Found(Val(Const(MachineIntConstant(a.c.n)))) else Crash("long constant")
      else if !(DefOf(ctx.defs, a).Some? && DefOf(ctx.defs, a).value.Op? &&
                BuiltinName(ctx.builtins, DefOf(ctx.defs, a).value.name) == "int64_to_int") then NoMatch
      else if ctx.defs[a.id].args == [] then Crash("one argument")
      else Found(Val(ctx.defs[a.id].args[0]))
  }

  /** `optimize_add_int` / `optimize_mult_int` with the arguments in one order: narrow the second argument. */
  function WidenedRight(ctx: Ctx, name: string, typ: Type, a0: Value, a1: Value): (r: Match<Term>)
    ensures r.Found? ==> (r.value.New? && r.value.name == name && r.value.typ == typ && |r.value.args| == 2 &&
                          r.value.args[0] == Val(a0) && ExtractMachineInt(ctx, a1, true, true, {}) == Found(r.value.args[1]))
    ensures !r.Found? ==> !ExtractMachineInt(ctx, a1, true, true, {}).Found?
    ensures r.Found? ==> Placeable(ctx, r.value)
  {
    var m := ExtractMachineInt(ctx, a1, true, true, {});
    if !m.Found? then Demote(m) else Found(New(Operation, name, [Val(a0), m.value], typ))
  }

  /** The first two arguments of an operation named `name`, followed through the replacements; too few is an `IndexError`. */
  function SubArgs(ctx: Ctx, v: Value, name: string): (r: Match<(Value, Value)>)
    ensures r.Found? ==> (DefOf(ctx.defs, v).Some? && DefOf(ctx.defs, v).value.Op? && DefOf(ctx.defs, v).value.name == name &&
                          |DefOf(ctx.defs, v).value.args| >= 2 &&
                          r.value == (GetReplacement(ctx.repl, DefOf(ctx.defs, v).value.args[0]),
                                      GetReplacement(ctx.repl, DefOf(ctx.defs, v).value.args[1])))
    ensures !(DefOf(ctx.defs, v).Some? && DefOf(ctx.defs, v).value.Op? && DefOf(ctx.defs, v).value.name == name) ==> r.NoMatch?
  {
    if !(DefOf(ctx.defs, v).Some? && DefOf(ctx.defs, v).value.Op? && DefOf(ctx.defs, v).value.name == name) then NoMatch
    else if |ctx.defs[v.id].args| < 2 then Crash("index out of range")
    else
      var args := Args(ctx.repl, ctx.defs[v.id].args);
      Found((args[0], args[1]))
  }

  /**
   * `optimize_add_o_i_wrapped_res`, `a + n` with a machine `n`: adding zero
   * gives `a`; `(x - n) + n` gives `x` (widened when the subtraction was on
   * machine integers); the two `n` are compared by value here, where the
   * source compares them by object identity, so two separate literals of the
   * same number match here and not in the source; otherwise `a` is narrowed
   * and the addition done on machine integers.
   */
  function OptimizeAddOI(ctx: Ctx, d: Def): (r: Match<Term>)
    requires d.Op?
    ensures r.Found? ==> Placeable(ctx, r.value)
    ensures |d.args| == 2 ==>
      var a0 := GetReplacement(ctx.repl, d.args[0]);
      var a1 := GetReplacement(ctx.repl, d.args[1]);
      var num := ExtractNumber(ctx, a1);
      (num == Found(0) ==> r == Found(Val(a0))) &&
      (num.Found? && num.value != 0 && !FreshNumber(a1) ==>
        var sub := SubArgs(ctx, a0, "@sub_i_i_wrapped_res");
        sub.Found? && sub.value.1 == Const(MachineIntConstant(num.value)) ==>
          r == Found(New(Operation, Int64ToInt, [Val(sub.value.0)], Int))) &&
      (num.Found? && num.value != 0 && !FreshNumber(a1) ==>
        var sub := SubArgs(ctx, a0, "@sub_o_i_wrapped_res");
        sub.Found? && sub.value.1 == Const(MachineIntConstant(num.value)) ==>
          r == Found(Val(sub.value.0))) &&
      (num.NoMatch? ==>
        var m := ExtractMachineInt(ctx, a0, true, true, {});
        r == if m.Found? then Found(New(Operation, "@add_i_i_wrapped_res", [m.value, Val(a1)], d.typ)) else Demote(m))
  {
    var args := Args(ctx.repl, d.args);
    if |args| != 2 then Crash("two arguments")
    else
      var a0, a1 := args[0], args[1];
      var num := ExtractNumber(ctx, a1);
      if num.Crash? then Crash(num.msg)
      else if num == Found(0) then Found(Val(a0))
      else
        var same := num.Found? && !FreshNumber(a1);
        var subII := SubArgs(ctx, a0, "@sub_i_i_wrapped_res");
        var subOI := SubArgs(ctx, a0, "@sub_o_i_wrapped_res");
        if num.Found? && subII.Crash? then Crash(subII.msg)
        else if same && subII.Found? && subII.value.1 == Const(MachineIntConstant(num.value)) then
          Found(New(Operation, Int64ToInt, [Val(subII.value.0)], Int))
        else if num.Found? && subOI.Crash? then Crash(subOI.msg)
        else if same && subOI.Found? && subOI.value.1 == Const(MachineIntConstant(num.value)) then
          Found(Val(subOI.value.0))
        else
          var m := ExtractMachineInt(ctx, a0, true, true, {});
          if !m.Found? then Demote(m)
          else Found(New(Operation, "@add_i_i_wrapped_res", [m.value, Val(a1)], d.typ))
  }

  // ---------------------------------------------------------------------
  // Multiplication by a constant

  function Pow2(k: nat): nat
    ensures Pow2(k) >= 1
  {
    if k == 0 then 1 else 2 * Pow2(k - 1)
  }

  /** `int.bit_length` of a non-negative number. */
  function BitLength(n: nat): nat
  {
    if n == 0 then 0 else 1 + BitLength(n / 2)
  }

  /** `a & b` on non-negative numbers, bit by bit from the lowest. */
  function BitAnd(a: nat, b: nat): nat
  {
    if a == 0 || b == 0 then 0 else 2 * BitAnd(a / 2, b / 2) + (if a % 2 == 1 && b % 2 == 1 then 1 else 0)
  }

  /** `n & (n - 1) == 0` for a positive `n`, the source's power-of-two test. */
  predicate PowerOfTwoTest(n: int)
  {
    n >= 1 && BitAnd(n, n - 1) == 0
  }

  /**
   * The power-of-two test holds exactly for the powers of two, and then the
   * exponent is `bit_length - 1`, as the source's own assertion states.
   */
  lemma {:induction false} PowerOfTwoExponent(n: nat)
    requires n >= 1
    ensures PowerOfTwoTest(n) <==> Pow2(BitLength(n) - 1) == n
  {
    if n == 1 {
      assert BitAnd(1, 0) == 0;
      assert BitLength(1) == 1 + BitLength(0);
    } else if n % 2 == 1 {
      // odd: n - 1 shares the high bits of n, and the top bit survives
      assert BitAnd(n, n - 1) == 2 * BitAnd(n / 2, (n - 1) / 2);
      assert (n - 1) / 2 == n / 2;
      BitAndSelf(n / 2);
      BitLengthPos(n);
      EvenPow2(BitLength(n) - 1);
    } else {
      assert (n - 1) % 2 == 1;
      assert BitAnd(n, n - 1) == 2 * BitAnd(n / 2, (n - 1) / 2);
      assert (n - 1) / 2 == n / 2 - 1;
      PowerOfTwoExponent(n / 2);
      assert BitLength(n) == 1 + BitLength(n / 2);
      BitLengthPos(n / 2);
      assert Pow2(BitLength(n) - 1) == 2 * Pow2(BitLength(n / 2) - 1);
    }
  }

  lemma {:induction false} BitAndSelf(m: nat)
    requires m >= 1
    ensures BitAnd(m, m) >= 1
  {
    if m / 2 >= 1 {
      BitAndSelf(m / 2);
    }
  }

  lemma BitLengthPos(n: nat)
    requires n >= 1
    ensures BitLength(n) >= 1
  {
  }

  /** A power of two other than 1 is even, and an odd number above 1 is none. */
  lemma {:induction false} EvenPow2(k: nat)
    ensures k >= 1 ==> Pow2(k) % 2 == 0
  {
  }

  /** `1 << k == n` for the exponent the rule picks. */
  function ShiftFor(n: nat): nat
  {
    if n == 0 then 0 else BitLength(n) - 1
  }

  /**
   * `optimize_mult_o_i_wrapped_res`, `a * n` with a machine `n`: one gives
   * `a`, zero gives the integer constant 0, a power of two `2^k` becomes a
   * shift by `k`, a negative constant is left alone, and another positive
   * constant turns into a machine multiplication when the product is
   * anticipated as a machine integer. Without a constant, `a` is narrowed.
   */
  function OptimizeMultOI(ctx: Ctx, self: Value, d: Def): (r: Match<Term>)
    requires d.Op?
    ensures |d.args| == 2 ==>
      var a0 := GetReplacement(ctx.repl, d.args[0]);
      var a1 := GetReplacement(ctx.repl, d.args[1]);
      var num := ExtractNumber(ctx, a1);
      (num == Found(1) ==> r == Found(Val(a0))) &&
      (num == Found(0) ==> r == Found(Val(Const(IntConstant(0))))) &&
      (num.Found? && num.value >= 2 && PowerOfTwoTest(num.value) ==>
        r == Found(New(Operation, "@shl_int_o_i", [Val(a0), Val(Const(MachineIntConstant(ShiftFor(num.value))))], d.typ))) &&
      (num.Found? && num.value < 0 ==> r.NoMatch?) &&
      (num.Found? && num.value >= 2 && !PowerOfTwoTest(num.value) ==>
        r == if (self, MachineInt) in ctx.anticipated
             then Found(New(Operation, "@mult_i_i_wrapped_res",
                            [New(Operation, IntToInt64, [Val(a0)], MachineInt), Val(Const(MachineIntConstant(num.value)))], d.typ))
             else NoMatch)
    ensures r.Found? && r.value.New? ==> r.value.typ == d.typ
    ensures r.Found? ==> Placeable(ctx, r.value)
  {
    var args := Args(ctx.repl, d.args);
    if |args| != 2 then Crash("two arguments")
    else
      var a0, a1 := args[0], args[1];
      var num := ExtractNumber(ctx, a1);
      if num.Crash? then Crash(num.msg)
      else if num.NoMatch? then
        var m := ExtractMachineInt(ctx, a0, true, true, {});
        if !m.Found? then Demote(m)
        else Found(New(Operation, "@mult_i_i_wrapped_res", [m.value, Val(a1)], d.typ))
      else
        var n := num.value;
        if n == 1 then Found(Val(a0))
        else if n == 0 then Found(Val(Const(IntConstant(0))))
        else if PowerOfTwoTest(n) then
          Found(New(Operation, "@shl_int_o_i", [Val(a0), Val(Const(MachineIntConstant(ShiftFor(n))))], d.typ))
        else if n < 0 then NoMatch
        else if (self, MachineInt) in ctx.anticipated then
          Found(New(Operation, "@mult_i_i_wrapped_res",
                    [New(Operation, IntToInt64, [Val(a0)], MachineInt), Val(Const(MachineIntConstant(n)))], d.typ))
        else NoMatch
  }

  /** The shift the rule emits multiplies by the constant: `2^k == n`. */
  lemma MultShiftExact(n: nat)
    requires n >= 2 && PowerOfTwoTest(n)
    ensures Pow2(ShiftFor(n)) == n
  {
    PowerOfTwoExponent(n);
  }

  // ---------------------------------------------------------------------
  // Constant folding, also through a phi

  /**
   * How `_try_fold` converts one constant argument: integer constants that
   * are Python `int`s, machine constants, small bitvectors, unit values and
   * strings are passed on; an integer that is a `long`, a real and anything
   * else stop the folding; a non-string constant of string type has no
   * `string` to read.
   */
  function FoldArg(c: Constant): Match<()>
  {
    if c.IntConstant? then (if IsPyInt(c.n) then Found(()) else NoMatch)
    else if c.MachineIntConstant? || c.SmallBitVectorConstant? then Found(())
    else if ConstType(c) == Real then NoMatch
    else if ConstType(c) == Unit then Found(())
    else if ConstType(c) == String then (if c.StringConstant? then Found(()) else Crash("no string"))
    else NoMatch
  }

  /** The argument loop of `_try_fold`, in order. */
  function FoldArgs(args: seq<Constant>): (r: Match<()>)
    ensures r.Found? <==> forall c | c in args :: FoldArg(c).Found?
  {
    if args == [] then Found(())
    else
      var h := FoldArg(args[0]);
      if !h.Found? then h
      else
        var t := FoldArgs(args[1..]);
        assert forall c | c in args :: c == args[0] || c in args[1..];
        t
  }

  /**
   * `_try_fold`: the folding function of the runtime library is the
   * parameter `fold`, which answers `None` when the library function raises
   * or the result type is not one it converts back; it is only called when
   * every argument converts.
   */
  function TryFold(fold: (string, seq<Constant>, Type) -> Option<Constant>, name: string, args: seq<Constant>, typ: Type)
    : (r: Match<Constant>)
    ensures r.Found? <==> FoldArgs(args).Found? && fold(name, args, typ).Some?
    ensures r.Found? ==> r.value == fold(name, args, typ).value
    ensures r.Crash? <==> FoldArgs(args).Crash?
  {
    var a := FoldArgs(args);
    if a.Crash? then Crash(a.msg)
    else if a.NoMatch? then NoMatch
    else if fold(name, args, typ).Some? then Found(fold(name, args, typ).value)
    else NoMatch
  }

  function ConstantsOf(vs: seq<Value>): (r: seq<Constant>)
    requires forall v | v in vs :: v.Const?
    ensures |r| == |vs| && forall i | 0 <= i < |vs| :: r[i] == vs[i].c
  {
    if vs == [] then [] else [vs[0].c] + ConstantsOf(vs[1..])
  }

  /** The first argument that is not a constant. */
  function FirstNonConstant(vs: seq<Value>): (r: nat)
    ensures r <= |vs| && (forall i | 0 <= i < r :: vs[i].Const?) && (r < |vs| ==> !vs[r].Const?)
  {
    if vs == [] || !vs[0].Const? then 0 else 1 + FirstNonConstant(vs[1..])
  }

  /** Fold with each constant input of the phi in position `k`, stopping at the first that does not fold. */
  /** The constant arguments with the one at `k` taken from a phi input. */
  function WithInput(args: seq<Value>, k: nat, v: Value): (r: seq<Constant>)
    requires k < |args| && v.Const? && forall i | 0 <= i < |args| && i != k :: args[i].Const?
    ensures |r| == |args| && r[k] == v.c
  {
    assert forall x | x in args[k := v] :: x.Const?;
    ConstantsOf(args[k := v])
  }

  function FoldEach(fold: (string, seq<Constant>, Type) -> Option<Constant>, name: string, args: seq<Value>, k: nat,
                    inputs: seq<Option<Value>>, typ: Type): (r: Match<seq<Constant>>)
    requires k < |args| && forall i | 0 <= i < |args| && i != k :: args[i].Const?
    requires forall v | v in inputs :: v.Some? && v.value.Const?
    ensures r.Found? <==> forall j | 0 <= j < |inputs| :: TryFold(fold, name, WithInput(args, k, inputs[j].value), typ).Found?
    ensures r.Found? ==> |r.value| == |inputs| && forall j | 0 <= j < |inputs| ::
      TryFold(fold, name, WithInput(args, k, inputs[j].value), typ) == Found(r.value[j])
  {
    if inputs == [] then Found([])
    else
      var h := TryFold(fold, name, WithInput(args, k, inputs[0].value), typ);
      if !h.Found? then Demote(h)
      else
        var t := FoldEach(fold, name, args, k, inputs[1..], typ);
        assert forall j | 0 <= j < |inputs[1..]| :: inputs[1..][j] == inputs[j + 1];
        if !t.Found? then t else Found([h.value] + t.value)
  }

  predicate AllSame(cs: seq<Constant>)
  {
    forall i | 0 <= i < |cs| :: cs[i] == cs[0]
  }

  /** The phi, in the current block, whose constant inputs `_try_fold_phi` folds through. */
  predicate FoldablePhiAt(ctx: Ctx, args: seq<Value>, k: nat)
  {
    k < |args| && (forall i | 0 <= i < |args| && i != k :: args[i].Const?) &&
    DefOf(ctx.defs, args[k]).Some? && DefOf(ctx.defs, args[k]).value.Phi? &&
    (forall v | v in DefOf(ctx.defs, args[k]).value.prevvalues :: v.Some? && v.value.Const?) &&
    args[k].id in CurrentOps(ctx)
  }

  /** The constants of the results, as values. */
  function ConstVals(cs: seq<Constant>): (r: seq<Term>)
    ensures |r| == |cs| && forall j | 0 <= j < |cs| :: r[j] == Val(Const(cs[j]))
  {
    seq(|cs|, j requires 0 <= j < |cs| => Val(Const(cs[j])))
  }

  /**
   * `_try_fold_phi`: when every argument but one phi (of the current block,
   * with constant inputs) is constant, fold once per phi input. Equal
   * results give that constant; otherwise a new phi of the results goes in
   * front of the block. A fold that gives nothing gives nothing; a phi
   * without inputs leaves no result to return.
   */
  function TryFoldPhi(ctx: Ctx, fold: (string, seq<Constant>, Type) -> Option<Constant>, name: string, args: seq<Value>,
                      typ: Type): (r: Match<Term>)
    ensures r.Found? ==> Placeable(ctx, r.value)
    ensures !r.NoMatch? ==> exists k: nat :: FoldablePhiAt(ctx, args, k)
    ensures forall k: nat | FoldablePhiAt(ctx, args, k) ::
      var d := ctx.defs[args[k].id];
      var rs := FoldEach(fold, name, args, k, d.prevvalues, typ);
      (rs.Found? && |rs.value| >= 1 ==>
        r == (if AllSame(rs.value) then Found(Val(Const(rs.value[0])))
              else Found(NewPhi(d.prevblocks, ConstVals(rs.value), typ, None)))) &&
      (rs.NoMatch? ==> r.NoMatch?)
  {
    PhiPosition(ctx, args);
    var k := FirstNonConstant(args);
    if k >= |args| then NoMatch
    else if !(DefOf(ctx.defs, args[k]).Some? && DefOf(ctx.defs, args[k]).value.Phi?) then NoMatch
    else if FirstNonConstant(args[k + 1..]) < |args[k + 1..]| then
      assert args[k + 1..][FirstNonConstant(args[k + 1..])] == args[k + 1 + FirstNonConstant(args[k + 1..])];
      NoMatch
    else
      var d := ctx.defs[args[k].id];
      if !(forall v | v in d.prevvalues :: v.Some? && v.value.Const?) then NoMatch
      else if args[k].id !in CurrentOps(ctx) then NoMatch
      else
        assert forall i | k < i < |args| :: args[i] == args[k + 1..][i - k - 1];
        assert FoldablePhiAt(ctx, args, k);
        assert d.prevblocks in PhiLists(ctx.defs);
        var rs := FoldEach(fold, name, args, k, d.prevvalues, typ);
        if !rs.Found? then Demote(rs)
        else if rs.value == [] then Crash("phi without inputs")
        else if AllSame(rs.value) then Found(Val(Const(rs.value[0])))
        else Found(NewPhi(d.prevblocks, ConstVals(rs.value), typ, None))
  }

  /** Only the first non-constant argument can hold the phi, as all the others are constants. */
  lemma PhiPosition(ctx: Ctx, args: seq<Value>)
    ensures forall k: nat | FoldablePhiAt(ctx, args, k) :: k == FirstNonConstant(args)
  {
    forall k: nat | FoldablePhiAt(ctx, args, k) ensures k == FirstNonConstant(args) {
      assert !args[k].Const?;
    }
  }

  // ---------------------------------------------------------------------
  // Unconditional unwrapping

  /**
   * The argument conversion of an entry of `all_unwraps`: `o` keeps the
   * argument, `i` converts it to a machine integer; another letter fails
   * the source's assertion.
   */
  function UnwrapArgs(ctx: Ctx, specs: string, args: seq<Value>): (r: Match<seq<Term>>)
    requires |specs| == |args|
    ensures r.Found? ==> forall i | 0 <= i < |r.value| :: Placeable(ctx, r.value[i])
    ensures r.NoMatch? ==> false
    ensures r.Found? ==> (|r.value| == |args| &&
                          forall i | 0 <= i < |args| :: specs[i] in "oi" && (specs[i] == 'o' ==> r.value[i] == Val(args[i])))
    ensures r.Crash? ==> (exists i | 0 <= i < |specs| :: specs[i] !in "oi") ||
                         (exists i | 0 <= i < |args| :: ConvertToMachineInt(ctx, args[i]).Crash?)
  {
    if args == [] then Found([])
    else
      var h := if specs[0] == 'o' then Found(Val(args[0]))
               else if specs[0] == 'i' then ConvertToMachineInt(ctx, args[0])
               else Crash("unknown spec");
      if !h.Found? then
        assert specs[0] !in "oi" || ConvertToMachineInt(ctx, args[0]).Crash?;
        Demote(h)
      else
        var t := UnwrapArgs(ctx, specs[1..], args[1..]);
        if !t.Found? then
          assert t.Crash?;
          assert (exists i | 0 <= i < |specs| :: specs[i] !in "oi") ||
                 (exists i | 0 <= i < |args| :: ConvertToMachineInt(ctx, args[i]).Crash?) by {
            if i :| 0 <= i < |specs[1..]| && specs[1..][i] !in "oi" {
              assert specs[i + 1] !in "oi";
            } else {
              var i :| 0 <= i < |args[1..]| && ConvertToMachineInt(ctx, args[1..][i]).Crash?;
              assert args[i + 1] == args[1..][i];
            }
          }
          t
        else
          assert forall i | 0 <= i < |args[1..]| :: specs[1..][i] == specs[i + 1] && args[1..][i] == args[i + 1];
          Found([h.value] + t.value)
  }

  // ---------------------------------------------------------------------
  // Dispatch

  /** The rule `getattr(self, "optimize_" + name)` finds; a name with no modelled rule gives `NoMatch`. */
  function NamedRule(ctx: Ctx, self: Value, d: Def, key: string): (r: Match<Term>)
    requires d.Op?
    ensures r.Found? ==> Placeable(ctx, r.value)
  {
    if key == "not" || key == "not_" then OptimizeNot(ctx, d)
    else if key == "eq_bool" then
      var args := Args(ctx.repl, d.args);
      if |args| != 2 then Crash("two arguments") else Symmetric(EqBool, args[0], args[1])
    else if key == "int64_to_int" then OptimizeInt64ToInt(ctx, d)
    else if key == "int_to_int64" then OptimizeIntToInt64(ctx, d)
    else if key == "add_int" || key == "mult_int" then
      var args := Args(ctx.repl, d.args);
      var name := if key == "add_int" then "@add_o_i_wrapped_res" else "@mult_o_i_wrapped_res";
      if |args| != 2 then Crash("two arguments")
      else Symmetric((a0, a1) => WidenedRight(ctx, name, d.typ, a0, a1), args[0], args[1])
    else if key == "add_o_i_wrapped_res" then OptimizeAddOI(ctx, d)
    else if key == "mult_o_i_wrapped_res" then OptimizeMultOI(ctx, self, d)
    else NoMatch
  }

  /**
   * The parts of the runtime library the rules consult: the table of
   * unconditional unwraps (`all_unwraps`: argument letters and the unwrapped
   * name) and the names of the pure functions it defines.
   */
  datatype Library = Library(unwraps: map<string, (string, string)>, pure: set<string>)

  /**
   * `_optimize_Operation`: an operation with an unwrapped variant is
   * rewritten to it; otherwise the named rule, and when it gives nothing,
   * the generic constant folding for a pure function of the runtime library
   * whose result is not a real and whose name does not say "undefined":
   * directly when every argument is a constant, through a phi otherwise.
   */
  function OptimizeOperation(ctx: Ctx, self: Value, d: Def, lib: Library,
                             fold: (string, seq<Constant>, Type) -> Option<Constant>): (r: Match<Term>)
    requires d.Op?
    ensures r.Found? ==> Placeable(ctx, r.value)
    ensures var name := BuiltinName(ctx.builtins, d.name);
      name in lib.unwraps ==>
        (|lib.unwraps[name].0| != |d.args| ==> r.Crash?) &&
        (r.Found? ==> r.value.New? && r.value.name == "@" + lib.unwraps[name].1 && r.value.typ == d.typ &&
                      |r.value.args| == |d.args|)
    ensures var name := BuiltinName(ctx.builtins, d.name);
      var rule := NamedRule(ctx, self, d, LStrip(name));
      name !in lib.unwraps && !rule.NoMatch? ==> r == rule
    ensures var name := BuiltinName(ctx.builtins, d.name);
      var key := LStrip(name);
      name !in lib.unwraps && r.Found? && NamedRule(ctx, self, d, key).NoMatch? ==>
        key in lib.pure && d.typ != Real && !Contains(key, "undefined")
  {
    var name := BuiltinName(ctx.builtins, d.name);
    if name in lib.unwraps then
      var (specs, unwrapped) := lib.unwraps[name];
      if |specs| != |d.args| then Crash("unwrap arity")
      else
        var newargs := UnwrapArgs(ctx, specs, Args(ctx.repl, d.args));
        if !newargs.Found? then Demote(newargs)
        else Found(New(Operation, "@" + unwrapped, newargs.value, d.typ))
    else
      var key := LStrip(name);
      var rule := NamedRule(ctx, self, d, key);
      if !rule.NoMatch? then rule
      else if key !in lib.pure || d.typ == Real || Contains(key, "undefined") then NoMatch
      else
        var args := Args(ctx.repl, d.args);
        if forall v | v in args :: v.Const? then
          var c := TryFold(fold, key, ConstantsOf(args), d.typ);
          if c.Found? then Found(Val(Const(c.value))) else Demote(c)
        else TryFoldPhi(ctx, fold, key, args, d.typ)
  }

  /** What `_optimize_op` decides for one operation. */
  datatype Rewrite = Keep | Remove | ReplaceBy(t: Term)

  /**
   * `LocalOptimizer._optimize_op`: dispatch on the class of the operation.
   * A non-SSA assignment is removed; a cast and a plain operation go to their
   * rules; everything else, and a rule that does not match, keeps the
   * operation. An exception other than `NoMatchException` fails the pass.
   */
  function OptimizeOp(ctx: Ctx, o: OpId, lib: Library, fold: (string, seq<Constant>, Type) -> Option<Constant>)
    : (r: Result<Rewrite>)
    ensures r.Ok? && r.value.ReplaceBy? ==> Placeable(ctx, r.value.t)
    ensures o !in ctx.defs || ctx.defs[o].Phi? ==> r == Ok(Keep)
    ensures o in ctx.defs && ctx.defs[o].Op? && ctx.defs[o].kind == NonSSAAssignment ==> r == Ok(Remove)
    ensures r == Ok(Remove) ==> ctx.defs[o].Op? && ctx.defs[o].kind == NonSSAAssignment
    ensures o in ctx.defs && ctx.defs[o].Op? && !(ctx.defs[o].kind in {Cast, Operation, NonSSAAssignment}) ==> r == Ok(Keep)
  {
    if o !in ctx.defs || ctx.defs[o].Phi? then Ok(Keep)
    else
      var d := ctx.defs[o];
      var m :=
        if d.kind == Cast then OptimizeCast(ctx, d)
        else if d.kind == Operation then OptimizeOperation(ctx, OpRef(o), d, lib, fold)
        else NoMatch;
      if d.kind == NonSSAAssignment then Ok(Remove)
      else if m.Crash? then Failure(m.msg)
      else if m.Found? then Ok(ReplaceBy(m.value))
      else Ok(Keep)
  }
}
