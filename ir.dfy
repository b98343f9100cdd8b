/**
 * The SSA intermediate representation: values, operations, phis, terminators
 * and blocks, together with the pure operations on them (successor lists,
 * argument lists, terminator retargeting and value replacement).
 *
 * Python identity is modelled by an arena: blocks are named by `BlockId`s and
 * operations and phis by `OpId`s; a graph (module `IrGraph`) maps those ids to
 * their current contents, so that an in-place update of an operation is an
 * update of one map entry. Constants are values compared structurally; the
 * implementation's `==` on constant objects is identity (only the cse keys
 * compare them by `comparison_key`), so two equal constants built apart are
 * one value here and two there.
 */
module Ir {
  import opened Wrappers
  import opened Types

  type BlockId = nat
  type OpId = nat

  datatype Constant =
    | BooleanConstant(b: bool)
    | MachineIntConstant(mi: int)
    | IntConstant(n: int)
    | SmallBitVectorConstant(bits: nat, bvtyp: Type)
    | DefaultValue(dtyp: Type)
    | EnumConstant(variant: string, etyp: Type)
    | StringConstant(s: string)
    | UnitConstant

  /** An argument of the graph, an operation or phi of the arena, or a constant. */
  datatype Value =
    | Argument(name: string, atyp: Type)
    | OpRef(id: OpId)
    | Const(c: Constant)

  /** The subclasses of `Operation`. */
  datatype OpKind =
    | Operation | Cast | Allocate | StructConstruction | FieldAccess | FieldWrite
    | UnionVariantCheck | UnionCast | GlobalRead | GlobalWrite | RefAssignment
    | RefOf | VectorInit | VectorUpdate | NonSSAAssignment | Comment

  /**
   * The contents of an arena slot. A phi's `prevvalues` may hold `None`
   * while the SSA builder still has to patch it.
   */
  datatype Def =
    | Op(kind: OpKind, name: string, args: seq<Value>, typ: Type)
    | Phi(prevblocks: seq<BlockId>, prevvalues: seq<Option<Value>>, typ: Type)

  datatype Next =
    | Return(value: Option<Value>)
    | Raise(kind: Value)
    | JustStop
    | Goto(target: BlockId)
    | ConditionalGoto(cond: Value, truetarget: BlockId, falsetarget: BlockId)

  datatype Block = Block(ops: seq<OpId>, next: Next)

  const UNIT: Value := Const(UnitConstant)
  const TRUE: Value := Const(BooleanConstant(true))
  const FALSE: Value := Const(BooleanConstant(false))

  /** The `resolved_type` every constant class fixes. */
  function ConstType(c: Constant): Type
  {
    match c
    case BooleanConstant(_) => Bool
    case MachineIntConstant(_) => MachineInt
    case IntConstant(_) => Int
    case SmallBitVectorConstant(_, t) => t
    case DefaultValue(t) => t
    case EnumConstant(_, t) => t
    case StringConstant(_) => String
    case UnitConstant => Unit
  }

  /** `can_have_side_effects` of the operation classes; phis have none. */
  predicate CanHaveSideEffects(d: Def)
  {
    match d
    case Phi(_, _, _) => false
    case Op(k, _, _, _) =>
      k in {Operation, FieldWrite, UnionCast, GlobalWrite, RefAssignment, NonSSAAssignment, Comment}
  }

  // ---------------------------------------------------------------------
  // Constructors of the classes that fix their own name or type

  function MakeCast(arg: Value, t: Type): Def { Op(Cast, "$cast", [arg], t) }
  function MakeNonSSAAssignment(lhs: Value, rhs: Value): Def { Op(NonSSAAssignment, "non_ssa_assign", [lhs, rhs], Unit) }
  function MakeComment(text: string): Def { Op(Comment, text, [], Unit) }
  function MakeGlobalRead(name: string, t: Type): Def { Op(GlobalRead, name, [], t) }

  // ---------------------------------------------------------------------
  // Successors and arguments

  /**
   * `next_blocks`: the false target comes first and the true target second,
   * which is the order in which a depth-first walk pushes them.
   */
  function NextBlocks(n: Next): (r: seq<BlockId>)
    ensures |r| <= 2
    ensures n.Goto? ==> r == [n.target]
    ensures n.ConditionalGoto? ==> r == [n.falsetarget, n.truetarget]
    ensures !n.Goto? && !n.ConditionalGoto? ==> r == []
  {
    match n
    case Goto(t) => [t]
    case ConditionalGoto(_, t, f) => [f, t]
    case _ => []
  }

  /** `Next.getargs`. */
  function NextArgs(n: Next): seq<Value>
  {
    match n
    case Return(Some(v)) => [v]
    case Raise(k) => [k]
    case ConditionalGoto(c, _, _) => [c]
    case _ => []
  }

  /** The present values of a list of phi inputs. */
  function Present(vs: seq<Option<Value>>): (r: seq<Value>)
    ensures |r| <= |vs|
    ensures forall v :: v in r <==> Some(v) in vs
  {
    if vs == [] then []
    else (if vs[0].Some? then [vs[0].value] else []) + Present(vs[1..])
  }

  /** `getargs` of an operation or phi (a placeholder is no argument). */
  function DefArgs(d: Def): seq<Value>
  {
    match d
    case Op(_, _, args, _) => args
    case Phi(_, vs, _) => Present(vs)
  }

  /** A phi still holding a `None` input. */
  predicate HasPlaceholder(d: Def) { d.Phi? && None in d.prevvalues }

  /** `[b'] where b' is b with every `a` replaced by `c``: retargeting a list of block references. */
  function Rename(s: seq<BlockId>, a: BlockId, c: BlockId): (r: seq<BlockId>)
    ensures |r| == |s|
    ensures forall i | 0 <= i < |s| :: r[i] == (if s[i] == a then c else s[i])
  {
    seq(|s|, i requires 0 <= i < |s| => if s[i] == a then c else s[i])
  }

  /** `Next.replace_next`: retarget the edges to `block` to `other`. */
  function ReplaceNext(n: Next, block: BlockId, other: BlockId): (r: Next)
  {
    match n
    case Goto(t) => Goto(if t == block then other else t)
    case ConditionalGoto(c, t, f) =>
      ConditionalGoto(c, if t == block then other else t, if f == block then other else f)
    case _ => n
  }

  /** Retargeting renames exactly the successor list and leaves arguments alone. */
  lemma ReplaceNextBlocks(n: Next, block: BlockId, other: BlockId)
    ensures NextBlocks(ReplaceNext(n, block, other)) == Rename(NextBlocks(n), block, other)
    ensures NextArgs(ReplaceNext(n, block, other)) == NextArgs(n)
    ensures block !in NextBlocks(n) ==> ReplaceNext(n, block, other) == n
    ensures block != other ==> block !in NextBlocks(ReplaceNext(n, block, other))
  {
  }

  // ---------------------------------------------------------------------
  // Value replacement (`replace_ops`)

  function Replaced(v: Value, repl: map<Value, Value>): Value
  {
    if v in repl then repl[v] else v
  }

  function ReplacedOpt(v: Option<Value>, repl: map<Value, Value>): Option<Value>
  {
    if v.Some? then Some(Replaced(v.value, repl)) else None
  }

  function ReplaceArgs(args: seq<Value>, repl: map<Value, Value>): (r: seq<Value>)
    ensures |r| == |args|
    ensures forall i | 0 <= i < |args| :: r[i] == Replaced(args[i], repl)
  {
    seq(|args|, i requires 0 <= i < |args| => Replaced(args[i], repl))
  }

  function ReplaceOpts(vs: seq<Option<Value>>, repl: map<Value, Value>): (r: seq<Option<Value>>)
    ensures |r| == |vs|
    ensures forall i | 0 <= i < |vs| :: r[i] == ReplacedOpt(vs[i], repl)
  {
    seq(|vs|, i requires 0 <= i < |vs| => ReplacedOpt(vs[i], repl))
  }

  /** `Operation.replace_ops` / `Phi.replace_ops` on the argument lists. */
  function ReplaceInDef(d: Def, repl: map<Value, Value>): Def
  {
    match d
    case Op(k, name, args, t) => Op(k, name, ReplaceArgs(args, repl), t)
    case Phi(bs, vs, t) => Phi(bs, ReplaceOpts(vs, repl), t)
  }

  /** `Next.replace_ops`: the value of a `Return` and the condition of a `ConditionalGoto`; a `Raise` is never rewritten. */
  function ReplaceInNext(n: Next, repl: map<Value, Value>): Next
  {
    match n
    case Return(Some(v)) => Return(Some(Replaced(v, repl)))
    case ConditionalGoto(c, t, f) => ConditionalGoto(Replaced(c, repl), t, f)
    case _ => n
  }

  /** The arguments `Next.replace_ops` looks at. */
  function ReplaceableNextArgs(n: Next): seq<Value>
  {
    match n
    case Return(Some(v)) => [v]
    case ConditionalGoto(c, _, _) => [c]
    case _ => []
  }

  /** What `replace_ops` reports: some argument is a key of the replacement map. */
  predicate Mentions(args: seq<Value>, repl: map<Value, Value>)
  {
    exists i | 0 <= i < |args| :: args[i] in repl
  }

  /** No replacement produces a value that is itself replaced again. */
  predicate Resolved(repl: map<Value, Value>)
  {
    forall v | v in repl :: repl[v] !in repl
  }

  lemma {:induction false} PresentReplaced(vs: seq<Option<Value>>, repl: map<Value, Value>)
    ensures Present(ReplaceOpts(vs, repl)) == ReplaceArgs(Present(vs), repl)
  {
    if vs != [] {
      var h := if vs[0].Some? then [vs[0].value] else [];
      assert ReplaceOpts(vs, repl)[1..] == ReplaceOpts(vs[1..], repl);
      PresentReplaced(vs[1..], repl);
      ReplaceArgsConcat(h, Present(vs[1..]), repl);
    }
  }

  lemma ReplaceArgsConcat(a: seq<Value>, b: seq<Value>, repl: map<Value, Value>)
    ensures ReplaceArgs(a + b, repl) == ReplaceArgs(a, repl) + ReplaceArgs(b, repl)
  {
    assert forall i | 0 <= i < |a| :: (a + b)[i] == a[i];
    assert forall i | |a| <= i < |a| + |b| :: (a + b)[i] == b[i - |a|];
  }

  lemma ReplaceArgsUnmentioned(args: seq<Value>, repl: map<Value, Value>)
    requires !Mentions(args, repl)
    ensures ReplaceArgs(args, repl) == args
  {
  }

  lemma ReplaceArgsResolved(args: seq<Value>, repl: map<Value, Value>)
    requires Resolved(repl)
    ensures !Mentions(ReplaceArgs(args, repl), repl)
    ensures ReplaceArgs(ReplaceArgs(args, repl), repl) == ReplaceArgs(args, repl)
  {
  }

  lemma ReplaceOptsUnmentioned(vs: seq<Option<Value>>, repl: map<Value, Value>)
    requires !Mentions(Present(vs), repl)
    ensures ReplaceOpts(vs, repl) == vs
  {
    forall i | 0 <= i < |vs|
      ensures ReplaceOpts(vs, repl)[i] == vs[i]
    {
      if vs[i].Some? {
        assert vs[i].value in Present(vs);
      }
    }
  }

  lemma ReplaceOptsResolved(vs: seq<Option<Value>>, repl: map<Value, Value>)
    requires Resolved(repl)
    ensures ReplaceOpts(ReplaceOpts(vs, repl), repl) == ReplaceOpts(vs, repl)
  {
  }

  /**
   * Replacement rewrites exactly the arguments that are keys; it changes a
   * definition only when it mentions a key, and with a resolved map one round
   * leaves no key behind, so a second round finds nothing to do.
   */
  lemma ReplaceInDefSpec(d: Def, repl: map<Value, Value>)
    ensures DefArgs(ReplaceInDef(d, repl)) == ReplaceArgs(DefArgs(d), repl)
    ensures !Mentions(DefArgs(d), repl) ==> ReplaceInDef(d, repl) == d
    ensures Resolved(repl) ==> !Mentions(DefArgs(ReplaceInDef(d, repl)), repl)
    ensures Resolved(repl) ==> ReplaceInDef(ReplaceInDef(d, repl), repl) == ReplaceInDef(d, repl)
  {
    if d.Phi? {
      PresentReplaced(d.prevvalues, repl);
      if !Mentions(DefArgs(d), repl) {
        ReplaceOptsUnmentioned(d.prevvalues, repl);
      }
      if Resolved(repl) {
        ReplaceArgsResolved(Present(d.prevvalues), repl);
        ReplaceOptsResolved(d.prevvalues, repl);
      }
    } else {
      if !Mentions(DefArgs(d), repl) {
        ReplaceArgsUnmentioned(d.args, repl);
      }
      if Resolved(repl) {
        ReplaceArgsResolved(d.args, repl);
      }
    }
  }

  lemma ReplaceInNextSpec(n: Next, repl: map<Value, Value>)
    ensures ReplaceableNextArgs(ReplaceInNext(n, repl)) == ReplaceArgs(ReplaceableNextArgs(n), repl)
    ensures NextBlocks(ReplaceInNext(n, repl)) == NextBlocks(n)
    ensures !Mentions(ReplaceableNextArgs(n), repl) ==> ReplaceInNext(n, repl) == n
    ensures Resolved(repl) ==> ReplaceInNext(ReplaceInNext(n, repl), repl) == ReplaceInNext(n, repl)
  {
    if !Mentions(ReplaceableNextArgs(n), repl) {
      match n
      case Return(Some(v)) => assert ReplaceableNextArgs(n)[0] == v;
      case ConditionalGoto(c, _, _) => assert ReplaceableNextArgs(n)[0] == c;
      case _ =>
    }
  }
}
