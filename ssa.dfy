/**
 * `SSABuilder`: turning the label-indexed statement blocks of one function
 * into SSA form. Blocks are built in increasing label order; each one starts
 * from a variable map derived from its predecessors' final maps (a copy, a
 * merge that inserts a phi only where the predecessors disagree, or, at a
 * loop header, pessimistic phis whose back-edge inputs are filled in later),
 * and its statements then extend that map.
 *
 * The SSA block of label `pc` has the block id `pc`, so phi input blocks are
 * predecessor labels.
 */
module Ssa {
  import opened Wrappers
  import opened Types
  import opened Ir
  import IrGraph
  import Parse
  import Construct

  type VarMap = map<string, Option<Value>>

  /** `dict.get`: a variable the map lacks reads as `None`. */
  function Lookup(m: VarMap, x: string): Option<Value>
  {
    if x in m then m[x] else None
  }

  /** The value a loop phi's input takes from its predecessor's final map: input 0 when the variable is absent there. */
  function PatchValue(m: VarMap, x: string, first: Option<Value>): Option<Value>
  {
    if x in m then m[x] else first
  }

  /** A `(phi, index, var)` entry of `patch_phis`. */
  datatype Patch = Patch(phi: OpId, index: nat, name: string)

  /** `patch_phis[b]` of the `defaultdict(list)`; `None` once block `b` is built. */
  function PatchList(pp: map<nat, Option<seq<Patch>>>, b: nat): Option<seq<Patch>>
  {
    if b in pp then pp[b] else Some([])
  }

  /** `resolved_type` of a value. A reference outside the arena has no operation to ask and reads as `Unit`. */
  function TypeOf(defs: map<OpId, Def>, v: Value): Type
  {
    match v
    case Argument(_, t) => t
    case OpRef(o) => if o in defs then defs[o].typ else Unit
    case Const(c) => ConstType(c)
  }

  /** `r_uint`: a literal is kept modulo 2^64. */
  const WORD: nat := 0x1_0000_0000_0000_0000

  // ---------------------------------------------------------------------
  // The arena while the builder runs

  predicate Increasing(s: seq<OpId>)
  {
    forall i, j | 0 <= i < j < |s| :: s[i] < s[j]
  }

  /**
   * Every operation has an owner block; the operations of a finished block
   * and of the block under construction are owned by it, in creation order.
   */
  ghost predicate ArenaOk(defs: map<OpId, Def>, nextOp: nat, owner: map<OpId, nat>, curPc: nat,
                          curOps: seq<OpId>, blockOps: map<nat, seq<OpId>>)
  {
    owner.Keys == defs.Keys &&
    (forall o | o in defs :: o < nextOp) &&
    Increasing(curOps) && (forall o | o in curOps :: o in defs && owner[o] == curPc) &&
    forall b | b in blockOps :: Increasing(blockOps[b]) && forall o | o in blockOps[b] :: o in defs && owner[o] == b
  }

  /** The arena only grew: old slots are unchanged, new ones are operations (no phis) with fresh ids. */
  ghost predicate Grown(defs0: map<OpId, Def>, nextOp0: nat, cur0: seq<OpId>,
                        defs: map<OpId, Def>, nextOp: nat, cur: seq<OpId>)
  {
    nextOp0 <= nextOp && |cur0| <= |cur| && cur[..|cur0|] == cur0 &&
    (forall o | o in defs0 :: o in defs && defs[o] == defs0[o]) &&
    forall o | o in defs && o !in defs0 :: nextOp0 <= o && defs[o].Op?
  }

  lemma GrownTrans(defs0: map<OpId, Def>, n0: nat, c0: seq<OpId>, defs1: map<OpId, Def>, n1: nat, c1: seq<OpId>,
                   defs2: map<OpId, Def>, n2: nat, c2: seq<OpId>)
    requires Grown(defs0, n0, c0, defs1, n1, c1) && Grown(defs1, n1, c1, defs2, n2, c2)
    ensures Grown(defs0, n0, c0, defs2, n2, c2)
  {
    assert c2[..|c0|] == c2[..|c1|][..|c0|];
  }

  lemma GrownRefl(defs: map<OpId, Def>, n: nat, c: seq<OpId>)
    ensures Grown(defs, n, c, defs, n, c)
  {
  }

  // ---------------------------------------------------------------------
  // Values that need no operation

  /**
   * The value `_get_arg` returns without creating an operation: a variable of
   * the map, a builtin name, a `let` value, an enum member or a literal.
   */
  function PlainValue(e: Parse.Expr, vm: VarMap, letValues: map<string, Constant>): Option<Result<Value>>
  {
    match e
    case Var(name, typ) =>
      if name in vm then Some(if vm[name].Some? then Ok(vm[name].value) else Failure("variable read before it is set"))
      else if name == "true" then Some(Ok(TRUE))
      else if name == "false" then Some(Ok(FALSE))
      else if name == "bitzero" then Some(Ok(Const(SmallBitVectorConstant(0, Bit))))
      else if name == "bitone" then Some(Ok(Const(SmallBitVectorConstant(1, Bit))))
      else if name in letValues then Some(Ok(Const(letValues[name])))
      else if typ.Enum? && name in typ.elements then Some(Ok(Const(EnumConstant(name, typ))))
      else None
    case Number(n, _) => Some(Ok(Const(MachineIntConstant(n))))
    case BitVectorConstant(v, typ) =>
      Some(if IsSmallFixed(typ) then Ok(Const(SmallBitVectorConstant(v % WORD, typ)))
           else Failure("SmallBitVectorConstant needs a small fixed-width type"))
    case String(s, _) => Some(Ok(Const(StringConstant(s))))
    case Unit(_) => Some(Ok(UNIT))
    case _ => None
  }

  /** The `Store` rule: a name that is neither local nor `return`, and `current_exception` always, is a global. */
  predicate IsGlobalWrite(vm: VarMap, result: string)
  {
    (result !in vm && result != "return") || result == "current_exception"
  }

  // ---------------------------------------------------------------------
  // Phi inputs

  /**
   * Input `i` of the phi `o`, created in block `h` for variable `x`: once the
   * predecessor `entry[h][i]` is built, the input is that block's final value
   * of `x` (input 0 if the variable is absent there); until then it is a
   * placeholder with a pending patch registered at that predecessor.
   */
  ghost predicate InputOk(defs: map<OpId, Def>, phiOf: map<OpId, (nat, string)>, entry: map<nat, seq<nat>>,
                          ends: map<nat, VarMap>, pp: map<nat, Option<seq<Patch>>>, o: OpId, i: nat)
    requires o in defs && defs[o].Phi? && o in phiOf && i < |defs[o].prevvalues| && i < |Construct.Get(entry, phiOf[o].0)|
  {
    var x := phiOf[o].1;
    var p := Construct.Get(entry, phiOf[o].0)[i];
    var vs := defs[o].prevvalues;
    if p in ends then vs[i] == PatchValue(ends[p], x, vs[0])
    else vs[i].None? && PatchList(pp, p).Some? && Patch(o, i, x) in PatchList(pp, p).value
  }

  /** A phi of the builder: its input blocks are the predecessors of its block, one input each. */
  ghost predicate PhiShape(defs: map<OpId, Def>, phiOf: map<OpId, (nat, string)>, entry: map<nat, seq<nat>>, o: OpId)
  {
    o in defs && defs[o].Phi? && o in phiOf &&
    var e := Construct.Get(entry, phiOf[o].0);
    defs[o].prevblocks == e && |defs[o].prevvalues| == |e| && |e| >= 1
  }

  /**
   * Every phi of the arena is a builder phi of the right shape, and every
   * input not listed in `pending` (the ones a step is still working on) is as
   * `InputOk` says.
   */
  ghost predicate PhisOk(defs: map<OpId, Def>, phiOf: map<OpId, (nat, string)>, entry: map<nat, seq<nat>>,
                         ends: map<nat, VarMap>, pp: map<nat, Option<seq<Patch>>>, pending: set<(OpId, nat)>)
  {
    (forall o | o in defs && defs[o].Phi? :: o in phiOf) &&
    (forall o | o in phiOf :: PhiShape(defs, phiOf, entry, o)) &&
    (forall o, i | o in phiOf && PhiShape(defs, phiOf, entry, o) && 0 <= i < |defs[o].prevvalues| && (o, i) !in pending ::
       InputOk(defs, phiOf, entry, ends, pp, o, i))
  }

  /** One pending patch: an input of a builder phi whose predecessor is `b`, for the phi's variable. */
  ghost predicate PatchOk(defs: map<OpId, Def>, phiOf: map<OpId, (nat, string)>, entry: map<nat, seq<nat>>, b: nat, pt: Patch)
  {
    PhiShape(defs, phiOf, entry, pt.phi) && 1 <= pt.index < |defs[pt.phi].prevvalues| &&
    Construct.Get(entry, phiOf[pt.phi].0)[pt.index] == b && pt.name == phiOf[pt.phi].1
  }

  /** Every pending patch names an input of a builder phi whose predecessor is the block it waits for. */
  ghost predicate PatchesOk(defs: map<OpId, Def>, phiOf: map<OpId, (nat, string)>, entry: map<nat, seq<nat>>,
                            pp: map<nat, Option<seq<Patch>>>)
  {
    forall b, k | b in pp && pp[b].Some? && 0 <= k < |pp[b].value| :: PatchOk(defs, phiOf, entry, b, pp[b].value[k])
  }

  /** A value that is a constant, an argument, or a reference to a slot of the arena. */
  predicate Known(defs: map<OpId, Def>, v: Value)
  {
    v.OpRef? ==> v.id in defs
  }

  ghost predicate MapKnown(defs: map<OpId, Def>, vm: VarMap)
  {
    forall x | x in vm && vm[x].Some? :: Known(defs, vm[x].value)
  }

  ghost predicate EndsKnown(defs: map<OpId, Def>, ends: map<nat, VarMap>)
  {
    forall b | b in ends :: MapKnown(defs, ends[b])
  }

  /** The statements of every block and the predecessor lists `compute_entryblocks` derives from them. */
  ghost predicate Inputs(blocks: map<nat, Construct.Stmts>, entry: map<nat, seq<nat>>)
  {
    Construct.IsEntryblocks(blocks, entry)
  }

  /** The invariant of the builder between two steps. */
  ghost predicate BuilderOk(defs: map<OpId, Def>, nextOp: nat, owner: map<OpId, nat>, curPc: nat, curOps: seq<OpId>,
                            blockOps: map<nat, seq<OpId>>, phiOf: map<OpId, (nat, string)>, entry: map<nat, seq<nat>>,
                            ends: map<nat, VarMap>, pp: map<nat, Option<seq<Patch>>>, vm: VarMap, pending: set<(OpId, nat)>)
  {
    ArenaOk(defs, nextOp, owner, curPc, curOps, blockOps) &&
    PhisOk(defs, phiOf, entry, ends, pp, pending) &&
    PatchesOk(defs, phiOf, entry, pp) &&
    MapKnown(defs, vm) && EndsKnown(defs, ends) &&
    (forall b | b in pp && pp[b].None? :: b in ends) &&
    (forall b | b in ends :: b in pp && pp[b].None?)
  }

  // ---------------------------------------------------------------------
  // Setting up the variable map of a block

  /** `zip` stops at the shorter list. */
  function Pairs(names: seq<string>, types: seq<Type>): nat
  {
    if |names| <= |types| then |names| else |types|
  }

  /** `{var: Argument(var, typ) for var, typ in zip(names, types)}` over the first `k` pairs. */
  function ZipArgs(names: seq<string>, types: seq<Type>, k: nat): (m: VarMap)
    requires k <= |names| && k <= |types|
    ensures forall x | x in m :: m[x].Some? && m[x].value.Argument? && m[x].value.name == x
  {
    if k == 0 then map[] else ZipArgs(names, types, k - 1)[names[k - 1] := Some(Argument(names[k - 1], types[k - 1]))]
  }

  /** `KeyError` free: every function argument has a type. */
  predicate StartOk(names: seq<string>, types: seq<Type>)
  {
    forall v | v in names :: v in ZipArgs(names, types, Pairs(names, types))
  }

  /** `[self.variable_map[var] for var in functionargs]`. */
  function ArgValues(m: VarMap, names: seq<string>): seq<Value>
    requires forall v | v in names :: v in m && m[v].Some?
  {
    seq(|names|, i requires 0 <= i < |names| => m[names[i]].value)
  }

  /** The map after `variable_map[var] = Argument(var, typ)` for each extra argument in turn. */
  function WithExtra(m: VarMap, extra: seq<(string, Type)>): VarMap
  {
    if extra == [] then m
    else WithExtra(m, extra[..|extra| - 1])[extra[|extra| - 1].0 := Some(Argument(extra[|extra| - 1].0, extra[|extra| - 1].1))]
  }

  function ExtraValues(extra: seq<(string, Type)>): seq<Value>
  {
    seq(|extra|, i requires 0 <= i < |extra| => Argument(extra[i].0, extra[i].1))
  }

  /** The loop of `_setup_variable_map` over the extra arguments: each is bound and appended to the arguments. */
  method AddExtraArgs(z: VarMap, extraArgs: seq<(string, Type)>) returns (vm: VarMap, extra: seq<Value>)
    requires forall y | y in z :: z[y].Some? && z[y].value.Argument?
    ensures vm == WithExtra(z, extraArgs) && extra == ExtraValues(extraArgs)
    ensures forall y | y in vm :: vm[y].Some? && vm[y].value.Argument?
  {
    vm, extra := z, [];
    var k := 0;
    while k < |extraArgs|
      invariant k <= |extraArgs|
      invariant vm == WithExtra(z, extraArgs[..k]) && extra == ExtraValues(extraArgs[..k])
      invariant forall y | y in vm :: vm[y].Some? && vm[y].value.Argument?
    {
      var arg := Argument(extraArgs[k].0, extraArgs[k].1);
      assert extraArgs[..k + 1][..k] == extraArgs[..k];
      assert ExtraValues(extraArgs[..k + 1]) == ExtraValues(extraArgs[..k]) + [arg];
      vm := vm[extraArgs[k].0 := Some(arg)];
      extra := extra + [arg];
      k := k + 1;
    }
    assert extraArgs[..k] == extraArgs;
  }

  /** The other predecessors' values of `x`, `None` where a map lacks it. */
  function Others(ends: map<nat, VarMap>, e: seq<nat>, x: string): (os: seq<Option<Value>>)
    requires |e| >= 1 && forall p | p in e :: p in ends
    ensures |os| == |e| - 1
  {
    seq(|e| - 1, j requires 0 <= j < |e| - 1 => Lookup(ends[e[j + 1]], x))
  }

  /**
   * The value of `x` at a join of the predecessors `e`: `None` where a
   * predecessor has none, the common value where they all agree, the unit
   * constant for a unit-typed variable, and otherwise one phi over all of
   * them, its inputs in predecessor order.
   */
  ghost predicate Merged(defs: map<OpId, Def>, ends: map<nat, VarMap>, e: seq<nat>, x: string, r: Option<Value>)
    requires |e| >= 1 && (forall p | p in e :: p in ends) && x in ends[e[0]]
  {
    var v0 := ends[e[0]][x];
    var os := Others(ends, e, x);
    if v0.None? || None in os then r.None?
    else if forall j | 0 <= j < |os| :: os[j] == v0 then r == v0
    else if TypeOf(defs, v0.value) == Unit then r == Some(UNIT)
    else r.Some? && r.value.OpRef? && r.value.id in defs && defs[r.value.id] == Phi(e, [v0] + os, TypeOf(defs, v0.value))
  }

  /**
   * The value of `x` at a loop header: `None` stays `None`, a unit-typed value
   * becomes the unit constant, anything else a phi of this block for `x` over
   * all predecessors whose first input is the first predecessor's value.
   */
  ghost predicate LoopOk(defs: map<OpId, Def>, phiOf: map<OpId, (nat, string)>, ends: map<nat, VarMap>, e: seq<nat>,
                         h: nat, x: string, r: Option<Value>)
    requires |e| >= 1 && e[0] in ends && x in ends[e[0]]
  {
    var v := ends[e[0]][x];
    if v.None? then r.None?
    else if TypeOf(defs, v.value) == Unit then r == Some(UNIT)
    else (r.Some? && r.value.OpRef? && r.value.id in defs && r.value.id in phiOf && phiOf[r.value.id] == (h, x) &&
          defs[r.value.id].Phi? && defs[r.value.id].prevblocks == e && |defs[r.value.id].prevvalues| == |e| &&
          defs[r.value.id].prevvalues[0] == v && defs[r.value.id].typ == TypeOf(defs, v.value))
  }

  /** Whether the merge needs a phi: every predecessor has a value, they disagree, and it is not of unit type. */
  predicate NeedsPhi(defs: map<OpId, Def>, v0: Option<Value>, os: seq<Option<Value>>)
  {
    v0.Some? && None !in os && !(forall j | 0 <= j < |os| :: os[j] == v0) && TypeOf(defs, v0.value) != Unit
  }

  /** The merged value where no phi is needed. */
  function MergePlain(v0: Option<Value>, os: seq<Option<Value>>): Option<Value>
  {
    if v0.None? || None in os then None
    else if forall j | 0 <= j < |os| :: os[j] == v0 then v0
    else Some(UNIT)
  }

  /** The merge without a phi is `Merged`, and its value is known. */
  lemma MergeCases(defs: map<OpId, Def>, ends: map<nat, VarMap>, e: seq<nat>, x: string)
    requires |e| >= 1 && (forall p | p in e :: p in ends) && x in ends[e[0]] && EndsKnown(defs, ends)
    ensures var v0 := ends[e[0]][x]; var os := Others(ends, e, x);
      !NeedsPhi(defs, v0, os) ==> Merged(defs, ends, e, x, MergePlain(v0, os)) &&
                                     (MergePlain(v0, os).Some? ==> Known(defs, MergePlain(v0, os).value))
  {
    var v0 := ends[e[0]][x];
    if v0.Some? {
      assert Known(defs, v0.value);
    }
  }

  /** The merge with a phi is `Merged`. */
  lemma MergedPhi(defs: map<OpId, Def>, o: OpId, ends: map<nat, VarMap>, e: seq<nat>, x: string)
    requires |e| >= 1 && (forall p | p in e :: p in ends) && x in ends[e[0]] && EndsKnown(defs, ends) && o !in defs
    requires NeedsPhi(defs, ends[e[0]][x], Others(ends, e, x))
    ensures var v0 := ends[e[0]][x]; var os := Others(ends, e, x);
      Merged(defs[o := Phi(e, [v0] + os, TypeOf(defs, v0.value))], ends, e, x, Some(OpRef(o)))
  {
    var v0 := ends[e[0]][x];
    assert Known(defs, v0.value);
  }

  /** The inputs of a new phi below `from` are final: each is its predecessor's final value of `x`. */
  ghost predicate InputsFrom(ends: map<nat, VarMap>, e: seq<nat>, x: string, vs: seq<Option<Value>>, from: nat)
  {
    |vs| == |e| && 1 <= from <= |vs| &&
    forall i | 0 <= i < from :: e[i] in ends && vs[i] == PatchValue(ends[e[i]], x, vs[0])
  }

  /** The inputs `k..n-1` of phi `o`. */
  ghost function Range(o: OpId, k: nat, n: nat): set<(OpId, nat)>
  {
    set i: nat | k <= i < n :: (o, i)
  }

  lemma EmptyRange(o: OpId, n: nat)
    ensures Range(o, n, n) == {}
  {
  }

  ghost predicate Extends<K, V>(m0: map<K, V>, m: map<K, V>)
  {
    forall k | k in m0 :: k in m && m[k] == m0[k]
  }

  /** What filling in inputs beyond the first leaves of an operation or phi. */
  predicate Same(d0: Def, d: Def)
  {
    if d0.Phi? then
      d.Phi? && d.prevblocks == d0.prevblocks && |d.prevvalues| == |d0.prevvalues| && d.typ == d0.typ &&
      (d0.prevvalues != [] ==> d.prevvalues[0] == d0.prevvalues[0])
    else d == d0
  }

  /** A loop phi of block `h` for `x` whose inputs from `k` on are still placeholders. */
  ghost predicate LinkReady(defs: map<OpId, Def>, phiOf: map<OpId, (nat, string)>, entry: map<nat, seq<nat>>,
                            o: OpId, h: nat, x: string, k: nat)
  {
    PhiShape(defs, phiOf, entry, o) && phiOf[o] == (h, x) && 1 <= k <= |defs[o].prevvalues| &&
    forall i | k <= i < |defs[o].prevvalues| :: defs[o].prevvalues[i].None?
  }

  /** The inputs the patches `ps[k..]` still have to fill. */
  ghost function PendingOf(ps: seq<Patch>, k: nat): set<(OpId, nat)>
  {
    set j | k <= j < |ps| :: (ps[j].phi, ps[j].index)
  }

  ghost predicate PatchesFor(defs: map<OpId, Def>, phiOf: map<OpId, (nat, string)>, entry: map<nat, seq<nat>>, b: nat, ps: seq<Patch>)
  {
    forall j | 0 <= j < |ps| :: PatchOk(defs, phiOf, entry, b, ps[j])
  }

  /** One patch applied: its input of its phi becomes the final value of its variable, or input 0 when it has none. */
  function Patched(defs: map<OpId, Def>, pt: Patch, vm: VarMap): map<OpId, Def>
    requires pt.phi in defs && defs[pt.phi].Phi? && 0 < |defs[pt.phi].prevvalues| && pt.index < |defs[pt.phi].prevvalues|
  {
    var d := defs[pt.phi];
    defs[pt.phi := d.(prevvalues := d.prevvalues[pt.index := PatchValue(vm, pt.name, d.prevvalues[0])])]
  }

  /** Only phi inputs changed: the same slots, and every phi keeps its blocks, its type and its first input. */
  ghost predicate Refilled(defs0: map<OpId, Def>, defs: map<OpId, Def>)
  {
    defs.Keys == defs0.Keys && forall o | o in defs0 :: Same(defs0[o], defs[o])
  }

  /** The invariant of the patch loop of block `curPc` after `k` patches. */
  ghost predicate Patching(defs0: map<OpId, Def>, defs: map<OpId, Def>, nextOp: nat, owner: map<OpId, nat>, curPc: nat,
                           cur: seq<OpId>, blockOps: map<nat, seq<OpId>>, phiOf: map<OpId, (nat, string)>,
                           entry: map<nat, seq<nat>>, ends: map<nat, VarMap>, pp: map<nat, Option<seq<Patch>>>, vm: VarMap,
                           ps: seq<Patch>, k: nat)
  {
    k <= |ps| && PatchesFor(defs, phiOf, entry, curPc, ps) && Refilled(defs0, defs) &&
    BuilderOk(defs, nextOp, owner, curPc, cur, blockOps, phiOf, entry, ends, pp, vm, PendingOf(ps, k))
  }

  /** A phi of the finished function: every input is its predecessor's final value of its variable, or input 0. */
  ghost predicate PhiFinal(defs: map<OpId, Def>, phiOf: map<OpId, (nat, string)>, entry: map<nat, seq<nat>>,
                           ends: map<nat, VarMap>, o: OpId)
  {
    PhiShape(defs, phiOf, entry, o) &&
    forall i | 0 <= i < |defs[o].prevvalues| ::
      defs[o].prevblocks[i] in ends && defs[o].prevvalues[i] == PatchValue(ends[defs[o].prevblocks[i]], phiOf[o].1, defs[o].prevvalues[0])
  }

  // ---------------------------------------------------------------------
  // The builder

  class Builder {
    const blocks: map<nat, Construct.Stmts>
    const entry: map<nat, seq<nat>>
    const name: string
    const startpc: nat
    const functionArgs: seq<string>
    /** The element types of the function's argument tuple type. */
    const argTypes: seq<Type>
    const extraArgs: seq<(string, Type)>
    const restype: Type
    /** The values of the global `let` bindings, which are constants. */
    const letValues: map<string, Constant>

    var variableMap: VarMap
    var mapsAtEnd: map<nat, VarMap>
    var hasLoop: bool
    var patchPhis: map<nat, Option<seq<Patch>>>
    var args: seq<Value>
    var defs: map<OpId, Def>
    var nextOp: nat
    /** The operations of the block under construction, and its terminator (`None` until a statement sets it). */
    var curOps: seq<OpId>
    var curNext: Option<Next>
    /** The operations and terminators of the blocks built so far. */
    var blockOps: map<nat, seq<OpId>>
    var nexts: map<nat, Option<Next>>
    ghost var curPc: nat
    ghost var owner: map<OpId, nat>
    /** The block and the variable every phi was created for. */
    ghost var phiOf: map<OpId, (nat, string)>

    ghost predicate Inv()
      reads this
    {
      BuilderOk(defs, nextOp, owner, curPc, curOps, blockOps, phiOf, entry, mapsAtEnd, patchPhis, variableMap, {})
    }

    /** The fields the statements of a block leave alone. */
    ghost function BlockScope(): (map<nat, VarMap>, bool, map<nat, Option<seq<Patch>>>, seq<Value>,
                                  map<nat, seq<OpId>>, map<nat, Option<Next>>, nat, map<OpId, (nat, string)>)
      reads this`mapsAtEnd, this`hasLoop, this`patchPhis, this`args, this`blockOps, this`nexts, this`curPc, this`phiOf
    {
      (mapsAtEnd, hasLoop, patchPhis, args, blockOps, nexts, curPc, phiOf)
    }

    /** The fields an operation of the arena leaves alone. */
    ghost function Scope(): ((map<nat, VarMap>, bool, map<nat, Option<seq<Patch>>>, seq<Value>,
                              map<nat, seq<OpId>>, map<nat, Option<Next>>, nat, map<OpId, (nat, string)>), Option<Next>)
      reads this`mapsAtEnd, this`hasLoop, this`patchPhis, this`args, this`blockOps, this`nexts, this`curPc, this`phiOf,
            this`curNext
    {
      (BlockScope(), curNext)
    }

    /** Every block a terminator leads to exists (`self.allblocks[target]` succeeds). */
    predicate TargetsOk(n: Option<Next>)
    {
      n.Some? ==> forall t | t in NextBlocks(n.value) :: t in blocks
    }

    /** `_addop`: the operation joins the current block; a unit-typed one is used as the unit constant. */
    method AddOp(d: Def) returns (o: OpId, v: Value)
      requires Inv() && d.Op? && (forall a | a in d.args :: Known(defs, a))
      modifies this`defs, this`owner, this`curOps, this`nextOp
      ensures Inv()
      ensures o == old(nextOp) && defs == old(defs)[o := d] && nextOp == o + 1 && curOps == old(curOps) + [o]
      ensures v == if d.typ == Unit then UNIT else OpRef(o)
      ensures Known(defs, v) && Known(defs, OpRef(o))
      ensures variableMap == old(variableMap) && Scope() == old(Scope())
      ensures Grown(old(defs), old(nextOp), old(curOps), defs, nextOp, curOps)
    {
      o := nextOp;
      v := if d.typ == Unit then UNIT else OpRef(o);
      ghost var defs0, owner0, cur0 := defs, owner, curOps;
      defs, owner, curOps, nextOp := defs[o := d], owner[o := curPc], curOps + [o], nextOp + 1;
      ScopeKept();
      AddedOne(defs0, o, owner0, cur0, d);
    }

    /** The fields a builder step leaves alone determine `Scope()` and `Outside()`. */
    twostate lemma ScopeKept()
      requires mapsAtEnd == old(mapsAtEnd) && hasLoop == old(hasLoop) && patchPhis == old(patchPhis)
      requires args == old(args) && blockOps == old(blockOps) && nexts == old(nexts) && curPc == old(curPc)
      requires phiOf == old(phiOf) && curNext == old(curNext)
      ensures Scope() == old(Scope()) && Outside() == old(Outside())
    {
    }

    twostate lemma OutsideKept()
      requires mapsAtEnd == old(mapsAtEnd) && blockOps == old(blockOps) && nexts == old(nexts) && curPc == old(curPc)
      requires args == old(args) && curNext == old(curNext)
      ensures Outside() == old(Outside())
    {
    }

    /** The builder's invariant after `AddOp` appended the operation `d` as number `nextOp0`. */
    lemma AddedOne(defs0: map<OpId, Def>, nextOp0: nat, owner0: map<OpId, nat>, cur0: seq<OpId>, d: Def)
      requires d.Op? && BuilderOk(defs0, nextOp0, owner0, curPc, cur0, blockOps, phiOf, entry, mapsAtEnd, patchPhis, variableMap, {})
      requires defs == defs0[nextOp0 := d] && nextOp == nextOp0 + 1 && owner == owner0[nextOp0 := curPc]
      requires curOps == cur0 + [nextOp0]
      ensures Inv() && Grown(defs0, nextOp0, cur0, defs, nextOp, curOps)
    {
      GrowOne(defs0, nextOp0, owner0, curPc, cur0, blockOps, d, phiOf, entry, mapsAtEnd, patchPhis, variableMap);
    }

    /** `_get_arg`: the value of an expression, creating the operations it needs in the current block. */
    method GetArg(e: Parse.Expr) returns (r: Result<Value>)
      requires Inv()
      modifies this`defs, this`owner, this`curOps, this`nextOp
      ensures Inv() && Grown(old(defs), old(nextOp), old(curOps), defs, nextOp, curOps)
      ensures variableMap == old(variableMap) && Scope() == old(Scope())
      ensures r.Ok? ==> Known(defs, r.value)
      ensures PlainValue(e, variableMap, letValues).Some? ==>
        r == PlainValue(e, variableMap, letValues).value && defs == old(defs) && curOps == old(curOps)
      ensures e.Var? && PlainValue(e, variableMap, letValues).None? ==>
        r == Ok(OpRef(old(nextOp))) && defs == old(defs)[old(nextOp) := MakeGlobalRead(e.name, e.typ)]
      decreases e
    {
      var plain := PlainValue(e, variableMap, letValues);
      match e
      case Var(name, typ) =>
        if plain.Some? {
          r := plain.value;
          KnownPlain(defs, e, variableMap, letValues);
          GrownRefl(defs, nextOp, curOps);
        } else {
          var o, _ := AddOp(MakeGlobalRead(name, typ));
          r := Ok(OpRef(o));
        }
      case FieldAccess(obj, element, typ) =>
        var a := GetArg(obj);
        if a.Failure? {
          return Failure(a.msg);
        }
        ghost var d1, n1, c1 := defs, nextOp, curOps;
        var o, _ := AddOp(Op(Ir.FieldAccess, element, [a.value], typ));
        GrownTrans(old(defs), old(nextOp), old(curOps), d1, n1, c1, defs, nextOp, curOps);
        r := Ok(OpRef(o));
      case Cast(x, variant, typ) =>
        var a := GetArg(x);
        if a.Failure? {
          return Failure(a.msg);
        }
        ghost var d1, n1, c1 := defs, nextOp, curOps;
        var _, v := AddOp(Op(UnionCast, variant, [a.value], typ));
        GrownTrans(old(defs), old(nextOp), old(curOps), d1, n1, c1, defs, nextOp, curOps);
        r := Ok(v);
      case RefOf(x, typ) =>
        var a := GetArg(x);
        if a.Failure? {
          return Failure(a.msg);
        }
        ghost var d1, n1, c1 := defs, nextOp, curOps;
        var _, v := AddOp(Op(Ir.RefOf, "$ref-of", [a.value], typ));
        GrownTrans(old(defs), old(nextOp), old(curOps), d1, n1, c1, defs, nextOp, curOps);
        r := Ok(v);
      case _ =>
        r := plain.value;
        GrownRefl(defs, nextOp, curOps);
    }

    /** `_get_args`: the arguments are evaluated left to right. */
    method GetArgs(es: seq<Parse.Expr>) returns (r: Result<seq<Value>>)
      requires Inv()
      modifies this`defs, this`owner, this`curOps, this`nextOp
      ensures Inv() && Grown(old(defs), old(nextOp), old(curOps), defs, nextOp, curOps)
      ensures variableMap == old(variableMap) && Scope() == old(Scope())
      ensures r.Ok? ==> |r.value| == |es| && forall a | a in r.value :: Known(defs, a)
      ensures r.Ok? ==> forall i | 0 <= i < |es| && PlainValue(es[i], variableMap, letValues).Some? ::
                          PlainValue(es[i], variableMap, letValues) == Some(Ok(r.value[i]))
    {
      var vs: seq<Value> := [];
      GrownRefl(defs, nextOp, curOps);
      var i := 0;
      while i < |es|
        invariant 0 <= i <= |es| && |vs| == i
        invariant Inv() && Grown(old(defs), old(nextOp), old(curOps), defs, nextOp, curOps)
        invariant variableMap == old(variableMap) && Scope() == old(Scope())
        invariant forall a | a in vs :: Known(defs, a)
        invariant forall j | 0 <= j < i && PlainValue(es[j], variableMap, letValues).Some? ::
                    PlainValue(es[j], variableMap, letValues) == Some(Ok(vs[j]))
      {
        ghost var d1, n1, c1 := defs, nextOp, curOps;
        var a := GetArg(es[i]);
        if a.Failure? {
          return Failure(a.msg);
        }
        GrownTrans(old(defs), old(nextOp), old(curOps), d1, n1, c1, defs, nextOp, curOps);
        KnownGrown(d1, defs, vs);
        vs := vs + [a.value];
        i := i + 1;
      }
      r := Ok(vs);
    }

    /** `_build_condition`: a comparison and a variant check are boolean operations; an expression is just evaluated. */
    method BuildCondition(c: Parse.Condition) returns (r: Result<Value>)
      requires Inv()
      modifies this`defs, this`owner, this`curOps, this`nextOp
      ensures Inv() && Grown(old(defs), old(nextOp), old(curOps), defs, nextOp, curOps)
      ensures variableMap == old(variableMap) && Scope() == old(Scope())
      ensures r.Ok? ==> Known(defs, r.value)
      ensures r.Ok? && !c.ExprCondition? ==> r.value.OpRef? && defs[r.value.id].typ == Bool
    {
      match c
      case Comparison(operation, es) =>
        var a := GetArgs(es);
        if a.Failure? {
          return Failure(a.msg);
        }
        ghost var d1, n1, c1 := defs, nextOp, curOps;
        var _, v := AddOp(Op(Operation, operation, a.value, Bool));
        GrownTrans(old(defs), old(nextOp), old(curOps), d1, n1, c1, defs, nextOp, curOps);
        r := Ok(v);
      case ExprCondition(x) =>
        r := GetArg(x);
      case UnionVariantCheck(variant, x) =>
        var a := GetArg(x);
        if a.Failure? {
          return Failure(a.msg);
        }
        ghost var d1, n1, c1 := defs, nextOp, curOps;
        var _, v := AddOp(Op(Ir.UnionVariantCheck, variant, [a.value], Bool));
        GrownTrans(old(defs), old(nextOp), old(curOps), d1, n1, c1, defs, nextOp, curOps);
        r := Ok(v);
    }

    /** `_store`: a global is written with a `GlobalWrite`, a local or `return` is rebound. */
    method Store(result: string, value: Value)
      requires Inv() && Known(defs, value)
      modifies this`defs, this`owner, this`curOps, this`nextOp, this`variableMap
      ensures Inv() && Grown(old(defs), old(nextOp), old(curOps), defs, nextOp, curOps)
      ensures Scope() == old(Scope())
      ensures IsGlobalWrite(old(variableMap), result) ==>
        variableMap == old(variableMap) &&
        defs == old(defs)[old(nextOp) := Op(GlobalWrite, result, [value], TypeOf(old(defs), value))]
      ensures !IsGlobalWrite(old(variableMap), result) ==>
        variableMap == old(variableMap)[result := Some(value)] && defs == old(defs)
    {
      if IsGlobalWrite(variableMap, result) {
        var _, _ := AddOp(Op(GlobalWrite, result, [value], TypeOf(defs, value)));
      } else {
        SetVar(result, Some(value));
      }
    }

    /** Rebinding a variable of the map to a known value. */
    method SetVar(x: string, v: Option<Value>)
      requires Inv() && (v.Some? ==> Known(defs, v.value))
      modifies this`variableMap
      ensures Inv() && variableMap == old(variableMap)[x := v]
      ensures defs == old(defs) && nextOp == old(nextOp) && curOps == old(curOps) && Scope() == old(Scope())
      ensures Grown(old(defs), old(nextOp), old(curOps), defs, nextOp, curOps)
    {
      variableMap := variableMap[x := v];
      GrownRefl(defs, nextOp, curOps);
    }

    /** Replacing the whole variable map by one of known values. */
    method SetVars(vm: VarMap)
      requires Inv() && MapKnown(defs, vm)
      modifies this`variableMap
      ensures Inv() && variableMap == vm
    {
      variableMap := vm;
    }

    method SetNext(n: Next)
      requires Inv()
      modifies this`curNext
      ensures Inv() && curNext == Some(n) && variableMap == old(variableMap) && BlockScope() == old(BlockScope())
      ensures defs == old(defs) && nextOp == old(nextOp) && curOps == old(curOps)
      ensures Grown(old(defs), old(nextOp), old(curOps), defs, nextOp, curOps)
    {
      curNext := Some(n);
      GrownRefl(defs, nextOp, curOps);
    }

    /** A local declaration: bound to its initializing call, a fresh allocation for a struct, or the type's default value. */
    method BuildDeclaration(x: string, typ: Type, init: Option<Parse.Call>) returns (r: Result<()>)
      requires Inv()
      modifies this
      ensures Inv() && Grown(old(defs), old(nextOp), old(curOps), defs, nextOp, curOps) && Scope() == old(Scope())
      ensures r.Ok? ==> x in variableMap && variableMap == old(variableMap)[x := variableMap[x]]
      ensures r.Ok? && init.None? && !typ.Struct? ==> variableMap[x] == Some(Const(DefaultValue(typ))) && defs == old(defs)
    {
      if init.Some? {
        var a := GetArgs(init.value.args);
        if a.Failure? {
          return Failure(a.msg);
        }
        ghost var d1, n1, c1 := defs, nextOp, curOps;
        var _, v := AddOp(Op(Operation, init.value.name, a.value, init.value.typ));
        GrownTrans(old(defs), old(nextOp), old(curOps), d1, n1, c1, defs, nextOp, curOps);
        ghost var d2, n2, c2 := defs, nextOp, curOps;
        SetVar(x, Some(v));
        GrownTrans(old(defs), old(nextOp), old(curOps), d2, n2, c2, defs, nextOp, curOps);
      } else if typ.Struct? {
        var _, v := AddOp(Op(Allocate, "$allocate", [], typ));
        ghost var d2, n2, c2 := defs, nextOp, curOps;
        SetVar(x, Some(v));
        GrownTrans(old(defs), old(nextOp), old(curOps), d2, n2, c2, defs, nextOp, curOps);
      } else {
        SetVar(x, Some(Const(DefaultValue(typ))));
      }
      r := Ok(());
    }

    /** An operation statement: the two vector builtins have classes of their own; the result is stored. */
    method BuildOperation(result: string, opname: string, es: seq<Parse.Expr>, typ: Type) returns (r: Result<()>)
      requires Inv()
      modifies this
      ensures Inv() && Grown(old(defs), old(nextOp), old(curOps), defs, nextOp, curOps) && Scope() == old(Scope())
    {
      var a := GetArgs(es);
      if a.Failure? {
        return Failure(a.msg);
      }
      var d;
      if opname == "$zinternal_vector_init" {
        if a.value == [] {
          return Failure("list index out of range");
        }
        d := Op(VectorInit, opname, [a.value[0]], typ);
      } else if opname == "$zinternal_vector_update" {
        d := Op(VectorUpdate, opname, a.value, typ);
      } else {
        d := Op(Ir.Operation, opname, a.value, typ);
      }
      ghost var d1, n1, c1 := defs, nextOp, curOps;
      var _, v := AddOp(d);
      GrownTrans(old(defs), old(nextOp), old(curOps), d1, n1, c1, defs, nextOp, curOps);
      ghost var d2, n2, c2 := defs, nextOp, curOps;
      Store(result, v);
      GrownTrans(old(defs), old(nextOp), old(curOps), d2, n2, c2, defs, nextOp, curOps);
      r := Ok(());
    }

    /** An assignment: a value of another type than the target's is cast first. */
    method BuildAssignment(result: string, value: Parse.Expr, typ: Type) returns (r: Result<()>)
      requires Inv()
      modifies this`defs, this`owner, this`curOps, this`nextOp, this`variableMap
      ensures Inv() && Grown(old(defs), old(nextOp), old(curOps), defs, nextOp, curOps) && Scope() == old(Scope())
    {
      var a := GetArg(value);
      if a.Failure? {
        return Failure(a.msg);
      }
      ghost var d1, n1, c1 := defs, nextOp, curOps;
      var v := CastTo(a.value, value.typ, typ);
      GrownTrans(old(defs), old(nextOp), old(curOps), d1, n1, c1, defs, nextOp, curOps);
      ghost var d2, n2, c2 := defs, nextOp, curOps;
      Store(result, v);
      GrownTrans(old(defs), old(nextOp), old(curOps), d2, n2, c2, defs, nextOp, curOps);
      r := Ok(());
    }

    /** A value of type `from` where one of type `typ` is expected goes through a cast operation. */
    method CastTo(v: Value, from: Type, typ: Type) returns (w: Value)
      requires Inv() && Known(defs, v)
      modifies this`defs, this`owner, this`curOps, this`nextOp
      ensures Inv() && Grown(old(defs), old(nextOp), old(curOps), defs, nextOp, curOps)
      ensures variableMap == old(variableMap) && Scope() == old(Scope()) && Known(defs, w)
      ensures from == typ ==> w == v && defs == old(defs)
      ensures from != typ ==> w == OpRef(old(nextOp)) && defs == old(defs)[old(nextOp) := MakeCast(v, typ)]
    {
      if from == typ {
        GrownRefl(defs, nextOp, curOps);
        return v;
      }
      var o, _ := AddOp(MakeCast(v, typ));
      w := OpRef(o);
    }

    /** A conditional jump ends the block together with the `Goto` that must follow it. */
    method BuildJump(block: Construct.Stmts, index: nat, condition: Parse.Condition, target: nat) returns (r: Result<()>)
      requires Inv() && index < |block|
      modifies this`defs, this`owner, this`curOps, this`nextOp, this`curNext
      ensures Inv() && Grown(old(defs), old(nextOp), old(curOps), defs, nextOp, curOps)
      ensures BlockScope() == old(BlockScope()) && variableMap == old(variableMap)
      ensures r.Ok? ==> index + 2 == |block| && block[index + 1].Goto? && TargetsOk(curNext)
      ensures r.Ok? ==> curNext.Some? && curNext.value.ConditionalGoto? &&
                        curNext.value.truetarget == target && curNext.value.falsetarget == block[index + 1].target
      ensures r.Failure? ==> curNext == old(curNext) || (curNext.Some? && TargetsOk(curNext))
    {
      var c := BuildCondition(condition);
      if c.Failure? {
        return Failure(c.msg);
      }
      r := JumpNext(block, index, c.value, target);
    }

    /** The `Goto` after a conditional jump on `c` supplies its false target. */
    method JumpNext(block: Construct.Stmts, index: nat, c: Value, target: nat) returns (r: Result<()>)
      requires Inv() && index < |block|
      modifies this`curNext
      ensures Inv() && defs == old(defs) && nextOp == old(nextOp) && curOps == old(curOps)
      ensures BlockScope() == old(BlockScope()) && variableMap == old(variableMap)
      ensures r.Ok? ==> index + 2 == |block| && block[index + 1].Goto? && TargetsOk(curNext)
      ensures r.Ok? ==> curNext == Some(ConditionalGoto(c, target, block[index + 1].target))
      ensures r.Failure? ==> curNext == old(curNext) || (curNext.Some? && TargetsOk(curNext))
    {
      if index + 1 >= |block| {
        return Failure("list index out of range");
      }
      var nextop := block[index + 1];
      if !nextop.Goto? {
        return Failure("a conditional jump is not followed by a Goto");
      }
      if target !in blocks || nextop.target !in blocks {
        return Failure("jump to a label that starts no block");
      }
      SetNext(ConditionalGoto(c, target, nextop.target));
      if index + 2 != |block| {
        return Failure("a conditional jump and its Goto are not the end of their block");
      }
      r := Ok(());
    }

    /** A statement that only sets the terminator; the result says whether the block has its terminator now. */
    method BuildTerminator(block: Construct.Stmts, index: nat) returns (r: Result<()>)
      requires Inv() && index < |block| && Parse.EndOfBlock(block[index])
      modifies this`curNext
      ensures Inv() && defs == old(defs) && nextOp == old(nextOp) && curOps == old(curOps)
      ensures BlockScope() == old(BlockScope()) && variableMap == old(variableMap)
      ensures r.Ok? ==> curNext.Some? && TargetsOk(curNext)
      ensures r.Failure? ==> curNext == old(curNext) || (curNext.Some? && TargetsOk(curNext))
      ensures r.Ok? && block[index].End? ==> "return" in old(variableMap) && curNext == Some(Return(old(variableMap)["return"]))
      ensures r.Ok? && block[index].Goto? ==> curNext == Some(Next.Goto(block[index].target))
      ensures r.Ok? && block[index].Exit? ==> curNext == Some(Raise(Const(StringConstant(block[index].kind))))
      ensures r.Ok? && block[index].Arbitrary? ==> curNext == Some(Return(Some(Const(DefaultValue(restype)))))
      ensures r.Ok? && block[index].JustStop? ==> curNext == Some(Next.JustStop)
    {
      match block[index] {
      case End =>
        if "return" !in variableMap {
          return Failure("KeyError: 'return'");
        }
        SetNext(Return(variableMap["return"]));
        if index != |block| - 1 {
          return Failure("End is not the last statement of its block");
        }
      case Goto(target) =>
        if target !in blocks {
          return Failure("jump to a label that starts no block");
        }
        SetNext(Next.Goto(target));
      case Exit(kind) =>
        SetNext(Raise(Const(StringConstant(kind))));
      case Arbitrary =>
        SetNext(Return(Some(Const(DefaultValue(restype)))));
      case JustStop =>
        SetNext(Next.JustStop);
      }
      r := Ok(());
    }

    /**
     * One statement of `_build_block`. The result says whether the loop stops
     * here, which it does after a conditional jump and the `Goto` that must
     * follow it.
     */
    method BuildStatement(block: Construct.Stmts, index: nat) returns (r: Result<bool>)
      requires Inv() && index < |block| && TargetsOk(curNext)
      modifies this
      ensures Inv() && Grown(old(defs), old(nextOp), old(curOps), defs, nextOp, curOps)
      ensures BlockScope() == old(BlockScope()) && TargetsOk(curNext)
      ensures r.Ok? ==> (r.value <==> block[index].ConditionalJump?)
      ensures r.Ok? && (Parse.EndOfBlock(block[index]) || block[index].ConditionalJump?) ==> curNext.Some?
      ensures old(curNext).Some? ==> curNext.Some?
    {
      var u;
      match block[index] {
      case LocalVarDeclaration(x, typ, init) =>
        u := BuildDeclaration(x, typ, init);
      case Operation(result, opname, es, typ) =>
        u := BuildOperation(result, opname, es, typ);
      case Assignment(result, value, typ) =>
        u := BuildAssignment(result, value, typ);
      case ConditionalJump(condition, target) =>
        u := BuildJump(block, index, condition, target);
      case _ =>
        u := BuildTerminator(block, index);
        GrownRefl(defs, nextOp, curOps);
      }
      if u.Failure? {
        return Failure(u.msg);
      }
      r := Ok(block[index].ConditionalJump?);
    }

    /** `_build_block`: the statements of block `pc` in order, up to a conditional jump. */
    method BuildBlock(pc: nat) returns (r: Result<()>)
      requires Inv() && pc in blocks && curNext.None?
      modifies this
      ensures Inv() && Grown(old(defs), old(nextOp), old(curOps), defs, nextOp, curOps)
      ensures BlockScope() == old(BlockScope()) && TargetsOk(curNext)
      ensures r.Ok? && blocks[pc] != [] && Parse.EndOfBlock(blocks[pc][|blocks[pc]| - 1]) ==> curNext.Some?
    {
      var block := blocks[pc];
      GrownRefl(defs, nextOp, curOps);
      var index := 0;
      while index < |block|
        invariant 0 <= index <= |block|
        invariant Inv() && Grown(old(defs), old(nextOp), old(curOps), defs, nextOp, curOps)
        invariant BlockScope() == old(BlockScope()) && TargetsOk(curNext)
        invariant index > 0 && Parse.EndOfBlock(block[index - 1]) ==> curNext.Some?
      {
        ghost var d1, n1, c1 := defs, nextOp, curOps;
        var stop := BuildStatement(block, index);
        if stop.Failure? {
          return Failure(stop.msg);
        }
        GrownTrans(old(defs), old(nextOp), old(curOps), d1, n1, c1, defs, nextOp, curOps);
        if stop.value {
          break;
        }
        index := index + 1;
      }
      r := Ok(());
    }

    /** The fields setting up a block's variable map leaves alone. */
    ghost function Outside(): ((map<nat, VarMap>, map<nat, seq<OpId>>, map<nat, Option<Next>>, nat, Option<Next>), seq<Value>)
      reads this`mapsAtEnd, this`blockOps, this`nexts, this`curPc, this`curNext, this`args
    {
      (Frame(), args)
    }

    /** The fields only the build loop itself changes. */
    ghost function Frame(): (map<nat, VarMap>, map<nat, seq<OpId>>, map<nat, Option<Next>>, nat, Option<Next>)
      reads this`mapsAtEnd, this`blockOps, this`nexts, this`curPc, this`curNext
    {
      (mapsAtEnd, blockOps, nexts, curPc, curNext)
    }

    /** `_addop` of a phi for variable `x` of the current block, whose inputs below `from` are already final. */
    method AddPhi(e: seq<nat>, x: string, vs: seq<Option<Value>>, t: Type, ghost from: nat) returns (o: OpId)
      requires Inv() && e == Construct.Get(entry, curPc) && InputsFrom(mapsAtEnd, e, x, vs, from)
      modifies this`defs, this`owner, this`curOps, this`nextOp, this`phiOf
      ensures o == old(nextOp) && nextOp == o + 1 && o !in old(defs) && o !in old(phiOf)
      ensures defs == old(defs)[o := Phi(Construct.Get(entry, curPc), vs, t)] && phiOf == old(phiOf)[o := (curPc, x)]
      ensures curOps == old(curOps) + [o]
      ensures BuilderOk(defs, nextOp, owner, curPc, curOps, blockOps, phiOf, entry, mapsAtEnd, patchPhis, variableMap,
                        Range(o, from, |vs|))
      ensures variableMap == old(variableMap) && patchPhis == old(patchPhis) && hasLoop == old(hasLoop)
      ensures Outside() == old(Outside())
    {
      o := nextOp;
      ghost var defs0, owner0, cur0, phiOf0 := defs, owner, curOps, phiOf;
      defs, owner, curOps, nextOp := defs[o := Phi(e, vs, t)], owner[o := curPc], curOps + [o], nextOp + 1;
      phiOf := phiOf[o := (curPc, x)];
      assert variableMap == old(variableMap) && patchPhis == old(patchPhis) && hasLoop == old(hasLoop);
      OutsideKept();
      PhiAdded(defs0, o, owner0, cur0, phiOf0, x, vs, t, from);
    }

    /** The builder's invariant, but for the inputs of the new phi from `from` on, after `AddPhi`. */
    lemma PhiAdded(defs0: map<OpId, Def>, nextOp0: nat, owner0: map<OpId, nat>, cur0: seq<OpId>,
                   phiOf0: map<OpId, (nat, string)>, x: string, vs: seq<Option<Value>>, t: Type, from: nat)
      requires BuilderOk(defs0, nextOp0, owner0, curPc, cur0, blockOps, phiOf0, entry, mapsAtEnd, patchPhis, variableMap, {})
      requires InputsFrom(mapsAtEnd, Construct.Get(entry, curPc), x, vs, from)
      requires defs == defs0[nextOp0 := Phi(Construct.Get(entry, curPc), vs, t)] && nextOp == nextOp0 + 1
      requires owner == owner0[nextOp0 := curPc] && curOps == cur0 + [nextOp0] && phiOf == phiOf0[nextOp0 := (curPc, x)]
      ensures nextOp0 !in defs0 && nextOp0 !in phiOf0
      ensures BuilderOk(defs, nextOp, owner, curPc, curOps, blockOps, phiOf, entry, mapsAtEnd, patchPhis, variableMap,
                        Range(nextOp0, from, |vs|))
    {
      PhiOne(defs0, nextOp0, owner0, curPc, cur0, blockOps, phiOf0, entry, mapsAtEnd, patchPhis, variableMap, x, vs, t, from);
    }

    /** The value of `x` at a join block without a back edge. */
    method MergeVar(e: seq<nat>, x: string) returns (v: Option<Value>)
      requires Inv() && e == Construct.Get(entry, curPc) && |e| >= 2
      requires (forall p | p in e :: p in mapsAtEnd) && x in mapsAtEnd[e[0]]
      modifies this
      ensures variableMap == old(variableMap) && patchPhis == old(patchPhis) && hasLoop == old(hasLoop)
      ensures Outside() == old(Outside())
      ensures Inv() && Extends(old(defs), defs) && Extends(old(phiOf), phiOf)
      ensures Merged(defs, mapsAtEnd, e, x, v) && (v.Some? ==> Known(defs, v.value))
    {
      var v0 := mapsAtEnd[e[0]][x];
      var os := Others(mapsAtEnd, e, x);
      MergeCases(defs, mapsAtEnd, e, x);
      if !NeedsPhi(defs, v0, os) {
        return MergePlain(v0, os);
      }
      v := MergePhi(e, x);
    }

    /** The predecessors disagree on `x`: a phi over their final values joins them. */
    method MergePhi(e: seq<nat>, x: string) returns (v: Option<Value>)
      requires Inv() && e == Construct.Get(entry, curPc) && |e| >= 2
      requires (forall p | p in e :: p in mapsAtEnd) && x in mapsAtEnd[e[0]]
      requires EndsKnown(defs, mapsAtEnd)
      requires NeedsPhi(defs, mapsAtEnd[e[0]][x], Others(mapsAtEnd, e, x))
      modifies this
      ensures variableMap == old(variableMap) && patchPhis == old(patchPhis) && hasLoop == old(hasLoop)
      ensures Outside() == old(Outside())
      ensures Inv() && Extends(old(defs), defs) && Extends(old(phiOf), phiOf)
      ensures Merged(defs, mapsAtEnd, e, x, v) && (v.Some? ==> Known(defs, v.value))
    {
      var v0 := mapsAtEnd[e[0]][x];
      var os := Others(mapsAtEnd, e, x);
      MergeInputs(mapsAtEnd, e, x);
      ghost var d0, f0 := defs, phiOf;
      var o := AddPhi(e, x, [v0] + os, TypeOf(defs, v0.value), |e|);
      MergePhiMade(d0, f0, o, e, x);
      v := Some(OpRef(o));
    }

    /** After `AddPhi` with all inputs final, the invariant holds again and the phi is the merged value. */
    lemma MergePhiMade(d0: map<OpId, Def>, f0: map<OpId, (nat, string)>, o: OpId, e: seq<nat>, x: string)
      requires |e| >= 1 && (forall p | p in e :: p in mapsAtEnd) && x in mapsAtEnd[e[0]]
      requires EndsKnown(d0, mapsAtEnd) && o !in d0 && o !in f0
      requires NeedsPhi(d0, mapsAtEnd[e[0]][x], Others(mapsAtEnd, e, x))
      requires var v0 := mapsAtEnd[e[0]][x];
        defs == d0[o := Phi(e, [v0] + Others(mapsAtEnd, e, x), TypeOf(d0, v0.value))]
      requires phiOf == f0[o := (curPc, x)]
      requires BuilderOk(defs, nextOp, owner, curPc, curOps, blockOps, phiOf, entry, mapsAtEnd, patchPhis, variableMap,
                         Range(o, |e|, |e|))
      ensures Inv() && Extends(d0, defs) && Extends(f0, phiOf)
      ensures Merged(defs, mapsAtEnd, e, x, Some(OpRef(o))) && Known(defs, OpRef(o))
    {
      EmptyRange(o, |e|);
      MergedPhi(d0, o, mapsAtEnd, e, x);
    }

    /** Every variable of the map so far holds its merged value. */
    ghost predicate MergeSoFar(e: seq<nat>)
      reads this
    {
      |e| >= 1 && (forall p | p in e :: p in mapsAtEnd) && variableMap.Keys <= mapsAtEnd[e[0]].Keys &&
      forall y | y in variableMap :: Merged(defs, mapsAtEnd, e, y, variableMap[y])
    }

    /** One variable of the merge. */
    method MergeStep(e: seq<nat>, x: string)
      requires Inv() && e == Construct.Get(entry, curPc) && |e| >= 2
      requires MergeSoFar(e) && x in mapsAtEnd[e[0]]
      modifies this
      ensures patchPhis == old(patchPhis) && hasLoop == old(hasLoop) && Outside() == old(Outside())
      ensures Inv() && Extends(old(defs), defs) && Extends(old(phiOf), phiOf)
      ensures variableMap.Keys == old(variableMap).Keys + {x} && MergeSoFar(e)
    {
      ghost var d0 := defs;
      assert EndsKnown(d0, mapsAtEnd);
      var v := MergeVar(e, x);
      forall y | y in variableMap ensures Merged(defs, mapsAtEnd, e, y, variableMap[y]) {
        MergedExtends(d0, defs, mapsAtEnd, e, y, variableMap[y]);
      }
      SetVar(x, v);
    }

    /** The merge: every variable of the first predecessor's map gets its merged value. */
    method SetupMerge(e: seq<nat>)
      requires Inv() && e == Construct.Get(entry, curPc) && |e| >= 2 && forall p | p in e :: p in mapsAtEnd
      modifies this
      ensures patchPhis == old(patchPhis) && hasLoop == old(hasLoop) && Outside() == old(Outside())
      ensures Inv() && Extends(old(defs), defs) && Extends(old(phiOf), phiOf)
      ensures variableMap.Keys == mapsAtEnd[e[0]].Keys && MergeSoFar(e)
    {
      var m0 := mapsAtEnd[e[0]];
      SetVars(map[]);
      var todo := m0.Keys;
      while todo != {}
        invariant patchPhis == old(patchPhis) && hasLoop == old(hasLoop) && Outside() == old(Outside())
        invariant todo <= m0.Keys && variableMap.Keys == m0.Keys - todo
        invariant Inv() && Extends(old(defs), defs) && Extends(old(phiOf), phiOf) && MergeSoFar(e)
        decreases todo
      {
        var x :| x in todo;
        MergeStep(e, x);
        todo := todo - {x};
      }
    }

    /**
     * Registering the inputs of a new loop phi `o` of block `pc`: an input
     * whose predecessor is still to be built waits in that block's patch
     * list; one whose predecessor is already built takes that block's final
     * value of `x` at once, as the patch would have done.
     */
    method LinkPhi(pc: nat, o: OpId, x: string)
      requires pc == curPc && LinkReady(defs, phiOf, entry, o, pc, x, 1)
      requires BuilderOk(defs, nextOp, owner, curPc, curOps, blockOps, phiOf, entry, mapsAtEnd, patchPhis, variableMap,
                         Range(o, 1, |defs[o].prevvalues|))
      modifies this`defs, this`patchPhis
      ensures Inv()
      ensures defs.Keys == old(defs).Keys && (forall q | q in defs && q != o :: defs[q] == old(defs)[q])
      ensures Same(old(defs)[o], defs[o])
    {
      var d, pp := LinkInputs(defs, nextOp, owner, pc, curOps, blockOps, phiOf, entry, mapsAtEnd, patchPhis, variableMap, o, x);
      defs, patchPhis := d, pp;
    }

    /** The phi `o` of block `h` for `x` over the predecessors `e`, with first input `v` and type `t`. */
    ghost predicate LoopPhi(o: OpId, h: nat, e: seq<nat>, x: string, v: Value, t: Type)
      reads this
    {
      o in defs && o in phiOf && phiOf[o] == (h, x) && defs[o].Phi? && defs[o].prevblocks == e &&
      |defs[o].prevvalues| == |e| && |e| >= 1 && defs[o].prevvalues[0] == Some(v) && defs[o].typ == t
    }

    /** A loop phi for `x`: created with its first input, then its other inputs linked to their predecessors. */
    method NewLoopPhi(pc: nat, e: seq<nat>, x: string, value: Value, t: Type) returns (o: OpId)
      requires Inv() && pc == curPc && e == Construct.Get(entry, pc) && |e| >= 2
      requires e[0] in mapsAtEnd && x in mapsAtEnd[e[0]] && mapsAtEnd[e[0]][x] == Some(value)
      modifies this`defs, this`owner, this`curOps, this`nextOp, this`phiOf, this`patchPhis
      ensures variableMap == old(variableMap) && hasLoop == old(hasLoop) && Outside() == old(Outside())
      ensures Inv() && Extends(old(defs), defs) && Extends(old(phiOf), phiOf) && o !in old(defs)
      ensures LoopPhi(o, pc, e, x, value, t)
    {
      var vs := [Some(value)] + seq(|e| - 1, _ => None);
      assert InputsFrom(mapsAtEnd, e, x, vs, 1);
      ghost var d0, f0 := defs, phiOf;
      o := AddPhi(e, x, vs, t, 1);
      ghost var d1 := defs;
      LoopPhiReady(pc, o, x, vs, t);
      LinkPhi(pc, o, x);
      LoopPhiMade(d0, d1, f0, o, pc, e, x, value, t, vs);
    }

    /** A loop phi `AddPhi` just created, with only its first input, is ready for `LinkPhi`. */
    lemma LoopPhiReady(pc: nat, o: OpId, x: string, vs: seq<Option<Value>>, t: Type)
      requires pc == curPc && |vs| == |Construct.Get(entry, pc)| >= 1 && forall i | 1 <= i < |vs| :: vs[i].None?
      requires o in defs && defs[o] == Phi(Construct.Get(entry, pc), vs, t) && o in phiOf && phiOf[o] == (pc, x)
      requires BuilderOk(defs, nextOp, owner, curPc, curOps, blockOps, phiOf, entry, mapsAtEnd, patchPhis, variableMap,
                         Range(o, 1, |vs|))
      ensures LinkReady(defs, phiOf, entry, o, pc, x, 1)
      ensures BuilderOk(defs, nextOp, owner, curPc, curOps, blockOps, phiOf, entry, mapsAtEnd, patchPhis, variableMap,
                        Range(o, 1, |defs[o].prevvalues|))
    {
    }

    /** The phi `AddPhi` created keeps its shape when `LinkPhi` fills in its other inputs. */
    lemma LoopPhiMade(d0: map<OpId, Def>, d1: map<OpId, Def>, f0: map<OpId, (nat, string)>, o: OpId,
                      pc: nat, e: seq<nat>, x: string, value: Value, t: Type, vs: seq<Option<Value>>)
      requires o !in d0 && o !in f0 && d1 == d0[o := Phi(e, vs, t)] && phiOf == f0[o := (pc, x)]
      requires |vs| == |e| >= 1 && vs[0] == Some(value)
      requires defs.Keys == d1.Keys && (forall q | q in defs && q != o :: defs[q] == d1[q]) && Same(d1[o], defs[o])
      ensures Extends(d0, defs) && Extends(f0, phiOf) && LoopPhi(o, pc, e, x, value, t)
    {
    }

    /** The value of `x` at a loop header: a phi over all predecessors, its first input from the first one. */
    method LoopVar(pc: nat, e: seq<nat>, x: string) returns (v: Option<Value>)
      requires Inv() && pc == curPc && e == Construct.Get(entry, pc) && |e| >= 2
      requires e[0] in mapsAtEnd && x in mapsAtEnd[e[0]]
      modifies this
      ensures variableMap == old(variableMap) && hasLoop == old(hasLoop) && Outside() == old(Outside())
      ensures Inv() && Extends(old(defs), defs) && Extends(old(phiOf), phiOf)
      ensures LoopOk(defs, phiOf, mapsAtEnd, e, pc, x, v) && (v.Some? ==> Known(defs, v.value))
    {
      var value := mapsAtEnd[e[0]][x];
      if value.None? {
        return None;
      }
      var t := TypeOf(defs, value.value);
      if t == Unit {
        return Some(UNIT);
      }
      assert EndsKnown(defs, mapsAtEnd);
      var o := NewLoopPhi(pc, e, x, value.value, t);
      v := Some(OpRef(o));
    }

    /** Every variable of the map so far holds its loop header value. */
    ghost predicate LoopSoFar(pc: nat, e: seq<nat>)
      reads this
    {
      |e| >= 1 && e[0] in mapsAtEnd && variableMap.Keys <= mapsAtEnd[e[0]].Keys &&
      forall y | y in variableMap :: LoopOk(defs, phiOf, mapsAtEnd, e, pc, y, variableMap[y])
    }

    /** One variable of the pessimistic loop header. */
    method LoopStep(pc: nat, e: seq<nat>, x: string)
      requires Inv() && pc == curPc && e == Construct.Get(entry, pc) && |e| >= 2
      requires e[0] in mapsAtEnd && x in mapsAtEnd[e[0]] && LoopSoFar(pc, e)
      modifies this
      ensures hasLoop == old(hasLoop) && Outside() == old(Outside())
      ensures Inv() && Extends(old(defs), defs) && Extends(old(phiOf), phiOf)
      ensures variableMap.Keys == old(variableMap).Keys + {x} && LoopSoFar(pc, e)
    {
      ghost var d0, f0 := defs, phiOf;
      assert EndsKnown(d0, mapsAtEnd);
      var v := LoopVar(pc, e, x);
      forall y | y in variableMap ensures LoopOk(defs, phiOf, mapsAtEnd, e, pc, y, variableMap[y]) {
        LoopOkExtends(d0, defs, f0, phiOf, mapsAtEnd, e, pc, y, variableMap[y]);
      }
      SetVar(x, v);
    }

    /** The pessimistic loop header: every variable of the first predecessor's map gets a phi or a constant. */
    method SetupLoop(pc: nat, e: seq<nat>)
      requires Inv() && pc == curPc && e == Construct.Get(entry, pc) && |e| >= 2 && e[0] in mapsAtEnd
      modifies this
      ensures hasLoop == old(hasLoop) && Outside() == old(Outside())
      ensures Inv() && Extends(old(defs), defs) && Extends(old(phiOf), phiOf)
      ensures variableMap.Keys == mapsAtEnd[e[0]].Keys && LoopSoFar(pc, e)
    {
      var m0 := mapsAtEnd[e[0]];
      SetVars(map[]);
      var todo := m0.Keys;
      while todo != {}
        invariant hasLoop == old(hasLoop) && Outside() == old(Outside())
        invariant todo <= m0.Keys && variableMap.Keys == m0.Keys - todo
        invariant Inv() && Extends(old(defs), defs) && Extends(old(phiOf), phiOf) && LoopSoFar(pc, e)
        decreases todo
      {
        var x :| x in todo;
        LoopStep(pc, e, x);
        todo := todo - {x};
      }
    }

    /** The loop detection of `_setup_variable_map`: a predecessor at or after the block is a back edge. */
    method DetectLoop(pc: nat, e: seq<nat>) returns (loopblock: bool)
      requires Inv()
      modifies this`hasLoop
      ensures Inv() && (loopblock <==> exists i | 0 <= i < |e| :: pc <= e[i])
      ensures hasLoop == (old(hasLoop) || loopblock)
    {
      loopblock := false;
      var i := 0;
      while i < |e|
        invariant 0 <= i <= |e|
        invariant loopblock <==> exists j | 0 <= j < i :: pc <= e[j]
        invariant hasLoop == (old(hasLoop) || loopblock)
      {
        if !(e[i] < pc) {
          loopblock := true;
          hasLoop := true;
        }
        i := i + 1;
      }
    }

    /**
     * The start block: the function's arguments, paired with the element types
     * of its argument type, then the extra arguments, and `return` unset.
     */
    method SetupStart(pc: nat) returns (r: Result<()>)
      requires Inv() && Construct.Get(entry, pc) == []
      modifies this`variableMap, this`args
      ensures Inv()
      ensures r.Ok? <==> pc == startpc && (functionArgs != [] ==> StartOk(functionArgs, argTypes))
      ensures (r.Ok? <==> SetupSucceeds(pc)) && (r.Ok? ==> StartMap() && EntryMap(pc))
    {
      if pc != startpc {
        return Failure("AssertionError: a block without predecessors is not the start block");
      }
      if functionArgs == [] {
        SetVars(map["return" := None]);
        args := [];
      } else {
        var z := ZipArgs(functionArgs, argTypes, Pairs(functionArgs, argTypes));
        if exists v | v in functionArgs :: v !in z {
          SetVars(map[]);
          args := [];
          return Failure("KeyError: a function argument without a type");
        }
        var vm, extra := AddExtraArgs(z, extraArgs);
        SetVars(vm["return" := None]);
        args := ArgValues(z, functionArgs) + extra;
      }
      r := Ok(());
    }

    /** Whether `_setup_variable_map` gets through block `pc`, given that exactly the blocks below `pc` are built. */
    ghost predicate SetupSucceeds(pc: nat)
    {
      var e := Construct.Get(entry, pc);
      if e == [] then pc == startpc && (functionArgs != [] ==> StartOk(functionArgs, argTypes)) else e[0] < pc
    }

    /** Some predecessor of `pc` is not before it: a back edge, and `pc` is a loop header. */
    ghost predicate BackEdge(pc: nat)
    {
      exists i | 0 <= i < |Construct.Get(entry, pc)| :: pc <= Construct.Get(entry, pc)[i]
    }

    /** The variable map and arguments of the start block. */
    ghost predicate StartMap()
      reads this
    {
      (functionArgs == [] ==> variableMap == map["return" := None] && args == []) &&
      (functionArgs != [] ==>
         var z := ZipArgs(functionArgs, argTypes, Pairs(functionArgs, argTypes));
         (forall v | v in functionArgs :: v in z && z[v].Some?) &&
         variableMap == WithExtra(z, extraArgs)["return" := None] && args == ArgValues(z, functionArgs) + ExtraValues(extraArgs))
    }

    /** The variable map block `pc` starts from: the arguments, the copy, the merge or the loop header phis. */
    ghost predicate EntryMap(pc: nat)
      reads this
    {
      var e := Construct.Get(entry, pc);
      if e == [] then StartMap()
      else if |e| == 1 then e[0] in mapsAtEnd && variableMap == mapsAtEnd[e[0]]
      else if !BackEdge(pc) then MergeSoFar(e) && variableMap.Keys == mapsAtEnd[e[0]].Keys
      else LoopSoFar(pc, e) && variableMap.Keys == mapsAtEnd[e[0]].Keys
    }

    /** The single predecessor's final map, which must exist. */
    method SetupCopy(pc: nat, e: seq<nat>) returns (r: Result<()>)
      requires Inv() && e == Construct.Get(entry, pc) && |e| == 1
      requires e[0] in blocks && forall b | b in blocks :: (b in mapsAtEnd <==> b < pc)
      modifies this`variableMap
      ensures Inv() && (r.Ok? <==> e[0] in mapsAtEnd) && (r.Ok? <==> SetupSucceeds(pc))
      ensures r.Ok? ==> variableMap == mapsAtEnd[e[0]] && EntryMap(pc)
    {
      if e[0] !in mapsAtEnd {
        return Failure("KeyError: the only predecessor is not built yet");
      }
      assert EndsKnown(defs, mapsAtEnd);
      SetVars(mapsAtEnd[e[0]]);
      r := Ok(());
    }

    /**
     * `_setup_variable_map`: the start block gets the arguments, a block with
     * one predecessor that predecessor's final map, a join the merge and a
     * loop header the pessimistic phis.
     */
    method SetupVariableMap(pc: nat) returns (r: Result<()>)
      requires Inv() && pc == curPc && Inputs(blocks, entry) && pc in blocks
      requires forall b | b in blocks :: (b in mapsAtEnd <==> b < pc)
      modifies this
      ensures Inv() && Frame() == old(Frame())
      ensures hasLoop == (old(hasLoop) || BackEdge(pc))
      ensures r.Ok? <==> SetupSucceeds(pc)
      ensures r.Ok? ==> EntryMap(pc) && (Construct.Get(entry, pc) != [] ==> args == old(args))
    {
      var e := Construct.Get(entry, pc);
      PredecessorsAreBlocks(blocks, entry, pc);
      var loopblock := DetectLoop(pc, e);
      if e == [] {
        r := SetupStart(pc);
      } else if |e| == 1 {
        r := SetupCopy(pc, e);
      } else {
        r := SetupJoin(pc, e, loopblock);
      }
    }

    /** A block with several predecessors: the merge, or the loop header phis when one of them is a back edge. */
    method SetupJoin(pc: nat, e: seq<nat>, loopblock: bool) returns (r: Result<()>)
      requires Inv() && pc == curPc && e == Construct.Get(entry, pc) && |e| >= 2 && (loopblock <==> BackEdge(pc))
      requires (forall p | p in e :: p in blocks) && forall b | b in blocks :: (b in mapsAtEnd <==> b < pc)
      modifies this
      ensures Inv() && Extends(old(defs), defs) && Extends(old(phiOf), phiOf) && Frame() == old(Frame())
      ensures hasLoop == old(hasLoop) && (r.Ok? <==> SetupSucceeds(pc)) && (r.Ok? ==> EntryMap(pc) && args == old(args))
    {
      assert forall p | p in e :: (p in mapsAtEnd <==> p < pc);
      if !loopblock {
        assert forall p | p in e :: p < pc;
        SetupMerge(e);
        r := Ok(());
      } else {
        // the list is sorted, so `min(entry)` is its first element
        if !(e[0] < pc) {
          return Failure("AssertionError: a loop header's first predecessor is not before it");
        }
        SetupLoop(pc, e);
        r := Ok(());
      }
    }

    /** After `_build_block`: the patches waiting for block `pc` are applied and its final map recorded. */
    method FinishBlock(pc: nat)
      requires Inv() && pc == curPc && pc !in mapsAtEnd
      modifies this`defs, this`patchPhis, this`mapsAtEnd
      ensures Inv() && mapsAtEnd == old(mapsAtEnd)[pc := variableMap] && patchPhis == old(patchPhis)[pc := None]
      ensures Refilled(old(defs), defs)
    {
      PatchStart(defs, nextOp, owner, curPc, curOps, blockOps, phiOf, entry, mapsAtEnd, patchPhis, variableMap);
      var ps := PatchList(patchPhis, pc).value;
      var ends, pp := mapsAtEnd[pc := variableMap], patchPhis[pc := None];
      var d := ApplyPatches(defs, nextOp, owner, pc, curOps, blockOps, phiOf, entry, ends, pp, variableMap, ps);
      defs, mapsAtEnd, patchPhis := d, ends, pp;
    }

    constructor (blocks: map<nat, Construct.Stmts>, entry: map<nat, seq<nat>>, name: string, startpc: nat,
                 functionArgs: seq<string>, argTypes: seq<Type>, extraArgs: seq<(string, Type)>, restype: Type,
                 letValues: map<string, Constant>)
      ensures this.blocks == blocks && this.entry == entry && this.name == name && this.startpc == startpc
      ensures this.functionArgs == functionArgs && this.argTypes == argTypes && this.extraArgs == extraArgs
      ensures this.restype == restype && this.letValues == letValues
      ensures Inv() && Initial()
    {
      this.blocks, this.entry, this.name, this.startpc := blocks, entry, name, startpc;
      this.functionArgs, this.argTypes, this.extraArgs := functionArgs, argTypes, extraArgs;
      this.restype, this.letValues := restype, letValues;
      variableMap, mapsAtEnd, hasLoop, patchPhis, args := map[], map[], false, map[], [];
      defs, nextOp, curOps, curNext, blockOps, nexts := map[], 0, [], None, map[], map[];
      curPc, owner, phiOf := 0, map[], map[];
    }

    /** The state of a fresh builder. */
    ghost predicate Initial()
      reads this
    {
      mapsAtEnd == map[] && patchPhis == map[] && blockOps == map[] && nexts == map[] && curOps == [] && curNext.None? && !hasLoop
    }

    /** Every phi input is its predecessor's final value of the phi's variable, or input 0 where that map lacks it. */
    ghost predicate PhisFinal()
      reads this
    {
      forall o | o in defs && defs[o].Phi? :: PhiFinal(defs, phiOf, entry, mapsAtEnd, o)
    }

    /** The state between two blocks of `build`: the blocks `done` are finished, all below `bound`, and none is under way. */
    ghost predicate Between(done: set<nat>, bound: nat)
      reads this
    {
      Inv() && mapsAtEnd.Keys == done && blockOps.Keys == done && curOps == [] && curNext.None? &&
      Finished(nexts, done, bound) && LoopSeen(done)
    }

    /** The blocks `done`, all below `bound`, have terminators leading to existing blocks. */
    ghost predicate Finished(nexts: map<nat, Option<Next>>, done: set<nat>, bound: nat)
    {
      nexts.Keys == done && forall b | b in done :: nexts[b].Some? && TargetsOk(nexts[b]) && b < bound
    }

    /** One more finished block, `pc`, above all the others. */
    lemma FinishedGrow(nexts: map<nat, Option<Next>>, done: set<nat>, pc: nat, n: Option<Next>)
      requires Finished(nexts, done, pc) && n.Some? && TargetsOk(n)
      ensures Finished(nexts[pc := n], done + {pc}, pc + 1)
    {
    }

    /** `has_loop` is set exactly when one of the blocks `done` has a back edge into it. */
    ghost predicate LoopSeen(done: set<nat>)
      reads this`hasLoop
    {
      hasLoop <==> exists b | b in done :: BackEdge(b)
    }

    /** The start of a round of `build`: block `pc` becomes the current one and gets its variable map. */
    method OpenBlock(pc: nat, ghost done: set<nat>, ghost bound: nat) returns (r: Result<()>)
      requires Between(done, bound) && Inputs(blocks, entry) && pc in blocks && pc !in done
      requires forall b | b in blocks :: (b in done <==> b < pc)
      modifies this
      ensures Inv() && curPc == pc && curNext.None?
      ensures (mapsAtEnd, blockOps, nexts) == old((mapsAtEnd, blockOps, nexts))
      ensures hasLoop == (old(hasLoop) || BackEdge(pc))
    {
      curPc := pc;
      r := SetupVariableMap(pc);
    }

    /** The end of a round of `build`: the patches for block `pc` are applied and the block joins the finished ones. */
    method CloseBlock(pc: nat, ghost done: set<nat>)
      requires Inv() && pc == curPc && curNext.Some? && TargetsOk(curNext) && pc !in done
      requires mapsAtEnd.Keys == done && blockOps.Keys == done && Finished(nexts, done, pc)
      requires LoopSeen(done + {pc})
      modifies this
      ensures Between(done + {pc}, pc + 1)
    {
      FinishBlock(pc);
      Commit(pc, done);
    }

    /** The finished block's operations and terminator are recorded, and no block is under way. */
    method Commit(pc: nat, ghost done: set<nat>)
      requires Inv() && pc == curPc && curNext.Some? && TargetsOk(curNext) && pc !in done
      requires mapsAtEnd.Keys == done + {pc} && blockOps.Keys == done && Finished(nexts, done, pc)
      requires LoopSeen(done + {pc})
      modifies this`blockOps, this`nexts, this`curOps, this`curNext
      ensures Between(done + {pc}, pc + 1)
      ensures blockOps == old(blockOps)[pc := old(curOps)] && nexts == old(nexts)[pc := old(curNext)]
    {
      FinishedGrow(nexts, done, pc, curNext);
      blockOps, nexts := blockOps[pc := curOps], nexts[pc := curNext];
      curOps, curNext := [], None;
      Committed();
    }

    /** The builder's invariant after the operations of the current block were recorded. */
    twostate lemma Committed()
      requires old(Inv()) && blockOps == old(blockOps)[old(curPc) := old(curOps)] && curOps == []
      requires (defs, nextOp, owner, curPc, phiOf, mapsAtEnd, patchPhis, variableMap) ==
               old((defs, nextOp, owner, curPc, phiOf, mapsAtEnd, patchPhis, variableMap))
      ensures Inv()
    {
      BlockDone(old(defs), old(nextOp), old(owner), old(curPc), old(curOps), old(blockOps), old(phiOf), entry,
                old(mapsAtEnd), old(patchPhis), old(variableMap));
    }

    /** One round of `build`: block `pc`, the least one not built yet, is set up, built and patched. */
    method BuildOne(pc: nat, ghost done: set<nat>, ghost bound: nat) returns (r: Result<()>)
      requires Between(done, bound) && Inputs(blocks, entry) && pc in blocks && pc !in done && done <= blocks.Keys
      requires forall b | b in blocks :: (b in done <==> b < pc)
      modifies this
      ensures r.Ok? ==> Between(done + {pc}, pc + 1)
    {
      var s := OpenBlock(pc, done, bound);
      if s.Failure? {
        return Failure(s.msg);
      }
      var b := BuildBlock(pc);
      if b.Failure? {
        return Failure(b.msg);
      }
      if curNext.None? {
        return Failure("a block without a terminator");
      }
      assert (exists b | b in done + {pc} :: BackEdge(b)) <==> (exists b | b in done :: BackEdge(b)) || BackEdge(pc);
      assert LoopSeen(done + {pc});
      CloseBlock(pc, done);
      r := Ok(());
    }

    /** `build`: the blocks in increasing label order, each set up, built and patched; then the function's graph. */
    method Build() returns (r: Result<IrGraph.Graph>)
      requires Inv() && Inputs(blocks, entry) && Initial()
      modifies this
      ensures r.Ok? ==> fresh(r.value) && r.value.Valid() && r.value.start == startpc && r.value.blocks.Keys == blocks.Keys
      ensures r.Ok? ==> r.value.name == name && r.value.args == args && r.value.defs == defs
      ensures r.Ok? ==> (r.value.hasLoop <==> exists b | b in blocks :: BackEdge(b))
      ensures r.Ok? ==> mapsAtEnd.Keys == blocks.Keys && PhisFinal()
    {
      var todo := blocks.Keys;
      ghost var done: set<nat> := {};
      var bound := 0;
      while todo != {}
        invariant todo !! done && todo + done == blocks.Keys && Construct.Below(done, todo)
        invariant Between(done, bound)
        decreases todo
      {
        ghost var least := Construct.Least(todo);
        var pc :| pc in todo && forall q | q in todo :: pc <= q;
        RoundStart(blocks.Keys, done, todo, pc);
        var s := BuildOne(pc, done, bound);
        if s.Failure? {
          return Failure(s.msg);
        }
        Construct.BelowStep(done, todo, pc);
        Construct.MoveOne(blocks.Keys, done, todo, pc);
        todo, done := todo - {pc}, done + {pc};
        bound := pc + 1;
      }
      r := MakeGraph(bound);
    }

    /** The graph of the finished blocks, starting at the start block. */
    method MakeGraph(bound: nat) returns (r: Result<IrGraph.Graph>)
      requires Between(blocks.Keys, bound) && Inputs(blocks, entry)
      ensures r.Ok? ==> fresh(r.value) && r.value.Valid() && r.value.start == startpc && r.value.blocks.Keys == blocks.Keys
      ensures r.Ok? ==> r.value.name == name && r.value.args == args && r.value.defs == defs
      ensures r.Ok? ==> (r.value.hasLoop <==> exists b | b in blocks :: BackEdge(b))
      ensures r.Ok? ==> mapsAtEnd.Keys == blocks.Keys && PhisFinal()
    {
      if startpc !in blocks {
        return Failure("KeyError: the start label starts no block");
      }
      var g := map b | b in blocks :: Block(blockOps[b], nexts[b].value);
      GraphOk(blocks, entry, defs, nextOp, owner, curPc, blockOps, nexts, phiOf, mapsAtEnd, patchPhis, bound, g);
      FinalInputs(blocks, entry, defs, phiOf, mapsAtEnd, patchPhis);
      var graph := new IrGraph.Graph(name, args, g, defs, startpc, hasLoop, bound, nextOp);
      r := Ok(graph);
    }
  }

  /** The least label not yet built is above every built one, and every label below it is built. */
  lemma RoundStart(keys: set<nat>, done: set<nat>, todo: set<nat>, pc: nat)
    requires todo !! done && todo + done == keys && Construct.Below(done, todo)
    requires pc in todo && forall q | q in todo :: pc <= q
    ensures done <= keys && forall b | b in keys :: (b in done <==> b < pc)
  {
  }

  /** The loop of `LinkPhi`: inputs 1 and up of the phi `o`, each filled at once or registered as a patch. */
  method LinkInputs(defs: map<OpId, Def>, nextOp: nat, ghost owner: map<OpId, nat>, curPc: nat, cur: seq<OpId>,
                    blockOps: map<nat, seq<OpId>>, ghost phiOf: map<OpId, (nat, string)>, entry: map<nat, seq<nat>>,
                    ends: map<nat, VarMap>, pp: map<nat, Option<seq<Patch>>>, vm: VarMap, o: OpId, x: string)
    returns (defs': map<OpId, Def>, pp': map<nat, Option<seq<Patch>>>)
    requires LinkReady(defs, phiOf, entry, o, curPc, x, 1)
    requires BuilderOk(defs, nextOp, owner, curPc, cur, blockOps, phiOf, entry, ends, pp, vm, Range(o, 1, |defs[o].prevvalues|))
    ensures BuilderOk(defs', nextOp, owner, curPc, cur, blockOps, phiOf, entry, ends, pp', vm, {})
    ensures defs'.Keys == defs.Keys && (forall q | q in defs && q != o :: defs'[q] == defs[q]) && Same(defs[o], defs'[o])
  {
    var e := Construct.Get(entry, curPc);
    var n := |e|;
    defs', pp' := defs, pp;
    var k := 1;
    while k < n
      invariant LinkReady(defs', phiOf, entry, o, curPc, x, k) && n == |defs'[o].prevvalues| && k <= n
      invariant BuilderOk(defs', nextOp, owner, curPc, cur, blockOps, phiOf, entry, ends, pp', vm, Range(o, k, n))
      invariant defs'.Keys == defs.Keys && (forall q | q in defs && q != o :: defs'[q] == defs[q]) && Same(defs[o], defs'[o])
    {
      var p := e[k];
      var d := defs'[o];
      if PatchList(pp', p).None? {
        var next := defs'[o := d.(prevvalues := d.prevvalues[k := PatchValue(ends[p], x, d.prevvalues[0])])];
        LinkFill(defs', nextOp, owner, curPc, cur, blockOps, phiOf, entry, ends, pp', vm, o, x, k, next);
        defs' := next;
      } else {
        var next := pp'[p := Some(PatchList(pp', p).value + [Patch(o, k, x)])];
        LinkRegister(defs', nextOp, owner, curPc, cur, blockOps, phiOf, entry, ends, pp', vm, o, x, k, next);
        pp' := next;
      }
      k := k + 1;
    }
    EmptyRange(o, n);
  }

  /**
   * The loop of `_setup_variable_map` for a loop phi as the source writes it:
   * every predecessor after the first gets a patch registered, also one that
   * is already built, whose patch list was set to `None` once it was finished,
   * so that registering there fails. It fails exactly when a predecessor other
   * than the first is already built; otherwise every input is a registered
   * patch, as `LinkInputs` does it.
   */
  method LinkInputsAsWritten(defs: map<OpId, Def>, nextOp: nat, ghost owner: map<OpId, nat>, curPc: nat, cur: seq<OpId>,
                             blockOps: map<nat, seq<OpId>>, ghost phiOf: map<OpId, (nat, string)>, entry: map<nat, seq<nat>>,
                             ends: map<nat, VarMap>, pp: map<nat, Option<seq<Patch>>>, vm: VarMap, o: OpId, x: string)
    returns (r: Result<(map<OpId, Def>, map<nat, Option<seq<Patch>>>)>)
    requires LinkReady(defs, phiOf, entry, o, curPc, x, 1)
    requires BuilderOk(defs, nextOp, owner, curPc, cur, blockOps, phiOf, entry, ends, pp, vm, Range(o, 1, |defs[o].prevvalues|))
    ensures var e := Construct.Get(entry, curPc);
      r.Failure? <==> exists k | 1 <= k < |e| :: e[k] in ends
    ensures r.Ok? ==> BuilderOk(r.value.0, nextOp, owner, curPc, cur, blockOps, phiOf, entry, ends, r.value.1, vm, {})
    ensures r.Ok? ==> r.value.0.Keys == defs.Keys && (forall q | q in defs && q != o :: r.value.0[q] == defs[q])
  {
    var e := Construct.Get(entry, curPc);
    for k := 1 to |e|
      invariant forall j | 1 <= j < k :: e[j] !in ends
    {
      if PatchList(pp, e[k]).None? {
        return Failure("patch list of a block already built is None");
      }
    }
    var d, pp' := LinkInputs(defs, nextOp, owner, curPc, cur, blockOps, phiOf, entry, ends, pp, vm, o, x);
    r := Ok((d, pp'));
  }

  /** The loop of `FinishBlock`: every patch waiting for block `curPc` fills its input. */
  method ApplyPatches(defs: map<OpId, Def>, nextOp: nat, ghost owner: map<OpId, nat>, curPc: nat, cur: seq<OpId>,
                      blockOps: map<nat, seq<OpId>>, ghost phiOf: map<OpId, (nat, string)>, entry: map<nat, seq<nat>>,
                      ends: map<nat, VarMap>, pp: map<nat, Option<seq<Patch>>>, vm: VarMap, ps: seq<Patch>)
    returns (defs': map<OpId, Def>)
    requires PatchesFor(defs, phiOf, entry, curPc, ps) && curPc in ends && ends[curPc] == vm
    requires BuilderOk(defs, nextOp, owner, curPc, cur, blockOps, phiOf, entry, ends, pp, vm, PendingOf(ps, 0))
    ensures BuilderOk(defs', nextOp, owner, curPc, cur, blockOps, phiOf, entry, ends, pp, vm, {})
    ensures Refilled(defs, defs')
  {
    defs' := defs;
    var k := 0;
    while k < |ps|
      invariant Patching(defs, defs', nextOp, owner, curPc, cur, blockOps, phiOf, entry, ends, pp, vm, ps, k)
    {
      PatchNext(defs, defs', nextOp, owner, curPc, cur, blockOps, phiOf, entry, ends, pp, vm, ps, k);
      defs' := Patched(defs', ps[k], vm);
      k := k + 1;
    }
    NoPending(ps);
  }

  lemma KnownPlain(defs: map<OpId, Def>, e: Parse.Expr, vm: VarMap, letValues: map<string, Constant>)
    requires MapKnown(defs, vm) && PlainValue(e, vm, letValues).Some?
    ensures PlainValue(e, vm, letValues).value.Ok? ==> Known(defs, PlainValue(e, vm, letValues).value.value)
  {
  }

  lemma KnownGrown(defs: map<OpId, Def>, defs': map<OpId, Def>, vs: seq<Value>)
    requires defs.Keys <= defs'.Keys && forall a | a in vs :: Known(defs, a)
    ensures forall a | a in vs :: Known(defs', a)
  {
  }

  lemma IncreasingSnoc(s: seq<OpId>, o: OpId)
    requires Increasing(s) && forall p | p in s :: p < o
    ensures Increasing(s + [o])
  {
    var t := s + [o];
    forall i, j | 0 <= i < j < |t| ensures t[i] < t[j] {
      assert t[i] == s[i] && s[i] in s;
      if j < |s| {
        assert t[j] == s[j];
      }
    }
  }

  /** Adding an operation (not a phi) with a fresh id keeps every phi and every pending patch as it was. */
  lemma GrowOne(defs: map<OpId, Def>, nextOp: nat, owner: map<OpId, nat>, curPc: nat, cur: seq<OpId>,
                blockOps: map<nat, seq<OpId>>, d: Def, phiOf: map<OpId, (nat, string)>,
                entry: map<nat, seq<nat>>, ends: map<nat, VarMap>, pp: map<nat, Option<seq<Patch>>>, vm: VarMap)
    requires d.Op? && BuilderOk(defs, nextOp, owner, curPc, cur, blockOps, phiOf, entry, ends, pp, vm, {})
    ensures Grown(defs, nextOp, cur, defs[nextOp := d], nextOp + 1, cur + [nextOp])
    ensures BuilderOk(defs[nextOp := d], nextOp + 1, owner[nextOp := curPc], curPc, cur + [nextOp], blockOps,
                      phiOf, entry, ends, pp, vm, {})
  {
    var defs' := defs[nextOp := d];
    assert (cur + [nextOp])[..|cur|] == cur;
    IncreasingSnoc(cur, nextOp);
    forall o | o in phiOf ensures PhiShape(defs', phiOf, entry, o) && defs'[o] == defs[o] {
      assert PhiShape(defs, phiOf, entry, o);
    }
    forall o, i | o in phiOf && PhiShape(defs', phiOf, entry, o) && 0 <= i < |defs'[o].prevvalues|
      ensures InputOk(defs', phiOf, entry, ends, pp, o, i)
    {
      assert InputOk(defs, phiOf, entry, ends, pp, o, i);
    }
  }
  /** Every predecessor is a block, and the list is sorted. */
  lemma PredecessorsAreBlocks(blocks: map<nat, Construct.Stmts>, entry: map<nat, seq<nat>>, t: nat)
    requires Inputs(blocks, entry)
    ensures Construct.Sorted(Construct.Get(entry, t)) && forall p | p in Construct.Get(entry, t) :: p in blocks
  {
    forall p | p in Construct.Get(entry, t) ensures p in blocks {
      assert multiset(Construct.Get(entry, t))[p] > 0;
    }
  }

  lemma {:induction false} ZipArgsKeys(names: seq<string>, types: seq<Type>, k: nat)
    requires k <= |names| && k <= |types|
    ensures ZipArgs(names, types, k).Keys == set i | 0 <= i < k :: names[i]
  {
    if k > 0 {
      ZipArgsKeys(names, types, k - 1);
    }
  }

  /** A name takes the type of its last pair. */
  lemma {:induction false} ZipArgsLast(names: seq<string>, types: seq<Type>, k: nat, i: nat)
    requires i < k <= |names| && k <= |types| && forall j | i < j < k :: names[j] != names[i]
    ensures names[i] in ZipArgs(names, types, k) && ZipArgs(names, types, k)[names[i]] == Some(Argument(names[i], types[i]))
  {
    if i < k - 1 {
      ZipArgsLast(names, types, k - 1, i);
    }
  }

  /** An argument list with names than types fails exactly when some name has no pair of its own. */
  lemma StartOkIff(names: seq<string>, types: seq<Type>)
    ensures StartOk(names, types) <==> forall v | v in names :: exists i | 0 <= i < Pairs(names, types) :: names[i] == v
  {
    ZipArgsKeys(names, types, Pairs(names, types));
  }

  /** An extra argument binds its name to itself; a name no extra argument has keeps its value. */
  lemma {:induction false} WithExtraAt(m: VarMap, extra: seq<(string, Type)>, x: string)
    ensures (forall i | 0 <= i < |extra| :: extra[i].0 != x) ==> (x in WithExtra(m, extra) <==> x in m)
    ensures (forall i | 0 <= i < |extra| :: extra[i].0 != x) && x in m ==> WithExtra(m, extra)[x] == m[x]
    ensures (exists i | 0 <= i < |extra| :: extra[i].0 == x) ==>
              x in WithExtra(m, extra) && WithExtra(m, extra)[x].Some? && WithExtra(m, extra)[x].value.Argument? &&
              WithExtra(m, extra)[x].value.name == x
  {
    if extra != [] {
      WithExtraAt(m, extra[..|extra| - 1], x);
      if extra[|extra| - 1].0 != x {
        if exists i | 0 <= i < |extra| :: extra[i].0 == x {
          var i :| 0 <= i < |extra| && extra[i].0 == x;
          assert extra[..|extra| - 1][i].0 == x;
        }
      }
    }
  }

  lemma MergeInputs(ends: map<nat, VarMap>, e: seq<nat>, x: string)
    requires |e| >= 1 && (forall p | p in e :: p in ends) && x in ends[e[0]]
    requires ends[e[0]][x].Some? && None !in Others(ends, e, x)
    ensures InputsFrom(ends, e, x, [ends[e[0]][x]] + Others(ends, e, x), |e|)
  {
    var os := Others(ends, e, x);
    var vs := [ends[e[0]][x]] + os;
    forall i | 0 <= i < |e| ensures e[i] in ends && vs[i] == PatchValue(ends[e[i]], x, vs[0]) {
      assert e[i] in e;
      if i > 0 {
        assert vs[i] == os[i - 1] && os[i - 1] in os;
      }
    }
  }

  lemma MergedExtends(defs0: map<OpId, Def>, defs: map<OpId, Def>, ends: map<nat, VarMap>, e: seq<nat>, x: string, r: Option<Value>)
    requires |e| >= 1 && (forall p | p in e :: p in ends) && x in ends[e[0]]
    requires EndsKnown(defs0, ends) && Extends(defs0, defs) && Merged(defs0, ends, e, x, r)
    ensures Merged(defs, ends, e, x, r)
  {
    var v0 := ends[e[0]][x];
    if v0.Some? {
      assert Known(defs0, v0.value);
    }
  }

  lemma LoopOkExtends(defs0: map<OpId, Def>, defs: map<OpId, Def>, phiOf0: map<OpId, (nat, string)>, phiOf: map<OpId, (nat, string)>,
                      ends: map<nat, VarMap>, e: seq<nat>, h: nat, x: string, r: Option<Value>)
    requires |e| >= 1 && e[0] in ends && x in ends[e[0]]
    requires EndsKnown(defs0, ends) && Extends(defs0, defs) && Extends(phiOf0, phiOf) && LoopOk(defs0, phiOf0, ends, e, h, x, r)
    ensures LoopOk(defs, phiOf, ends, e, h, x, r)
  {
    var v := ends[e[0]][x];
    if v.Some? {
      assert Known(defs0, v.value);
    }
  }

  /** Adding a phi with a fresh id: its final inputs are as required, and the others become pending. */
  lemma PhiOne(defs: map<OpId, Def>, nextOp: nat, owner: map<OpId, nat>, curPc: nat, cur: seq<OpId>,
               blockOps: map<nat, seq<OpId>>, phiOf: map<OpId, (nat, string)>, entry: map<nat, seq<nat>>,
               ends: map<nat, VarMap>, pp: map<nat, Option<seq<Patch>>>, vm: VarMap,
               x: string, vs: seq<Option<Value>>, t: Type, from: nat)
    requires BuilderOk(defs, nextOp, owner, curPc, cur, blockOps, phiOf, entry, ends, pp, vm, {})
    requires InputsFrom(ends, Construct.Get(entry, curPc), x, vs, from)
    ensures nextOp !in defs && nextOp !in phiOf
    ensures BuilderOk(defs[nextOp := Phi(Construct.Get(entry, curPc), vs, t)], nextOp + 1, owner[nextOp := curPc], curPc,
                      cur + [nextOp], blockOps, phiOf[nextOp := (curPc, x)], entry, ends, pp, vm, Range(nextOp, from, |vs|))
  {
    var n := nextOp;
    var defs' := defs[n := Phi(Construct.Get(entry, curPc), vs, t)];
    var phiOf' := phiOf[n := (curPc, x)];
    IncreasingSnoc(cur, n);
    forall o | o in phiOf ensures o < n {
      assert PhiShape(defs, phiOf, entry, o);
    }
    forall o | o in phiOf' ensures PhiShape(defs', phiOf', entry, o) {
      if o != n {
        assert PhiShape(defs, phiOf, entry, o);
      }
    }
    forall o, i | o in phiOf' && PhiShape(defs', phiOf', entry, o) && 0 <= i < |defs'[o].prevvalues|
      ensures (o, i) !in Range(n, from, |vs|) ==> InputOk(defs', phiOf', entry, ends, pp, o, i)
    {
      if o != n {
        assert InputOk(defs, phiOf, entry, ends, pp, o, i);
      }
    }
    forall b, k | b in pp && pp[b].Some? && 0 <= k < |pp[b].value| ensures PatchOk(defs', phiOf', entry, b, pp[b].value[k]) {
      assert PatchOk(defs, phiOf, entry, b, pp[b].value[k]);
    }
  }

  /** The corrected registration, for a predecessor already built: the input takes that block's final value at once. */
  lemma LinkFill(defs: map<OpId, Def>, nextOp: nat, owner: map<OpId, nat>, curPc: nat, cur: seq<OpId>,
                 blockOps: map<nat, seq<OpId>>, phiOf: map<OpId, (nat, string)>, entry: map<nat, seq<nat>>,
                 ends: map<nat, VarMap>, pp: map<nat, Option<seq<Patch>>>, vm: VarMap,
                 o: OpId, x: string, k: nat, defs': map<OpId, Def>)
    requires LinkReady(defs, phiOf, entry, o, curPc, x, k) && k < |defs[o].prevvalues|
    requires BuilderOk(defs, nextOp, owner, curPc, cur, blockOps, phiOf, entry, ends, pp, vm, Range(o, k, |defs[o].prevvalues|))
    requires var p := Construct.Get(entry, curPc)[k]; var d := defs[o];
      p in ends && defs' == defs[o := d.(prevvalues := d.prevvalues[k := PatchValue(ends[p], x, d.prevvalues[0])])]
    ensures LinkReady(defs', phiOf, entry, o, curPc, x, k + 1) && |defs'[o].prevvalues| == |defs[o].prevvalues|
    ensures BuilderOk(defs', nextOp, owner, curPc, cur, blockOps, phiOf, entry, ends, pp, vm, Range(o, k + 1, |defs[o].prevvalues|))
    ensures defs'.Keys == defs.Keys && (forall q | q in defs && q != o :: defs'[q] == defs[q]) && Same(defs[o], defs'[o])
  {
    var n := |defs[o].prevvalues|;
    forall q | q in phiOf ensures PhiShape(defs', phiOf, entry, q) {
      assert PhiShape(defs, phiOf, entry, q);
    }
    forall q, i | q in phiOf && PhiShape(defs', phiOf, entry, q) && 0 <= i < |defs'[q].prevvalues|
      ensures (q, i) !in Range(o, k + 1, n) ==> InputOk(defs', phiOf, entry, ends, pp, q, i)
    {
      if (q != o || i != k) && (q, i) !in Range(o, k + 1, n) {
        assert (q, i) !in Range(o, k, n);
        assert InputOk(defs, phiOf, entry, ends, pp, q, i);
      }
    }
    forall b, j | b in pp && pp[b].Some? && 0 <= j < |pp[b].value| ensures PatchOk(defs', phiOf, entry, b, pp[b].value[j]) {
      assert PatchOk(defs, phiOf, entry, b, pp[b].value[j]);
    }
  }

  /** Registration for a predecessor still to be built: the input waits in that block's patch list. */
  lemma LinkRegister(defs: map<OpId, Def>, nextOp: nat, owner: map<OpId, nat>, curPc: nat, cur: seq<OpId>,
                     blockOps: map<nat, seq<OpId>>, phiOf: map<OpId, (nat, string)>, entry: map<nat, seq<nat>>,
                     ends: map<nat, VarMap>, pp: map<nat, Option<seq<Patch>>>, vm: VarMap,
                     o: OpId, x: string, k: nat, pp': map<nat, Option<seq<Patch>>>)
    requires LinkReady(defs, phiOf, entry, o, curPc, x, k) && k < |defs[o].prevvalues|
    requires BuilderOk(defs, nextOp, owner, curPc, cur, blockOps, phiOf, entry, ends, pp, vm, Range(o, k, |defs[o].prevvalues|))
    requires var p := Construct.Get(entry, curPc)[k];
      PatchList(pp, p).Some? && pp' == pp[p := Some(PatchList(pp, p).value + [Patch(o, k, x)])]
    ensures LinkReady(defs, phiOf, entry, o, curPc, x, k + 1)
    ensures BuilderOk(defs, nextOp, owner, curPc, cur, blockOps, phiOf, entry, ends, pp', vm, Range(o, k + 1, |defs[o].prevvalues|))
  {
    var n := |defs[o].prevvalues|;
    var p := Construct.Get(entry, curPc)[k];
    var old_ := PatchList(pp, p).value;
    assert p !in ends;
    forall b | true ensures PatchList(pp, b).Some? ==> PatchList(pp', b).Some? && forall pt | pt in PatchList(pp, b).value :: pt in PatchList(pp', b).value {
    }
    forall q, i | q in phiOf && PhiShape(defs, phiOf, entry, q) && 0 <= i < |defs[q].prevvalues|
      ensures (q, i) !in Range(o, k + 1, n) ==> InputOk(defs, phiOf, entry, ends, pp', q, i)
    {
      if (q != o || i != k) && (q, i) !in Range(o, k + 1, n) {
        assert (q, i) !in Range(o, k, n);
        assert InputOk(defs, phiOf, entry, ends, pp, q, i);
      }
    }
    forall b, j | b in pp' && pp'[b].Some? && 0 <= j < |pp'[b].value| ensures PatchOk(defs, phiOf, entry, b, pp'[b].value[j]) {
      if b == p && j == |old_| {
        assert pp'[b].value[j] == Patch(o, k, x);
      } else if b == p {
        assert p in pp && pp'[b].value[j] == pp[p].value[j];
        assert PatchOk(defs, phiOf, entry, b, pp[p].value[j]);
      } else {
        assert PatchOk(defs, phiOf, entry, b, pp[b].value[j]);
      }
    }
  }

  /** Before the patches of block `curPc` run: its final map is recorded, its patch list closed, its patches pending. */
  lemma PatchStart(defs: map<OpId, Def>, nextOp: nat, owner: map<OpId, nat>, curPc: nat, cur: seq<OpId>,
                   blockOps: map<nat, seq<OpId>>, phiOf: map<OpId, (nat, string)>, entry: map<nat, seq<nat>>,
                   ends: map<nat, VarMap>, pp: map<nat, Option<seq<Patch>>>, vm: VarMap)
    requires BuilderOk(defs, nextOp, owner, curPc, cur, blockOps, phiOf, entry, ends, pp, vm, {}) && curPc !in ends
    ensures PatchList(pp, curPc).Some? && PatchesFor(defs, phiOf, entry, curPc, PatchList(pp, curPc).value)
    ensures BuilderOk(defs, nextOp, owner, curPc, cur, blockOps, phiOf, entry, ends[curPc := vm], pp[curPc := None], vm,
                      PendingOf(PatchList(pp, curPc).value, 0))
  {
    var pc := curPc;
    var ps := PatchList(pp, pc).value;
    var ends', pp' := ends[pc := vm], pp[pc := None];
    forall j | 0 <= j < |ps| ensures PatchOk(defs, phiOf, entry, pc, ps[j]) {
      assert pc in pp;
    }
    forall o, i | o in phiOf && PhiShape(defs, phiOf, entry, o) && 0 <= i < |defs[o].prevvalues|
      ensures (o, i) !in PendingOf(ps, 0) ==> InputOk(defs, phiOf, entry, ends', pp', o, i)
    {
      assert InputOk(defs, phiOf, entry, ends, pp, o, i);
      var x := phiOf[o].1;
      if Construct.Get(entry, phiOf[o].0)[i] == pc {
        assert Patch(o, i, x) in ps;
        var j :| 0 <= j < |ps| && ps[j] == Patch(o, i, x);
        assert (o, i) in PendingOf(ps, 0);
      }
    }
    forall b, j | b in pp' && pp'[b].Some? && 0 <= j < |pp'[b].value| ensures PatchOk(defs, phiOf, entry, b, pp'[b].value[j]) {
      assert PatchOk(defs, phiOf, entry, b, pp[b].value[j]);
    }
  }

  /** One patch of `patch_phis[pc]` fills its input with the final value of its variable. */
  lemma PatchStep(defs: map<OpId, Def>, nextOp: nat, owner: map<OpId, nat>, curPc: nat, cur: seq<OpId>,
                  blockOps: map<nat, seq<OpId>>, phiOf: map<OpId, (nat, string)>, entry: map<nat, seq<nat>>,
                  ends: map<nat, VarMap>, pp: map<nat, Option<seq<Patch>>>, vm: VarMap,
                  ps: seq<Patch>, k: nat, defs': map<OpId, Def>)
    requires k < |ps| && PatchesFor(defs, phiOf, entry, curPc, ps) && curPc in ends && ends[curPc] == vm
    requires BuilderOk(defs, nextOp, owner, curPc, cur, blockOps, phiOf, entry, ends, pp, vm, PendingOf(ps, k))
    requires var pt := ps[k]; var d := defs[pt.phi];
      defs' == defs[pt.phi := d.(prevvalues := d.prevvalues[pt.index := PatchValue(vm, pt.name, d.prevvalues[0])])]
    ensures PatchesFor(defs', phiOf, entry, curPc, ps)
    ensures BuilderOk(defs', nextOp, owner, curPc, cur, blockOps, phiOf, entry, ends, pp, vm, PendingOf(ps, k + 1))
    ensures Refilled(defs, defs')
  {
    var pt := ps[k];
    assert PatchOk(defs, phiOf, entry, curPc, pt);
    PatchRefills(defs, pt, vm, defs');
    RefilledShapes(defs, defs', phiOf, entry);
    forall q | q in phiOf ensures PhiShape(defs', phiOf, entry, q) {
      assert PhiShape(defs, phiOf, entry, q);
    }
    forall q, i | q in phiOf && PhiShape(defs', phiOf, entry, q) && 0 <= i < |defs'[q].prevvalues|
      ensures (q, i) !in PendingOf(ps, k + 1) ==> InputOk(defs', phiOf, entry, ends, pp, q, i)
    {
      if (q, i) != (pt.phi, pt.index) && (q, i) !in PendingOf(ps, k + 1) {
        assert (q, i) !in PendingOf(ps, k);
        assert InputOk(defs, phiOf, entry, ends, pp, q, i);
      }
    }
    forall j | 0 <= j < |ps| ensures PatchOk(defs', phiOf, entry, curPc, ps[j]) {
      assert PatchOk(defs, phiOf, entry, curPc, ps[j]);
    }
    forall b, j | b in pp && pp[b].Some? && 0 <= j < |pp[b].value| ensures PatchOk(defs', phiOf, entry, b, pp[b].value[j]) {
      assert PatchOk(defs, phiOf, entry, b, pp[b].value[j]);
    }
  }

  /** Filling one input of a phi keeps the shape of every slot. */
  lemma PatchRefills(defs: map<OpId, Def>, pt: Patch, vm: VarMap, defs': map<OpId, Def>)
    requires pt.phi in defs && defs[pt.phi].Phi? && 1 <= pt.index < |defs[pt.phi].prevvalues|
    requires var d := defs[pt.phi];
      defs' == defs[pt.phi := d.(prevvalues := d.prevvalues[pt.index := PatchValue(vm, pt.name, d.prevvalues[0])])]
    ensures Refilled(defs, defs')
  {
  }

  /** Refilling inputs keeps every phi's shape and every pending patch's target. */
  lemma RefilledShapes(defs: map<OpId, Def>, defs': map<OpId, Def>, phiOf: map<OpId, (nat, string)>,
                       entry: map<nat, seq<nat>>)
    requires Refilled(defs, defs')
    ensures forall q | PhiShape(defs, phiOf, entry, q) :: PhiShape(defs', phiOf, entry, q)
    ensures forall b, pt | PatchOk(defs, phiOf, entry, b, pt) :: PatchOk(defs', phiOf, entry, b, pt)
  {
    forall q | PhiShape(defs, phiOf, entry, q) ensures PhiShape(defs', phiOf, entry, q) {
      assert Same(defs[q], defs'[q]);
    }
  }

  lemma NoPending(ps: seq<Patch>)
    ensures PendingOf(ps, |ps|) == {}
  {
  }

  lemma RefilledTrans(defs0: map<OpId, Def>, defs1: map<OpId, Def>, defs2: map<OpId, Def>)
    requires Refilled(defs0, defs1) && Refilled(defs1, defs2)
    ensures Refilled(defs0, defs2)
  {
    forall o | o in defs0 ensures Same(defs0[o], defs2[o]) {
      assert Same(defs0[o], defs1[o]) && Same(defs1[o], defs2[o]);
    }
  }

  /** One round of the patch loop. */
  lemma PatchNext(defs0: map<OpId, Def>, defs: map<OpId, Def>, nextOp: nat, owner: map<OpId, nat>, curPc: nat,
                  cur: seq<OpId>, blockOps: map<nat, seq<OpId>>, phiOf: map<OpId, (nat, string)>,
                  entry: map<nat, seq<nat>>, ends: map<nat, VarMap>, pp: map<nat, Option<seq<Patch>>>, vm: VarMap,
                  ps: seq<Patch>, k: nat)
    requires Patching(defs0, defs, nextOp, owner, curPc, cur, blockOps, phiOf, entry, ends, pp, vm, ps, k)
    requires k < |ps| && curPc in ends && ends[curPc] == vm
    ensures ps[k].phi in defs && defs[ps[k].phi].Phi? && 0 < |defs[ps[k].phi].prevvalues| && ps[k].index < |defs[ps[k].phi].prevvalues|
    ensures Patching(defs0, Patched(defs, ps[k], vm), nextOp, owner, curPc, cur, blockOps, phiOf, entry, ends, pp, vm, ps, k + 1)
  {
    assert PatchOk(defs, phiOf, entry, curPc, ps[k]);
    var defs' := Patched(defs, ps[k], vm);
    PatchStep(defs, nextOp, owner, curPc, cur, blockOps, phiOf, entry, ends, pp, vm, ps, k, defs');
    RefilledTrans(defs0, defs, defs');
  }

  /** The finished block's operations join the finished blocks; the next block starts empty. */
  lemma BlockDone(defs: map<OpId, Def>, nextOp: nat, owner: map<OpId, nat>, curPc: nat, cur: seq<OpId>,
                  blockOps: map<nat, seq<OpId>>, phiOf: map<OpId, (nat, string)>, entry: map<nat, seq<nat>>,
                  ends: map<nat, VarMap>, pp: map<nat, Option<seq<Patch>>>, vm: VarMap)
    requires BuilderOk(defs, nextOp, owner, curPc, cur, blockOps, phiOf, entry, ends, pp, vm, {})
    ensures BuilderOk(defs, nextOp, owner, curPc, [], blockOps[curPc := cur], phiOf, entry, ends, pp, vm, {})
  {
  }

  /** Once every block is built, no input is pending: each is its predecessor's final value of the variable. */
  lemma FinalInputs(blocks: map<nat, Construct.Stmts>, entry: map<nat, seq<nat>>, defs: map<OpId, Def>,
                    phiOf: map<OpId, (nat, string)>, ends: map<nat, VarMap>, pp: map<nat, Option<seq<Patch>>>)
    requires Inputs(blocks, entry) && ends.Keys == blocks.Keys && PhisOk(defs, phiOf, entry, ends, pp, {})
    ensures forall o | o in defs && defs[o].Phi? :: PhiFinal(defs, phiOf, entry, ends, o)
  {
    forall o | o in defs && defs[o].Phi? ensures PhiFinal(defs, phiOf, entry, ends, o) {
      assert PhiShape(defs, phiOf, entry, o);
      PredecessorsAreBlocks(blocks, entry, phiOf[o].0);
      forall i | 0 <= i < |defs[o].prevvalues|
        ensures defs[o].prevblocks[i] in ends &&
                defs[o].prevvalues[i] == PatchValue(ends[defs[o].prevblocks[i]], phiOf[o].1, defs[o].prevvalues[0])
      {
        assert defs[o].prevblocks[i] in Construct.Get(entry, phiOf[o].0);
        assert InputOk(defs, phiOf, entry, ends, pp, o, i);
      }
    }
  }

  /** The builder's finished blocks form a well-formed arena in which no operation is shared. */
  lemma GraphOk(blocks: map<nat, Construct.Stmts>, entry: map<nat, seq<nat>>, defs: map<OpId, Def>, nextOp: nat,
                owner: map<OpId, nat>, curPc: nat, blockOps: map<nat, seq<OpId>>, nexts: map<nat, Option<Next>>,
                phiOf: map<OpId, (nat, string)>, ends: map<nat, VarMap>, pp: map<nat, Option<seq<Patch>>>,
                bound: nat, g: map<BlockId, Block>)
    requires ArenaOk(defs, nextOp, owner, curPc, [], blockOps) && PhisOk(defs, phiOf, entry, ends, pp, {})
    requires Inputs(blocks, entry) && blockOps.Keys == blocks.Keys && nexts.Keys == blocks.Keys
    requires forall b | b in blocks :: b < bound && nexts[b].Some? && forall t | t in NextBlocks(nexts[b].value) :: t in blocks
    requires g == map b | b in blocks :: Block(blockOps[b], nexts[b].value)
    ensures IrGraph.Arena(g, defs, bound, nextOp) && IrGraph.UniqueOps(g)
  {
    forall o | o in defs && defs[o].Phi? ensures forall pb | pb in defs[o].prevblocks :: pb < bound {
      assert PhiShape(defs, phiOf, entry, o);
      PredecessorsAreBlocks(blocks, entry, phiOf[o].0);
    }
    forall b | b in g ensures IrGraph.Distinct(g[b].ops) {
      assert Increasing(blockOps[b]);
    }
  }
}
