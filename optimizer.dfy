/**
 * `BaseOptimizer.optimize` running the rules of `LocalOptimizer`: the walk
 * over the blocks in `iterblocks` order, in which each block's operations are
 * rewritten one by one, the operations the rules build are emitted, and a
 * conditional jump whose condition has become a constant is folded; then the
 * replacements are applied until they settle and, when a jump was folded, the
 * phis lose their inputs from blocks no longer reached.
 */
module Optimizer {
  import opened Wrappers
  import opened Types
  import opened Ir
  import opened IrGraph
  import opened Passes
  import opened Branches
  import opened Dataflow
  import opened Peephole

  // ---------------------------------------------------------------------
  // Emission

  /** What emitting a term changes: the arena, the next free slot and the new operations of the current block. */
  datatype Emitting = Emitting(blocks: map<BlockId, Block>, defs: map<OpId, Def>, nextOp: nat, newops: seq<OpId>)

  /** Every slot in use is below the counter. */
  ghost predicate Below(defs: map<OpId, Def>, nextOp: nat)
  {
    forall o | o in defs :: o < nextOp
  }

  /**
   * Emitting only adds: new slots above the old counter (old slots keep their
   * contents), new operations in front of blocks and in the new list, and no
   * terminator changes.
   */
  ghost predicate Grows(e: Emitting, e': Emitting)
  {
    e.nextOp <= e'.nextOp && e'.blocks.Keys == e.blocks.Keys &&
    (forall b | b in e.blocks :: e'.blocks[b].next == e.blocks[b].next) &&
    (forall b | b in e.blocks :: forall x | x in e'.blocks[b].ops :: x in e.blocks[b].ops || e.nextOp <= x < e'.nextOp) &&
    (forall o | o in e.defs :: o in e'.defs && e'.defs[o] == e.defs[o]) &&
    (forall o | o in e'.defs :: o in e.defs || e.nextOp <= o < e'.nextOp) &&
    (forall x | x in e'.newops :: x in e.newops || e.nextOp <= x < e'.nextOp)
  }

  lemma GrowsTrans(e1: Emitting, e2: Emitting, e3: Emitting)
    requires Grows(e1, e2) && Grows(e2, e3)
    ensures Grows(e1, e3)
  {
  }

  /** A new phi's inputs, all present. */
  function Somes(vs: seq<Value>): (r: seq<Option<Value>>)
    ensures |r| == |vs| && forall i | 0 <= i < |vs| :: r[i] == Some(vs[i])
  {
    seq(|vs|, i requires 0 <= i < |vs| => Some(vs[i]))
  }

  /** A new slot holding a phi with the input blocks of an existing phi adds no new input-block list. */
  lemma PhiListsAdd(defs: map<OpId, Def>, id: OpId, d: Def)
    requires id !in defs && (d.Phi? ==> d.prevblocks in PhiLists(defs))
    ensures PhiLists(defs[id := d]) == PhiLists(defs)
  {
    var defs' := defs[id := d];
    forall l | l in PhiLists(defs') ensures l in PhiLists(defs) {
      var o :| o in defs' && defs'[o].Phi? && defs'[o].prevblocks == l;
      if o != id {
        assert defs[o].prevblocks == l;
      }
    }
    forall l | l in PhiLists(defs) ensures l in PhiLists(defs') {
      var o :| o in defs && defs[o].Phi? && defs[o].prevblocks == l;
      assert defs'[o] == defs[o];
    }
  }

  /** `newop`/`newcast`: the operation takes the next slot and goes at the end of the new operations. */
  function AddOp(e: Emitting, d: Def): (r: (Emitting, Value))
    requires Below(e.defs, e.nextOp) && d.Op?
    ensures Below(r.0.defs, r.0.nextOp) && Grows(e, r.0) && PhiLists(r.0.defs) == PhiLists(e.defs)
    ensures r.0.nextOp == e.nextOp + 1 && r.1 == OpRef(e.nextOp) && e.nextOp in r.0.defs && r.0.defs[e.nextOp] == d
  {
    var id := e.nextOp;
    PhiListsAdd(e.defs, id, d);
    (Emitting(e.blocks, e.defs[id := d], id + 1, e.newops + [id]), OpRef(id))
  }

  /** `newphi`, or the insertion in front of the home block: the phi takes the next slot. */
  function AddPhi(e: Emitting, d: Def, home: Option<BlockId>): (r: (Emitting, Value))
    requires Below(e.defs, e.nextOp) && d.Phi? && d.prevblocks in PhiLists(e.defs)
    requires home.Some? ==> home.value in e.blocks
    ensures Below(r.0.defs, r.0.nextOp) && Grows(e, r.0) && PhiLists(r.0.defs) == PhiLists(e.defs)
    ensures r.0.nextOp == e.nextOp + 1 && r.1 == OpRef(e.nextOp) && e.nextOp in r.0.defs && r.0.defs[e.nextOp] == d
  {
    var id := e.nextOp;
    PhiListsAdd(e.defs, id, d);
    if home.None? then (Emitting(e.blocks, e.defs[id := d], id + 1, [id] + e.newops), OpRef(id))
    else
      var h := home.value;
      (Emitting(e.blocks[h := Block([id] + e.blocks[h].ops, e.blocks[h].next)], e.defs[id := d], id + 1, e.newops), OpRef(id))
  }

  /**
   * Emit a term the way the source builds it: the operands first, left to
   * right, then the operation itself. `newop` and `newcast` append to the new
   * operations of the block; a phi goes in front of them, or in front of the
   * operations of its home block. The value is the term's value, of the term's
   * type.
   */
  function Emit(e: Emitting, t: Term): (r: (Emitting, Value))
    requires Below(e.defs, e.nextOp) && TermOk(t, e.blocks.Keys, PhiLists(e.defs))
    ensures Below(r.0.defs, r.0.nextOp) && Grows(e, r.0) && PhiLists(r.0.defs) == PhiLists(e.defs)
    ensures ValueType(r.0.defs, r.1) == TermType(e.defs, t)
    ensures t.Val? ==> r == (e, t.v)
    ensures !t.Val? ==> r.0.nextOp > e.nextOp && r.1 == OpRef(r.0.nextOp - 1) && (r.0.nextOp - 1) in r.0.defs
    decreases t, 1
  {
    match t
    case Val(v) => (e, v)
    case New(kind, name, args, typ) =>
      var (e1, vs) := EmitAll(e, args);
      var r := AddOp(e1, Op(kind, name, vs, typ));
      GrowsTrans(e, e1, r.0);
      r
    case NewPhi(pbs, ins, typ, home) =>
      var (e1, vs) := EmitAll(e, ins);
      var r := AddPhi(e1, Phi(pbs, Somes(vs), typ), home);
      GrowsTrans(e, e1, r.0);
      r
  }

  /** Emit terms left to right. */
  function EmitAll(e: Emitting, ts: seq<Term>): (r: (Emitting, seq<Value>))
    requires Below(e.defs, e.nextOp) && forall i | 0 <= i < |ts| :: TermOk(ts[i], e.blocks.Keys, PhiLists(e.defs))
    ensures Below(r.0.defs, r.0.nextOp) && Grows(e, r.0) && PhiLists(r.0.defs) == PhiLists(e.defs) && |r.1| == |ts|
    decreases ts, 0
  {
    if ts == [] then (e, [])
    else
      var (e1, v) := Emit(e, ts[0]);
      assert forall i | 0 <= i < |ts[1..]| :: ts[1..][i] == ts[i + 1];
      var (e2, vs) := EmitAll(e1, ts[1..]);
      GrowsTrans(e, e1, e2);
      (e2, [v] + vs)
  }

  /**
   * The emitter keeps the arena sound: every operation of a block has a
   * slot, no operation sits twice, the new list has no repeats and its
   * operations emitted since slot `n0` sit in no block.
   */
  ghost predicate Placed(e: Emitting, n0: nat)
  {
    Below(e.defs, e.nextOp) && n0 <= e.nextOp && OpsDefined(e.blocks, e.defs) && UniqueOps(e.blocks) &&
    Distinct(e.newops) && (forall x | x in e.newops :: x in e.defs) &&
    (forall x, c | x in e.newops && c in e.blocks && x >= n0 :: x !in e.blocks[c].ops)
  }

  /** A slot that is not in use sits in no block and not in the new list. */
  lemma FreshSlot(e: Emitting, n0: nat)
    requires Placed(e, n0)
    ensures e.nextOp !in e.defs && e.nextOp !in e.newops
    ensures forall c | c in e.blocks :: e.nextOp !in e.blocks[c].ops
  {
  }

  lemma PlacedAppend(e: Emitting, n0: nat, d: Def)
    requires Placed(e, n0) && d.Op?
    ensures Placed(AddOp(e, d).0, n0)
  {
    FreshSlot(e, n0);
  }

  lemma PlacedFront(e: Emitting, n0: nat, d: Def)
    requires Placed(e, n0) && d.Phi? && d.prevblocks in PhiLists(e.defs)
    ensures Placed(AddPhi(e, d, None).0, n0)
  {
    FreshSlot(e, n0);
    assert Distinct([e.nextOp] + e.newops);
  }

  lemma PlacedHome(e: Emitting, n0: nat, d: Def, h: BlockId)
    requires Placed(e, n0) && h in e.blocks && d.Phi? && d.prevblocks in PhiLists(e.defs)
    ensures Placed(AddPhi(e, d, Some(h)).0, n0)
  {
    FreshSlot(e, n0);
    var id := e.nextOp;
    var blocks := e.blocks[h := Block([id] + e.blocks[h].ops, e.blocks[h].next)];
    assert Distinct([id] + e.blocks[h].ops);
    forall b1, b2, o | b1 in blocks && b2 in blocks && o in blocks[b1].ops && o in blocks[b2].ops
      ensures b1 == b2
    {
      if o != id {
        assert o in e.blocks[b1].ops && o in e.blocks[b2].ops;
      }
    }
  }

  lemma {:induction false} EmitPlaced(e: Emitting, t: Term, n0: nat)
    requires Placed(e, n0) && TermOk(t, e.blocks.Keys, PhiLists(e.defs))
    ensures Placed(Emit(e, t).0, n0)
    decreases t, 1
  {
    match t
    case Val(_) =>
    case New(kind, name, args, typ) =>
      EmitAllPlaced(e, args, n0);
      var e1 := EmitAll(e, args).0;
      PlacedAppend(e1, n0, Op(kind, name, EmitAll(e, args).1, typ));
    case NewPhi(pbs, ins, typ, home) =>
      EmitAllPlaced(e, ins, n0);
      var (e1, vs) := EmitAll(e, ins);
      if home.Some? {
        PlacedHome(e1, n0, Phi(pbs, Somes(vs), typ), home.value);
      } else {
        PlacedFront(e1, n0, Phi(pbs, Somes(vs), typ));
      }
  }

  lemma {:induction false} EmitAllPlaced(e: Emitting, ts: seq<Term>, n0: nat)
    requires Placed(e, n0) && forall i | 0 <= i < |ts| :: TermOk(ts[i], e.blocks.Keys, PhiLists(e.defs))
    ensures Placed(EmitAll(e, ts).0, n0)
    decreases ts, 0
  {
    if ts != [] {
      EmitPlaced(e, ts[0], n0);
      var e1 := Emit(e, ts[0]).0;
      assert forall i | 0 <= i < |ts[1..]| :: ts[1..][i] == ts[i + 1];
      EmitAllPlaced(e1, ts[1..], n0);
    }
  }

  // ---------------------------------------------------------------------
  // Order

  /** The ids of `ns` below `n0`, in order: the operations that existed before slot `n0`. */
  function Olds(ns: seq<OpId>, n0: nat): (r: seq<OpId>)
    ensures forall x :: x in r <==> x in ns && x < n0
  {
    if ns == [] then [] else Olds(ns[..|ns| - 1], n0) + (if ns[|ns| - 1] < n0 then [ns[|ns| - 1]] else [])
  }

  /** The elements of `s` that are in `k`, in order. */
  function Filter(s: seq<OpId>, k: set<OpId>): (r: seq<OpId>)
  {
    if s == [] then [] else Filter(s[..|s| - 1], k) + (if s[|s| - 1] in k then [s[|s| - 1]] else [])
  }

  lemma OldsSnoc(ns: seq<OpId>, x: OpId, n0: nat)
    ensures Olds(ns + [x], n0) == Olds(ns, n0) + (if x < n0 then [x] else [])
  {
    assert (ns + [x])[..|ns|] == ns;
  }

  lemma FilterSnoc(s: seq<OpId>, x: OpId, k: set<OpId>)
    ensures Filter(s + [x], k) == Filter(s, k) + (if x in k then [x] else [])
  {
    assert (s + [x])[..|s|] == s;
  }

  /** A new slot in front does not change the old operations. */
  lemma {:induction false} OldsFront(x: OpId, ns: seq<OpId>, n0: nat)
    requires x >= n0
    ensures Olds([x] + ns, n0) == Olds(ns, n0)
    decreases |ns|
  {
    if ns == [] {
      assert ([x] + ns)[..0] == [];
    } else {
      var init := ns[..|ns| - 1];
      assert [x] + ns == ([x] + init) + [ns[|ns| - 1]];
      OldsSnoc([x] + init, ns[|ns| - 1], n0);
      OldsFront(x, init, n0);
      assert ns == init + [ns[|ns| - 1]];
      OldsSnoc(init, ns[|ns| - 1], n0);
    }
  }

  lemma {:induction false} OldsOlds(ns: seq<OpId>, n0: nat, n1: nat)
    requires n0 <= n1
    ensures Olds(Olds(ns, n1), n0) == Olds(ns, n0)
    decreases |ns|
  {
    if ns != [] {
      var init, last := ns[..|ns| - 1], ns[|ns| - 1];
      OldsOlds(init, n0, n1);
      if last < n1 {
        OldsSnoc(Olds(init, n1), last, n0);
      } else {
        assert Olds(init, n1) + [] == Olds(init, n1);
      }
    }
  }

  /** Filtering looks only at the elements of the sequence. */
  lemma {:induction false} FilterSame(s: seq<OpId>, k1: set<OpId>, k2: set<OpId>)
    requires forall x | x in s :: x in k1 <==> x in k2
    ensures Filter(s, k1) == Filter(s, k2)
    decreases |s|
  {
    if s != [] {
      FilterSame(s[..|s| - 1], k1, k2);
    }
  }

  /** Emitting a term adds operations to the new list but keeps the old ones in their order. */
  lemma {:induction false} EmitOrder(e: Emitting, t: Term)
    requires Below(e.defs, e.nextOp) && TermOk(t, e.blocks.Keys, PhiLists(e.defs))
    ensures Olds(Emit(e, t).0.newops, e.nextOp) == Olds(e.newops, e.nextOp)
    decreases t, 1
  {
    match t
    case Val(_) =>
    case New(kind, name, args, typ) =>
      EmitAllOrder(e, args);
      var (e1, vs) := EmitAll(e, args);
      OldsSnoc(e1.newops, e1.nextOp, e.nextOp);
    case NewPhi(pbs, ins, typ, home) =>
      EmitAllOrder(e, ins);
      var (e1, vs) := EmitAll(e, ins);
      if home.None? {
        OldsFront(e1.nextOp, e1.newops, e.nextOp);
      }
  }

  lemma {:induction false} EmitAllOrder(e: Emitting, ts: seq<Term>)
    requires Below(e.defs, e.nextOp) && forall i | 0 <= i < |ts| :: TermOk(ts[i], e.blocks.Keys, PhiLists(e.defs))
    ensures Olds(EmitAll(e, ts).0.newops, e.nextOp) == Olds(e.newops, e.nextOp)
    decreases ts, 0
  {
    if ts != [] {
      EmitOrder(e, ts[0]);
      var e1 := Emit(e, ts[0]).0;
      assert forall i | 0 <= i < |ts[1..]| :: ts[1..][i] == ts[i + 1];
      EmitAllOrder(e1, ts[1..]);
      var e2 := EmitAll(e1, ts[1..]).0;
      OldsOlds(e2.newops, e.nextOp, e1.nextOp);
      OldsOlds(e1.newops, e.nextOp, e1.nextOp);
    }
  }

  // ---------------------------------------------------------------------
  // One block

  /**
   * The optimizer's state: the arena, the replacements made so far, whether
   * an operation was removed and whether a conditional jump was folded.
   */
  datatype OptState = OptState(blocks: map<BlockId, Block>, defs: map<OpId, Def>, nextOp: nat,
                               repl: map<Value, Value>, removed: bool, dead: bool)

  /**
   * What stays fixed during a run: the anticipated casts of every block, the
   * code generator's builtin names, the graph's loop flag, `do_double_casts`,
   * the runtime library and its constant folder.
   */
  datatype Config = Config(anticipated: map<BlockId, set<CastTo>>, builtins: map<string, string>, hasLoop: bool,
                           doubleCasts: bool, lib: Library, fold: (string, seq<Constant>, Type) -> Option<Constant>)

  /** What the rules see while block `b` is rewritten. */
  function CtxAt(s: OptState, cfg: Config, b: BlockId): Ctx
  {
    Ctx(s.blocks, s.defs, b, if b in cfg.anticipated then cfg.anticipated[b] else {}, s.repl,
        cfg.builtins, cfg.hasLoop, cfg.doubleCasts)
  }

  /** The same blocks with the same terminators. */
  ghost predicate SameJumps(b1: map<BlockId, Block>, b2: map<BlockId, Block>)
  {
    b1.Keys == b2.Keys && forall b | b in b1 :: b2[b].next == b1[b].next
  }

  /**
   * `optimize_block`, one operation: a kept operation goes to the new list, a
   * removed one only marks the change, and a rewritten one is emitted and
   * recorded as replaced by the new value, which must have the operation's
   * type.
   */
  function OptimizeStep(s: OptState, newops: seq<OpId>, cfg: Config, b: BlockId, o: OpId)
    : (r: Result<(OptState, seq<OpId>)>)
    requires Below(s.defs, s.nextOp)
    ensures r.Ok? ==> Below(r.value.0.defs, r.value.0.nextOp) && SameJumps(s.blocks, r.value.0.blocks)
    ensures r.Ok? ==> s.repl.Keys <= r.value.0.repl.Keys && (s.removed ==> r.value.0.removed) && r.value.0.dead == s.dead
    ensures r.Ok? && !r.value.0.removed && r.value.0.repl == map[] ==> r.value == (s, newops + [o])
  {
    var rw := OptimizeOp(CtxAt(s, cfg, b), o, cfg.lib, cfg.fold);
    if rw.Failure? then Failure(rw.msg)
    else match rw.value
      case Keep => Ok((s, newops + [o]))
      case Remove => Ok((s.(removed := true), newops))
      case ReplaceBy(t) => Replace(s, newops, o, t, s.defs[o].typ)
  }

  /** The rewritten operation `o` goes: its term is emitted and `o` is recorded as replaced by the term's value. */
  function Replace(s: OptState, newops: seq<OpId>, o: OpId, t: Term, typ: Type): (r: Result<(OptState, seq<OpId>)>)
    requires Below(s.defs, s.nextOp) && TermOk(t, s.blocks.Keys, PhiLists(s.defs))
    ensures r.Ok? ==> Below(r.value.0.defs, r.value.0.nextOp) && SameJumps(s.blocks, r.value.0.blocks)
    ensures r.Ok? ==> r.value.0.repl.Keys == s.repl.Keys + {OpRef(o)} && r.value.0.removed == s.removed && r.value.0.dead == s.dead
    ensures r.Ok? <==> TermType(s.defs, t) == typ
    ensures r.Ok? ==> ValueType(r.value.0.defs, r.value.0.repl[OpRef(o)]) == typ
  {
    var (e, v) := Emit(Emitting(s.blocks, s.defs, s.nextOp, newops), t);
    if ValueType(e.defs, v) != typ then Failure("rewritten operation changes its type")
    else Ok((OptState(e.blocks, e.defs, e.nextOp, s.repl[OpRef(o) := v], s.removed, s.dead), e.newops))
  }

  /** The operations `ops` of block `b`, rewritten one after the other: the new state and the new operation list. */
  function OptimizeOps(s: OptState, cfg: Config, b: BlockId, ops: seq<OpId>): (r: Result<(OptState, seq<OpId>)>)
    requires Below(s.defs, s.nextOp)
    ensures r.Ok? ==> Below(r.value.0.defs, r.value.0.nextOp) && SameJumps(s.blocks, r.value.0.blocks)
    ensures r.Ok? ==> s.repl.Keys <= r.value.0.repl.Keys && (s.removed ==> r.value.0.removed) && r.value.0.dead == s.dead
    decreases |ops|
  {
    if ops == [] then Ok((s, []))
    else
      var w := OptimizeOps(s, cfg, b, ops[..|ops| - 1]);
      if w.Failure? then w else OptimizeStep(w.value.0, w.value.1, cfg, b, ops[|ops| - 1])
  }

  /** The condition of a conditional jump, followed through the replacements, is a boolean constant. */
  predicate Folds(n: Next, repl: map<Value, Value>)
  {
    n.ConditionalGoto? && GetReplacement(repl, n.cond).Const? && GetReplacement(repl, n.cond).c.BooleanConstant?
  }

  /** A conditional jump on a constant becomes a jump to the target the constant picks; other terminators stay. */
  function FoldJump(n: Next, repl: map<Value, Value>): (r: Next)
    ensures forall x | x in NextBlocks(r) :: x in NextBlocks(n)
    ensures !Folds(n, repl) ==> r == n
    ensures Folds(n, repl) ==> r.Goto? && r.target == (if GetReplacement(repl, n.cond).c.b then n.truetarget else n.falsetarget)
  {
    if Folds(n, repl) then Goto(if GetReplacement(repl, n.cond).c.b then n.truetarget else n.falsetarget) else n
  }

  /** The end of `optimize_block`: the terminator is folded and the block gets the new operation list. */
  function FinishBlock(s: OptState, b: BlockId, newops: seq<OpId>): OptState
    requires b in s.blocks
  {
    var n := s.blocks[b].next;
    s.(blocks := s.blocks[b := Block(newops, FoldJump(n, s.repl))], dead := s.dead || Folds(n, s.repl))
  }

  /** `optimize_block`. */
  function OptimizeBlock(s: OptState, cfg: Config, b: BlockId): (r: Result<OptState>)
    requires SuccClosed(s.blocks) && Below(s.defs, s.nextOp) && b in s.blocks
    ensures r.Ok? ==> SuccClosed(r.value.blocks) && Below(r.value.defs, r.value.nextOp) && r.value.blocks.Keys == s.blocks.Keys
    ensures r.Ok? ==> s.repl.Keys <= r.value.repl.Keys && (s.removed ==> r.value.removed) && (s.dead ==> r.value.dead)
  {
    var w := OptimizeOps(s, cfg, b, s.blocks[b].ops);
    if w.Failure? then Failure(w.msg)
    else
      FinishClosed(w.value.0, b, w.value.1);
      Ok(FinishBlock(w.value.0, b, w.value.1))
  }

  /** Folding a jump keeps only targets it had. */
  lemma FinishClosed(s: OptState, b: BlockId, newops: seq<OpId>)
    requires SuccClosed(s.blocks) && b in s.blocks
    ensures SuccClosed(FinishBlock(s, b, newops).blocks)
  {
    var r := FinishBlock(s, b, newops);
    forall c | c in r.blocks ensures forall x | x in NextBlocks(r.blocks[c].next) :: x in r.blocks {
      assert forall x | x in NextBlocks(r.blocks[c].next) :: x in NextBlocks(s.blocks[c].next);
    }
  }

  /**
   * `BaseOptimizer.optimize`, the walk: blocks are taken in `iterblocks`
   * order, each one rewritten before its successors are pushed, so a folded
   * jump is followed to the target it kept.
   */
  ghost function OptimizeWalk(s: OptState, cfg: Config, todo: seq<BlockId>, seen: set<BlockId>): (r: Result<OptState>)
    requires SuccClosed(s.blocks) && Below(s.defs, s.nextOp) && forall t | t in todo :: t in s.blocks
    ensures r.Ok? ==> SuccClosed(r.value.blocks) && Below(r.value.defs, r.value.nextOp) && r.value.blocks.Keys == s.blocks.Keys
    ensures r.Ok? ==> s.repl.Keys <= r.value.repl.Keys && (s.removed ==> r.value.removed) && (s.dead ==> r.value.dead)
    decreases |s.blocks.Keys - seen|, |todo|
  {
    if todo == [] then Ok(s)
    else
      var b := todo[|todo| - 1];
      var rest := todo[..|todo| - 1];
      if b in seen then OptimizeWalk(s, cfg, rest, seen)
      else
        var w := OptimizeBlock(s, cfg, b);
        if w.Failure? then w
        else
          CardRemove(w.value.blocks.Keys, seen, b);
          OptimizeWalk(w.value, cfg, rest + Succ(w.value.blocks, b), seen + {b})
  }

  // ---------------------------------------------------------------------
  // What the walk keeps

  /**
   * Between blocks: the arena is well formed, no operation sits twice, and
   * every replaced operation has an older slot and has left every block.
   */
  ghost predicate Sound(s: OptState, nb: nat)
  {
    Arena(s.blocks, s.defs, nb, s.nextOp) && UniqueOps(s.blocks) &&
    forall k | k in s.repl :: k.OpRef? && k.id < s.nextOp && forall c | c in s.blocks :: k.id !in s.blocks[c].ops
  }

  /** Operation `x` of the old list is gone: replaced, or a `NonSSAAssignment`, which the rules remove. */
  ghost predicate Dropped(s0: OptState, s: OptState, x: OpId)
  {
    OpRef(x) in s.repl || (x in s0.defs && s0.defs[x].Op? && s0.defs[x].kind == NonSSAAssignment)
  }

  /**
   * Within block `b` of `s0`, after its first `i` operations: the arena is
   * still well formed, the new list holds processed or new operations, the
   * processed ones in their old order, every processed operation is in the
   * new list or dropped, and no replaced operation is in the new list.
   */
  ghost predicate Midway(s0: OptState, nb: nat, b: BlockId, i: nat, s: OptState, newops: seq<OpId>)
  {
    MidArena(s0, nb, s) && MidList(s0, b, i, s, newops) && MidOrder(s0, b, i, newops) &&
    MidDone(s0, b, i, s, newops) && MidKeys(s0, b, i, s, newops)
  }

  /** The arena is well formed, the jumps are the old ones, blocks hold old or new slots, and old slots keep their contents. */
  ghost predicate MidArena(s0: OptState, nb: nat, s: OptState)
  {
    Arena(s.blocks, s.defs, nb, s.nextOp) && UniqueOps(s.blocks) && SameJumps(s0.blocks, s.blocks) &&
    s0.nextOp <= s.nextOp && s0.dead == s.dead &&
    (forall c, x | c in s.blocks && x in s.blocks[c].ops :: x in s0.blocks[c].ops || x >= s0.nextOp) &&
    (forall o | o in s0.defs :: o in s.defs && s.defs[o] == s0.defs[o])
  }

  /** The new list has no repeats and holds processed operations or new ones that no block holds. */
  ghost predicate MidList(s0: OptState, b: BlockId, i: nat, s: OptState, newops: seq<OpId>)
  {
    b in s0.blocks && i <= |s0.blocks[b].ops| && Distinct(newops) &&
    forall x | x in newops :: x in s.defs && (x in s0.blocks[b].ops[..i] || (x >= s0.nextOp && forall c | c in s.blocks :: x !in s.blocks[c].ops))
  }

  /** The old operations of the new list are in their old order. */
  ghost predicate MidOrder(s0: OptState, b: BlockId, i: nat, newops: seq<OpId>)
  {
    b in s0.blocks && i <= |s0.blocks[b].ops| &&
    Olds(newops, s0.nextOp) == Filter(s0.blocks[b].ops[..i], SetOf(newops))
  }

  /** Every processed operation is in the new list or dropped, and no old operation of the new list is a `NonSSAAssignment`. */
  ghost predicate MidDone(s0: OptState, b: BlockId, i: nat, s: OptState, newops: seq<OpId>)
  {
    b in s0.blocks && i <= |s0.blocks[b].ops| &&
    (forall j | 0 <= j < i :: s0.blocks[b].ops[j] in newops || Dropped(s0, s, s0.blocks[b].ops[j])) &&
    forall x | x in newops && x in s0.defs :: !(s0.defs[x].Op? && s0.defs[x].kind == NonSSAAssignment)
  }

  /** A replaced operation is old, not in the new list, and was replaced before or in this block. */
  ghost predicate MidKeys(s0: OptState, b: BlockId, i: nat, s: OptState, newops: seq<OpId>)
  {
    b in s0.blocks && i <= |s0.blocks[b].ops| &&
    forall k | k in s.repl :: k.OpRef? && k.id < s0.nextOp && k.id !in newops && (k in s0.repl || k.id in s0.blocks[b].ops[..i])
  }

  lemma MidwayStart(s0: OptState, nb: nat, b: BlockId)
    requires Sound(s0, nb) && b in s0.blocks
    ensures Midway(s0, nb, b, 0, s0, [])
  {
    assert s0.blocks[b].ops[..0] == [];
  }

  /** The next operation of the block is old, unprocessed, not in the new list and not replaced. */
  lemma NextOld(s0: OptState, nb: nat, b: BlockId, i: nat, s: OptState, newops: seq<OpId>)
    requires Sound(s0, nb) && MidList(s0, b, i, s, newops) && MidKeys(s0, b, i, s, newops) && i < |s0.blocks[b].ops|
    ensures var o := s0.blocks[b].ops[i];
      o in s0.defs && o < s0.nextOp && o !in s0.blocks[b].ops[..i] && o !in newops && OpRef(o) !in s.repl
  {
    var ops := s0.blocks[b].ops;
    var o := ops[i];
    assert o in ops;
    assert o !in ops[..i] by {
      forall j | 0 <= j < i ensures ops[..i][j] != o { assert ops[j] != ops[i]; }
    }
    forall k | k in s.repl ensures k != OpRef(o) {
      if k in s0.repl {
        assert k.id !in s0.blocks[b].ops;
      }
    }
  }

  lemma DistinctSnoc(ns: seq<OpId>, x: OpId)
    requires Distinct(ns) && x !in ns
    ensures Distinct(ns + [x])
  {
    var ns' := ns + [x];
    forall p, q | 0 <= p < q < |ns'| ensures ns'[p] != ns'[q] {
      if q < |ns| {
        assert ns'[p] == ns[p] && ns'[q] == ns[q];
      } else {
        assert ns'[p] in ns;
      }
    }
  }

  /** An operation the rules keep goes to the end of the new list. */
  lemma KeepMidway(s0: OptState, nb: nat, b: BlockId, i: nat, s: OptState, newops: seq<OpId>)
    requires Sound(s0, nb) && Midway(s0, nb, b, i, s, newops) && i < |s0.blocks[b].ops|
    requires var o := s0.blocks[b].ops[i]; o in s0.defs ==> !(s0.defs[o].Op? && s0.defs[o].kind == NonSSAAssignment)
    ensures Midway(s0, nb, b, i + 1, s, newops + [s0.blocks[b].ops[i]])
  {
    var ops := s0.blocks[b].ops;
    var o := ops[i];
    NextOld(s0, nb, b, i, s, newops);
    KeepList(s0, b, i, s, newops);
    KeepOrder(s0, b, i, newops);
    KeepDone(s0, b, i, s, newops);
    KeepKeys(s0, b, i, s, newops);
  }

  lemma KeepList(s0: OptState, b: BlockId, i: nat, s: OptState, newops: seq<OpId>)
    requires MidList(s0, b, i, s, newops) && i < |s0.blocks[b].ops|
    requires var o := s0.blocks[b].ops[i]; o in s.defs && o !in newops
    ensures MidList(s0, b, i + 1, s, newops + [s0.blocks[b].ops[i]])
  {
    var ops := s0.blocks[b].ops;
    assert ops[..i + 1] == ops[..i] + [ops[i]];
    DistinctSnoc(newops, ops[i]);
  }

  lemma KeepOrder(s0: OptState, b: BlockId, i: nat, newops: seq<OpId>)
    requires MidOrder(s0, b, i, newops) && i < |s0.blocks[b].ops|
    requires var o := s0.blocks[b].ops[i]; o < s0.nextOp && o !in s0.blocks[b].ops[..i]
    ensures MidOrder(s0, b, i + 1, newops + [s0.blocks[b].ops[i]])
  {
    var ops := s0.blocks[b].ops;
    var o := ops[i];
    var ns := newops + [o];
    assert ops[..i + 1] == ops[..i] + [o];
    OldsSnoc(newops, o, s0.nextOp);
    FilterSnoc(ops[..i], o, SetOf(ns));
    FilterSame(ops[..i], SetOf(ns), SetOf(newops));
  }

  lemma KeepDone(s0: OptState, b: BlockId, i: nat, s: OptState, newops: seq<OpId>)
    requires MidDone(s0, b, i, s, newops) && i < |s0.blocks[b].ops|
    requires var o := s0.blocks[b].ops[i]; o in s0.defs ==> !(s0.defs[o].Op? && s0.defs[o].kind == NonSSAAssignment)
    ensures MidDone(s0, b, i + 1, s, newops + [s0.blocks[b].ops[i]])
  {
  }

  lemma KeepKeys(s0: OptState, b: BlockId, i: nat, s: OptState, newops: seq<OpId>)
    requires MidKeys(s0, b, i, s, newops) && i < |s0.blocks[b].ops| && OpRef(s0.blocks[b].ops[i]) !in s.repl
    ensures MidKeys(s0, b, i + 1, s, newops + [s0.blocks[b].ops[i]])
  {
    var ops := s0.blocks[b].ops;
    assert ops[..i + 1] == ops[..i] + [ops[i]];
    forall k | k in s.repl ensures k.id != ops[i] {
      assert k != OpRef(ops[i]);
    }
  }

  /** A removed operation only leaves the list. */
  lemma RemoveMidway(s0: OptState, nb: nat, b: BlockId, i: nat, s: OptState, newops: seq<OpId>)
    requires Sound(s0, nb) && Midway(s0, nb, b, i, s, newops) && i < |s0.blocks[b].ops|
    requires s.defs[s0.blocks[b].ops[i]].Op? && s.defs[s0.blocks[b].ops[i]].kind == NonSSAAssignment
    ensures Midway(s0, nb, b, i + 1, s.(removed := true), newops)
  {
    var ops := s0.blocks[b].ops;
    var o := ops[i];
    NextOld(s0, nb, b, i, s, newops);
    assert ops[..i + 1] == ops[..i] + [o];
    RemoveList(s0, b, i, s, newops);
    FilterSnoc(ops[..i], o, SetOf(newops));
    RemoveDone(s0, b, i, s, newops);
    RemoveKeys(s0, b, i, s, newops);
  }

  lemma RemoveList(s0: OptState, b: BlockId, i: nat, s: OptState, newops: seq<OpId>)
    requires MidList(s0, b, i, s, newops) && i < |s0.blocks[b].ops|
    ensures MidList(s0, b, i + 1, s.(removed := true), newops)
  {
    var ops := s0.blocks[b].ops;
    forall x | x in ops[..i] ensures x in ops[..i + 1] {
      var j :| 0 <= j < i && ops[..i][j] == x;
      assert ops[..i + 1][j] == x;
    }
  }

  lemma RemoveDone(s0: OptState, b: BlockId, i: nat, s: OptState, newops: seq<OpId>)
    requires MidDone(s0, b, i, s, newops) && i < |s0.blocks[b].ops|
    requires s0.blocks[b].ops[i] in s0.defs && s0.blocks[b].ops[i] in s.defs && s.defs[s0.blocks[b].ops[i]] == s0.defs[s0.blocks[b].ops[i]]
    requires s.defs[s0.blocks[b].ops[i]].Op? && s.defs[s0.blocks[b].ops[i]].kind == NonSSAAssignment
    ensures MidDone(s0, b, i + 1, s.(removed := true), newops)
  {
    assert Dropped(s0, s.(removed := true), s0.blocks[b].ops[i]);
  }

  lemma RemoveKeys(s0: OptState, b: BlockId, i: nat, s: OptState, newops: seq<OpId>)
    requires MidKeys(s0, b, i, s, newops) && i < |s0.blocks[b].ops|
    ensures MidKeys(s0, b, i + 1, s.(removed := true), newops)
  {
    var ops := s0.blocks[b].ops;
    forall x | x in ops[..i] ensures x in ops[..i + 1] {
      var j :| 0 <= j < i && ops[..i][j] == x;
      assert ops[..i + 1][j] == x;
    }
  }

  /** Phis whose input-block lists are lists already in use name only blocks below the counter. */
  lemma PhisBelowLists(d1: map<OpId, Def>, d2: map<OpId, Def>, nb: nat)
    requires PhisBelow(d1, nb) && PhiLists(d2) == PhiLists(d1)
    ensures PhisBelow(d2, nb)
  {
    forall o | o in d2 && d2[o].Phi? ensures forall pb | pb in d2[o].prevblocks :: pb < nb {
      assert d2[o].prevblocks in PhiLists(d1);
      var o' :| o' in d1 && d1[o'].Phi? && d1[o'].prevblocks == d2[o].prevblocks;
    }
  }

  /** A rewritten operation: the emitted operations join the new list or their home blocks, and the operation is replaced. */
  lemma ReplaceMidway(s0: OptState, nb: nat, b: BlockId, i: nat, s: OptState, newops: seq<OpId>, t: Term, typ: Type)
    requires Sound(s0, nb) && Midway(s0, nb, b, i, s, newops) && i < |s0.blocks[b].ops|
    requires TermOk(t, s.blocks.Keys, PhiLists(s.defs))
    requires Replace(s, newops, s0.blocks[b].ops[i], t, typ).Ok?
    ensures var w := Replace(s, newops, s0.blocks[b].ops[i], t, typ).value;
      Midway(s0, nb, b, i + 1, w.0, w.1)
  {
    var o := s0.blocks[b].ops[i];
    NextOld(s0, nb, b, i, s, newops);
    var e0 := Emitting(s.blocks, s.defs, s.nextOp, newops);
    ReplaceSetup(s0, nb, b, i, s, newops, t);
    var (e, v) := Emit(e0, t);
    var s' := OptState(e.blocks, e.defs, e.nextOp, s.repl[OpRef(o) := v], s.removed, s.dead);
    assert Replace(s, newops, o, t, typ) == Ok((s', e.newops));
    ReplaceArena(s0, nb, s, e0, e, s');
    ReplaceList(s0, b, i, s, newops, e, s');
    ReplaceOrder(s0, b, i, s, newops, e);
    ReplaceDone(s0, b, i, s, newops, e, s');
    ReplaceKeys(s0, b, i, s, newops, e, s', v);
  }

  /** What emitting the term of a rewritten operation keeps. */
  lemma ReplaceSetup(s0: OptState, nb: nat, b: BlockId, i: nat, s: OptState, newops: seq<OpId>, t: Term)
    requires Sound(s0, nb) && MidArena(s0, nb, s) && MidList(s0, b, i, s, newops)
    requires TermOk(t, s.blocks.Keys, PhiLists(s.defs))
    ensures var e0 := Emitting(s.blocks, s.defs, s.nextOp, newops);
      var e := Emit(e0, t).0;
      Placed(e, s0.nextOp) && Grows(e0, e) && PhisBelow(e.defs, nb) &&
      Olds(e.newops, s.nextOp) == Olds(newops, s.nextOp)
  {
    var e0 := Emitting(s.blocks, s.defs, s.nextOp, newops);
    assert Placed(e0, s0.nextOp);
    EmitPlaced(e0, t, s0.nextOp);
    EmitOrder(e0, t);
    PhisBelowLists(s.defs, Emit(e0, t).0.defs, nb);
  }

  lemma ReplaceArena(s0: OptState, nb: nat, s: OptState, e0: Emitting, e: Emitting, s': OptState)
    requires MidArena(s0, nb, s) && e0 == Emitting(s.blocks, s.defs, s.nextOp, e0.newops)
    requires Placed(e, s0.nextOp) && Grows(e0, e) && PhisBelow(e.defs, nb)
    requires s'.blocks == e.blocks && s'.defs == e.defs && s'.nextOp == e.nextOp && s'.dead == s.dead
    ensures MidArena(s0, nb, s')
  {
  }

  lemma ReplaceList(s0: OptState, b: BlockId, i: nat, s: OptState, newops: seq<OpId>, e: Emitting, s': OptState)
    requires MidList(s0, b, i, s, newops) && i < |s0.blocks[b].ops| && s0.nextOp <= s.nextOp
    requires Placed(e, s0.nextOp) && Grows(Emitting(s.blocks, s.defs, s.nextOp, newops), e)
    requires s'.blocks == e.blocks && s'.defs == e.defs
    ensures MidList(s0, b, i + 1, s', e.newops)
  {
    var ops := s0.blocks[b].ops;
    assert ops[..i + 1] == ops[..i] + [ops[i]];
    forall x | x in e.newops && x < s0.nextOp ensures x in ops[..i + 1] {
      assert x in newops;
    }
  }

  lemma ReplaceOrder(s0: OptState, b: BlockId, i: nat, s: OptState, newops: seq<OpId>, e: Emitting)
    requires MidOrder(s0, b, i, newops) && i < |s0.blocks[b].ops| && s0.nextOp <= s.nextOp
    requires Olds(e.newops, s.nextOp) == Olds(newops, s.nextOp)
    requires var o := s0.blocks[b].ops[i]; o < s0.nextOp && o !in newops && o !in s0.blocks[b].ops[..i]
    requires forall x | x in s0.blocks[b].ops :: x < s0.nextOp
    ensures MidOrder(s0, b, i + 1, e.newops)
  {
    var ops := s0.blocks[b].ops;
    var o := ops[i];
    assert ops[..i + 1] == ops[..i] + [o];
    OldsOlds(e.newops, s0.nextOp, s.nextOp);
    OldsOlds(newops, s0.nextOp, s.nextOp);
    assert o !in e.newops by {
      assert o in Olds(e.newops, s.nextOp) <==> o in Olds(newops, s.nextOp);
    }
    FilterSnoc(ops[..i], o, SetOf(e.newops));
    forall x | x in ops[..i] ensures x in SetOf(e.newops) <==> x in SetOf(newops) {
      assert x in ops && x < s.nextOp;
      assert x in Olds(e.newops, s.nextOp) <==> x in Olds(newops, s.nextOp);
    }
    FilterSame(ops[..i], SetOf(e.newops), SetOf(newops));
  }

  lemma ReplaceDone(s0: OptState, b: BlockId, i: nat, s: OptState, newops: seq<OpId>, e: Emitting, s': OptState)
    requires MidDone(s0, b, i, s, newops) && i < |s0.blocks[b].ops| && Below(s.defs, s.nextOp)
    requires forall x | x in newops :: x in s.defs
    requires Olds(e.newops, s.nextOp) == Olds(newops, s.nextOp) && s0.nextOp <= s.nextOp && Below(s0.defs, s0.nextOp)
    requires s.repl.Keys <= s'.repl.Keys && OpRef(s0.blocks[b].ops[i]) in s'.repl
    ensures MidDone(s0, b, i + 1, s', e.newops)
  {
    forall x | x in e.newops && x in s0.defs ensures x in newops {
      assert x in Olds(e.newops, s.nextOp);
    }
    forall x | x in newops ensures x in e.newops {
      assert x in Olds(newops, s.nextOp);
    }
  }

  lemma ReplaceKeys(s0: OptState, b: BlockId, i: nat, s: OptState, newops: seq<OpId>, e: Emitting, s': OptState, v: Value)
    requires MidKeys(s0, b, i, s, newops) && i < |s0.blocks[b].ops| && s0.nextOp <= s.nextOp
    requires var o := s0.blocks[b].ops[i]; o < s0.nextOp && o !in newops
    requires Olds(e.newops, s.nextOp) == Olds(newops, s.nextOp)
    requires s'.repl == s.repl[OpRef(s0.blocks[b].ops[i]) := v]
    ensures MidKeys(s0, b, i + 1, s', e.newops)
  {
    var ops := s0.blocks[b].ops;
    var o := ops[i];
    assert ops[..i + 1] == ops[..i] + [o];
    forall k | k in s'.repl ensures k.OpRef? && k.id < s0.nextOp && k.id !in e.newops && (k in s0.repl || k.id in ops[..i + 1]) {
      if k == OpRef(o) {
        assert o !in Olds(newops, s.nextOp);
      } else {
        assert k in s.repl;
        assert k.id !in Olds(newops, s.nextOp);
      }
    }
  }

  /** One operation of the block, whatever the rules make of it. */
  lemma StepMidway(s0: OptState, nb: nat, cfg: Config, b: BlockId, i: nat, s: OptState, newops: seq<OpId>)
    requires Sound(s0, nb) && Midway(s0, nb, b, i, s, newops) && i < |s0.blocks[b].ops|
    requires OptimizeStep(s, newops, cfg, b, s0.blocks[b].ops[i]).Ok?
    ensures var w := OptimizeStep(s, newops, cfg, b, s0.blocks[b].ops[i]).value;
      Midway(s0, nb, b, i + 1, w.0, w.1)
  {
    var o := s0.blocks[b].ops[i];
    var rw := OptimizeOp(CtxAt(s, cfg, b), o, cfg.lib, cfg.fold);
    if rw.value.Keep? {
      assert OptimizeStep(s, newops, cfg, b, o) == Ok((s, newops + [o]));
      KeepMidway(s0, nb, b, i, s, newops);
    } else if rw.value.Remove? {
      assert OptimizeStep(s, newops, cfg, b, o) == Ok((s.(removed := true), newops));
      RemoveMidway(s0, nb, b, i, s, newops);
    } else {
      var t := rw.value.t;
      assert OptimizeStep(s, newops, cfg, b, o) == Replace(s, newops, o, t, s.defs[o].typ);
      ReplaceMidway(s0, nb, b, i, s, newops, t, s.defs[o].typ);
    }
  }

  lemma {:induction false} OpsMidway(s0: OptState, nb: nat, cfg: Config, b: BlockId, i: nat)
    requires Sound(s0, nb) && b in s0.blocks && i <= |s0.blocks[b].ops|
    requires OptimizeOps(s0, cfg, b, s0.blocks[b].ops[..i]).Ok?
    ensures var w := OptimizeOps(s0, cfg, b, s0.blocks[b].ops[..i]).value;
      Midway(s0, nb, b, i, w.0, w.1)
    decreases i
  {
    if i == 0 {
      MidwayStart(s0, nb, b);
      assert s0.blocks[b].ops[..0] == [];
    } else {
      PrefixOk(s0, cfg, b, i);
      OpsMidway(s0, nb, cfg, b, i - 1);
      PrefixMidway(s0, nb, cfg, b, i);
    }
  }

  /** A rewrite of the first `i` operations that succeeds is preceded by one of the first `i - 1` that succeeds. */
  lemma PrefixOk(s0: OptState, cfg: Config, b: BlockId, i: nat)
    requires Below(s0.defs, s0.nextOp) && b in s0.blocks && 0 < i <= |s0.blocks[b].ops|
    requires OptimizeOps(s0, cfg, b, s0.blocks[b].ops[..i]).Ok?
    ensures OptimizeOps(s0, cfg, b, s0.blocks[b].ops[..i - 1]).Ok?
  {
    OpsSnoc(s0, cfg, b, s0.blocks[b].ops, i);
  }

  /** The midway state after `i - 1` operations, advanced by the `i`-th. */
  lemma PrefixMidway(s0: OptState, nb: nat, cfg: Config, b: BlockId, i: nat)
    requires Sound(s0, nb) && b in s0.blocks && 0 < i <= |s0.blocks[b].ops|
    requires OptimizeOps(s0, cfg, b, s0.blocks[b].ops[..i - 1]).Ok?
    requires var w := OptimizeOps(s0, cfg, b, s0.blocks[b].ops[..i - 1]).value;
      Midway(s0, nb, b, i - 1, w.0, w.1)
    requires OptimizeOps(s0, cfg, b, s0.blocks[b].ops[..i]).Ok?
    ensures var w := OptimizeOps(s0, cfg, b, s0.blocks[b].ops[..i]).value;
      Midway(s0, nb, b, i, w.0, w.1)
  {
    var ops := s0.blocks[b].ops;
    OpsSnoc(s0, cfg, b, ops, i);
    var w := OptimizeOps(s0, cfg, b, ops[..i - 1]).value;
    assert OptimizeOps(s0, cfg, b, ops[..i]) == OptimizeStep(w.0, w.1, cfg, b, ops[i - 1]);
    StepMidway(s0, nb, cfg, b, i - 1, w.0, w.1);
  }

  /** The rewrite of the first `i` operations is that of the first `i - 1` and one more step. */
  lemma OpsSnoc(s: OptState, cfg: Config, b: BlockId, ops: seq<OpId>, i: nat)
    requires Below(s.defs, s.nextOp) && 0 < i <= |ops|
    ensures var w := OptimizeOps(s, cfg, b, ops[..i - 1]);
      OptimizeOps(s, cfg, b, ops[..i]) == if w.Failure? then w else OptimizeStep(w.value.0, w.value.1, cfg, b, ops[i - 1])
  {
    var p := ops[..i];
    assert p[..|p| - 1] == ops[..i - 1] && p[|p| - 1] == ops[i - 1];
  }

  /** The end of the block: the new list becomes the block's operations and the state is sound again. */
  lemma FinishSound(s0: OptState, nb: nat, b: BlockId, s: OptState, newops: seq<OpId>)
    requires Sound(s0, nb) && b in s0.blocks && Midway(s0, nb, b, |s0.blocks[b].ops|, s, newops)
    ensures Sound(FinishBlock(s, b, newops), nb)
  {
    FinishArena(s0, nb, b, s, newops);
    FinishUnique(s0, nb, b, s, newops);
    FinishKeys(s0, nb, b, s, newops);
  }

  lemma FinishArena(s0: OptState, nb: nat, b: BlockId, s: OptState, newops: seq<OpId>)
    requires MidArena(s0, nb, s) && b in s.blocks && forall x | x in newops :: x in s.defs
    ensures Arena(FinishBlock(s, b, newops).blocks, s.defs, nb, s.nextOp)
  {
    var r := FinishBlock(s, b, newops);
    forall c | c in r.blocks ensures forall x | x in NextBlocks(r.blocks[c].next) :: x in r.blocks {
      assert forall x | x in NextBlocks(r.blocks[c].next) :: x in NextBlocks(s.blocks[c].next);
    }
  }

  lemma FinishUnique(s0: OptState, nb: nat, b: BlockId, s: OptState, newops: seq<OpId>)
    requires Sound(s0, nb) && b in s0.blocks && MidList(s0, b, |s0.blocks[b].ops|, s, newops) && MidArena(s0, nb, s)
    ensures UniqueOps(FinishBlock(s, b, newops).blocks)
  {
    var ops := s0.blocks[b].ops;
    var r := FinishBlock(s, b, newops);
    forall c1, c2, x | c1 in r.blocks && c2 in r.blocks && x in r.blocks[c1].ops && x in r.blocks[c2].ops
      ensures c1 == c2
    {
      if c1 != b && c2 != b {
        assert x in s.blocks[c1].ops && x in s.blocks[c2].ops;
      } else if c1 == b && c2 != b {
        NewNotElsewhere(s0, nb, b, s, newops, x, c2, ops);
      } else if c1 != b && c2 == b {
        NewNotElsewhere(s0, nb, b, s, newops, x, c1, ops);
      }
    }
  }

  lemma FinishKeys(s0: OptState, nb: nat, b: BlockId, s: OptState, newops: seq<OpId>)
    requires Sound(s0, nb) && b in s0.blocks && MidKeys(s0, b, |s0.blocks[b].ops|, s, newops) && MidArena(s0, nb, s)
    ensures var r := FinishBlock(s, b, newops);
      forall k | k in r.repl :: k.OpRef? && k.id < r.nextOp && forall c | c in r.blocks :: k.id !in r.blocks[c].ops
  {
    var ops := s0.blocks[b].ops;
    var r := FinishBlock(s, b, newops);
    forall k | k in r.repl ensures forall c | c in r.blocks :: k.id !in r.blocks[c].ops {
      forall c | c in r.blocks ensures k.id !in r.blocks[c].ops {
        if c != b {
          KeyNotElsewhere(s0, nb, b, s, newops, k, c, ops);
        }
      }
    }
  }

  /** An operation of the new list sits in no other block. */
  lemma NewNotElsewhere(s0: OptState, nb: nat, b: BlockId, s: OptState, newops: seq<OpId>, x: OpId, c: BlockId, ops: seq<OpId>)
    requires b in s0.blocks && ops == s0.blocks[b].ops && Sound(s0, nb)
    requires MidList(s0, b, |ops|, s, newops) && MidArena(s0, nb, s)
    requires x in newops && c in s.blocks && c != b
    ensures x !in s.blocks[c].ops
  {
    assert ops[..|ops|] == ops;
    if x in ops {
      assert x !in s0.blocks[c].ops;
    }
  }

  /** A replaced operation sits in no block other than the current one. */
  lemma KeyNotElsewhere(s0: OptState, nb: nat, b: BlockId, s: OptState, newops: seq<OpId>, k: Value, c: BlockId, ops: seq<OpId>)
    requires b in s0.blocks && ops == s0.blocks[b].ops && Sound(s0, nb)
    requires MidKeys(s0, b, |ops|, s, newops) && MidArena(s0, nb, s)
    requires k in s.repl && c in s.blocks && c != b
    ensures k.id !in s.blocks[c].ops
  {
    assert ops[..|ops|] == ops;
    assert k.id !in s0.blocks[c].ops;
  }

  /**
   * `optimize_block` on a sound state keeps exactly the operations of the
   * block that are neither replaced nor removed, in their old order, besides
   * the new operations the rules built.
   */
  lemma BlockKeeps(s: OptState, nb: nat, cfg: Config, b: BlockId)
    requires Sound(s, nb) && b in s.blocks && OptimizeBlock(s, cfg, b).Ok?
    ensures var r := OptimizeBlock(s, cfg, b).value;
      Olds(r.blocks[b].ops, s.nextOp) == Filter(s.blocks[b].ops, SetOf(r.blocks[b].ops)) &&
      forall x | x in s.blocks[b].ops :: x in r.blocks[b].ops <==> !Dropped(s, r, x)
  {
    var ops := s.blocks[b].ops;
    assert ops[..|ops|] == ops;
    OpsMidway(s, nb, cfg, b, |ops|);
    var w := OptimizeOps(s, cfg, b, ops).value;
    MidwayEnd(s, nb, b, w.0, w.1);
  }

  /**
   * `optimize_block` folds the block's conditional jump when its condition,
   * after the replacements, is a boolean constant, and then marks dead
   * blocks; it changes no other terminator.
   */
  lemma BlockJumps(s: OptState, cfg: Config, b: BlockId)
    requires SuccClosed(s.blocks) && Below(s.defs, s.nextOp) && b in s.blocks && OptimizeBlock(s, cfg, b).Ok?
    ensures var r := OptimizeBlock(s, cfg, b).value;
      r.blocks[b].next == FoldJump(s.blocks[b].next, r.repl) &&
      (r.dead <==> s.dead || Folds(s.blocks[b].next, r.repl)) &&
      forall c | c in s.blocks && c != b :: r.blocks[c].next == s.blocks[c].next
  {
  }

  /** After the last operation: the processed operations are all of them. */
  lemma MidwayEnd(s0: OptState, nb: nat, b: BlockId, s: OptState, newops: seq<OpId>)
    requires b in s0.blocks && Midway(s0, nb, b, |s0.blocks[b].ops|, s, newops)
    ensures var ops := s0.blocks[b].ops;
      Olds(newops, s0.nextOp) == Filter(ops, SetOf(newops)) &&
      forall x | x in ops :: x in newops <==> !Dropped(s0, s, x)
  {
    var ops := s0.blocks[b].ops;
    assert ops[..|ops|] == ops;
    forall x | x in ops ensures x in newops <==> !Dropped(s0, s, x) {
      var j :| 0 <= j < |ops| && ops[j] == x;
    }
  }

  /** `optimize_block` on a sound state ends in a sound state. */
  lemma BlockSound(s: OptState, nb: nat, cfg: Config, b: BlockId)
    requires Sound(s, nb) && b in s.blocks && OptimizeBlock(s, cfg, b).Ok?
    ensures Sound(OptimizeBlock(s, cfg, b).value, nb)
  {
    var ops := s.blocks[b].ops;
    assert ops[..|ops|] == ops;
    OpsMidway(s, nb, cfg, b, |ops|);
    var w := OptimizeOps(s, cfg, b, ops).value;
    FinishSound(s, nb, b, w.0, w.1);
  }

  /** The walk over a sound state ends in a sound state. */
  lemma {:induction false} WalkSound(s: OptState, nb: nat, cfg: Config, todo: seq<BlockId>, seen: set<BlockId>)
    requires Sound(s, nb) && (forall t | t in todo :: t in s.blocks) && OptimizeWalk(s, cfg, todo, seen).Ok?
    ensures Sound(OptimizeWalk(s, cfg, todo, seen).value, nb)
    decreases |s.blocks.Keys - seen|, |todo|
  {
    if todo != [] {
      var b := todo[|todo| - 1];
      var rest := todo[..|todo| - 1];
      if b in seen {
        WalkSound(s, nb, cfg, rest, seen);
      } else {
        BlockSound(s, nb, cfg, b);
        var w := OptimizeBlock(s, cfg, b).value;
        CardRemove(w.blocks.Keys, seen, b);
        WalkSound(w, nb, cfg, rest + Succ(w.blocks, b), seen + {b});
      }
    }
  }

  /** Rewriting operations that reports no change, from a state with no replacements, keeps every operation. */
  lemma {:induction false} OpsIdle(s: OptState, cfg: Config, b: BlockId, ops: seq<OpId>)
    requires Below(s.defs, s.nextOp) && s.repl == map[] && !s.removed
    requires OptimizeOps(s, cfg, b, ops).Ok?
    requires OptimizeOps(s, cfg, b, ops).value.0.repl == map[] && !OptimizeOps(s, cfg, b, ops).value.0.removed
    ensures OptimizeOps(s, cfg, b, ops).value == (s, ops)
    decreases |ops|
  {
    if ops != [] {
      var init := ops[..|ops| - 1];
      var w := OptimizeOps(s, cfg, b, init).value;
      assert w.0.repl.Keys == {};
      OpsIdle(s, cfg, b, init);
      assert init + [ops[|ops| - 1]] == ops;
    }
  }

  /** A walk that reports no change, from a state with no replacements, leaves the blocks and the arena as they were. */
  lemma {:induction false} WalkIdle(s: OptState, cfg: Config, todo: seq<BlockId>, seen: set<BlockId>)
    requires SuccClosed(s.blocks) && Below(s.defs, s.nextOp) && forall t | t in todo :: t in s.blocks
    requires s.repl == map[] && !s.removed && !s.dead && OptimizeWalk(s, cfg, todo, seen).Ok?
    requires var r := OptimizeWalk(s, cfg, todo, seen).value; r.repl == map[] && !r.removed && !r.dead
    ensures OptimizeWalk(s, cfg, todo, seen).value == s
    decreases |s.blocks.Keys - seen|, |todo|
  {
    if todo != [] {
      var b := todo[|todo| - 1];
      var rest := todo[..|todo| - 1];
      if b in seen {
        WalkIdle(s, cfg, rest, seen);
      } else {
        var w := OptimizeBlock(s, cfg, b).value;
        assert w.repl.Keys == {};
        var ops := s.blocks[b].ops;
        OpsIdle(s, cfg, b, ops);
        assert !Folds(s.blocks[b].next, s.repl);
        assert w.blocks == s.blocks;
        CardRemove(w.blocks.Keys, seen, b);
        WalkIdle(w, cfg, rest + Succ(w.blocks, b), seen + {b});
      }
    }
  }

  // ---------------------------------------------------------------------
  // The loops

  lemma {:induction false} OpsFailed(s: OptState, cfg: Config, b: BlockId, ops: seq<OpId>, i: nat)
    requires Below(s.defs, s.nextOp) && i <= |ops| && OptimizeOps(s, cfg, b, ops[..i]).Failure?
    ensures OptimizeOps(s, cfg, b, ops) == OptimizeOps(s, cfg, b, ops[..i])
    decreases |ops| - i
  {
    if i == |ops| {
      assert ops[..i] == ops;
    } else {
      OpsSnoc(s, cfg, b, ops, i + 1);
      OpsFailed(s, cfg, b, ops, i + 1);
    }
  }

  /** `optimize_block`: the loop over the block's operations, then the terminator. */
  method OptimizeBlockOn(s: OptState, cfg: Config, b: BlockId) returns (r: Result<OptState>)
    requires SuccClosed(s.blocks) && Below(s.defs, s.nextOp) && b in s.blocks
    ensures r == OptimizeBlock(s, cfg, b)
  {
    var ops := s.blocks[b].ops;
    var cur, newops := s, [];
    var i := 0;
    assert ops[..0] == [];
    while i < |ops|
      invariant i <= |ops| && OptimizeOps(s, cfg, b, ops[..i]) == Ok((cur, newops))
      invariant Below(cur.defs, cur.nextOp)
    {
      var w := OptimizeStep(cur, newops, cfg, b, ops[i]);
      OpsSnoc(s, cfg, b, ops, i + 1);
      if w.Failure? {
        OpsFailed(s, cfg, b, ops, i + 1);
        return Failure(w.msg);
      }
      cur, newops := w.value.0, w.value.1;
      i := i + 1;
    }
    assert ops[..i] == ops;
    FinishClosed(cur, b, newops);
    r := Ok(FinishBlock(cur, b, newops));
  }

  /** The loop invariant of `OptimizeOn`: what is left of the walk gives what the whole walk gives. */
  ghost predicate WalkInv(s0: OptState, cfg: Config, start: BlockId, cur: OptState, todo: seq<BlockId>, seen: set<BlockId>)
  {
    SuccClosed(s0.blocks) && Below(s0.defs, s0.nextOp) && start in s0.blocks &&
    SuccClosed(cur.blocks) && Below(cur.defs, cur.nextOp) && cur.blocks.Keys == s0.blocks.Keys &&
    (forall t | t in todo :: t in cur.blocks) &&
    OptimizeWalk(s0, cfg, [start], {}) == OptimizeWalk(cur, cfg, todo, seen)
  }

  /** One pop of the work list: skip a block already seen, or rewrite it and push its successors. */
  method OptimizeStepOn(s0: OptState, cfg: Config, start: BlockId, cur: OptState, todo: seq<BlockId>, seen: set<BlockId>)
    returns (failed: Option<Result<OptState>>, cur': OptState, todo': seq<BlockId>, seen': set<BlockId>)
    requires WalkInv(s0, cfg, start, cur, todo, seen) && todo != []
    ensures failed.Some? ==> failed.value == OptimizeWalk(s0, cfg, [start], {}) && failed.value.Failure?
    ensures failed.None? ==> WalkInv(s0, cfg, start, cur', todo', seen')
    ensures failed.None? ==> seen' == seen || (seen' > seen && |s0.blocks.Keys - seen'| < |s0.blocks.Keys - seen|)
    ensures failed.None? && seen' == seen ==> |todo'| < |todo|
  {
    var b := todo[|todo| - 1];
    if b in seen {
      return None, cur, todo[..|todo| - 1], seen;
    }
    var w := OptimizeBlockOn(cur, cfg, b);
    if w.Failure? {
      return Some(w), cur, todo, seen;
    }
    CardRemove(s0.blocks.Keys, seen, b);
    failed, cur' := None, w.value;
    todo' := todo[..|todo| - 1] + NextBlocks(cur'.blocks[b].next);
    seen' := seen + {b};
  }

  /** `for block in self.graph.iterblocks(): self.optimize_block(block)`. */
  method OptimizeOn(s0: OptState, cfg: Config, start: BlockId) returns (r: Result<OptState>)
    requires SuccClosed(s0.blocks) && Below(s0.defs, s0.nextOp) && start in s0.blocks
    ensures r == OptimizeWalk(s0, cfg, [start], {})
  {
    var cur, todo := s0, [start];
    var seen: set<BlockId> := {};
    while todo != []
      invariant WalkInv(s0, cfg, start, cur, todo, seen)
      decreases |s0.blocks.Keys - seen|, |todo|
    {
      var failed;
      failed, cur, todo, seen := OptimizeStepOn(s0, cfg, start, cur, todo, seen);
      if failed.Some? {
        return failed.value;
      }
    }
    r := Ok(cur);
  }

  // ---------------------------------------------------------------------
  // The replacements, and the whole pass

  lemma ShapeClosed(b1: map<BlockId, Block>, b2: map<BlockId, Block>)
    requires SameShape(b1, b2) && SuccClosed(b2)
    ensures SuccClosed(b1)
  {
    forall b | b in b1 ensures forall x | x in NextBlocks(b1[b].next) :: x in b1 {
      assert NextBlocks(b1[b].next) == NextBlocks(b2[b].next);
    }
  }

  /**
   * `while self.graph.replace_ops(self.replacements): pass`, for at most
   * `fuel` rounds that change something. A round fails when a replaced
   * operation is still in a reachable block, which the source asserts
   * against.
   */
  ghost function ReplaceRounds(blocks: map<BlockId, Block>, defs: map<OpId, Def>, repl: map<Value, Value>,
                               start: BlockId, fuel: nat): Result<(map<BlockId, Block>, map<OpId, Def>)>
    requires SuccClosed(blocks) && start in blocks
    decreases fuel
  {
    var reach := Reachable(blocks, start);
    var ops := OpsOf(blocks, reach);
    if exists o | o in ops :: OpRef(o) in repl then Failure("replaced operation still in use")
    else
      var blocks', defs' := ReplaceNexts(blocks, reach, repl), ReplaceDefs(defs, ops, repl);
      if !(OpsMention(defs, ops, repl) || NextsMention(blocks, reach, repl)) then Ok((blocks', defs'))
      else if fuel == 0 then Failure("replacements do not settle")
      else
        ReplaceNextsShape(blocks, reach, repl);
        ShapeClosed(blocks', blocks);
        ReplaceRounds(blocks', defs', repl, start, fuel - 1)
  }

  /** The replacement rounds on the graph. */
  method ReplaceUntilStable(g: Graph, repl: map<Value, Value>, fuel: nat) returns (ok: bool)
    requires g.Valid()
    modifies g`blocks, g`defs
    ensures g.Valid()
    ensures var w := ReplaceRounds(old(g.blocks), old(g.defs), repl, g.start, fuel);
      (ok <==> w.Ok?) && (ok ==> g.blocks == w.value.0 && g.defs == w.value.1)
  {
    var n := 0;
    while true
      invariant g.Valid() && n <= fuel
      invariant ReplaceRounds(old(g.blocks), old(g.defs), repl, g.start, fuel) == ReplaceRounds(g.blocks, g.defs, repl, g.start, fuel - n)
      decreases fuel - n
    {
      var changed, done := ReplaceRoundOn(g, repl, old(g.blocks), old(g.defs), fuel, n);
      if !done {
        return false;
      }
      if !changed {
        return true;
      }
      if n == fuel {
        return false;
      }
      n := n + 1;
    }
  }

  /** One round of `ReplaceUntilStable`: `replace_ops` on the graph, and what it tells about the remaining rounds. */
  method ReplaceRoundOn(g: Graph, repl: map<Value, Value>, ghost blocks0: map<BlockId, Block>, ghost defs0: map<OpId, Def>,
                        ghost fuel: nat, ghost n: nat) returns (changed: bool, done: bool)
    requires g.Valid() && n <= fuel && SuccClosed(blocks0) && g.start in blocks0
    requires ReplaceRounds(blocks0, defs0, repl, g.start, fuel) == ReplaceRounds(g.blocks, g.defs, repl, g.start, fuel - n)
    modifies g`blocks, g`defs
    ensures g.Valid()
    ensures !done ==> ReplaceRounds(blocks0, defs0, repl, g.start, fuel).Failure?
    ensures done && !changed ==> ReplaceRounds(blocks0, defs0, repl, g.start, fuel) == Ok((g.blocks, g.defs))
    ensures done && changed && n == fuel ==> ReplaceRounds(blocks0, defs0, repl, g.start, fuel).Failure?
    ensures done && changed && n < fuel ==>
      ReplaceRounds(blocks0, defs0, repl, g.start, fuel) == ReplaceRounds(g.blocks, g.defs, repl, g.start, fuel - (n + 1))
  {
    ghost var b0, d0 := g.blocks, g.defs;
    changed, done := g.ReplaceOps(repl);
    RoundsStep(b0, d0, repl, g.start, fuel - n, changed, done, g.blocks, g.defs);
  }

  /** What one `replace_ops` round tells about the remaining rounds. */
  lemma RoundsStep(b0: map<BlockId, Block>, d0: map<OpId, Def>, repl: map<Value, Value>, start: BlockId, fuel: nat,
                   changed: bool, ok: bool, b1: map<BlockId, Block>, d1: map<OpId, Def>)
    requires SuccClosed(b0) && start in b0 && SameShape(b1, b0)
    requires ok <==> forall o | o in OpsOf(b0, Reachable(b0, start)) :: OpRef(o) !in repl
    requires ok ==> d1 == ReplaceDefs(d0, OpsOf(b0, Reachable(b0, start)), repl)
    requires ok ==> b1 == ReplaceNexts(b0, Reachable(b0, start), repl)
    requires ok ==> (changed <==> OpsMention(d0, OpsOf(b0, Reachable(b0, start)), repl) ||
                                  NextsMention(b0, Reachable(b0, start), repl))
    ensures SuccClosed(b1) && start in b1
    ensures !ok ==> ReplaceRounds(b0, d0, repl, start, fuel).Failure?
    ensures ok && !changed ==> ReplaceRounds(b0, d0, repl, start, fuel) == Ok((b1, d1))
    ensures ok && changed && fuel == 0 ==> ReplaceRounds(b0, d0, repl, start, fuel).Failure?
    ensures ok && changed && fuel > 0 ==> ReplaceRounds(b0, d0, repl, start, fuel) == ReplaceRounds(b1, d1, repl, start, fuel - 1)
  {
    ShapeClosed(b1, b0);
  }

  /** A sound state has no replaced operation left in a block, so no round can fail on one. */
  lemma {:induction false} RoundsNotInUse(blocks: map<BlockId, Block>, defs: map<OpId, Def>, repl: map<Value, Value>,
                                          start: BlockId, fuel: nat)
    requires SuccClosed(blocks) && start in blocks
    requires forall k | k in repl :: k.OpRef? && forall c | c in blocks :: k.id !in blocks[c].ops
    ensures ReplaceRounds(blocks, defs, repl, start, fuel).Failure? ==>
            ReplaceRounds(blocks, defs, repl, start, fuel).msg == "replacements do not settle"
    decreases fuel
  {
    var reach := Reachable(blocks, start);
    var ops := OpsOf(blocks, reach);
    NoneInUse(blocks, reach, repl);
    if (OpsMention(defs, ops, repl) || NextsMention(blocks, reach, repl)) && fuel > 0 {
      var blocks', defs' := ReplaceNexts(blocks, reach, repl), ReplaceDefs(defs, ops, repl);
      ReplaceNextsShape(blocks, reach, repl);
      ShapeClosed(blocks', blocks);
      NotInUseKept(blocks', blocks, repl);
      RoundsNotInUse(blocks', defs', repl, start, fuel - 1);
    }
  }

  /** No operation of the given blocks is a replaced one. */
  lemma NoneInUse(blocks: map<BlockId, Block>, bs: set<BlockId>, repl: map<Value, Value>)
    requires forall k | k in repl :: k.OpRef? && forall c | c in blocks :: k.id !in blocks[c].ops
    ensures forall o | o in OpsOf(blocks, bs) :: OpRef(o) !in repl
  {
    forall o | o in OpsOf(blocks, bs) ensures OpRef(o) !in repl {
      var c :| c in bs && c in blocks && o in blocks[c].ops;
    }
  }

  /** Blocks of the same shape hold the same operations, so none of them is a replaced one. */
  lemma NotInUseKept(b1: map<BlockId, Block>, b2: map<BlockId, Block>, repl: map<Value, Value>)
    requires SameShape(b1, b2)
    requires forall k | k in repl :: k.OpRef? && forall c | c in b2 :: k.id !in b2[c].ops
    ensures forall k | k in repl :: k.OpRef? && forall c | c in b1 :: k.id !in b1[c].ops
  {
  }

  /** What the replacement rounds make of the walk's result: at most one changing round per replaced operation. */
  ghost function Settled(s: OptState, start: BlockId): Result<(map<BlockId, Block>, map<OpId, Def>)>
    requires SuccClosed(s.blocks) && start in s.blocks
  {
    if s.repl == map[] then Ok((s.blocks, s.defs)) else ReplaceRounds(s.blocks, s.defs, s.repl, start, |s.repl|)
  }

  /** Put the walk's result into the graph. */
  method StoreState(g: Graph, s: OptState)
    requires Sound(s, g.nextBlock) && g.start in s.blocks
    modifies g`blocks, g`defs, g`nextOp
    ensures g.Valid() && g.blocks == s.blocks && g.defs == s.defs && g.nextOp == s.nextOp
  {
    g.blocks, g.defs, g.nextOp := s.blocks, s.defs, s.nextOp;
  }

  /** The walk on the graph: the blocks are rewritten in `iterblocks` order and the result is stored. */
  method RewriteBlocks(g: Graph, cfg: Config) returns (w: Result<OptState>)
    requires g.Valid()
    modifies g`blocks, g`defs, g`nextOp
    ensures g.Valid()
    ensures w == OptimizeWalk(OptState(old(g.blocks), old(g.defs), old(g.nextOp), map[], false, false), cfg, [g.start], {})
    ensures w.Ok? ==> Sound(w.value, g.nextBlock) && g.start in w.value.blocks &&
                      g.blocks == w.value.blocks && g.defs == w.value.defs && g.nextOp == w.value.nextOp
    ensures w.Ok? && w.value.repl == map[] && !w.value.removed && !w.value.dead ==>
      g.blocks == old(g.blocks) && g.defs == old(g.defs) && g.nextOp == old(g.nextOp)
  {
    var s0 := OptState(g.blocks, g.defs, g.nextOp, map[], false, false);
    assert Sound(s0, g.nextBlock);
    w := OptimizeOn(s0, cfg, g.start);
    if w.Ok? {
      WalkSound(s0, g.nextBlock, cfg, [g.start], {});
      if w.value.repl == map[] && !w.value.removed && !w.value.dead {
        WalkIdle(s0, cfg, [g.start], {});
      }
      StoreState(g, w.value);
    }
  }

  /** The replacements of a sound walk result, applied to the graph until they settle. */
  method Settle(g: Graph, s: OptState) returns (ok: bool)
    requires g.Valid() && Sound(s, g.nextBlock) && g.blocks == s.blocks && g.defs == s.defs
    modifies g`blocks, g`defs
    ensures g.Valid()
    ensures ok <==> Settled(s, g.start).Ok?
    ensures ok ==> g.blocks == Settled(s, g.start).value.0 && g.defs == Settled(s, g.start).value.1
  {
    ok := true;
    if s.repl != map[] {
      ok := ReplaceUntilStable(g, s.repl, |s.repl|);
    }
  }

  /** After the walk: the replacements settle and, when a jump was folded, the phis are pruned. */
  method Apply(g: Graph, s: OptState) returns (ok: bool, ghost keys: seq<BlockId>)
    requires g.Valid() && Sound(s, g.nextBlock) && g.blocks == s.blocks && g.defs == s.defs
    modifies g`blocks, g`defs
    ensures g.Valid()
    ensures ok ==> Settled(s, g.start).Ok? && SuccClosed(Settled(s, g.start).value.0) && g.start in Settled(s, g.start).value.0
    ensures ok && !s.dead ==> g.blocks == Settled(s, g.start).value.0 && g.defs == Settled(s, g.start).value.1
    ensures ok && s.dead ==> SetOf(keys) == Reachable(Settled(s, g.start).value.0, g.start)
    ensures ok && s.repl == map[] && !s.dead ==> g.blocks == s.blocks && g.defs == s.defs
  {
    keys := [];
    ok := Settle(g, s);
    if ok && s.dead {
      ghost var settled := g.blocks;
      assert SuccClosed(settled) && g.start in settled;
      ok, keys := RemoveUnreachablePhiPrevvalues(g);
      assert ok ==> SetOf(keys) == Reachable(settled, g.start);
    }
  }

  /**
   * `LocalOptimizer(graph, codegen, do_double_casts).optimize()`: the
   * anticipated casts are computed, the blocks are rewritten in
   * `iterblocks` order, the replacements are applied until they settle, and
   * when a jump was folded the phis lose their inputs from blocks no longer
   * reached. The result says whether anything changed; when nothing did,
   * the graph is as it was.
   */
  method LocalOptimize(g: Graph, builtins: map<string, string>, lib: Library,
                       fold: (string, seq<Constant>, Type) -> Option<Constant>, doubleCasts: bool)
    returns (r: Result<bool>, ghost topo: seq<BlockId>, ghost ant: map<BlockId, set<CastTo>>, ghost w: Result<OptState>, ghost keys: seq<BlockId>)
    requires g.Valid()
    modifies g`blocks, g`defs, g`nextOp
    ensures g.Valid()
    ensures r.Ok? ==> (forall b | b in Reversed(topo) :: b in old(g.blocks)) &&
                      ant == Anticipated(old(g.blocks), old(g.defs), Reversed(topo))
    ensures r.Ok? ==>
      w == OptimizeWalk(OptState(old(g.blocks), old(g.defs), old(g.nextOp), map[], false, false),
                        Config(ant, builtins, g.hasLoop, doubleCasts, lib, fold), [g.start], {}) &&
      w.Ok? && Sound(w.value, g.nextBlock) && g.start in w.value.blocks && Settled(w.value, g.start).Ok? &&
      SuccClosed(Settled(w.value, g.start).value.0) && g.start in Settled(w.value, g.start).value.0 &&
      (r.value <==> w.value.removed || w.value.repl != map[] || w.value.dead)
    ensures r.Ok? && !w.value.dead ==> g.blocks == Settled(w.value, g.start).value.0 && g.defs == Settled(w.value, g.start).value.1
    ensures r.Ok? && w.value.dead ==> SetOf(keys) == Reachable(Settled(w.value, g.start).value.0, g.start)
    ensures r.Ok? && !r.value ==> g.blocks == old(g.blocks) && g.defs == old(g.defs) && g.nextOp == old(g.nextOp)
  {
    var casts;
    casts, topo := AnticipatedCasts(g);
    if casts.Failure? {
      return Failure(casts.msg), topo, map[], Failure(casts.msg), [];
    }
    var anticipated := casts.value;
    ant := anticipated;
    r, w, keys := RewriteAndApply(g, Config(anticipated, builtins, g.hasLoop, doubleCasts, lib, fold));
  }

  const Unsettled: string := "replacements do not settle or unreachable inputs could not be pruned"

  /** The rewriting walk and the settling of its replacements, for one configuration. */
  method RewriteAndApply(g: Graph, cfg: Config) returns (r: Result<bool>, ghost w: Result<OptState>, ghost keys: seq<BlockId>)
    requires g.Valid()
    modifies g`blocks, g`defs, g`nextOp
    ensures g.Valid()
    ensures r.Ok? ==>
      w == OptimizeWalk(OptState(old(g.blocks), old(g.defs), old(g.nextOp), map[], false, false), cfg, [g.start], {}) &&
      w.Ok? && Sound(w.value, g.nextBlock) && g.start in w.value.blocks && Settled(w.value, g.start).Ok? &&
      SuccClosed(Settled(w.value, g.start).value.0) && g.start in Settled(w.value, g.start).value.0 &&
      (r.value <==> w.value.removed || w.value.repl != map[] || w.value.dead)
    ensures r.Ok? && !w.value.dead ==> g.blocks == Settled(w.value, g.start).value.0 && g.defs == Settled(w.value, g.start).value.1
    ensures r.Ok? && w.value.dead ==> SetOf(keys) == Reachable(Settled(w.value, g.start).value.0, g.start)
    ensures r.Ok? && !r.value ==> g.blocks == old(g.blocks) && g.defs == old(g.defs) && g.nextOp == old(g.nextOp)
  {
    keys := [];
    var walked := RewriteBlocks(g, cfg);
    w := walked;
    if walked.Failure? {
      return Failure(walked.msg), w, [];
    }
    var s := walked.value;
    var ok;
    ok, keys := Apply(g, s);
    if !ok {
      return Failure(Unsettled), w, keys;
    }
    r := Ok(s.removed || s.repl != map[] || s.dead);
  }

  /** `find_anticipated_casts(graph)`, as `BaseOptimizer.__init__` stores it. */
  method AnticipatedCasts(g: Graph) returns (r: Result<map<BlockId, set<CastTo>>>, ghost topo: seq<BlockId>)
    requires g.Wf()
    ensures r.Ok? ==> (forall b | b in Reversed(topo) :: b in g.blocks) &&
                      r.value == Anticipated(g.blocks, g.defs, Reversed(topo))
  {
    r, topo := FindAnticipatedCasts(g);
  }
}
