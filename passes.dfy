/**
 * Global cleanup passes of the optimizer: `remove_dead`, `swap_not` and
 * `simplify_phis`. Every pass works on the arena of a `Graph` and keeps it
 * valid; the `repeat` driver that runs them is in module `Driver`.
 */
module Passes {
  import opened Wrappers
  import opened Types
  import opened Ir
  import opened IrGraph

  // ---------------------------------------------------------------------
  // Rewriting the operation lists of blocks

  /**
   * `blocks2` has the blocks of `blocks`, each holding distinct operations
   * taken from the same block of `blocks`, and its edges stay inside it.
   */
  ghost predicate Reshaped(blocks: map<BlockId, Block>, blocks2: map<BlockId, Block>)
  {
    blocks2.Keys == blocks.Keys && SuccClosed(blocks2) &&
    forall b | b in blocks :: Distinct(blocks2[b].ops) && forall o | o in blocks2[b].ops :: o in blocks[b].ops
  }

  /** `blocks2` is `blocks` with the same terminators and, in each block, a subset of its operations. */
  ghost predicate Thinned(blocks: map<BlockId, Block>, blocks2: map<BlockId, Block>)
  {
    blocks2.Keys == blocks.Keys &&
    forall b | b in blocks ::
      blocks2[b].next == blocks[b].next && Distinct(blocks2[b].ops) &&
      forall o | o in blocks2[b].ops :: o in blocks[b].ops
  }

  lemma ThinnedReshaped(blocks: map<BlockId, Block>, blocks2: map<BlockId, Block>)
    requires SuccClosed(blocks) && Thinned(blocks, blocks2)
    ensures Reshaped(blocks, blocks2)
  {
    forall b | b in blocks2 ensures forall s | s in NextBlocks(blocks2[b].next) :: s in blocks2 {
      assert blocks2[b].next == blocks[b].next;
    }
  }

  /** Rewiring edges inside the graph and dropping operations keeps the arena valid. */
  lemma ReshapedValid(blocks: map<BlockId, Block>, blocks2: map<BlockId, Block>, defs: map<OpId, Def>, start: BlockId, nextBlock: nat, nextOp: nat)
    requires start in blocks && Arena(blocks, defs, nextBlock, nextOp) && UniqueOps(blocks)
    requires Reshaped(blocks, blocks2)
    ensures start in blocks2 && Arena(blocks2, defs, nextBlock, nextOp) && UniqueOps(blocks2)
  {
  }

  /** The graph takes over rewired or thinned blocks. */
  method StoreBlocks(g: Graph, blocks: map<BlockId, Block>)
    requires g.Valid() && Reshaped(g.blocks, blocks)
    modifies g`blocks
    ensures g.Valid() && g.blocks == blocks
  {
    ReshapedValid(g.blocks, blocks, g.defs, g.start, g.nextBlock, g.nextOp);
    g.blocks := blocks;
  }

  // ---------------------------------------------------------------------
  // remove_dead

  /** `codegen.builtin_names.get(name, name)`. */
  function BuiltinName(builtins: map<string, string>, name: string): string
  {
    if name in builtins then builtins[name] else name
  }

  /**
   * `can_remove_op`: an operation without side effects, `@not`, or a call of
   * a function that the support code lists as pure, after builtin renaming.
   */
  predicate CanRemoveOp(d: Def, pure: set<string>, builtins: map<string, string>)
  {
    !CanHaveSideEffects(d) || (d.Op? && (d.name == "@not" || (d.kind == Operation && BuiltinName(builtins, d.name) in pure)))
  }

  /** `list.remove`: the first occurrence of `v` is dropped. */
  function RemoveFirst(s: seq<Value>, v: Value): (r: seq<Value>)
    ensures v in s ==> |r| == |s| - 1
    ensures v !in s ==> r == s
  {
    if s == [] then [] else if s[0] == v then s[1..] else [s[0]] + RemoveFirst(s[1..], v)
  }

  /** The values op `o` counts as used: its arguments, without one reference of a phi to itself. */
  function UsedArgs(o: OpId, d: Def): seq<Value>
  {
    var args := DefArgs(d);
    if d.Phi? && OpRef(o) in args then RemoveFirst(args, OpRef(o)) else args
  }

  /** The values the operations of a block use, in order. */
  function OpsUses(ops: seq<OpId>, defs: map<OpId, Def>): seq<Value>
    requires forall o | o in ops :: o in defs
  {
    if ops == [] then []
    else
      var o := ops[|ops| - 1];
      OpsUses(ops[..|ops| - 1], defs) + UsedArgs(o, defs[o])
  }

  /** The values a block uses: those of its operations and of its terminator. */
  function BlockUses(b: Block, defs: map<OpId, Def>): seq<Value>
    requires forall o | o in b.ops :: o in defs
  {
    OpsUses(b.ops, defs) + NextArgs(b.next)
  }

  /** `needed` after a walk over `order`. */
  function Needed(blocks: map<BlockId, Block>, defs: map<OpId, Def>, order: seq<BlockId>): set<Value>
    requires Walkable(blocks, defs, order)
  {
    if order == [] then {}
    else Needed(blocks, defs, order[..|order| - 1]) + SetOf(BlockUses(blocks[order[|order| - 1]], defs))
  }

  /** An operation survives when something uses it or it cannot be removed. */
  predicate Survives(o: OpId, d: Def, needed: set<Value>, pure: set<string>, builtins: map<string, string>)
  {
    OpRef(o) in needed || !CanRemoveOp(d, pure, builtins)
  }

  /** `[op for op in block.operations if op in needed or not can_remove_op(op)]`. */
  function Live(ops: seq<OpId>, defs: map<OpId, Def>, needed: set<Value>, pure: set<string>, builtins: map<string, string>): seq<OpId>
    requires forall o | o in ops :: o in defs
  {
    if ops == [] then []
    else
      var o := ops[|ops| - 1];
      Live(ops[..|ops| - 1], defs, needed, pure, builtins) + (if Survives(o, defs[o], needed, pure, builtins) then [o] else [])
  }

  /** The walked blocks keep their live operations; the others are untouched. */
  ghost function DeadRemoved(blocks: map<BlockId, Block>, defs: map<OpId, Def>, order: seq<BlockId>, needed: set<Value>,
                             pure: set<string>, builtins: map<string, string>): map<BlockId, Block>
    requires Walkable(blocks, defs, order)
  {
    map b | b in blocks :: if b in order then Block(Live(blocks[b].ops, defs, needed, pure, builtins), blocks[b].next) else blocks[b]
  }

  /** An operation is kept exactly when it survives. */
  lemma {:induction false} LiveSpec(ops: seq<OpId>, defs: map<OpId, Def>, needed: set<Value>, pure: set<string>, builtins: map<string, string>)
    requires forall o | o in ops :: o in defs
    ensures forall o :: o in Live(ops, defs, needed, pure, builtins) <==> o in ops && Survives(o, defs[o], needed, pure, builtins)
  {
    if ops != [] {
      var init := ops[..|ops| - 1];
      assert forall o | o in init :: o in ops;
      LiveSpec(init, defs, needed, pure, builtins);
      Snoc(ops);
    }
  }

  /** The filter repeats nothing. */
  lemma {:induction false} LiveDistinct(ops: seq<OpId>, defs: map<OpId, Def>, needed: set<Value>, pure: set<string>, builtins: map<string, string>)
    requires forall o | o in ops :: o in defs
    requires Distinct(ops)
    ensures Distinct(Live(ops, defs, needed, pure, builtins))
  {
    if ops != [] {
      var init := ops[..|ops| - 1];
      assert forall o | o in init :: o in ops;
      LiveDistinct(init, defs, needed, pure, builtins);
      LiveSpec(init, defs, needed, pure, builtins);
      assert ops[|ops| - 1] !in init;
    }
  }

  /** The filter keeps the length exactly when every operation survives, and then keeps the list itself. */
  lemma {:induction false} LiveLength(ops: seq<OpId>, defs: map<OpId, Def>, needed: set<Value>, pure: set<string>, builtins: map<string, string>)
    requires forall o | o in ops :: o in defs
    ensures |Live(ops, defs, needed, pure, builtins)| <= |ops|
    ensures |Live(ops, defs, needed, pure, builtins)| == |ops| <==> forall o | o in ops :: Survives(o, defs[o], needed, pure, builtins)
    ensures |Live(ops, defs, needed, pure, builtins)| == |ops| ==> Live(ops, defs, needed, pure, builtins) == ops
  {
    if ops != [] {
      var init := ops[..|ops| - 1];
      var last := ops[|ops| - 1];
      assert forall o | o in init :: o in ops;
      LiveLength(init, defs, needed, pure, builtins);
      Snoc(ops);
      assert forall o | o in ops :: o in init || o == last;
    }
  }

  /** The filter works block piece by block piece, so the kept operations stay in their order. */
  lemma {:induction false} LiveConcat(a: seq<OpId>, b: seq<OpId>, defs: map<OpId, Def>, needed: set<Value>, pure: set<string>, builtins: map<string, string>)
    requires forall o | o in a + b :: o in defs
    ensures Live(a + b, defs, needed, pure, builtins) == Live(a, defs, needed, pure, builtins) + Live(b, defs, needed, pure, builtins)
  {
    if b == [] {
      assert a + b == a;
    } else {
      assert (a + b)[..|a + b| - 1] == a + b[..|b| - 1];
      LiveConcat(a, b[..|b| - 1], defs, needed, pure, builtins);
    }
  }

  /** A value is needed exactly when some walked block uses it. */
  lemma {:induction false} NeededSpec(blocks: map<BlockId, Block>, defs: map<OpId, Def>, order: seq<BlockId>, v: Value)
    requires Walkable(blocks, defs, order)
    ensures v in Needed(blocks, defs, order) <==> exists b | b in order :: v in BlockUses(blocks[b], defs)
  {
    if order != [] {
      var init := order[..|order| - 1];
      var last := order[|order| - 1];
      Snoc(order);
      NeededSpec(blocks, defs, init, v);
      var u := BlockUses(blocks[last], defs);
      assert v in SetOf(u) <==> v in u;
      if exists b | b in order :: v in BlockUses(blocks[b], defs) {
        var b :| b in order && v in BlockUses(blocks[b], defs);
        assert b in init || b == last;
      }
    }
  }

  /** A value is used by a block's operations exactly when one of them lists it. */
  lemma {:induction false} OpsUsesSpec(ops: seq<OpId>, defs: map<OpId, Def>, v: Value)
    requires forall o | o in ops :: o in defs
    ensures v in OpsUses(ops, defs) <==> exists o | o in ops :: v in UsedArgs(o, defs[o])
  {
    if ops != [] {
      var init := ops[..|ops| - 1];
      var last := ops[|ops| - 1];
      Snoc(ops);
      assert forall o | o in init :: o in ops;
      OpsUsesSpec(init, defs, v);
      if exists o | o in ops :: v in UsedArgs(o, defs[o]) {
        var o :| o in ops && v in UsedArgs(o, defs[o]);
        assert o in init || o == last;
      }
    }
  }

  lemma Snoc<T>(s: seq<T>)
    requires s != []
    ensures s[..|s| - 1] + [s[|s| - 1]] == s
  {
  }

  /** A phi that only feeds itself is not kept alive by that use alone. */
  lemma SelfUseIgnored(o: OpId, pbs: seq<BlockId>, t: Type)
    ensures UsedArgs(o, Phi(pbs, [Some(OpRef(o))], t)) == []
  {
  }

  /** The first loop of `remove_dead`: what the walked blocks use. */
  method CollectNeeded(blocks: map<BlockId, Block>, defs: map<OpId, Def>, order: seq<BlockId>) returns (needed: set<Value>)
    requires Walkable(blocks, defs, order)
    ensures needed == Needed(blocks, defs, order)
  {
    needed := {};
    var i := 0;
    while i < |order|
      invariant i <= |order| && needed == Needed(blocks, defs, order[..i])
    {
      var uses := CollectUses(blocks[order[i]], defs);
      assert order[..i + 1][..i] == order[..i];
      needed := needed + SetOf(uses);
      i := i + 1;
    }
    assert order[..i] == order;
  }

  /** The inner loop of the first loop of `remove_dead`: what one block uses. */
  method CollectUses(b: Block, defs: map<OpId, Def>) returns (uses: seq<Value>)
    requires forall o | o in b.ops :: o in defs
    ensures uses == BlockUses(b, defs)
  {
    var j := 0;
    uses := [];
    while j < |b.ops|
      invariant j <= |b.ops| && uses == OpsUses(b.ops[..j], defs)
    {
      var o := b.ops[j];
      OpsUsesNext(b.ops, defs, j);
      uses := uses + UsedArgs(o, defs[o]);
      j := j + 1;
    }
    assert b.ops[..j] == b.ops;
    uses := uses + NextArgs(b.next);
  }

  lemma OpsUsesNext(ops: seq<OpId>, defs: map<OpId, Def>, j: nat)
    requires (forall o | o in ops :: o in defs) && j < |ops|
    ensures OpsUses(ops[..j + 1], defs) == OpsUses(ops[..j], defs) + UsedArgs(ops[j], defs[ops[j]])
  {
    assert ops[..j + 1][..j] == ops[..j];
  }

  /** Some walked block holds an operation that does not survive. */
  ghost predicate Dropped(blocks: map<BlockId, Block>, defs: map<OpId, Def>, order: seq<BlockId>, needed: set<Value>,
                          pure: set<string>, builtins: map<string, string>)
    requires Walkable(blocks, defs, order)
  {
    exists b, o | b in order && o in blocks[b].ops :: !Survives(o, defs[o], needed, pure, builtins)
  }

  /** The second loop of `remove_dead`, over the same walk. */
  method FilterDead(blocks: map<BlockId, Block>, defs: map<OpId, Def>, order: seq<BlockId>, needed: set<Value>,
                    pure: set<string>, builtins: map<string, string>) returns (blocks2: map<BlockId, Block>, changed: bool)
    requires Walkable(blocks, defs, order) && Distinct(order)
    ensures blocks2 == DeadRemoved(blocks, defs, order, needed, pure, builtins)
    ensures changed <==> Dropped(blocks, defs, order, needed, pure, builtins)
  {
    blocks2 := blocks;
    changed := false;
    var i := 0;
    while i < |order|
      invariant i <= |order| && Walkable(blocks, defs, order[..i])
      invariant blocks2 == DeadRemoved(blocks, defs, order[..i], needed, pure, builtins)
      invariant changed <==> Dropped(blocks, defs, order[..i], needed, pure, builtins)
    {
      var b := order[i];
      var ops := blocks[b].ops;
      var live := Live(ops, defs, needed, pure, builtins);
      LiveLength(ops, defs, needed, pure, builtins);
      DeadStep(blocks, defs, order, i, needed, pure, builtins);
      DroppedStep(blocks, defs, order, i, needed, pure, builtins);
      if |live| != |ops| {
        changed := true;
        blocks2 := blocks2[b := Block(live, blocks[b].next)];
      }
      i := i + 1;
    }
    assert order[..i] == order;
  }

  lemma DeadStep(blocks: map<BlockId, Block>, defs: map<OpId, Def>, order: seq<BlockId>, i: nat, needed: set<Value>,
                 pure: set<string>, builtins: map<string, string>)
    requires Walkable(blocks, defs, order) && Distinct(order) && i < |order|
    ensures Walkable(blocks, defs, order[..i]) && Walkable(blocks, defs, order[..i + 1])
    ensures var b := order[i];
      var r := DeadRemoved(blocks, defs, order[..i], needed, pure, builtins);
      b in r && r[b] == blocks[b]
    ensures var b := order[i];
      DeadRemoved(blocks, defs, order[..i + 1], needed, pure, builtins) ==
        DeadRemoved(blocks, defs, order[..i], needed, pure, builtins)[b := Block(Live(blocks[b].ops, defs, needed, pure, builtins), blocks[b].next)]
  {
    var b := order[i];
    assert b !in order[..i];
    assert forall x :: x in order[..i + 1] <==> x in order[..i] || x == b;
  }

  lemma DroppedStep(blocks: map<BlockId, Block>, defs: map<OpId, Def>, order: seq<BlockId>, i: nat, needed: set<Value>,
                    pure: set<string>, builtins: map<string, string>)
    requires Walkable(blocks, defs, order) && i < |order|
    ensures Walkable(blocks, defs, order[..i]) && Walkable(blocks, defs, order[..i + 1])
    ensures Dropped(blocks, defs, order[..i + 1], needed, pure, builtins) <==>
      Dropped(blocks, defs, order[..i], needed, pure, builtins) ||
      exists o | o in blocks[order[i]].ops :: !Survives(o, defs[o], needed, pure, builtins)
  {
    assert forall x :: x in order[..i + 1] <==> x in order[..i] || x == order[i];
  }

  /**
   * One round of `remove_dead`: the walked blocks keep the operations that a
   * walked operation or terminator uses, or that may have side effects. The
   * result says whether any operation was dropped.
   */
  method RemoveDead(g: Graph, pure: set<string>, builtins: map<string, string>) returns (changed: bool, ghost order: seq<BlockId>, ghost needed: set<Value>)
    requires g.Valid()
    modifies g`blocks
    ensures g.Valid() && g.defs == old(g.defs)
    ensures order == Dfs(old(g.blocks), [g.start], {}) && Walkable(old(g.blocks), g.defs, order)
    ensures needed == Needed(old(g.blocks), g.defs, order)
    ensures g.blocks == DeadRemoved(old(g.blocks), g.defs, order, needed, pure, builtins)
    ensures changed <==> Dropped(old(g.blocks), g.defs, order, needed, pure, builtins)
  {
    var walk := g.IterBlocks();
    order := walk;
    assert Walkable(g.blocks, g.defs, walk);
    var n := CollectNeeded(g.blocks, g.defs, walk);
    needed := n;
    var blocks2;
    blocks2, changed := FilterDead(g.blocks, g.defs, walk, n, pure, builtins);
    DeadThinned(g.blocks, g.defs, walk, n, pure, builtins);
    ThinnedReshaped(g.blocks, blocks2);
    StoreBlocks(g, blocks2);
  }

  lemma DeadThinned(blocks: map<BlockId, Block>, defs: map<OpId, Def>, order: seq<BlockId>, needed: set<Value>,
                    pure: set<string>, builtins: map<string, string>)
    requires Walkable(blocks, defs, order) && forall b | b in blocks :: Distinct(blocks[b].ops)
    ensures Thinned(blocks, DeadRemoved(blocks, defs, order, needed, pure, builtins))
  {
    forall b | b in order
      ensures var live := Live(blocks[b].ops, defs, needed, pure, builtins);
        Distinct(live) && forall o | o in live :: o in blocks[b].ops
    {
      LiveSpec(blocks[b].ops, defs, needed, pure, builtins);
      LiveDistinct(blocks[b].ops, defs, needed, pure, builtins);
    }
  }

  /**
   * After `remove_dead`, every operation left in a walked block is used by a
   * walked operation or terminator (a phi's use of itself aside) or may have
   * side effects; and each such operation of the old block is still there.
   */
  lemma DeadSpec(blocks: map<BlockId, Block>, defs: map<OpId, Def>, order: seq<BlockId>,
                 pure: set<string>, builtins: map<string, string>, b: BlockId, o: OpId)
    requires Walkable(blocks, defs, order) && b in order
    ensures var r := DeadRemoved(blocks, defs, order, Needed(blocks, defs, order), pure, builtins);
      o in r[b].ops <==> (o in blocks[b].ops &&
        (!CanRemoveOp(defs[o], pure, builtins) || exists x | x in order :: OpRef(o) in BlockUses(blocks[x], defs)))
  {
    var needed := Needed(blocks, defs, order);
    LiveSpec(blocks[b].ops, defs, needed, pure, builtins);
    NeededSpec(blocks, defs, order, OpRef(o));
  }

  // ---------------------------------------------------------------------
  // swap_not

  /** A conditional jump on a value computed by a plain `@not` operation. */
  predicate NegatedBranch(n: Next, defs: map<OpId, Def>)
  {
    n.ConditionalGoto? && n.cond.OpRef? && n.cond.id in defs &&
    var d := defs[n.cond.id];
    d.Op? && d.kind == Operation && d.name == "@not"
  }

  /**
   * The `swap_not` rewrite of one terminator: a jump on `@not(x)` becomes a
   * jump on `x` with the two targets exchanged. An `@not` with other than
   * one argument cannot be unpacked.
   */
  function SwapNext(n: Next, defs: map<OpId, Def>): (r: Result<Next>)
    ensures r.Failure? <==> NegatedBranch(n, defs) && |defs[n.cond.id].args| != 1
    ensures r.Ok? && NegatedBranch(n, defs) ==>
      r.value == ConditionalGoto(defs[n.cond.id].args[0], n.falsetarget, n.truetarget)
    ensures r.Ok? && !NegatedBranch(n, defs) ==> r.value == n
  {
    if NegatedBranch(n, defs) then
      var args := defs[n.cond.id].args;
      if |args| == 1 then Ok(ConditionalGoto(args[0], n.falsetarget, n.truetarget)) else Failure("@not takes one argument")
    else Ok(n)
  }

  /** The block a conditional jump takes when its condition has the truth value `b`. */
  function Taken(n: Next, b: bool): BlockId
    requires n.ConditionalGoto?
  {
    if b then n.truetarget else n.falsetarget
  }

  /**
   * The rewrite keeps the meaning of the jump: whenever `x` has the truth
   * value `b`, the new jump on `x` goes where the old jump on `@not(x)`,
   * whose value is `!b`, went. Its successors are the same blocks.
   */
  lemma SwapNextTaken(n: Next, defs: map<OpId, Def>, b: bool)
    requires NegatedBranch(n, defs) && SwapNext(n, defs).Ok?
    ensures var n2 := SwapNext(n, defs).value;
      n2.ConditionalGoto? && n2.cond == defs[n.cond.id].args[0] && Taken(n2, b) == Taken(n, !b)
    ensures SetOf(NextBlocks(SwapNext(n, defs).value)) == SetOf(NextBlocks(n))
  {
  }

  /** The walked blocks with their jumps rewritten. */
  function SwappedBlocks(blocks: map<BlockId, Block>, defs: map<OpId, Def>, order: seq<BlockId>): map<BlockId, Block>
    requires forall b | b in order :: b in blocks && SwapNext(blocks[b].next, defs).Ok?
  {
    map b | b in blocks :: if b in order then Block(blocks[b].ops, SwapNext(blocks[b].next, defs).value) else blocks[b]
  }

  /** Without an `@not` jump among the walked blocks, nothing is rewritten. */
  lemma SwapIdle(blocks: map<BlockId, Block>, defs: map<OpId, Def>, order: seq<BlockId>)
    requires forall b | b in order :: b in blocks && SwapNext(blocks[b].next, defs).Ok?
    requires !exists b | b in order :: NegatedBranch(blocks[b].next, defs)
    ensures SwappedBlocks(blocks, defs, order) == blocks
  {
    var r := SwappedBlocks(blocks, defs, order);
    forall b | b in blocks ensures r[b] == blocks[b] {
      if b in order {
        assert !NegatedBranch(blocks[b].next, defs);
      }
    }
  }

  /**
   * The walk of `swap_not`. It fails on the first walked `@not` jump that
   * cannot be unpacked; otherwise every walked jump on `@not(x)` now jumps on
   * `x` with its targets exchanged, and the result says whether there was one.
   */
  method SwapOn(blocks: map<BlockId, Block>, defs: map<OpId, Def>, order: seq<BlockId>)
    returns (r: Result<bool>, blocks2: map<BlockId, Block>)
    requires forall b | b in order :: b in blocks
    ensures r.Failure? <==> exists b | b in order :: SwapNext(blocks[b].next, defs).Failure?
    ensures r.Ok? ==> (blocks2 == SwappedBlocks(blocks, defs, order) &&
      (r.value <==> exists b | b in order :: NegatedBranch(blocks[b].next, defs)))
  {
    blocks2 := blocks;
    var changed := false;
    var i := 0;
    while i < |order|
      invariant i <= |order|
      invariant forall b | b in order[..i] :: SwapNext(blocks[b].next, defs).Ok?
      invariant blocks2 == SwappedBlocks(blocks, defs, order[..i])
      invariant changed <==> exists b | b in order[..i] :: NegatedBranch(blocks[b].next, defs)
    {
      var b := order[i];
      assert forall x :: x in order[..i + 1] <==> x in order[..i] || x == b;
      var n := SwapNext(blocks[b].next, defs);
      if n.Failure? {
        return Failure(n.msg), blocks2;
      }
      if NegatedBranch(blocks[b].next, defs) {
        blocks2 := blocks2[b := Block(blocks[b].ops, n.value)];
        changed := true;
      }
      i := i + 1;
    }
    assert order[..i] == order;
    r := Ok(changed);
  }

  lemma SwappedReshaped(blocks: map<BlockId, Block>, defs: map<OpId, Def>, order: seq<BlockId>)
    requires SuccClosed(blocks) && UniqueOps(blocks)
    requires forall b | b in order :: b in blocks && SwapNext(blocks[b].next, defs).Ok?
    ensures Reshaped(blocks, SwappedBlocks(blocks, defs, order))
  {
    var r := SwappedBlocks(blocks, defs, order);
    forall b | b in r ensures forall s | s in NextBlocks(r[b].next) :: s in r {
      if b in order {
        assert SetOf(NextBlocks(r[b].next)) == SetOf(NextBlocks(blocks[b].next));
      }
    }
  }

  /**
   * The walk of `swap_not` on the graph; `Driver.SwapNotRound` adds the
   * repeated `remove_dead` that follows a change. On failure the graph is
   * left as it was.
   */
  method SwapNot(g: Graph) returns (r: Result<bool>, ghost order: seq<BlockId>)
    requires g.Valid()
    modifies g`blocks
    ensures g.Valid()
    ensures order == Dfs(old(g.blocks), [g.start], {})
    ensures r.Failure? <==> exists b | b in order :: SwapNext(old(g.blocks)[b].next, g.defs).Failure?
    ensures r.Failure? ==> g.blocks == old(g.blocks)
    ensures r.Ok? ==> (g.blocks == SwappedBlocks(old(g.blocks), g.defs, order) &&
      (r.value <==> exists b | b in order :: NegatedBranch(old(g.blocks)[b].next, g.defs)))
  {
    var walk := g.IterBlocks();
    order := walk;
    var blocks2;
    r, blocks2 := SwapOn(g.blocks, g.defs, walk);
    if r.Ok? {
      SwappedReshaped(g.blocks, g.defs, order);
      StoreBlocks(g, blocks2);
    }
  }

  // ---------------------------------------------------------------------
  // simplify_phis

  /** `set(op.prevvalues)`. */
  function Inputs(d: Def): set<Option<Value>>
    requires d.Phi?
  {
    SetOf(d.prevvalues)
  }

  /** A phi all of whose inputs are one value, or one value and the phi itself. */
  predicate TrivialPhi(o: OpId, d: Def)
  {
    d.Phi? && (|Inputs(d)| == 1 || (|Inputs(d)| == 2 && Some(OpRef(o)) in Inputs(d)))
  }

  /** The first entry of `s` other than `x`. */
  function FirstOther(s: seq<Option<Value>>, x: Option<Value>): (r: Option<Option<Value>>)
    ensures r.Some? ==> r.value in s && r.value != x
    ensures r.None? ==> forall e | e in s :: e == x
  {
    if s == [] then None
    else if s[0] != x then Some(s[0])
    else
      assert forall e | e in s :: e == s[0] || e in s[1..];
      FirstOther(s[1..], x)
  }

  /**
   * `values.discard(op); value, = values`: the one input of a trivial phi
   * other than itself. A phi that only names itself, or whose other input
   * is a placeholder, has no such value.
   */
  function PhiValue(o: OpId, d: Def): (r: Result<Value>)
    requires TrivialPhi(o, d)
    ensures r.Ok? <==> exists v :: Inputs(d) - {Some(OpRef(o))} == {Some(v)}
    ensures r.Ok? ==> Inputs(d) - {Some(OpRef(o))} == {Some(r.value)}
  {
    var e := FirstOther(d.prevvalues, Some(OpRef(o)));
    if e.None? then
      assert Inputs(d) - {Some(OpRef(o))} == {};
      Failure("phi only names itself")
    else
      RestSingle(Inputs(d), Some(OpRef(o)), e.value);
      if e.value.None? then Failure("phi input is a placeholder") else Ok(e.value.value)
  }

  lemma RestSingle(s: set<Option<Value>>, x: Option<Value>, e: Option<Value>)
    requires |s| == 1 || (|s| == 2 && x in s)
    requires e in s && e != x
    ensures s - {x} == {e}
  {
    var rest := s - {e};
    assert s == rest + {e} && e !in rest;
    if |s| == 2 {
      var r2 := rest - {x};
      assert rest == r2 + {x} && x !in r2;
      assert r2 == {};
      assert s == {x, e};
    } else {
      assert rest == {};
    }
  }

  /** `ops[:i] + ops[i+1:]`. */
  function RemoveAt(ops: seq<OpId>, i: nat): (r: seq<OpId>)
    requires i < |ops|
    ensures |r| == |ops| - 1
  {
    ops[..i] + ops[i + 1..]
  }

  lemma RemoveAtSpec(ops: seq<OpId>, i: nat)
    requires i < |ops| && Distinct(ops)
    ensures Distinct(RemoveAt(ops, i))
    ensures forall o :: o in RemoveAt(ops, i) <==> o in ops && o != ops[i]
  {
    var r := RemoveAt(ops, i);
    forall a, b | 0 <= a < b < |r| ensures r[a] != r[b] {
      var a' := if a < i then a else a + 1;
      var b' := if b < i then b else b + 1;
      assert r[a] == ops[a'] && r[b] == ops[b'];
    }
    forall o | o in ops && o != ops[i] ensures o in r {
      var k :| 0 <= k < |ops| && ops[k] == o;
      if k < i { assert r[k] == o; } else { assert r[k - 1] == o; }
    }
  }

  /**
   * The index of the first trivial phi in a block, which is the one phi
   * `simplify_phis` removes from it in a round.
   */
  function FirstTrivial(ops: seq<OpId>, defs: map<OpId, Def>, from: nat): (r: Option<nat>)
    requires from <= |ops| && forall o | o in ops :: o in defs
    ensures r.Some? ==> (from <= r.value < |ops| && TrivialPhi(ops[r.value], defs[ops[r.value]]) &&
      forall j | from <= j < r.value :: !TrivialPhi(ops[j], defs[ops[j]]))
    ensures r.None? ==> forall j | from <= j < |ops| :: !TrivialPhi(ops[j], defs[ops[j]])
    decreases |ops| - from
  {
    if from == |ops| then None
    else if TrivialPhi(ops[from], defs[ops[from]]) then Some(from)
    else FirstTrivial(ops, defs, from + 1)
  }

  /** The state `simplify_phis` threads through its walk. */
  datatype PhiState = PhiState(blocks: map<BlockId, Block>, defs: map<OpId, Def>, repl: map<Value, Value>, removed: bool)

  ghost predicate PhiStateOk(st: PhiState, start: BlockId)
  {
    start in st.blocks && SuccClosed(st.blocks) &&
    forall b | b in st.blocks :: forall o | o in st.blocks[b].ops :: o in st.defs
  }

  /**
   * What `simplify_phis` does to block `b`: the first trivial phi is
   * deleted, its value is added to the accumulated replacements, and
   * `replace_ops` applies all of them to the blocks then reachable. It fails
   * when the phi has no value, or when a reachable operation is a key.
   */
  ghost function SimplifyStep(st: PhiState, b: BlockId, start: BlockId): Result<PhiState>
    requires PhiStateOk(st, start) && b in st.blocks
  {
    var ops := st.blocks[b].ops;
    var t := FirstTrivial(ops, st.defs, 0);
    if t.None? then Ok(st)
    else
      var o := ops[t.value];
      var v := PhiValue(o, st.defs[o]);
      if v.Failure? then Failure(v.msg)
      else
        var repl := st.repl[OpRef(o) := v.value];
        var blocks1 := Deleted(st.blocks, b, t.value);
        DeletedOk(st, b, t.value, start);
        var w := ReplaceRound(blocks1, st.defs, repl, start);
        if w.Failure? then Failure(w.msg) else Ok(PhiState(w.value.0, w.value.1, repl, true))
  }

  /**
   * `graph.replace_ops(repl)`: one replacement round over the blocks
   * reachable from `start`, which fails when one of their operations is a key.
   */
  ghost function ReplaceRound(blocks: map<BlockId, Block>, defs: map<OpId, Def>, repl: map<Value, Value>, start: BlockId)
    : Result<(map<BlockId, Block>, map<OpId, Def>)>
    requires start in blocks && SuccClosed(blocks)
  {
    var reach := Reachable(blocks, start);
    if exists x | x in OpsOf(blocks, reach) :: OpRef(x) in repl then Failure("replaced operation still in use")
    else Ok((ReplaceNexts(blocks, reach, repl), ReplaceDefs(defs, OpsOf(blocks, reach), repl)))
  }

  /** Block `b` without its operation at index `i`. */
  function Deleted(blocks: map<BlockId, Block>, b: BlockId, i: nat): map<BlockId, Block>
    requires b in blocks && i < |blocks[b].ops|
  {
    blocks[b := Block(RemoveAt(blocks[b].ops, i), blocks[b].next)]
  }

  lemma DeletedOk(st: PhiState, b: BlockId, i: nat, start: BlockId)
    requires PhiStateOk(st, start) && b in st.blocks && i < |st.blocks[b].ops|
    ensures PhiStateOk(st.(blocks := Deleted(st.blocks, b, i)), start)
  {
    var ops := st.blocks[b].ops;
    assert forall x | x in RemoveAt(ops, i) :: x in ops;
  }

  /** A step keeps the blocks and the edges between them, and every slot. */
  lemma SimplifyStepOk(st: PhiState, b: BlockId, start: BlockId)
    requires PhiStateOk(st, start) && b in st.blocks
    ensures var r := SimplifyStep(st, b, start);
      r.Ok? ==> PhiStateOk(r.value, start) && r.value.blocks.Keys == st.blocks.Keys && r.value.defs.Keys == st.defs.Keys
  {
    var ops := st.blocks[b].ops;
    var t := FirstTrivial(ops, st.defs, 0);
    if t.Some? {
      var o := ops[t.value];
      var v := PhiValue(o, st.defs[o]);
      if v.Ok? {
        var repl := st.repl[OpRef(o) := v.value];
        var blocks1 := Deleted(st.blocks, b, t.value);
        DeletedOk(st, b, t.value, start);
        ReplaceNextsShape(blocks1, Reachable(blocks1, start), repl);
      }
    }
  }

  /** A walk of `simplify_phis` over the blocks of `order`, in order. */
  ghost function SimplifyWalk(st: PhiState, order: seq<BlockId>, start: BlockId): Result<PhiState>
    requires PhiStateOk(st, start) && forall b | b in order :: b in st.blocks
    decreases |order|
  {
    if order == [] then Ok(st)
    else
      var r := SimplifyStep(st, order[0], start);
      SimplifyStepOk(st, order[0], start);
      if r.Failure? then r else SimplifyWalk(r.value, order[1..], start)
  }

  /**
   * A replacement round keeps every block's operations, and every reachable
   * use of a key, in an operation, a phi input or a branch condition, now
   * names its replacement.
   */
  lemma ReplaceRoundSpec(blocks: map<BlockId, Block>, defs: map<OpId, Def>, repl: map<Value, Value>, start: BlockId)
    requires start in blocks && SuccClosed(blocks) && ReplaceRound(blocks, defs, repl, start).Ok?
    ensures var w := ReplaceRound(blocks, defs, repl, start).value; var reach := Reachable(blocks, start);
      w.0.Keys == blocks.Keys && (forall x | x in blocks :: w.0[x].ops == blocks[x].ops) &&
      w.1.Keys == defs.Keys && (forall x | x in defs :: w.1[x].Phi? == defs[x].Phi?) &&
      (forall x | x in reach && blocks[x].next.ConditionalGoto? && blocks[x].next.cond in repl ::
         w.0[x].next == ConditionalGoto(repl[blocks[x].next.cond], blocks[x].next.truetarget, blocks[x].next.falsetarget)) &&
      (forall x, i | x in OpsOf(blocks, reach) && x in defs && defs[x].Op? && 0 <= i < |defs[x].args| && defs[x].args[i] in repl ::
         w.1[x].Op? && |w.1[x].args| == |defs[x].args| && w.1[x].args[i] == repl[defs[x].args[i]]) &&
      (forall x, i | x in OpsOf(blocks, reach) && x in defs && defs[x].Phi? && 0 <= i < |defs[x].prevvalues| &&
                     defs[x].prevvalues[i].Some? && defs[x].prevvalues[i].value in repl ::
         w.1[x].Phi? && |w.1[x].prevvalues| == |defs[x].prevvalues| &&
         w.1[x].prevvalues[i] == Some(repl[defs[x].prevvalues[i].value]))
  {
  }

  /**
   * One step of `simplify_phis` on block `b`: a block without a trivial phi is
   * left alone. Otherwise exactly its first trivial phi is deleted (the
   * other operations stay, in order) and recorded with its one other input.
   */
  lemma SimplifyStepSpec(st: PhiState, b: BlockId, start: BlockId)
    requires PhiStateOk(st, start) && b in st.blocks
    ensures FirstTrivial(st.blocks[b].ops, st.defs, 0).None? ==> SimplifyStep(st, b, start) == Ok(st)
    ensures var ops := st.blocks[b].ops; var t := FirstTrivial(ops, st.defs, 0); var r := SimplifyStep(st, b, start);
      t.Some? && r.Ok? ==>
        var o := ops[t.value];
        OpRef(o) in r.value.repl && r.value.removed &&
        var v := r.value.repl[OpRef(o)];
        r.value.repl == st.repl[OpRef(o) := v] && Inputs(st.defs[o]) - {Some(OpRef(o))} == {Some(v)} &&
        r.value.blocks.Keys == st.blocks.Keys &&
        r.value.blocks[b].ops == ops[..t.value] + ops[t.value + 1..] &&
        (forall x | x in st.blocks && x != b :: r.value.blocks[x].ops == st.blocks[x].ops) &&
        r.value.defs.Keys == st.defs.Keys && (forall x | x in st.defs :: r.value.defs[x].Phi? == st.defs[x].Phi?)
  {
    var ops := st.blocks[b].ops;
    var t := FirstTrivial(ops, st.defs, 0);
    if t.Some? && SimplifyStep(st, b, start).Ok? {
      var o := ops[t.value];
      var v := PhiValue(o, st.defs[o]);
      var repl := st.repl[OpRef(o) := v.value];
      var blocks1 := Deleted(st.blocks, b, t.value);
      DeletedOk(st, b, t.value, start);
      ReplaceRoundSpec(blocks1, st.defs, repl, start);
    }
  }

  /**
   * After a step that deleted the trivial phi `o`, every reachable use of
   * `o`, in an operation, a phi input or a branch condition, names the
   * value it was replaced by.
   */
  lemma SimplifyStepUses(st: PhiState, b: BlockId, start: BlockId, t: nat, o: OpId)
    requires PhiStateOk(st, start) && b in st.blocks
    requires FirstTrivial(st.blocks[b].ops, st.defs, 0) == Some(t) && o == st.blocks[b].ops[t]
    requires SimplifyStep(st, b, start).Ok?
    ensures var r := SimplifyStep(st, b, start).value; var reach := Reachable(st.blocks, start);
      OpRef(o) in r.repl &&
      var v := r.repl[OpRef(o)];
      (forall x | x in reach && st.blocks[x].next.ConditionalGoto? && st.blocks[x].next.cond == OpRef(o) ::
         r.blocks[x].next == ConditionalGoto(v, st.blocks[x].next.truetarget, st.blocks[x].next.falsetarget)) &&
      (forall x, i | x in OpsOf(Deleted(st.blocks, b, t), reach) && x in st.defs && st.defs[x].Op? &&
                     0 <= i < |st.defs[x].args| && st.defs[x].args[i] == OpRef(o) ::
         r.defs[x].Op? && |r.defs[x].args| == |st.defs[x].args| && r.defs[x].args[i] == v) &&
      (forall x, i | x in OpsOf(Deleted(st.blocks, b, t), reach) && x in st.defs && st.defs[x].Phi? &&
                     0 <= i < |st.defs[x].prevvalues| && st.defs[x].prevvalues[i] == Some(OpRef(o)) ::
         r.defs[x].Phi? && |r.defs[x].prevvalues| == |st.defs[x].prevvalues| && r.defs[x].prevvalues[i] == Some(v))
  {
    var v := PhiValue(o, st.defs[o]);
    var repl := st.repl[OpRef(o) := v.value];
    var blocks1 := Deleted(st.blocks, b, t);
    DeletedOk(st, b, t, start);
    assert SameEdges(blocks1, st.blocks);
    DfsShape(blocks1, st.blocks, [start], {});
    ReplaceRoundSpec(blocks1, st.defs, repl, start);
  }

  /**
   * What a walk of `simplify_phis` keeps: the blocks and the slots, and
   * which slots hold phis; an operation leaves its block only if it is a
   * phi, and then it is recorded as replaced; no operation is added; and
   * without a removal nothing changes.
   */
  ghost predicate PhisKept(s0: PhiState, s1: PhiState)
  {
    s1.blocks.Keys == s0.blocks.Keys && s0.repl.Keys <= s1.repl.Keys &&
    (s0.removed ==> s1.removed) && (!s1.removed ==> s1 == s0) &&
    s1.defs.Keys == s0.defs.Keys && (forall x | x in s0.defs :: s1.defs[x].Phi? == s0.defs[x].Phi?) &&
    (forall x, o | x in s0.blocks && o in s0.blocks[x].ops ::
       o in s1.blocks[x].ops || (o in s0.defs && s0.defs[o].Phi? && OpRef(o) in s1.repl)) &&
    (forall x, o | x in s0.blocks && o in s1.blocks[x].ops :: o in s0.blocks[x].ops)
  }

  lemma PhisKeptTrans(s0: PhiState, s1: PhiState, s2: PhiState)
    requires PhisKept(s0, s1) && PhisKept(s1, s2)
    ensures PhisKept(s0, s2)
  {
    forall x, o | x in s0.blocks && o in s0.blocks[x].ops
      ensures o in s2.blocks[x].ops || (o in s0.defs && s0.defs[o].Phi? && OpRef(o) in s2.repl)
    {
      if o in s1.blocks[x].ops {
        assert o in s2.blocks[x].ops || (o in s1.defs && s1.defs[o].Phi? && OpRef(o) in s2.repl);
      }
    }
  }

  lemma PhisKeptStep(st: PhiState, b: BlockId, start: BlockId)
    requires PhiStateOk(st, start) && b in st.blocks && SimplifyStep(st, b, start).Ok?
    ensures PhisKept(st, SimplifyStep(st, b, start).value)
  {
    SimplifyStepSpec(st, b, start);
    var ops := st.blocks[b].ops;
    var t := FirstTrivial(ops, st.defs, 0);
    if t.Some? {
      PhisKeptDelete(st, SimplifyStep(st, b, start).value, b, t.value);
    }
  }

  /** Deleting the phi at index `t` of block `b`, recorded as replaced, keeps what `PhisKept` says. */
  lemma PhisKeptDelete(st: PhiState, s1: PhiState, b: BlockId, t: nat)
    requires b in st.blocks && t < |st.blocks[b].ops| && st.blocks[b].ops[t] in st.defs
    requires var o := st.blocks[b].ops[t];
      st.defs[o].Phi? && OpRef(o) in s1.repl && st.repl.Keys <= s1.repl.Keys && s1.removed &&
      s1.blocks.Keys == st.blocks.Keys && s1.blocks[b].ops == st.blocks[b].ops[..t] + st.blocks[b].ops[t + 1..] &&
      (forall x | x in st.blocks && x != b :: s1.blocks[x].ops == st.blocks[x].ops) &&
      s1.defs.Keys == st.defs.Keys && (forall x | x in st.defs :: s1.defs[x].Phi? == st.defs[x].Phi?)
    ensures PhisKept(st, s1)
  {
    var ops := st.blocks[b].ops;
    var o := ops[t];
    forall x, p | x in st.blocks && p in st.blocks[x].ops
      ensures p in s1.blocks[x].ops || (p in st.defs && st.defs[p].Phi? && OpRef(p) in s1.repl)
    {
      if x == b && p != o {
        var k :| 0 <= k < |ops| && ops[k] == p;
        if k < t { assert s1.blocks[b].ops[k] == p; }
        else { assert s1.blocks[b].ops[k - 1] == p; }
      }
    }
    forall x, p | x in st.blocks && p in s1.blocks[x].ops ensures p in st.blocks[x].ops {
      if x == b {
        assert forall q | q in ops[..t] + ops[t + 1..] :: q in ops;
      }
    }
  }

  /** A walk of `simplify_phis` keeps what `PhisKept` says. */
  lemma {:induction false} SimplifyWalkKeeps(st: PhiState, order: seq<BlockId>, start: BlockId)
    requires PhiStateOk(st, start) && forall b | b in order :: b in st.blocks
    ensures SimplifyWalk(st, order, start).Ok? ==> PhisKept(st, SimplifyWalk(st, order, start).value)
    decreases |order|
  {
    if order != [] {
      var b := order[0];
      SimplifyStepOk(st, b, start);
      var r := SimplifyStep(st, b, start);
      if r.Ok? {
        PhisKeptStep(st, b, start);
        SimplifyWalkKeeps(r.value, order[1..], start);
        if SimplifyWalk(st, order, start).Ok? {
          PhisKeptTrans(st, r.value, SimplifyWalk(st, order, start).value);
        }
      }
    }
  }

  /** `del block.operations[i]` on the graph. */
  method DeleteOp(g: Graph, b: BlockId, i: nat)
    requires g.Valid() && b in g.blocks && i < |g.blocks[b].ops|
    modifies g`blocks
    ensures g.Valid() && g.blocks == Deleted(old(g.blocks), b, i)
  {
    var blocks := Deleted(g.blocks, b, i);
    RemoveAtSpec(g.blocks[b].ops, i);
    assert Thinned(g.blocks, blocks);
    ThinnedReshaped(g.blocks, blocks);
    StoreBlocks(g, blocks);
  }

  /**
   * One round of `simplify_phis`, walking the blocks as `iterblocks` does
   * (the walk only changes operations, never edges, so the blocks are
   * visited in the order of the graph it started on). The result says
   * whether a phi was removed.
   */
  method SimplifyPhis(g: Graph) returns (r: Result<bool>, ghost order: seq<BlockId>)
    requires g.Valid()
    modifies g`blocks, g`defs
    ensures g.Valid()
    ensures order == Dfs(old(g.blocks), [g.start], {})
    ensures var w := SimplifyWalk(PhiState(old(g.blocks), old(g.defs), map[], false), order, g.start);
      (r.Failure? <==> w.Failure?) &&
      (r.Ok? ==> g.blocks == w.value.blocks && g.defs == w.value.defs && r.value == w.value.removed)
  {
    var walk := g.IterBlocks();
    order := walk;
    ghost var init := PhiState(g.blocks, g.defs, map[], false);
    var repl: map<Value, Value> := map[];
    var removed := false;
    var i := 0;
    while i < |walk|
      invariant i <= |walk| && g.Valid() && g.blocks.Keys == init.blocks.Keys
      invariant SimplifyWalk(init, walk, g.start) == SimplifyWalk(PhiState(g.blocks, g.defs, repl, removed), walk[i..], g.start)
    {
      WalkUnfold(PhiState(g.blocks, g.defs, repl, removed), walk, i, g.start);
      var s := SimplifyBlock(g, walk[i], repl, removed);
      if s.Failure? {
        return Failure(s.msg), order;
      }
      repl, removed := s.value.0, s.value.1;
      i := i + 1;
    }
    r := Ok(removed);
  }

  lemma WalkUnfold(st: PhiState, walk: seq<BlockId>, i: nat, start: BlockId)
    requires PhiStateOk(st, start) && i < |walk| && forall b | b in walk :: b in st.blocks
    ensures var s := SimplifyStep(st, walk[i], start);
      s.Ok? ==> PhiStateOk(s.value, start) && s.value.blocks.Keys == st.blocks.Keys
    ensures var s := SimplifyStep(st, walk[i], start);
      SimplifyWalk(st, walk[i..], start) == if s.Failure? then s else SimplifyWalk(s.value, walk[i + 1..], start)
  {
    SimplifyStepOk(st, walk[i], start);
    assert walk[i..][0] == walk[i] && walk[i..][1..] == walk[i + 1..];
  }

  /** The work of `simplify_phis` on one block. */
  method SimplifyBlock(g: Graph, b: BlockId, repl: map<Value, Value>, removed: bool) returns (r: Result<(map<Value, Value>, bool)>)
    requires g.Valid() && b in g.blocks
    modifies g`blocks, g`defs
    ensures g.Valid() && g.blocks.Keys == old(g.blocks).Keys
    ensures var s := SimplifyStep(PhiState(old(g.blocks), old(g.defs), repl, removed), b, g.start);
      (r.Failure? <==> s.Failure?) &&
      (r.Ok? ==> s.value == PhiState(g.blocks, g.defs, r.value.0, r.value.1))
  {
    var ops := g.blocks[b].ops;
    var t := FirstTrivial(ops, g.defs, 0);
    if t.None? {
      return Ok((repl, removed));
    }
    var o := ops[t.value];
    var v := PhiValue(o, g.defs[o]);
    if v.Failure? {
      return Failure(v.msg);
    }
    var repl' := repl[OpRef(o) := v.value];
    DeleteOp(g, b, t.value);
    var ok := ReplaceAll(g, repl');
    if !ok {
      return Failure("replaced operation still in use");
    }
    r := Ok((repl', true));
  }

  /** `graph.replace_ops(repl)`, whose own result the passes ignore. */
  method ReplaceAll(g: Graph, repl: map<Value, Value>) returns (ok: bool)
    requires g.Valid()
    modifies g`blocks, g`defs
    ensures g.Valid() && g.blocks.Keys == old(g.blocks).Keys
    ensures var w := ReplaceRound(old(g.blocks), old(g.defs), repl, g.start);
      (ok <==> w.Ok?) && (ok ==> g.blocks == w.value.0 && g.defs == w.value.1)
  {
    var _, ok' := g.ReplaceOps(repl);
    ok := ok';
  }

  /**
   * `simplify_phis` as the source has it: the round is done, but the result
   * is always `False`, so `repeat` stops after one round.
   */
  method SimplifyPhisAsWritten(g: Graph) returns (r: Result<bool>, ghost order: seq<BlockId>)
    requires g.Valid()
    modifies g`blocks, g`defs
    ensures g.Valid()
    ensures order == Dfs(old(g.blocks), [g.start], {})
    ensures var w := SimplifyWalk(PhiState(old(g.blocks), old(g.defs), map[], false), order, g.start);
      (r.Failure? <==> w.Failure?) &&
      (r.Ok? ==> g.blocks == w.value.blocks && g.defs == w.value.defs && !r.value)
  {
    r, order := SimplifyPhis(g);
    if r.Ok? {
      r := Ok(false);
    }
  }

  /**
   * A round removes a phi exactly when some walked block holds a trivial
   * phi at the start of the round; a round that removes none leaves the
   * state as it was.
   */
  lemma {:induction false} SimplifyRemoved(st: PhiState, order: seq<BlockId>, start: BlockId)
    requires PhiStateOk(st, start) && forall b | b in order :: b in st.blocks
    requires !st.removed && SimplifyWalk(st, order, start).Ok?
    ensures var w := SimplifyWalk(st, order, start).value;
      (w.removed <==> exists b | b in order :: FirstTrivial(st.blocks[b].ops, st.defs, 0).Some?) &&
      (!w.removed ==> w == st)
    decreases |order|
  {
    if order != [] {
      var b := order[0];
      SimplifyStepOk(st, b, start);
      var s := SimplifyStep(st, b, start).value;
      assert forall x :: x in order <==> x == b || x in order[1..];
      if FirstTrivial(st.blocks[b].ops, st.defs, 0).None? {
        SimplifyRemoved(st, order[1..], start);
      } else {
        SimplifyKeepsRemoved(s, order[1..], start);
      }
    }
  }

  /** Once a round has removed a phi, it reports so. */
  lemma {:induction false} SimplifyKeepsRemoved(st: PhiState, order: seq<BlockId>, start: BlockId)
    requires PhiStateOk(st, start) && forall b | b in order :: b in st.blocks
    requires st.removed && SimplifyWalk(st, order, start).Ok?
    ensures SimplifyWalk(st, order, start).value.removed
    decreases |order|
  {
    if order != [] {
      SimplifyStepOk(st, order[0], start);
      SimplifyKeepsRemoved(SimplifyStep(st, order[0], start).value, order[1..], start);
    }
  }

  /** A round in which no argument names a key changes no terminator. */
  lemma ReplaceNextsIdle(blocks: map<BlockId, Block>, bs: set<BlockId>, repl: map<Value, Value>)
    requires forall b | b in bs && b in blocks :: !Mentions(ReplaceableNextArgs(blocks[b].next), repl)
    ensures ReplaceNexts(blocks, bs, repl) == blocks
  {
    forall b | b in bs && b in blocks ensures ReplaceInNext(blocks[b].next, repl) == blocks[b].next {
      ReplaceInNextSpec(blocks[b].next, repl);
    }
  }

  /** A round in which no argument names a key changes no operation. */
  lemma ReplaceDefsIdle(defs: map<OpId, Def>, ops: set<OpId>, repl: map<Value, Value>)
    requires forall o | o in ops && o in defs :: !Mentions(DefArgs(defs[o]), repl)
    ensures ReplaceDefs(defs, ops, repl) == defs
  {
    forall o | o in ops && o in defs ensures ReplaceInDef(defs[o], repl) == defs[o] {
      ReplaceInDefSpec(defs[o], repl);
    }
  }

  /** A start block jumping to a block with two trivial phis. */
  const TwoPhiBlocks: map<BlockId, Block> := map[0 := Block([], Goto(1)), 1 := Block([5, 6], Return(Some(OpRef(6))))]
  const TwoPhiDefs: map<OpId, Def> :=
    map[5 := Phi([0], [Some(Argument("x", Int))], Int), 6 := Phi([0], [Some(Argument("y", Int))], Int)]
  /** The same blocks once the first phi is deleted. */
  const OnePhiBlocks: map<BlockId, Block> := map[0 := Block([], Goto(1)), 1 := Block([6], Return(Some(OpRef(6))))]

  lemma TwoPhiWalk()
    ensures SuccClosed(TwoPhiBlocks) && Dfs(TwoPhiBlocks, [0], {}) == [0, 1]
    ensures SuccClosed(OnePhiBlocks) && Reachable(OnePhiBlocks, 0) == {0, 1}
  {
    TwoPhiDfs();
    OnePhiDfs();
  }

  lemma TwoPhiDfs()
    ensures SuccClosed(TwoPhiBlocks) && Dfs(TwoPhiBlocks, [0], {}) == [0, 1]
  {
    assert NextBlocks(TwoPhiBlocks[0].next) == [1] && NextBlocks(TwoPhiBlocks[1].next) == [];
    assert Dfs(TwoPhiBlocks, [1], {0}) == [1] + Dfs(TwoPhiBlocks, [], {0, 1});
  }

  lemma OnePhiDfs()
    ensures SuccClosed(OnePhiBlocks) && Reachable(OnePhiBlocks, 0) == {0, 1}
  {
    assert NextBlocks(OnePhiBlocks[0].next) == [1] && NextBlocks(OnePhiBlocks[1].next) == [];
    assert Dfs(OnePhiBlocks, [1], {0}) == [1] + Dfs(OnePhiBlocks, [], {0, 1});
  }

  lemma OnePhiOps()
    ensures OpsOf(OnePhiBlocks, {0, 1}) == {6}
  {
    assert 6 in OnePhiBlocks[1].ops;
    forall x | x in OpsOf(OnePhiBlocks, {0, 1}) ensures x == 6 {
      var b :| b in {0, 1} && b in OnePhiBlocks && x in OnePhiBlocks[b].ops;
      assert OnePhiBlocks[0].ops == [] && OnePhiBlocks[1].ops == [6];
    }
  }

  lemma OnePhiIdle()
    ensures ReplaceNexts(OnePhiBlocks, {0, 1}, map[OpRef(5) := Argument("x", Int)]) == OnePhiBlocks
    ensures ReplaceDefs(TwoPhiDefs, {6}, map[OpRef(5) := Argument("x", Int)]) == TwoPhiDefs
  {
    var repl := map[OpRef(5) := Argument("x", Int)];
    assert ReplaceableNextArgs(OnePhiBlocks[1].next) == [OpRef(6)];
    ReplaceNextsIdle(OnePhiBlocks, {0, 1}, repl);
    assert DefArgs(TwoPhiDefs[6]) == [Argument("y", Int)];
    ReplaceDefsIdle(TwoPhiDefs, {6}, repl);
  }

  lemma TwoPhiRound()
    ensures SuccClosed(OnePhiBlocks) && 0 in OnePhiBlocks
    ensures ReplaceRound(OnePhiBlocks, TwoPhiDefs, map[OpRef(5) := Argument("x", Int)], 0) == Ok((OnePhiBlocks, TwoPhiDefs))
  {
    TwoPhiWalk();
    OnePhiOps();
    OnePhiIdle();
  }

  lemma TwoPhiFirst()
    ensures FirstTrivial([5, 6], TwoPhiDefs, 0) == Some(0)
    ensures PhiValue(5, TwoPhiDefs[5]) == Ok(Argument("x", Int))
    ensures Deleted(TwoPhiBlocks, 1, 0) == OnePhiBlocks
  {
    assert SetOf(TwoPhiDefs[5].prevvalues) == {Some(Argument("x", Int))};
    assert RemoveAt([5, 6], 0) == [6];
  }

  lemma TwoPhiStep()
    requires PhiStateOk(PhiState(TwoPhiBlocks, TwoPhiDefs, map[], false), 0)
    ensures SimplifyStep(PhiState(TwoPhiBlocks, TwoPhiDefs, map[], false), 1, 0) ==
      Ok(PhiState(OnePhiBlocks, TwoPhiDefs, map[OpRef(5) := Argument("x", Int)], true))
  {
    TwoPhiFirst();
    TwoPhiRound();
  }

  /**
   * A block with two trivial phis: one round removes the first and reports
   * a change, and the second is still trivial afterwards. Since the source's
   * version reports no change, `repeat` stops here with a trivial phi left.
   */
  lemma SimplifyLeavesSecondPhi()
    ensures PhiStateOk(PhiState(TwoPhiBlocks, TwoPhiDefs, map[], false), 0) && Dfs(TwoPhiBlocks, [0], {}) == [0, 1]
    ensures SimplifyWalk(PhiState(TwoPhiBlocks, TwoPhiDefs, map[], false), [0, 1], 0) ==
      Ok(PhiState(OnePhiBlocks, TwoPhiDefs, map[OpRef(5) := Argument("x", Int)], true))
    ensures OnePhiBlocks[1].ops == [6] && TrivialPhi(6, TwoPhiDefs[6])
  {
    var st := PhiState(TwoPhiBlocks, TwoPhiDefs, map[], false);
    TwoPhiOk();
    TwoPhiStep();
    var s := PhiState(OnePhiBlocks, TwoPhiDefs, map[OpRef(5) := Argument("x", Int)], true);
    WalkPair(st, 0, 1, 0);
    assert SetOf(TwoPhiDefs[6].prevvalues) == {Some(Argument("y", Int))};
  }

  lemma TwoPhiOk()
    ensures PhiStateOk(PhiState(TwoPhiBlocks, TwoPhiDefs, map[], false), 0) && Dfs(TwoPhiBlocks, [0], {}) == [0, 1]
    ensures SimplifyStep(PhiState(TwoPhiBlocks, TwoPhiDefs, map[], false), 0, 0) == Ok(PhiState(TwoPhiBlocks, TwoPhiDefs, map[], false))
  {
    TwoPhiWalk();
  }

  /** A walk over two blocks whose first step changes nothing is the second step. */
  lemma WalkPair(st: PhiState, a: BlockId, b: BlockId, start: BlockId)
    requires PhiStateOk(st, start) && a in st.blocks && b in st.blocks
    requires SimplifyStep(st, a, start) == Ok(st)
    ensures SimplifyWalk(st, [a, b], start) == SimplifyStep(st, b, start)
  {
    assert [a, b][1..] == [b] && [b][1..] == [];
    SimplifyStepOk(st, b, start);
    assert SimplifyWalk(st, [a, b], start) == SimplifyWalk(st, [b], start);
    var s := SimplifyStep(st, b, start);
    if s.Ok? {
      assert SimplifyWalk(st, [b], start) == SimplifyWalk(s.value, [], start);
    }
  }
}
