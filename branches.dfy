/**
 * The passes that rewrite the control flow: folding jumps on constants,
 * pruning the phi inputs of blocks that became unreachable, skipping empty
 * blocks and joining a block with its only successor.
 */
module Branches {
  import opened Wrappers
  import opened Types
  import opened Ir
  import opened IrGraph
  import opened Passes

  // ---------------------------------------------------------------------
  // remove_if_true_false

  /** A conditional jump on a boolean constant. */
  predicate ConstantBranch(n: Next)
  {
    n.ConditionalGoto? && n.cond.Const? && n.cond.c.BooleanConstant?
  }

  /** A jump on a constant becomes a `Goto` to the target it always takes. */
  function FoldNext(n: Next): (r: Next)
    ensures ConstantBranch(n) ==> r == Goto(Taken(n, n.cond.c.b))
    ensures !ConstantBranch(n) ==> r == n
    ensures !ConstantBranch(r)
    ensures forall s | s in NextBlocks(r) :: s in NextBlocks(n)
  {
    if ConstantBranch(n) then Goto(Taken(n, n.cond.c.b)) else n
  }

  /** Every block with its jump folded, which is the graph the walk of `remove_if_true_false` follows. */
  function Folded(blocks: map<BlockId, Block>): (r: map<BlockId, Block>)
    ensures r.Keys == blocks.Keys
    ensures SuccClosed(blocks) ==> SuccClosed(r)
  {
    map b | b in blocks :: Block(blocks[b].ops, FoldNext(blocks[b].next))
  }

  /** The blocks of `seen` folded, the others untouched. */
  function FoldedIn(blocks: map<BlockId, Block>, seen: set<BlockId>): (r: map<BlockId, Block>)
    ensures r.Keys == blocks.Keys
  {
    map b | b in blocks :: if b in seen then Block(blocks[b].ops, FoldNext(blocks[b].next)) else blocks[b]
  }

  /**
   * The walk of `remove_if_true_false`: each block is folded when it is
   * visited, before its successors are pushed, so a branch that is never
   * taken is not followed. The walk is therefore the walk of the folded
   * graph, and only the blocks it visits are folded.
   */
  method FoldWalk(blocks: map<BlockId, Block>, start: BlockId) returns (blocks': map<BlockId, Block>, ghost order: seq<BlockId>, changed: bool)
    requires SuccClosed(blocks) && start in blocks
    ensures order == Dfs(Folded(blocks), [start], {})
    ensures blocks' == FoldedIn(blocks, SetOf(order))
    ensures changed <==> exists b | b in order :: ConstantBranch(blocks[b].next)
  {
    var todo := [start];
    var seen: set<BlockId> := {};
    blocks', order, changed := blocks, [], false;
    assert FoldedIn(blocks, {}) == blocks;
    while todo != []
      invariant FoldInv(blocks, start, todo, seen, order, blocks', changed)
      decreases |blocks.Keys - seen|, |todo|
    {
      var b := todo[|todo| - 1];
      if b in seen {
        FoldSkip(blocks, start, todo, seen, order, blocks', changed);
        todo := todo[..|todo| - 1];
        continue;
      }
      FoldVisit(blocks, start, todo, seen, order, blocks', changed);
      CardRemove(blocks.Keys, seen, b);
      var n := blocks'[b].next;
      changed := changed || ConstantBranch(n);
      blocks' := blocks'[b := Block(blocks'[b].ops, FoldNext(n))];
      order := order + [b];
      seen := seen + {b};
      todo := todo[..|todo| - 1] + NextBlocks(FoldNext(n));
    }
  }

  /** The loop invariant of `FoldWalk`. */
  ghost predicate FoldInv(blocks: map<BlockId, Block>, start: BlockId, todo: seq<BlockId>, seen: set<BlockId>,
                          order: seq<BlockId>, cur: map<BlockId, Block>, changed: bool)
  {
    SuccClosed(blocks) && start in blocks &&
    (forall t | t in todo :: t in blocks) &&
    order + Dfs(Folded(blocks), todo, seen) == Dfs(Folded(blocks), [start], {}) &&
    SetOf(order) == seen && cur == FoldedIn(blocks, seen) &&
    (forall b | b in order :: b in blocks) &&
    (changed <==> exists b | b in order :: ConstantBranch(blocks[b].next))
  }

  lemma FoldSkip(blocks: map<BlockId, Block>, start: BlockId, todo: seq<BlockId>, seen: set<BlockId>,
                 order: seq<BlockId>, cur: map<BlockId, Block>, changed: bool)
    requires FoldInv(blocks, start, todo, seen, order, cur, changed)
    requires todo != [] && todo[|todo| - 1] in seen
    ensures FoldInv(blocks, start, todo[..|todo| - 1], seen, order, cur, changed)
  {
    DfsPop(Folded(blocks), todo, seen);
  }

  lemma FoldVisit(blocks: map<BlockId, Block>, start: BlockId, todo: seq<BlockId>, seen: set<BlockId>,
                  order: seq<BlockId>, cur: map<BlockId, Block>, changed: bool)
    requires FoldInv(blocks, start, todo, seen, order, cur, changed)
    requires todo != [] && todo[|todo| - 1] !in seen
    ensures todo[|todo| - 1] in cur && cur[todo[|todo| - 1]] == blocks[todo[|todo| - 1]]
    ensures
      var b := todo[|todo| - 1];
      var n := blocks[b].next;
      FoldInv(blocks, start, todo[..|todo| - 1] + NextBlocks(FoldNext(n)), seen + {b}, order + [b],
              cur[b := Block(blocks[b].ops, FoldNext(n))], changed || ConstantBranch(n))
  {
    var b := todo[|todo| - 1];
    var folded := Folded(blocks);
    DfsPop(folded, todo, seen);
    assert Succ(folded, b) == NextBlocks(FoldNext(blocks[b].next));
    FoldedStep(blocks, seen, b);
    assert SetOf(order + [b]) == seen + {b};
    BranchSnoc(blocks, order, b);
  }

  lemma BranchSnoc(blocks: map<BlockId, Block>, order: seq<BlockId>, b: BlockId)
    requires b in blocks && forall x | x in order :: x in blocks
    ensures (exists x | x in order + [b] :: ConstantBranch(blocks[x].next)) <==>
            ((exists x | x in order :: ConstantBranch(blocks[x].next)) || ConstantBranch(blocks[b].next))
  {
    if ConstantBranch(blocks[b].next) {
      assert b in order + [b];
    }
    if x :| x in order && ConstantBranch(blocks[x].next) {
      assert x in order + [b];
    }
  }

  lemma FoldedStep(blocks: map<BlockId, Block>, seen: set<BlockId>, b: BlockId)
    requires b in blocks && b !in seen
    ensures FoldedIn(blocks, seen)[b := Block(blocks[b].ops, FoldNext(blocks[b].next))] == FoldedIn(blocks, seen + {b})
  {
  }

  // ---------------------------------------------------------------------
  // _remove_unreachable_phi_prevvalues

  /** `zip(prevblocks, prevvalues)`: the pairs up to the shorter of the two lists. */
  function Zip(pbs: seq<BlockId>, pvs: seq<Option<Value>>): (r: seq<(BlockId, Option<Value>)>)
    ensures |r| == if |pbs| < |pvs| then |pbs| else |pvs|
    ensures forall i | 0 <= i < |r| :: r[i] == (pbs[i], pvs[i])
  {
    if pbs == [] || pvs == [] then [] else [(pbs[0], pvs[0])] + Zip(pbs[1..], pvs[1..])
  }

  /**
   * The pairs whose block is reachable, in order, each value looked up in
   * the replacements made so far.
   */
  function KeepReachable(es: seq<(BlockId, Option<Value>)>, reach: set<BlockId>, repl: map<Value, Value>)
    : seq<(BlockId, Option<Value>)>
  {
    if es == [] then []
    else
      var rest := KeepReachable(es[..|es| - 1], reach, repl);
      var e := es[|es| - 1];
      if e.0 in reach then rest + [(e.0, ReplacedOpt(e.1, repl))] else rest
  }

  lemma {:induction false} KeepReachableSpec(es: seq<(BlockId, Option<Value>)>, reach: set<BlockId>, repl: map<Value, Value>)
    ensures forall e | e in KeepReachable(es, reach, repl) :: e.0 in reach
    ensures forall pb, v :: (pb, v) in KeepReachable(es, reach, repl) <==>
      exists w :: (pb, w) in es && pb in reach && v == ReplacedOpt(w, repl)
  {
    if es != [] {
      var init := es[..|es| - 1];
      KeepReachableSpec(init, reach, repl);
      Snoc(es);
      var e := es[|es| - 1];
      forall pb, v | (exists w :: (pb, w) in es && pb in reach && v == ReplacedOpt(w, repl))
        ensures (pb, v) in KeepReachable(es, reach, repl)
      {
        var w :| (pb, w) in es && pb in reach && v == ReplacedOpt(w, repl);
        if (pb, w) != e {
          assert (pb, w) in init;
        }
      }
    }
  }

  function Firsts(es: seq<(BlockId, Option<Value>)>): (r: seq<BlockId>)
    ensures |r| == |es| && forall i | 0 <= i < |es| :: r[i] == es[i].0
  {
    seq(|es|, i requires 0 <= i < |es| => es[i].0)
  }

  function Seconds(es: seq<(BlockId, Option<Value>)>): (r: seq<Option<Value>>)
    ensures |r| == |es| && forall i | 0 <= i < |es| :: r[i] == es[i].1
  {
    seq(|es|, i requires 0 <= i < |es| => es[i].1)
  }

  lemma ZipSplit(es: seq<(BlockId, Option<Value>)>)
    ensures Zip(Firsts(es), Seconds(es)) == es
  {
  }

  /** A phi with the inputs from unreachable blocks dropped; the two lists stay aligned. */
  function PrunedPhi(d: Def, reach: set<BlockId>, repl: map<Value, Value>): (r: Def)
    requires d.Phi?
    ensures r.Phi? && r.typ == d.typ && |r.prevblocks| == |r.prevvalues|
  {
    var kept := KeepReachable(Zip(d.prevblocks, d.prevvalues), reach, repl);
    Phi(Firsts(kept), Seconds(kept), d.typ)
  }

  /**
   * The inputs of the pruned phi are the inputs of the original whose block is
   * reachable, each value looked up in the replacements; only reachable
   * blocks are left.
   */
  lemma PrunedPhiSpec(d: Def, reach: set<BlockId>, repl: map<Value, Value>)
    requires d.Phi?
    ensures var r := PrunedPhi(d, reach, repl);
      forall pb | pb in r.prevblocks :: pb in reach && pb in d.prevblocks
    ensures var r := PrunedPhi(d, reach, repl);
      forall pb, v :: (pb, v) in Zip(r.prevblocks, r.prevvalues) <==>
        exists w :: (pb, w) in Zip(d.prevblocks, d.prevvalues) && pb in reach && v == ReplacedOpt(w, repl)
  {
    var es := Zip(d.prevblocks, d.prevvalues);
    var kept := KeepReachable(es, reach, repl);
    KeepReachableSpec(es, reach, repl);
    ZipSplit(kept);
    forall i | 0 <= i < |kept| ensures kept[i].0 in reach && kept[i].0 in d.prevblocks {
      assert kept[i] in kept;
      var w :| (kept[i].0, w) in es && kept[i].1 == ReplacedOpt(w, repl);
      var j :| 0 <= j < |es| && es[j] == (kept[i].0, w);
    }
  }

  /** The reachable blocks among the pairs, in order. */
  function KeptBlocks(es: seq<(BlockId, Option<Value>)>, reach: set<BlockId>): seq<BlockId>
  {
    if es == [] then []
    else
      var rest := KeptBlocks(es[..|es| - 1], reach);
      if es[|es| - 1].0 in reach then rest + [es[|es| - 1].0] else rest
  }

  /** The blocks the pruned phi names do not depend on the replacements. */
  lemma {:induction false} KeptBlocksSpec(es: seq<(BlockId, Option<Value>)>, reach: set<BlockId>, repl: map<Value, Value>)
    ensures Firsts(KeepReachable(es, reach, repl)) == KeptBlocks(es, reach)
  {
    if es != [] {
      KeptBlocksSpec(es[..|es| - 1], reach, repl);
    }
  }

  /** A phi left with a single input, which `_remove_unreachable_phi_prevvalues` removes. */
  predicate Single(d: Def)
  {
    d.Phi? && |d.prevblocks| == 1 && |d.prevvalues| == 1
  }

  const NoValue := "phi input without a value"

  /** The operations of a block kept so far, the definitions and the replacements. */
  datatype Pruning = Pruning(kept: seq<OpId>, defs: map<OpId, Def>, repl: map<Value, Value>)

  /**
   * One operation of a reachable block: a phi gets its pruned inputs and,
   * when one input is left, is dropped and replaced by that input's value;
   * a phi whose only input is a placeholder fails.
   */
  function PruneOp(p: Pruning, o: OpId, reach: set<BlockId>): (r: Result<Pruning>)
    requires o in p.defs
    ensures r.Ok? ==> r.value.defs.Keys == p.defs.Keys && forall x | x in r.value.kept :: x in p.kept || x == o
  {
    var d := p.defs[o];
    if !d.Phi? then Ok(p.(kept := p.kept + [o]))
    else
      var d' := PrunedPhi(d, reach, p.repl);
      if !Single(d') then Ok(Pruning(p.kept + [o], p.defs[o := d'], p.repl))
      else if d'.prevvalues[0].None? then Failure(NoValue)
      else Ok(Pruning(p.kept, p.defs[o := d'], p.repl[OpRef(o) := d'.prevvalues[0].value]))
  }

  /** The operations of one block, in order. */
  function PruneOps(p: Pruning, ops: seq<OpId>, reach: set<BlockId>): (r: Result<Pruning>)
    requires forall o | o in ops :: o in p.defs
    ensures r.Ok? ==> r.value.defs.Keys == p.defs.Keys && forall x | x in r.value.kept :: x in p.kept || x in ops
  {
    if ops == [] then Ok(p)
    else
      var r := PruneOps(p, ops[..|ops| - 1], reach);
      if r.Failure? then r else PruneOp(r.value, ops[|ops| - 1], reach)
  }

  /** What pruning the operations `ops`, starting with nothing kept, leaves in `r`. */
  ghost predicate OpsPruned(p: Pruning, ops: seq<OpId>, reach: set<BlockId>, r: Pruning)
    requires forall o | o in ops :: o in p.defs
  {
    PrunedDefs(p.defs, ops, reach, r.defs) && PrunedKept(ops, r.kept, r.defs) && PrunedRepl(p.repl, ops, r.defs, r.repl)
  }

  /** Only the phis of `ops` change, and each names the reachable blocks of its inputs. */
  ghost predicate PrunedDefs(defs: map<OpId, Def>, ops: seq<OpId>, reach: set<BlockId>, defs': map<OpId, Def>)
    requires forall o | o in ops :: o in defs
  {
    defs'.Keys == defs.Keys &&
    (forall o | o in defs && o !in ops :: defs'[o] == defs[o]) &&
    (forall o | o in ops :: !defs[o].Phi? ==> defs'[o] == defs[o]) &&
    (forall o | o in ops :: defs[o].Phi? ==>
       defs'[o].Phi? && |defs'[o].prevblocks| == |defs'[o].prevvalues| &&
       defs'[o].prevblocks == KeptBlocks(Zip(defs[o].prevblocks, defs[o].prevvalues), reach))
  }

  /** The operations kept are those of `ops` that are not single-input phis. */
  ghost predicate PrunedKept(ops: seq<OpId>, kept: seq<OpId>, defs': map<OpId, Def>)
    requires forall o | o in ops :: o in defs'
  {
    Distinct(kept) && (forall o | o in kept :: o in ops) &&
    (forall o | o in ops :: o in kept <==> !Single(defs'[o]))
  }

  /** Each single-input phi of `ops`, and nothing else, is added to the replacements. */
  ghost predicate PrunedRepl(repl: map<Value, Value>, ops: seq<OpId>, defs': map<OpId, Def>, repl': map<Value, Value>)
    requires forall o | o in ops :: o in defs'
  {
    (forall o | o in ops && Single(defs'[o]) ::
       OpRef(o) in repl' && defs'[o].prevvalues[0] == Some(repl'[OpRef(o)])) &&
    (forall k | k in repl' :: k in repl || exists o | o in ops :: k == OpRef(o) && Single(defs'[o])) &&
    (forall k | k in repl :: k in repl' && repl'[k] == repl[k])
  }

  lemma {:induction false} PruneOpsSpec(p: Pruning, ops: seq<OpId>, reach: set<BlockId>)
    requires forall o | o in ops :: o in p.defs
    requires p.kept == [] && Distinct(ops) && forall o | o in ops :: OpRef(o) !in p.repl
    ensures PruneOps(p, ops, reach).Ok? ==> OpsPruned(p, ops, reach, PruneOps(p, ops, reach).value)
  {
    if ops != [] && PruneOps(p, ops, reach).Ok? {
      var init := ops[..|ops| - 1];
      var o := ops[|ops| - 1];
      Snoc(ops);
      assert forall x | x in init :: x in ops && x != o;
      PruneOpsSpec(p, init, reach);
      PruneOpStep(p, init, o, reach, PruneOps(p, init, reach).value);
    }
  }

  lemma PruneOpStep(p: Pruning, init: seq<OpId>, o: OpId, reach: set<BlockId>, s: Pruning)
    requires forall x | x in init + [o] :: x in p.defs
    requires o !in init && OpRef(o) !in p.repl
    requires OpsPruned(p, init, reach, s)
    requires PruneOp(s, o, reach).Ok?
    ensures OpsPruned(p, init + [o], reach, PruneOp(s, o, reach).value)
  {
    assert s.defs[o] == p.defs[o];
    if !p.defs[o].Phi? {
      DefsStep(p.defs, init, o, reach, s.defs, s.defs);
      KeptStep(init, o, s.kept, s.defs, s.kept + [o], s.defs);
      ReplStep(p.repl, init, o, s.defs, s.repl, s.defs, s.repl);
    } else {
      var d' := PrunedPhi(s.defs[o], reach, s.repl);
      var defs' := s.defs[o := d'];
      KeptBlocksSpec(Zip(p.defs[o].prevblocks, p.defs[o].prevvalues), reach, s.repl);
      DefsStep(p.defs, init, o, reach, s.defs, defs');
      if !Single(d') {
        KeptStep(init, o, s.kept, s.defs, s.kept + [o], defs');
        ReplStep(p.repl, init, o, s.defs, s.repl, defs', s.repl);
      } else {
        KeptStep(init, o, s.kept, s.defs, s.kept, defs');
        ReplStep(p.repl, init, o, s.defs, s.repl, defs', s.repl[OpRef(o) := d'.prevvalues[0].value]);
      }
    }
  }

  lemma DefsStep(defs: map<OpId, Def>, init: seq<OpId>, o: OpId, reach: set<BlockId>, sdefs: map<OpId, Def>, defs': map<OpId, Def>)
    requires forall x | x in init + [o] :: x in defs
    requires o !in init && PrunedDefs(defs, init, reach, sdefs) && sdefs[o] == defs[o]
    requires defs'.Keys == sdefs.Keys && forall x | x in defs' && x != o :: defs'[x] == sdefs[x]
    requires !defs[o].Phi? ==> defs'[o] == defs[o]
    requires defs[o].Phi? ==>
       defs'[o].Phi? && |defs'[o].prevblocks| == |defs'[o].prevvalues| &&
       defs'[o].prevblocks == KeptBlocks(Zip(defs[o].prevblocks, defs[o].prevvalues), reach)
    ensures PrunedDefs(defs, init + [o], reach, defs')
  {
    assert forall x | x in init + [o] :: x in init || x == o;
  }

  lemma KeptStep(init: seq<OpId>, o: OpId, kept: seq<OpId>, sdefs: map<OpId, Def>, kept': seq<OpId>, defs': map<OpId, Def>)
    requires forall x | x in init + [o] :: x in sdefs && x in defs'
    requires o !in init && PrunedKept(init, kept, sdefs)
    requires forall x | x in init :: defs'[x] == sdefs[x]
    requires (kept' == kept + [o] && !Single(defs'[o])) || (kept' == kept && Single(defs'[o]))
    ensures PrunedKept(init + [o], kept', defs')
  {
    assert forall x | x in init + [o] :: x in init || x == o;
    assert o !in kept;
  }

  lemma ReplStep(repl: map<Value, Value>, init: seq<OpId>, o: OpId, sdefs: map<OpId, Def>, srepl: map<Value, Value>,
                 defs': map<OpId, Def>, repl': map<Value, Value>)
    requires forall x | x in init + [o] :: x in sdefs && x in defs'
    requires o !in init && OpRef(o) !in repl && PrunedRepl(repl, init, sdefs, srepl)
    requires forall x | x in init :: defs'[x] == sdefs[x]
    requires (repl' == srepl && !Single(defs'[o])) ||
             (Single(defs'[o]) && defs'[o].prevvalues[0].Some? && repl' == srepl[OpRef(o) := defs'[o].prevvalues[0].value])
    ensures PrunedRepl(repl, init + [o], defs', repl')
  {
    var ops := init + [o];
    assert forall x | x in ops :: x in init || x == o;
    assert OpRef(o) !in srepl;
    forall k | k in repl' ensures k in repl || exists x | x in ops :: k == OpRef(x) && Single(defs'[x]) {
      if k !in repl && k != OpRef(o) {
        var x :| x in init && k == OpRef(x) && Single(sdefs[x]);
        assert x in ops;
      } else if k == OpRef(o) && k !in repl {
        assert o in ops;
      }
    }
  }

  /** The blocks, the definitions and the replacements `replace_phis` collected so far. */
  datatype Pruned = Pruned(blocks: map<BlockId, Block>, defs: map<OpId, Def>, repl: map<Value, Value>)

  ghost predicate PruneOk(s: Pruned)
  {
    forall b | b in s.blocks :: forall o | o in s.blocks[b].ops :: o in s.defs
  }

  /** One reachable block: its operations pruned, the dropped phis removed from it. */
  function PruneBlock(s: Pruned, b: BlockId, reach: set<BlockId>): (r: Result<Pruned>)
    requires b in s.blocks && PruneOk(s)
    ensures r.Ok? ==> PruneOk(r.value) && r.value.blocks.Keys == s.blocks.Keys && r.value.defs.Keys == s.defs.Keys
    ensures r.Ok? ==> forall x | x in s.blocks :: r.value.blocks[x].next == s.blocks[x].next
  {
    var q := PruneOps(Pruning([], s.defs, s.repl), s.blocks[b].ops, reach);
    if q.Failure? then Failure(q.msg)
    else Ok(Pruned(s.blocks[b := Block(q.value.kept, s.blocks[b].next)], q.value.defs, q.value.repl))
  }

  /** The reachable blocks in the order `keys` in which the set yields them. */
  function PruneAll(s: Pruned, keys: seq<BlockId>, reach: set<BlockId>): (r: Result<Pruned>)
    requires PruneOk(s) && forall b | b in keys :: b in s.blocks
    ensures r.Ok? ==> PruneOk(r.value) && r.value.blocks.Keys == s.blocks.Keys && r.value.defs.Keys == s.defs.Keys
    ensures r.Ok? ==> forall x | x in s.blocks :: r.value.blocks[x].next == s.blocks[x].next
  {
    if keys == [] then Ok(s)
    else
      var r := PruneAll(s, keys[..|keys| - 1], reach);
      if r.Failure? then r else PruneBlock(r.value, keys[|keys| - 1], reach)
  }

  /** A phi whose inputs from reachable blocks come down to one. */
  predicate Collapses(d: Def, reach: set<BlockId>)
  {
    d.Phi? && |KeptBlocks(Zip(d.prevblocks, d.prevvalues), reach)| == 1
  }

  /** The operations of the blocks `keys`. */
  ghost function Touched(blocks: map<BlockId, Block>, keys: seq<BlockId>): set<OpId>
  {
    set b, o | b in keys && b in blocks && o in blocks[b].ops :: o
  }

  /** The blocks of `keys` lose exactly their collapsing phis; nothing else changes. */
  ghost predicate BlocksAll(s: Pruned, keys: seq<BlockId>, reach: set<BlockId>, blocks': map<BlockId, Block>)
    requires PruneOk(s)
  {
    blocks'.Keys == s.blocks.Keys &&
    (forall b | b in s.blocks && b !in keys :: blocks'[b] == s.blocks[b]) &&
    (forall b | b in s.blocks && b in keys ::
       blocks'[b].next == s.blocks[b].next && Distinct(blocks'[b].ops) &&
       (forall o | o in blocks'[b].ops :: o in s.blocks[b].ops) &&
       (forall o | o in s.blocks[b].ops :: o in blocks'[b].ops <==> !Collapses(s.defs[o], reach)))
  }

  /** Only the phis of the blocks `keys` change, each to the reachable part of its inputs. */
  ghost predicate DefsAll(s: Pruned, keys: seq<BlockId>, reach: set<BlockId>, defs': map<OpId, Def>)
    requires PruneOk(s)
  {
    defs'.Keys == s.defs.Keys &&
    (forall o | o in s.defs && o !in Touched(s.blocks, keys) :: defs'[o] == s.defs[o]) &&
    (forall o | o in Touched(s.blocks, keys) && !s.defs[o].Phi? :: defs'[o] == s.defs[o]) &&
    (forall o | o in Touched(s.blocks, keys) && s.defs[o].Phi? ::
       defs'[o].Phi? && |defs'[o].prevblocks| == |defs'[o].prevvalues| &&
       defs'[o].prevblocks == KeptBlocks(Zip(s.defs[o].prevblocks, s.defs[o].prevvalues), reach))
  }

  /** Each collapsing phi of the blocks `keys`, and nothing else, is replaced by its one value. */
  ghost predicate ReplAll(s: Pruned, keys: seq<BlockId>, reach: set<BlockId>, defs': map<OpId, Def>, repl': map<Value, Value>)
    requires PruneOk(s) && defs'.Keys == s.defs.Keys
  {
    (forall o | o in Touched(s.blocks, keys) && Collapses(s.defs[o], reach) ::
       OpRef(o) in repl' && Single(defs'[o]) && defs'[o].prevvalues[0] == Some(repl'[OpRef(o)])) &&
    (forall k | k in repl' :: exists o | o in Touched(s.blocks, keys) :: k == OpRef(o) && Collapses(s.defs[o], reach))
  }

  ghost predicate AllPruned(s: Pruned, keys: seq<BlockId>, reach: set<BlockId>, r: Pruned)
    requires PruneOk(s)
  {
    BlocksAll(s, keys, reach, r.blocks) && DefsAll(s, keys, reach, r.defs) && ReplAll(s, keys, reach, r.defs, r.repl)
  }

  lemma TouchedSnoc(blocks: map<BlockId, Block>, init: seq<BlockId>, b: BlockId)
    requires b in blocks
    ensures Touched(blocks, init + [b]) == Touched(blocks, init) + SetOf(blocks[b].ops)
  {
    assert forall x | x in init + [b] :: x in init || x == b;
  }

  /** Under unique operations, the operations of a block not yet visited are untouched. */
  lemma Untouched(blocks: map<BlockId, Block>, init: seq<BlockId>, b: BlockId)
    requires UniqueOps(blocks) && b in blocks && b !in init
    ensures forall o | o in blocks[b].ops :: o !in Touched(blocks, init)
  {
    forall o | o in blocks[b].ops ensures o !in Touched(blocks, init) {
      assert forall b2 | b2 in blocks && o in blocks[b2].ops :: b2 == b;
    }
  }

  /** A pruned operation is a collapsing phi exactly when it has one input left. */
  lemma SingleIffCollapses(defs: map<OpId, Def>, ops: seq<OpId>, reach: set<BlockId>, defs': map<OpId, Def>)
    requires forall o | o in ops :: o in defs
    requires PrunedDefs(defs, ops, reach, defs')
    ensures forall o | o in ops :: Single(defs'[o]) <==> Collapses(defs[o], reach)
  {
  }

  lemma BlocksStep(s: Pruned, init: seq<BlockId>, b: BlockId, reach: set<BlockId>, blocks: map<BlockId, Block>,
                   kept: seq<OpId>, defs': map<OpId, Def>)
    requires PruneOk(s) && b in s.blocks && b !in init
    requires BlocksAll(s, init, reach, blocks)
    requires forall o | o in s.blocks[b].ops :: o in defs' && (Single(defs'[o]) <==> Collapses(s.defs[o], reach))
    requires PrunedKept(s.blocks[b].ops, kept, defs')
    ensures BlocksAll(s, init + [b], reach, blocks[b := Block(kept, s.blocks[b].next)])
  {
    assert forall x | x in init + [b] :: x in init || x == b;
  }

  lemma DefsAllStep(s: Pruned, init: seq<BlockId>, b: BlockId, reach: set<BlockId>, defs: map<OpId, Def>, defs': map<OpId, Def>)
    requires PruneOk(s) && b in s.blocks && b !in init
    requires DefsAll(s, init, reach, defs)
    requires forall o | o in s.blocks[b].ops :: o !in Touched(s.blocks, init)
    requires PrunedDefs(defs, s.blocks[b].ops, reach, defs')
    ensures DefsAll(s, init + [b], reach, defs')
  {
    TouchedSnoc(s.blocks, init, b);
  }

  lemma ReplAllStep(s: Pruned, init: seq<BlockId>, b: BlockId, reach: set<BlockId>, defs: map<OpId, Def>, repl: map<Value, Value>,
                    defs': map<OpId, Def>, repl': map<Value, Value>)
    requires PruneOk(s) && b in s.blocks && b !in init && defs.Keys == s.defs.Keys
    requires ReplAll(s, init, reach, defs, repl)
    requires forall o | o in s.blocks[b].ops :: o !in Touched(s.blocks, init)
    requires defs'.Keys == defs.Keys && forall o | o in defs && o !in s.blocks[b].ops :: defs'[o] == defs[o]
    requires forall o | o in s.blocks[b].ops :: Single(defs'[o]) <==> Collapses(s.defs[o], reach)
    requires PrunedRepl(repl, s.blocks[b].ops, defs', repl')
    ensures ReplAll(s, init + [b], reach, defs', repl')
  {
    var ops := s.blocks[b].ops;
    TouchedSnoc(s.blocks, init, b);
    var t := Touched(s.blocks, init + [b]);
    forall k | k in repl' ensures exists o | o in t :: k == OpRef(o) && Collapses(s.defs[o], reach) {
      if k in repl {
        var o :| o in Touched(s.blocks, init) && k == OpRef(o) && Collapses(s.defs[o], reach);
        assert o in t;
      } else {
        var o :| o in ops && k == OpRef(o) && Single(defs'[o]);
        assert o in t;
      }
    }
  }

  /** One block of the walk keeps the facts about the blocks walked before it. */
  lemma PruneBlockStep(s: Pruned, init: seq<BlockId>, b: BlockId, reach: set<BlockId>, t: Pruned)
    requires PruneOk(s) && UniqueOps(s.blocks) && b in s.blocks && b !in init
    requires PruneOk(t) && t.defs.Keys == s.defs.Keys && AllPruned(s, init, reach, t)
    requires PruneBlock(t, b, reach).Ok?
    ensures AllPruned(s, init + [b], reach, PruneBlock(t, b, reach).value)
  {
    var ops := s.blocks[b].ops;
    assert t.blocks[b] == s.blocks[b];
    Untouched(s.blocks, init, b);
    assert forall o | o in ops :: t.defs[o] == s.defs[o];
    forall o | o in ops ensures OpRef(o) !in t.repl {
      assert forall o2 | o2 in Touched(s.blocks, init) :: OpRef(o) != OpRef(o2);
    }
    var p := Pruning([], t.defs, t.repl);
    PruneOpsSpec(p, ops, reach);
    var q := PruneOps(p, ops, reach).value;
    assert PrunedDefs(t.defs, ops, reach, q.defs) && PrunedKept(ops, q.kept, q.defs) && PrunedRepl(t.repl, ops, q.defs, q.repl);
    SingleIffCollapses(t.defs, ops, reach, q.defs);
    BlocksStep(s, init, b, reach, t.blocks, q.kept, q.defs);
    DefsAllStep(s, init, b, reach, t.defs, q.defs);
    ReplAllStep(s, init, b, reach, t.defs, t.repl, q.defs, q.repl);
  }

  lemma {:induction false} PruneAllSpec(s: Pruned, keys: seq<BlockId>, reach: set<BlockId>)
    requires PruneOk(s) && UniqueOps(s.blocks) && s.repl == map[]
    requires Distinct(keys) && forall b | b in keys :: b in s.blocks
    ensures PruneAll(s, keys, reach).Ok? ==> AllPruned(s, keys, reach, PruneAll(s, keys, reach).value)
  {
    if keys == [] {
      assert Touched(s.blocks, keys) == {};
    } else if PruneAll(s, keys, reach).Ok? {
      var init := keys[..|keys| - 1];
      var b := keys[|keys| - 1];
      Snoc(keys);
      assert forall x | x in init :: x in keys;
      assert b !in init;
      PruneAllSpec(s, init, reach);
      PruneBlockStep(s, init, b, reach, PruneAll(s, init, reach).value);
    }
  }

  /** Same edges: the rewired graph stays closed under successors. */
  lemma SameNextsClosed(blocks: map<BlockId, Block>, blocks': map<BlockId, Block>)
    requires SuccClosed(blocks) && blocks'.Keys == blocks.Keys
    requires forall b | b in blocks :: blocks'[b].next == blocks[b].next
    ensures SuccClosed(blocks')
  {
    forall b | b in blocks' ensures forall x | x in NextBlocks(blocks'[b].next) :: x in blocks' {
      assert blocks'[b].next == blocks[b].next;
    }
  }

  /**
   * `_remove_unreachable_phi_prevvalues`: prune the phis of the reachable
   * blocks, visited in the order `keys`, then, if some phi collapsed, apply
   * the replacements in one `replace_ops` round.
   */
  ghost function PruneUnreachable(blocks: map<BlockId, Block>, defs: map<OpId, Def>, start: BlockId, keys: seq<BlockId>)
    : Result<(map<BlockId, Block>, map<OpId, Def>)>
    requires SuccClosed(blocks) && start in blocks && PruneOk(Pruned(blocks, defs, map[]))
    requires forall b | b in keys :: b in blocks
  {
    var w := PruneAll(Pruned(blocks, defs, map[]), keys, Reachable(blocks, start));
    if w.Failure? then Failure(w.msg)
    else if w.value.repl == map[] then Ok((w.value.blocks, w.value.defs))
    else
      SameNextsClosed(blocks, w.value.blocks);
      ReplaceRound(w.value.blocks, w.value.defs, w.value.repl, start)
  }

  lemma {:induction false} KeptBlocksIn(es: seq<(BlockId, Option<Value>)>, reach: set<BlockId>)
    ensures forall x | x in KeptBlocks(es, reach) :: x in reach && exists w :: (x, w) in es
  {
    if es != [] {
      KeptBlocksIn(es[..|es| - 1], reach);
      forall x | x in KeptBlocks(es, reach) ensures x in reach && exists w :: (x, w) in es {
        if x in KeptBlocks(es[..|es| - 1], reach) {
          var w :| (x, w) in es[..|es| - 1];
          assert (x, w) in es;
        } else {
          assert (x, es[|es| - 1].1) in es;
        }
      }
    }
  }

  /**
   * What `_remove_unreachable_phi_prevvalues` promises of its result: the
   * edges stay, every phi of a reachable block names only reachable blocks,
   * aligned with its values, and a phi is removed exactly when one reachable
   * input was left.
   */
  ghost predicate PhisPruned(blocks: map<BlockId, Block>, defs: map<OpId, Def>, keys: seq<BlockId>,
                             blocks': map<BlockId, Block>, defs': map<OpId, Def>)
    requires PruneOk(Pruned(blocks, defs, map[]))
  {
    blocks'.Keys == blocks.Keys && defs'.Keys == defs.Keys && SameEdges(blocks', blocks) &&
    (forall b | b in blocks && b !in keys :: blocks'[b] == blocks[b]) &&
    (forall b, o | b in keys && b in blocks && o in blocks[b].ops ::
       o in blocks'[b].ops <==> !Collapses(defs[o], SetOf(keys))) &&
    (forall b, o | b in keys && b in blocks && o in blocks'[b].ops && o in defs && defs[o].Phi? ::
       o in defs' && defs'[o].Phi? && |defs'[o].prevblocks| == |defs'[o].prevvalues| &&
       defs'[o].prevblocks == KeptBlocks(Zip(defs[o].prevblocks, defs[o].prevvalues), SetOf(keys)) &&
       forall pb | pb in defs'[o].prevblocks :: pb in keys)
  }

  lemma PruneUnreachableSpec(blocks: map<BlockId, Block>, defs: map<OpId, Def>, start: BlockId, keys: seq<BlockId>)
    requires SuccClosed(blocks) && start in blocks && PruneOk(Pruned(blocks, defs, map[])) && UniqueOps(blocks)
    requires Distinct(keys) && (forall b | b in keys :: b in blocks) && SetOf(keys) == Reachable(blocks, start)
    ensures var w := PruneUnreachable(blocks, defs, start, keys);
      w.Ok? ==> PhisPruned(blocks, defs, keys, w.value.0, w.value.1)
  {
    var s := Pruned(blocks, defs, map[]);
    PruneAllSpec(s, keys, Reachable(blocks, start));
    var w := PruneAll(s, keys, Reachable(blocks, start));
    if w.Ok? {
      if w.value.repl == map[] {
        PruneTransfer(s, keys, Reachable(blocks, start), w.value, w.value.blocks, w.value.defs);
      } else {
        PruneWithRepl(blocks, defs, start, keys, w.value);
      }
    }
  }

  lemma PruneWithRepl(blocks: map<BlockId, Block>, defs: map<OpId, Def>, start: BlockId, keys: seq<BlockId>, r: Pruned)
    requires SuccClosed(blocks) && start in blocks && PruneOk(Pruned(blocks, defs, map[]))
    requires (forall b | b in keys :: b in blocks) && SetOf(keys) == Reachable(blocks, start)
    requires PruneAll(Pruned(blocks, defs, map[]), keys, Reachable(blocks, start)) == Ok(r) && r.repl != map[]
    requires AllPruned(Pruned(blocks, defs, map[]), keys, Reachable(blocks, start), r)
    ensures var w := PruneUnreachable(blocks, defs, start, keys);
      w.Ok? ==> PhisPruned(blocks, defs, keys, w.value.0, w.value.1)
  {
    var reach := Reachable(blocks, start);
    SameNextsClosed(blocks, r.blocks);
    DfsShape(r.blocks, blocks, [start], {});
    assert Reachable(r.blocks, start) == reach;
    var w := ReplaceRound(r.blocks, r.defs, r.repl, start);
    assert PruneUnreachable(blocks, defs, start, keys) == w;
    if w.Ok? {
      PruneReplaced(r, reach, start);
      PruneTransfer(Pruned(blocks, defs, map[]), keys, reach, r, w.value.0, w.value.1);
    }
  }

  /** The facts about the pruned state carry over to a state with the same lists, edges and phi blocks. */
  lemma PruneTransfer(s: Pruned, keys: seq<BlockId>, reach: set<BlockId>, r: Pruned,
                      blocks': map<BlockId, Block>, defs': map<OpId, Def>)
    requires PruneOk(s) && s.repl == map[] && reach == SetOf(keys) && forall b | b in keys :: b in s.blocks
    requires AllPruned(s, keys, reach, r)
    requires blocks'.Keys == r.blocks.Keys && defs'.Keys == r.defs.Keys
    requires forall b | b in r.blocks :: blocks'[b].ops == r.blocks[b].ops
    requires SameEdges(blocks', r.blocks)
    requires forall b | b in r.blocks && b !in reach :: blocks'[b] == r.blocks[b]
    requires forall o | o in r.defs :: SameInputBlocks(defs'[o], r.defs[o]) && (defs'[o].Phi? ==> |defs'[o].prevvalues| == |r.defs[o].prevvalues|)
    ensures PhisPruned(s.blocks, s.defs, keys, blocks', defs')
  {
    forall b, o | b in keys && b in s.blocks && o in blocks'[b].ops && o in s.defs && s.defs[o].Phi?
      ensures forall pb | pb in defs'[o].prevblocks :: pb in keys
    {
      assert o in Touched(s.blocks, keys);
      KeptBlocksIn(Zip(s.defs[o].prevblocks, s.defs[o].prevvalues), reach);
    }
    forall b | b in blocks' ensures NextBlocks(blocks'[b].next) == NextBlocks(s.blocks[b].next) {
      assert r.blocks[b].next == s.blocks[b].next by {
        if b in keys {
        } else {
        }
      }
    }
    forall b, o | b in keys && b in s.blocks && o in blocks'[b].ops && o in s.defs && s.defs[o].Phi?
      ensures defs'[o].Phi? && defs'[o].prevblocks == KeptBlocks(Zip(s.defs[o].prevblocks, s.defs[o].prevvalues), reach)
    {
      assert o in Touched(s.blocks, keys);
    }
  }

  /** The `replace_ops` round keeps the operation lists, the edges and every phi's blocks. */
  lemma PruneReplaced(r: Pruned, reach: set<BlockId>, start: BlockId)
    requires SuccClosed(r.blocks) && start in r.blocks
    requires Reachable(r.blocks, start) == reach
    requires ReplaceRound(r.blocks, r.defs, r.repl, start).Ok?
    ensures var v := ReplaceRound(r.blocks, r.defs, r.repl, start).value;
      v.0.Keys == r.blocks.Keys && v.1.Keys == r.defs.Keys &&
      (forall b | b in r.blocks :: v.0[b].ops == r.blocks[b].ops) && SameEdges(v.0, r.blocks) &&
      (forall b | b in r.blocks && b !in reach :: v.0[b] == r.blocks[b]) &&
      forall o | o in r.defs :: SameInputBlocks(v.1[o], r.defs[o]) && (v.1[o].Phi? ==> |v.1[o].prevvalues| == |r.defs[o].prevvalues|)
  {
    ReplaceNextsShape(r.blocks, reach, r.repl);
  }

  // The imperative form of the pass

  /** The `zip` loop that rebuilds the inputs of one phi. */
  method PrunePhiOn(d: Def, reach: set<BlockId>, repl: map<Value, Value>) returns (r: Def)
    requires d.Phi?
    ensures r == PrunedPhi(d, reach, repl)
  {
    ghost var es := Zip(d.prevblocks, d.prevvalues);
    var pbs: seq<BlockId> := [];
    var pvs: seq<Option<Value>> := [];
    var j := 0;
    while j < |d.prevblocks| && j < |d.prevvalues|
      invariant j <= |es|
      invariant pbs == Firsts(KeepReachable(es[..j], reach, repl)) && pvs == Seconds(KeepReachable(es[..j], reach, repl))
    {
      assert es[..j + 1][..j] == es[..j];
      ghost var k := KeepReachable(es[..j], reach, repl);
      if d.prevblocks[j] in reach {
        var e := (d.prevblocks[j], ReplacedOpt(d.prevvalues[j], repl));
        assert Firsts(k + [e]) == Firsts(k) + [e.0];
        assert Seconds(k + [e]) == Seconds(k) + [e.1];
        pbs := pbs + [d.prevblocks[j]];
        pvs := pvs + [ReplacedOpt(d.prevvalues[j], repl)];
      }
      j := j + 1;
    }
    assert es[..j] == es;
    r := Phi(pbs, pvs, d.typ);
  }

  lemma {:induction false} PruneOpsFailed(p: Pruning, ops: seq<OpId>, i: nat, reach: set<BlockId>)
    requires forall o | o in ops :: o in p.defs
    requires i <= |ops| && PruneOps(p, ops[..i], reach).Failure?
    ensures PruneOps(p, ops, reach) == PruneOps(p, ops[..i], reach)
  {
    if i == |ops| {
      assert ops[..i] == ops;
    } else {
      var init := ops[..|ops| - 1];
      assert init[..i] == ops[..i];
      PruneOpsFailed(p, init, i, reach);
    }
  }

  /** The loop body for one operation. */
  method PruneOpOn(p: Pruning, o: OpId, reach: set<BlockId>) returns (r: Result<Pruning>)
    requires o in p.defs
    ensures r == PruneOp(p, o, reach)
  {
    var d := p.defs[o];
    if d.Phi? {
      var d' := PrunePhiOn(d, reach, p.repl);
      if |d'.prevblocks| == 1 {
        if d'.prevvalues[0].None? {
          return Failure(NoValue);
        }
        r := Ok(Pruning(p.kept, p.defs[o := d'], p.repl[OpRef(o) := d'.prevvalues[0].value]));
      } else {
        r := Ok(Pruning(p.kept + [o], p.defs[o := d'], p.repl));
      }
    } else {
      r := Ok(p.(kept := p.kept + [o]));
    }
  }

  /** The loop over the operations of one block. */
  method PruneOpsOn(p: Pruning, ops: seq<OpId>, reach: set<BlockId>) returns (r: Result<Pruning>)
    requires forall o | o in ops :: o in p.defs
    ensures r == PruneOps(p, ops, reach)
  {
    var cur := p;
    var i := 0;
    while i < |ops|
      invariant i <= |ops| && PruneOps(p, ops[..i], reach) == Ok(cur) && cur.defs.Keys == p.defs.Keys
    {
      var o := ops[i];
      assert ops[..i + 1][..i] == ops[..i];
      var step := PruneOpOn(cur, o, reach);
      if step.Failure? {
        r := step;
        PruneOpsFailed(p, ops, i + 1, reach);
        return;
      }
      cur := step.value;
      i := i + 1;
    }
    assert ops[..i] == ops;
    r := Ok(cur);
  }

  lemma {:induction false} PruneAllFailed(s: Pruned, keys: seq<BlockId>, i: nat, reach: set<BlockId>)
    requires PruneOk(s) && forall b | b in keys :: b in s.blocks
    requires i <= |keys| && PruneAll(s, keys[..i], reach).Failure?
    ensures PruneAll(s, keys, reach) == PruneAll(s, keys[..i], reach)
  {
    if i == |keys| {
      assert keys[..i] == keys;
    } else {
      var init := keys[..|keys| - 1];
      assert init[..i] == keys[..i];
      assert forall b | b in init :: b in keys;
      PruneAllFailed(s, init, i, reach);
    }
  }

  /** The loop over `reachable_blocks`, in whatever order the set yields them. */
  method PruneOn(s: Pruned, reach: set<BlockId>) returns (r: Result<Pruned>, ghost keys: seq<BlockId>)
    requires PruneOk(s) && reach <= s.blocks.Keys
    ensures Distinct(keys) && forall b | b in keys :: b in reach
    ensures r == PruneAll(s, keys, reach)
    ensures r.Ok? ==> SetOf(keys) == reach
  {
    var cur := s;
    keys := [];
    var todo := reach;
    while todo != {}
      invariant todo <= reach && SetOf(keys) == reach - todo && Distinct(keys)
      invariant forall b | b in keys :: b in reach && b in s.blocks
      invariant PruneAll(s, keys, reach) == Ok(cur)
      decreases |todo|
    {
      var b :| b in todo;
      assert b !in SetOf(keys);
      assert SetOf(keys + [b]) == SetOf(keys) + {b};
      PruneAllSnoc(s, keys, b, reach);
      var n := PruneBlockOn(cur, b, reach);
      keys := keys + [b];
      todo := todo - {b};
      if n.Failure? {
        r := n;
        return;
      }
      cur := n.value;
    }
    r := Ok(cur);
  }

  /** One block: its operations are pruned and the kept ones become its list. */
  method PruneBlockOn(s: Pruned, b: BlockId, reach: set<BlockId>) returns (r: Result<Pruned>)
    requires b in s.blocks && PruneOk(s)
    ensures r == PruneBlock(s, b, reach)
  {
    var q := PruneOpsOn(Pruning([], s.defs, s.repl), s.blocks[b].ops, reach);
    if q.Failure? {
      return Failure(q.msg);
    }
    r := Ok(Pruned(s.blocks[b := Block(q.value.kept, s.blocks[b].next)], q.value.defs, q.value.repl));
  }

  lemma PruneAllSnoc(s: Pruned, keys: seq<BlockId>, b: BlockId, reach: set<BlockId>)
    requires PruneOk(s) && b in s.blocks && b !in keys && Distinct(keys) && forall x | x in keys :: x in s.blocks
    ensures forall x | x in keys + [b] :: x in s.blocks
    ensures Distinct(keys + [b])
    ensures PruneAll(s, keys + [b], reach) ==
      if PruneAll(s, keys, reach).Failure? then PruneAll(s, keys, reach) else PruneBlock(PruneAll(s, keys, reach).value, b, reach)
  {
    assert (keys + [b])[..|keys|] == keys;
  }

  /** Every phi of `defs2` names a subset of the blocks its version in `defs` names. */
  ghost predicate InputsShrunk(defs: map<OpId, Def>, defs2: map<OpId, Def>)
  {
    defs2.Keys == defs.Keys &&
    forall o | o in defs2 && defs2[o].Phi? :: defs[o].Phi? && forall pb | pb in defs2[o].prevblocks :: pb in defs[o].prevblocks
  }

  /** The graph takes over thinned blocks and phis with fewer inputs. */
  method StorePruned(g: Graph, blocks: map<BlockId, Block>, defs: map<OpId, Def>)
    requires g.Valid() && Thinned(g.blocks, blocks) && InputsShrunk(g.defs, defs)
    modifies g`blocks, g`defs
    ensures g.Valid() && g.blocks == blocks && g.defs == defs
  {
    ThinnedReshaped(g.blocks, blocks);
    ReshapedValid(g.blocks, blocks, g.defs, g.start, g.nextBlock, g.nextOp);
    assert PhisBelow(defs, g.nextBlock) by {
      forall o | o in defs && defs[o].Phi? ensures forall pb | pb in defs[o].prevblocks :: pb < g.nextBlock {
        assert o in g.defs && g.defs[o].Phi?;
      }
    }
    g.blocks, g.defs := blocks, defs;
  }

  lemma ZipIn(pbs: seq<BlockId>, pvs: seq<Option<Value>>, x: BlockId, w: Option<Value>)
    requires (x, w) in Zip(pbs, pvs)
    ensures x in pbs
  {
    var es := Zip(pbs, pvs);
    var i :| 0 <= i < |es| && es[i] == (x, w);
  }

  /** The pruned state is a thinning of the graph with fewer phi inputs. */
  lemma PrunedStorable(s: Pruned, keys: seq<BlockId>, reach: set<BlockId>, r: Pruned)
    requires PruneOk(s) && UniqueOps(s.blocks) && AllPruned(s, keys, reach, r)
    ensures Thinned(s.blocks, r.blocks) && InputsShrunk(s.defs, r.defs)
  {
    forall o | o in r.defs && r.defs[o].Phi?
      ensures s.defs[o].Phi? && forall pb | pb in r.defs[o].prevblocks :: pb in s.defs[o].prevblocks
    {
      if o in Touched(s.blocks, keys) && s.defs[o].Phi? {
        var es := Zip(s.defs[o].prevblocks, s.defs[o].prevvalues);
        KeptBlocksIn(es, reach);
        forall pb | pb in r.defs[o].prevblocks ensures pb in s.defs[o].prevblocks {
          var w :| (pb, w) in es;
          ZipIn(s.defs[o].prevblocks, s.defs[o].prevvalues, pb, w);
        }
      }
    }
  }

  /**
   * `_remove_unreachable_phi_prevvalues`: the phis of the reachable blocks
   * lose their inputs from unreachable blocks, and those left with one input
   * are removed and replaced by it.
   */
  method RemoveUnreachablePhiPrevvalues(g: Graph) returns (ok: bool, ghost keys: seq<BlockId>)
    requires g.Valid()
    modifies g`blocks, g`defs
    ensures g.Valid() && Distinct(keys) && forall b | b in keys :: b in old(g.blocks)
    ensures var w := PruneUnreachable(old(g.blocks), old(g.defs), g.start, keys);
      (ok <==> w.Ok?) && (ok ==> g.blocks == w.value.0 && g.defs == w.value.1)
    ensures ok ==> SetOf(keys) == Reachable(old(g.blocks), g.start)
  {
    var order := g.IterBlocks();
    var reach := set b | b in order;
    var s := Pruned(g.blocks, g.defs, map[]);
    var r;
    r, keys := PruneOn(s, reach);
    if r.Failure? {
      return false, keys;
    }
    PruneAllSpec(s, keys, reach);
    PrunedStorable(s, keys, reach, r.value);
    StorePruned(g, r.value.blocks, r.value.defs);
    if r.value.repl == map[] {
      ok := true;
    } else {
      SameNextsClosed(s.blocks, r.value.blocks);
      ok := ReplaceAll(g, r.value.repl);
    }
  }

  // ---------------------------------------------------------------------
  // remove_if_true_false, one round

  /**
   * `remove_if_true_false`: fold the jumps on constants along the walk, then,
   * if one was folded, prune the phi inputs of the blocks no longer reached.
   * The result says whether a jump was folded.
   */
  method RemoveIfTrueFalse(g: Graph) returns (r: Result<bool>, ghost order: seq<BlockId>, ghost keys: seq<BlockId>)
    requires g.Valid()
    modifies g`blocks, g`defs
    ensures g.Valid()
    ensures order == Dfs(Folded(old(g.blocks)), [g.start], {})
    ensures r.Ok? ==> (r.value <==> exists b | b in order :: ConstantBranch(old(g.blocks)[b].next))
    ensures r.Ok? && !r.value ==> g.blocks == old(g.blocks) && g.defs == old(g.defs)
    ensures forall b | b in keys :: b in old(g.blocks)
    ensures var folded := FoldedIn(old(g.blocks), SetOf(order));
      (exists b | b in order :: ConstantBranch(old(g.blocks)[b].next)) ==>
        SuccClosed(folded) && Distinct(keys) &&
        var w := PruneUnreachable(folded, old(g.defs), g.start, keys);
        (r.Ok? <==> w.Ok?) && (r.Ok? ==> g.blocks == w.value.0 && g.defs == w.value.1 && SetOf(keys) == Reachable(folded, g.start))
  {
    var blocks, walk, changed := FoldWalk(g.blocks, g.start);
    order := walk;
    keys := [];
    if !changed {
      FoldedIdle(g.blocks, SetOf(order));
      return Ok(false), order, keys;
    }
    FoldedInThinned(g.blocks, SetOf(order));
    StoreBlocks(g, blocks);
    var ok;
    ok, keys := RemoveUnreachablePhiPrevvalues(g);
    r := if ok then Ok(true) else Failure("phi pruning failed");
  }

  /** Folding only touches terminators, and never adds an edge. */
  lemma FoldedInThinned(blocks: map<BlockId, Block>, seen: set<BlockId>)
    requires SuccClosed(blocks)
    ensures var r := FoldedIn(blocks, seen);
      SuccClosed(r) && r.Keys == blocks.Keys && forall b | b in blocks :: r[b].ops == blocks[b].ops
    ensures UniqueOps(blocks) ==> Reshaped(blocks, FoldedIn(blocks, seen))
  {
    var r := FoldedIn(blocks, seen);
    forall b | b in r ensures forall s | s in NextBlocks(r[b].next) :: s in r {
      assert forall s | s in NextBlocks(r[b].next) :: s in NextBlocks(blocks[b].next);
    }
  }

  /** With no jump on a constant among the blocks folded, nothing changes. */
  lemma FoldedIdle(blocks: map<BlockId, Block>, seen: set<BlockId>)
    requires forall b | b in seen && b in blocks :: !ConstantBranch(blocks[b].next)
    ensures FoldedIn(blocks, seen) == blocks
  {
  }

  // ---------------------------------------------------------------------
  // remove_empty_blocks

  /** Some phi of `phis` names `x` as an input block. */
  ghost predicate NamedByPhis(defs: map<OpId, Def>, phis: seq<OpId>, x: BlockId)
    requires forall o | o in phis :: o in defs && defs[o].Phi?
  {
    exists o | o in phis :: x in defs[o].prevblocks
  }

  /** Every block keeps its operations. */
  ghost predicate SameOps(blocks: map<BlockId, Block>, blocks': map<BlockId, Block>)
  {
    blocks'.Keys == blocks.Keys && forall x | x in blocks :: blocks'[x].ops == blocks[x].ops
  }

  /**
   * The body of `remove_empty_blocks` for the successor `nb` of `b`: when `nb`
   * is empty and jumps on to `t`, and the phis of `t` do not name `nb`, the
   * edge from `b` is retargeted to `t` (renaming `nb` to `b` in `t`'s phis
   * then changes nothing, since they do not name `nb`). It fails when the phis of `t` disagree on their input blocks, or
   * when they already name `b`.
   */
  ghost function SkipEmpty(blocks: map<BlockId, Block>, defs: map<OpId, Def>, b: BlockId, nb: BlockId): (r: Result<(map<BlockId, Block>, bool)>)
    requires SuccClosed(blocks) && OpsDefined(blocks, defs) && b in blocks && nb in blocks
    ensures r.Ok? ==> SameOps(blocks, r.value.0) && SuccClosed(r.value.0)
    ensures r.Ok? && !r.value.1 ==> r.value.0 == blocks
  {
    if blocks[nb].ops != [] || !blocks[nb].next.Goto? then Ok((blocks, false))
    else
      var t := blocks[nb].next.target;
      var phis := LeadingPhis(blocks[t].ops, defs);
      if !SameInputs(defs, phis) then Failure("phis disagree on their input blocks")
      else if NamedByPhis(defs, phis, nb) then Ok((blocks, false))
      else if NamedByPhis(defs, phis, b) then Failure("phi already names the block")
      else
        ReplaceNextBlocks(blocks[b].next, nb, t);
        var r := blocks[b := Block(blocks[b].ops, ReplaceNext(blocks[b].next, nb, t))];
        assert SuccClosed(r) by {
          forall x | x in r ensures forall s | s in NextBlocks(r[x].next) :: s in r {
            if x == b {
              assert forall s | s in NextBlocks(r[x].next) :: s == t || s in NextBlocks(blocks[b].next);
            }
          }
        }
        Ok((r, true))
  }

  /** The successors `succs` of `b`, as listed before the loop starts, in order. */
  ghost function SkipAll(blocks: map<BlockId, Block>, defs: map<OpId, Def>, b: BlockId, succs: seq<BlockId>): (r: Result<(map<BlockId, Block>, bool)>)
    requires SuccClosed(blocks) && OpsDefined(blocks, defs) && b in blocks && forall s | s in succs :: s in blocks
    ensures r.Ok? ==> SameOps(blocks, r.value.0) && SuccClosed(r.value.0)
    ensures r.Ok? && !r.value.1 ==> r.value.0 == blocks
  {
    if succs == [] then Ok((blocks, false))
    else
      var w := SkipAll(blocks, defs, b, succs[..|succs| - 1]);
      if w.Failure? then w
      else
        var s := SkipEmpty(w.value.0, defs, b, succs[|succs| - 1]);
        if s.Failure? then s else Ok((s.value.0, w.value.1 || s.value.1))
  }

  /**
   * `remove_empty_blocks`: the walk of `iterblocks`, where each block is
   * processed before its successors are pushed, so a retargeted edge is
   * followed to its new target.
   */
  ghost function EmptyWalk(blocks: map<BlockId, Block>, defs: map<OpId, Def>, todo: seq<BlockId>, seen: set<BlockId>)
    : (r: Result<(map<BlockId, Block>, bool)>)
    requires SuccClosed(blocks) && OpsDefined(blocks, defs) && forall t | t in todo :: t in blocks
    ensures r.Ok? ==> SameOps(blocks, r.value.0) && SuccClosed(r.value.0)
    ensures r.Ok? && !r.value.1 ==> r.value.0 == blocks
    decreases |blocks.Keys - seen|, |todo|
  {
    if todo == [] then Ok((blocks, false))
    else
      var b := todo[|todo| - 1];
      var rest := todo[..|todo| - 1];
      if b in seen then EmptyWalk(blocks, defs, rest, seen)
      else
        var s := SkipAll(blocks, defs, b, Succ(blocks, b));
        if s.Failure? then s
        else
          var blocks' := s.value.0;
          CardRemove(blocks'.Keys, seen, b);
          var w := EmptyWalk(blocks', defs, rest + Succ(blocks', b), seen + {b});
          if w.Failure? then w else Ok((w.value.0, s.value.1 || w.value.1))
  }

  lemma SameOpsUnique(blocks: map<BlockId, Block>, blocks': map<BlockId, Block>, defs: map<OpId, Def>)
    requires SameOps(blocks, blocks')
    ensures UniqueOps(blocks) ==> UniqueOps(blocks')
    ensures OpsDefined(blocks, defs) ==> OpsDefined(blocks', defs)
  {
    assert forall x | x in blocks' :: blocks'[x].ops == blocks[x].ops;
  }

  /** What `prevblocks_from_phis` returns, when it does not fail, contains exactly the blocks some phi names. */
  lemma NamedIff(defs: map<OpId, Def>, phis: seq<OpId>, res: seq<BlockId>, x: BlockId)
    requires forall o | o in phis :: o in defs && defs[o].Phi?
    requires forall o | o in phis :: defs[o].prevblocks == [] || defs[o].prevblocks == res
    requires res != [] ==> exists o | o in phis :: defs[o].prevblocks == res
    ensures x in res <==> NamedByPhis(defs, phis, x)
  {
    if x in res {
      var o :| o in phis && defs[o].prevblocks == res;
    }
  }

  /** `replace_prev(nb, b)` on phis that do not name `nb` changes nothing. */
  lemma RenameIdle(defs: map<OpId, Def>, phis: seq<OpId>, a: BlockId, c: BlockId)
    requires forall o | o in phis :: o in defs && defs[o].Phi?
    requires !NamedByPhis(defs, phis, a)
    ensures RenamePrev(defs, SetOf(phis), a, c) == defs
  {
    forall o | o in defs ensures RenamePrev(defs, SetOf(phis), a, c)[o] == defs[o] {
      if o in SetOf(phis) && defs[o].Phi? {
        assert a !in defs[o].prevblocks;
        assert Rename(defs[o].prevblocks, a, c) == defs[o].prevblocks;
      }
    }
  }

  /** One successor: the body of the inner loop of `remove_empty_blocks`. */
  method SkipOn(blocks: map<BlockId, Block>, defs: map<OpId, Def>, b: BlockId, nb: BlockId) returns (r: Result<(map<BlockId, Block>, bool)>)
    requires SuccClosed(blocks) && OpsDefined(blocks, defs) && UniqueOps(blocks) && b in blocks && nb in blocks
    ensures r == SkipEmpty(blocks, defs, b, nb)
  {
    if blocks[nb].ops != [] || !blocks[nb].next.Goto? {
      return Ok((blocks, false));
    }
    var t := blocks[nb].next.target;
    ghost var phis := LeadingPhis(blocks[t].ops, defs);
    var res, ok := PrevblocksFromPhis(defs, blocks[t].ops);
    if !ok {
      return Failure("phis disagree on their input blocks");
    }
    NamedIff(defs, phis, res, nb);
    if nb in res {
      return Ok((blocks, false));
    }
    var blocks' := blocks[b := Block(blocks[b].ops, ReplaceNext(blocks[b].next, nb, t))];
    var defs', ok' := RenameLeading(defs, blocks'[t].ops, nb, b);
    assert blocks'[t].ops == blocks[t].ops;
    if !ok' {
      return Failure("phi already names the block");
    }
    RenameIdle(defs, phis, nb, b);
    assert defs' == defs;
    r := Ok((blocks', true));
  }

  lemma {:induction false} SkipAllFailed(blocks: map<BlockId, Block>, defs: map<OpId, Def>, b: BlockId, succs: seq<BlockId>, i: nat)
    requires SuccClosed(blocks) && OpsDefined(blocks, defs) && b in blocks && forall s | s in succs :: s in blocks
    requires i <= |succs| && SkipAll(blocks, defs, b, succs[..i]).Failure?
    ensures SkipAll(blocks, defs, b, succs) == SkipAll(blocks, defs, b, succs[..i])
  {
    if i == |succs| {
      assert succs[..i] == succs;
    } else {
      var init := succs[..|succs| - 1];
      assert init[..i] == succs[..i];
      assert forall s | s in init :: s in succs;
      SkipAllFailed(blocks, defs, b, init, i);
    }
  }

  /** The loop over the successors of `b`, listed once before it starts. */
  method SkipAllOn(blocks: map<BlockId, Block>, defs: map<OpId, Def>, b: BlockId, succs: seq<BlockId>)
    returns (r: Result<(map<BlockId, Block>, bool)>)
    requires SuccClosed(blocks) && OpsDefined(blocks, defs) && UniqueOps(blocks) && b in blocks
    requires forall s | s in succs :: s in blocks
    ensures r == SkipAll(blocks, defs, b, succs)
  {
    var cur, changed := blocks, false;
    var i := 0;
    while i < |succs|
      invariant i <= |succs| && SkipAll(blocks, defs, b, succs[..i]) == Ok((cur, changed))
      invariant SameOps(blocks, cur) && SuccClosed(cur) && OpsDefined(cur, defs) && UniqueOps(cur)
    {
      var s := SkipOn(cur, defs, b, succs[i]);
      SkipAllNext(blocks, defs, b, succs, i, cur, changed, s);
      if s.Failure? {
        return s;
      }
      SameOpsUnique(cur, s.value.0, defs);
      cur, changed := s.value.0, changed || s.value.1;
      i := i + 1;
    }
    assert succs[..i] == succs;
    r := Ok((cur, changed));
  }

  /** One more successor of the loop of `SkipAllOn`. */
  lemma SkipAllNext(blocks: map<BlockId, Block>, defs: map<OpId, Def>, b: BlockId, succs: seq<BlockId>, i: nat,
                    cur: map<BlockId, Block>, changed: bool, s: Result<(map<BlockId, Block>, bool)>)
    requires SuccClosed(blocks) && OpsDefined(blocks, defs) && b in blocks && forall s | s in succs :: s in blocks
    requires i < |succs| && SkipAll(blocks, defs, b, succs[..i]) == Ok((cur, changed))
    requires SuccClosed(cur) && OpsDefined(cur, defs) && SameOps(blocks, cur)
    requires s == SkipEmpty(cur, defs, b, succs[i])
    ensures s.Failure? ==> SkipAll(blocks, defs, b, succs) == s
    ensures s.Ok? ==> SkipAll(blocks, defs, b, succs[..i + 1]) == Ok((s.value.0, changed || s.value.1))
  {
    assert succs[..i + 1][..i] == succs[..i];
    if s.Failure? {
      SkipAllFailed(blocks, defs, b, succs, i + 1);
    }
  }

  /** The rest of the walk, with what the blocks already walked changed. */
  ghost function EmptyRest(changed: bool, w: Result<(map<BlockId, Block>, bool)>): Result<(map<BlockId, Block>, bool)>
  {
    if w.Failure? then w else Ok((w.value.0, changed || w.value.1))
  }

  /** The loop invariant of `EmptyWalkOn`. */
  ghost predicate EmptyInv(blocks: map<BlockId, Block>, defs: map<OpId, Def>, start: BlockId,
                           cur: map<BlockId, Block>, todo: seq<BlockId>, seen: set<BlockId>, changed: bool)
  {
    SuccClosed(blocks) && OpsDefined(blocks, defs) && start in blocks &&
    SameOps(blocks, cur) && SuccClosed(cur) && OpsDefined(cur, defs) && UniqueOps(cur) &&
    (forall t | t in todo :: t in cur) &&
    EmptyWalk(blocks, defs, [start], {}) == EmptyRest(changed, EmptyWalk(cur, defs, todo, seen))
  }

  lemma EmptySkip(blocks: map<BlockId, Block>, defs: map<OpId, Def>, start: BlockId,
                  cur: map<BlockId, Block>, todo: seq<BlockId>, seen: set<BlockId>, changed: bool)
    requires EmptyInv(blocks, defs, start, cur, todo, seen, changed) && todo != [] && todo[|todo| - 1] in seen
    ensures EmptyInv(blocks, defs, start, cur, todo[..|todo| - 1], seen, changed)
  {
  }

  lemma EmptyVisit(blocks: map<BlockId, Block>, defs: map<OpId, Def>, start: BlockId,
                   cur: map<BlockId, Block>, todo: seq<BlockId>, seen: set<BlockId>, changed: bool,
                   s: Result<(map<BlockId, Block>, bool)>)
    requires EmptyInv(blocks, defs, start, cur, todo, seen, changed) && todo != [] && todo[|todo| - 1] !in seen
    requires s == SkipAll(cur, defs, todo[|todo| - 1], Succ(cur, todo[|todo| - 1]))
    ensures s.Failure? ==> EmptyWalk(blocks, defs, [start], {}) == s
    ensures s.Ok? ==>
      var b := todo[|todo| - 1];
      b in s.value.0 && (forall x | x in Succ(s.value.0, b) :: x in s.value.0) &&
      EmptyInv(blocks, defs, start, s.value.0, todo[..|todo| - 1] + Succ(s.value.0, b), seen + {b}, changed || s.value.1)
  {
    if s.Ok? {
      SameOpsUnique(cur, s.value.0, defs);
    }
  }

  /** The walk of `remove_empty_blocks` over the blocks as values. */
  method EmptyWalkOn(blocks: map<BlockId, Block>, defs: map<OpId, Def>, start: BlockId) returns (r: Result<(map<BlockId, Block>, bool)>)
    requires SuccClosed(blocks) && OpsDefined(blocks, defs) && UniqueOps(blocks) && start in blocks
    ensures r == EmptyWalk(blocks, defs, [start], {})
  {
    var cur, todo, changed := blocks, [start], false;
    var seen: set<BlockId> := {};
    while todo != []
      invariant EmptyInv(blocks, defs, start, cur, todo, seen, changed)
      decreases |blocks.Keys - seen|, |todo|
    {
      var failed;
      ghost var seen0, todo0 := seen, todo;
      failed, cur, todo, seen, changed := EmptyStepOn(blocks, defs, start, cur, todo, seen, changed);
      if failed.Some? {
        return failed.value;
      }
    }
    EmptyDone(blocks, defs, start, cur, seen, changed);
    r := Ok((cur, changed));
  }

  lemma EmptyDone(blocks: map<BlockId, Block>, defs: map<OpId, Def>, start: BlockId,
                  cur: map<BlockId, Block>, seen: set<BlockId>, changed: bool)
    requires EmptyInv(blocks, defs, start, cur, [], seen, changed)
    ensures EmptyWalk(blocks, defs, [start], {}) == Ok((cur, changed))
  {
  }

  /** One pop of the work list: skip a block already seen, or process it and push its successors. */
  method EmptyStepOn(blocks: map<BlockId, Block>, defs: map<OpId, Def>, start: BlockId,
                     cur: map<BlockId, Block>, todo: seq<BlockId>, seen: set<BlockId>, changed: bool)
    returns (failed: Option<Result<(map<BlockId, Block>, bool)>>, cur': map<BlockId, Block>, todo': seq<BlockId>, seen': set<BlockId>, changed': bool)
    requires EmptyInv(blocks, defs, start, cur, todo, seen, changed) && todo != []
    ensures failed.Some? ==> failed.value == EmptyWalk(blocks, defs, [start], {}) && failed.value.Failure?
    ensures failed.None? ==> EmptyInv(blocks, defs, start, cur', todo', seen', changed')
    ensures failed.None? ==> seen' == seen || (seen' > seen && |blocks.Keys - seen'| < |blocks.Keys - seen|)
    ensures failed.None? && seen' == seen ==> |todo'| < |todo|
  {
    var b := todo[|todo| - 1];
    if b in seen {
      EmptySkip(blocks, defs, start, cur, todo, seen, changed);
      return None, cur, todo[..|todo| - 1], seen, changed;
    }
    var s := SkipAllOn(cur, defs, b, NextBlocks(cur[b].next));
    EmptyVisit(blocks, defs, start, cur, todo, seen, changed, s);
    if s.Failure? {
      return Some(s), cur, todo, seen, changed;
    }
    CardRemove(blocks.Keys, seen, b);
    failed, cur', changed' := None, s.value.0, changed || s.value.1;
    todo' := todo[..|todo| - 1] + NextBlocks(cur'[b].next);
    seen' := seen + {b};
  }

  /** A retargeted edge leads where the empty block jumped to, so a set closed under the old edges stays closed. */
  lemma SkipEmptyClosed(blocks: map<BlockId, Block>, defs: map<OpId, Def>, b: BlockId, nb: BlockId, start: BlockId, c: set<BlockId>)
    requires SuccClosed(blocks) && OpsDefined(blocks, defs) && b in blocks && nb in blocks
    requires SkipEmpty(blocks, defs, b, nb).Ok? && ClosedFrom(blocks, start, c)
    ensures ClosedFrom(SkipEmpty(blocks, defs, b, nb).value.0, start, c)
  {
    var r := SkipEmpty(blocks, defs, b, nb).value.0;
    if r != blocks {
      var t := blocks[nb].next.target;
      assert r == blocks[b := Block(blocks[b].ops, ReplaceNext(blocks[b].next, nb, t))];
      ReplaceNextBlocks(blocks[b].next, nb, t);
      forall x | x in c && x in r ensures forall s | s in Succ(r, x) :: s in c {
        if x == b {
          assert t in Succ(blocks, nb);
          forall s | s in Succ(r, x) ensures s in c {
            var i :| 0 <= i < |Succ(r, x)| && Succ(r, x)[i] == s;
            if Succ(blocks, b)[i] == nb {
              assert nb in c;
            } else {
              assert s in Succ(blocks, b);
            }
          }
        }
      }
    }
  }

  lemma {:induction false} SkipAllClosed(blocks: map<BlockId, Block>, defs: map<OpId, Def>, b: BlockId, succs: seq<BlockId>, start: BlockId, c: set<BlockId>)
    requires SuccClosed(blocks) && OpsDefined(blocks, defs) && b in blocks && forall s | s in succs :: s in blocks
    requires SkipAll(blocks, defs, b, succs).Ok? && ClosedFrom(blocks, start, c)
    ensures ClosedFrom(SkipAll(blocks, defs, b, succs).value.0, start, c)
  {
    if succs != [] {
      var init := succs[..|succs| - 1];
      assert forall s | s in init :: s in succs;
      var w := SkipAll(blocks, defs, b, init);
      SkipAllClosed(blocks, defs, b, init, start, c);
      SameOpsUnique(blocks, w.value.0, defs);
      SkipEmptyClosed(w.value.0, defs, b, succs[|succs| - 1], start, c);
    }
  }

  lemma {:induction false} EmptyWalkClosed(blocks: map<BlockId, Block>, defs: map<OpId, Def>, todo: seq<BlockId>, seen: set<BlockId>, start: BlockId, c: set<BlockId>)
    requires SuccClosed(blocks) && OpsDefined(blocks, defs) && forall t | t in todo :: t in blocks
    requires EmptyWalk(blocks, defs, todo, seen).Ok? && ClosedFrom(blocks, start, c)
    ensures ClosedFrom(EmptyWalk(blocks, defs, todo, seen).value.0, start, c)
    decreases |blocks.Keys - seen|, |todo|
  {
    if todo != [] {
      var b := todo[|todo| - 1];
      var rest := todo[..|todo| - 1];
      if b in seen {
        EmptyWalkClosed(blocks, defs, rest, seen, start, c);
      } else {
        var s := SkipAll(blocks, defs, b, Succ(blocks, b));
        SkipAllClosed(blocks, defs, b, Succ(blocks, b), start, c);
        var blocks' := s.value.0;
        SameOpsUnique(blocks, blocks', defs);
        CardRemove(blocks'.Keys, seen, b);
        EmptyWalkClosed(blocks', defs, rest + Succ(blocks', b), seen + {b}, start, c);
      }
    }
  }

  /**
   * `remove_empty_blocks` only shortens paths through empty blocks: every
   * block reachable afterwards was reachable before, and no block loses its
   * operations.
   */
  lemma EmptyReach(blocks: map<BlockId, Block>, defs: map<OpId, Def>, start: BlockId)
    requires SuccClosed(blocks) && OpsDefined(blocks, defs) && start in blocks
    requires EmptyWalk(blocks, defs, [start], {}).Ok?
    ensures var r := EmptyWalk(blocks, defs, [start], {}).value.0;
      SuccClosed(r) && start in r && Reachable(r, start) <= Reachable(blocks, start)
  {
    var r := EmptyWalk(blocks, defs, [start], {}).value.0;
    DfsOrder(blocks, start);
    DfsOrder(r, start);
    EmptyWalkClosed(blocks, defs, [start], {}, start, Reachable(blocks, start));
  }

  /** The blocks of the walk keep their operations, so the arena stays valid. */
  lemma SameOpsReshaped(blocks: map<BlockId, Block>, blocks2: map<BlockId, Block>)
    requires UniqueOps(blocks) && SameOps(blocks, blocks2) && SuccClosed(blocks2)
    ensures Reshaped(blocks, blocks2)
  {
    assert forall b | b in blocks :: blocks2[b].ops == blocks[b].ops;
  }

  /**
   * `remove_empty_blocks` on the graph: the blocks become those of the walk
   * and the result says whether an edge was retargeted.
   */
  method RemoveEmptyBlocks(g: Graph) returns (r: Result<bool>)
    requires g.Valid()
    modifies g`blocks
    ensures g.Valid()
    ensures var w := EmptyWalk(old(g.blocks), g.defs, [g.start], {});
      (r.Ok? <==> w.Ok?) && (r.Ok? ==> r.value == w.value.1 && g.blocks == w.value.0) &&
      (r.Failure? ==> g.blocks == old(g.blocks))
  {
    var w := EmptyWalkOn(g.blocks, g.defs, g.start);
    if w.Failure? {
      return Failure(w.msg);
    }
    SameOpsReshaped(g.blocks, w.value.0);
    StoreBlocks(g, w.value.0);
    r := Ok(w.value.1);
  }

  /**
   * `remove_empty_blocks` reporting a change only when the blocks did
   * change: the same walk, but an edge "retargeted" onto itself (an empty
   * block that jumps to itself) no longer counts, so `repeat` reaches its
   * fixpoint.
   */
  method RemoveEmptyBlocksCorrected(g: Graph) returns (r: Result<bool>)
    requires g.Valid()
    modifies g`blocks
    ensures g.Valid()
    ensures var w := EmptyWalk(old(g.blocks), g.defs, [g.start], {});
      (r.Ok? <==> w.Ok?) && (r.Ok? ==> g.blocks == w.value.0 && (r.value <==> g.blocks != old(g.blocks))) &&
      (r.Failure? ==> g.blocks == old(g.blocks))
  {
    ghost var before := g.blocks;
    var w := EmptyWalkOn(g.blocks, g.defs, g.start);
    if w.Failure? {
      return Failure(w.msg);
    }
    var changed := w.value.0 != g.blocks;
    SameOpsReshaped(g.blocks, w.value.0);
    StoreBlocks(g, w.value.0);
    r := Ok(changed);
  }

  // ---------------------------------------------------------------------
  // What bypassing keeps

  /** From `s`, `n` empty blocks that end in a `Goto` lead to `t`. */
  ghost predicate Leads(blocks: map<BlockId, Block>, s: BlockId, t: BlockId, n: nat)
    decreases n
  {
    if n == 0 then s == t
    else s in blocks && blocks[s].ops == [] && blocks[s].next.Goto? && Leads(blocks, blocks[s].next.target, t, n - 1)
  }

  lemma {:induction false} LeadsJoin(blocks: map<BlockId, Block>, s: BlockId, m: BlockId, t: BlockId, n1: nat, n2: nat)
    requires Leads(blocks, s, m, n1) && Leads(blocks, m, t, n2)
    ensures Leads(blocks, s, t, n1 + n2)
    decreases n1
  {
    if n1 > 0 {
      LeadsJoin(blocks, blocks[s].next.target, m, t, n1 - 1, n2);
    }
  }

  /** `s` is reached from a successor of `x` in `orig` through empty blocks that end in a `Goto`. */
  ghost predicate Reaches(orig: map<BlockId, Block>, x: BlockId, s: BlockId)
    requires x in orig
  {
    exists s0, n: nat | s0 in NextBlocks(orig[x].next) :: Leads(orig, s0, s, n)
  }

  /**
   * `blk` is block `x` of `orig` with edges moved past empty blocks: it keeps
   * the operations and the kind and arguments of the terminator, and each
   * of its successors is reached from one of the original ones.
   */
  ghost predicate BlockBypassed(orig: map<BlockId, Block>, x: BlockId, blk: Block)
    requires x in orig
  {
    blk.ops == orig[x].ops && blk.next.Goto? == orig[x].next.Goto? &&
    NextArgs(blk.next) == NextArgs(orig[x].next) &&
    forall s | s in NextBlocks(blk.next) :: Reaches(orig, x, s)
  }

  /** `cur` is `orig` with edges moved past empty blocks, block by block. */
  ghost predicate Bypassed(orig: map<BlockId, Block>, cur: map<BlockId, Block>)
  {
    cur.Keys == orig.Keys && forall x | x in orig :: BlockBypassed(orig, x, cur[x])
  }

  lemma BypassedRefl(blocks: map<BlockId, Block>)
    ensures Bypassed(blocks, blocks)
  {
    forall x | x in blocks
      ensures BlockBypassed(blocks, x, blocks[x])
    {
      forall s | s in NextBlocks(blocks[x].next)
        ensures Reaches(blocks, x, s)
      {
        assert Leads(blocks, s, s, 0);
      }
    }
  }

  /** Retargeting the edge of block `x` from `nb` to `t`, where `nb` leads to `t`, keeps it bypassed. */
  lemma RetargetBlock(orig: map<BlockId, Block>, x: BlockId, blk: Block, nb: BlockId, t: BlockId, m: nat)
    requires x in orig && BlockBypassed(orig, x, blk) && Leads(orig, nb, t, m)
    ensures BlockBypassed(orig, x, Block(blk.ops, ReplaceNext(blk.next, nb, t)))
  {
    var n2 := ReplaceNext(blk.next, nb, t);
    ReplaceNextBlocks(blk.next, nb, t);
    assert n2.Goto? == blk.next.Goto?;
    forall s | s in NextBlocks(n2)
      ensures Reaches(orig, x, s)
    {
      var i :| 0 <= i < |NextBlocks(n2)| && NextBlocks(n2)[i] == s;
      var old1 := NextBlocks(blk.next)[i];
      assert Reaches(orig, x, old1);
      if old1 == nb {
        var s0, n: nat :| s0 in NextBlocks(orig[x].next) && Leads(orig, s0, old1, n);
        LeadsJoin(orig, s0, nb, t, n, m);
      }
    }
  }

  /** Retargeting the edge from `b` past the empty block `nb` keeps `Bypassed`. */
  lemma SkipEmptyBypass(orig: map<BlockId, Block>, cur: map<BlockId, Block>, defs: map<OpId, Def>, b: BlockId, nb: BlockId)
    requires SuccClosed(cur) && OpsDefined(cur, defs) && b in cur && nb in cur && Bypassed(orig, cur)
    ensures SkipEmpty(cur, defs, b, nb).Ok? ==> Bypassed(orig, SkipEmpty(cur, defs, b, nb).value.0)
  {
    var r := SkipEmpty(cur, defs, b, nb);
    if r.Ok? && r.value.1 {
      var t := cur[nb].next.target;
      var blk := Block(cur[b].ops, ReplaceNext(cur[b].next, nb, t));
      assert r.value.0 == cur[b := blk];
      assert BlockBypassed(orig, nb, cur[nb]);
      assert t in NextBlocks(cur[nb].next);
      var s1, n1: nat :| s1 in NextBlocks(orig[nb].next) && Leads(orig, s1, t, n1);
      assert Leads(orig, nb, t, n1 + 1);
      assert BlockBypassed(orig, b, cur[b]);
      RetargetBlock(orig, b, cur[b], nb, t, n1 + 1);
    }
  }

  /** The successors of `b`, in order, keep `Bypassed`. */
  lemma {:induction false} SkipAllBypass(orig: map<BlockId, Block>, cur: map<BlockId, Block>, defs: map<OpId, Def>,
                                         b: BlockId, succs: seq<BlockId>)
    requires SuccClosed(cur) && OpsDefined(cur, defs) && b in cur && (forall s | s in succs :: s in cur) && Bypassed(orig, cur)
    ensures SkipAll(cur, defs, b, succs).Ok? ==> Bypassed(orig, SkipAll(cur, defs, b, succs).value.0)
    decreases |succs|
  {
    if succs != [] {
      var w := SkipAll(cur, defs, b, succs[..|succs| - 1]);
      SkipAllBypass(orig, cur, defs, b, succs[..|succs| - 1]);
      if w.Ok? {
        SameOpsUnique(cur, w.value.0, defs);
        SkipEmptyBypass(orig, w.value.0, defs, b, succs[|succs| - 1]);
      }
    }
  }

  /** The walk of `remove_empty_blocks` keeps `Bypassed`. */
  lemma {:induction false} EmptyWalkBypass(orig: map<BlockId, Block>, cur: map<BlockId, Block>, defs: map<OpId, Def>,
                                           todo: seq<BlockId>, seen: set<BlockId>)
    requires SuccClosed(cur) && OpsDefined(cur, defs) && (forall t | t in todo :: t in cur) && Bypassed(orig, cur)
    ensures EmptyWalk(cur, defs, todo, seen).Ok? ==> Bypassed(orig, EmptyWalk(cur, defs, todo, seen).value.0)
    decreases |cur.Keys - seen|, |todo|, 1
  {
    if todo != [] {
      var b := todo[|todo| - 1];
      var rest := todo[..|todo| - 1];
      if b in seen {
        EmptyWalkBypass(orig, cur, defs, rest, seen);
      } else {
        EmptyStepBypass(orig, cur, defs, todo, seen);
      }
    }
  }

  /** The step of `EmptyWalkBypass` at a block not yet seen: its edges are moved, then the walk goes on. */
  lemma {:induction false} EmptyStepBypass(orig: map<BlockId, Block>, cur: map<BlockId, Block>, defs: map<OpId, Def>,
                                           todo: seq<BlockId>, seen: set<BlockId>)
    requires SuccClosed(cur) && OpsDefined(cur, defs) && (forall t | t in todo :: t in cur) && Bypassed(orig, cur)
    requires todo != [] && todo[|todo| - 1] !in seen
    ensures EmptyWalk(cur, defs, todo, seen).Ok? ==> Bypassed(orig, EmptyWalk(cur, defs, todo, seen).value.0)
    decreases |cur.Keys - seen|, |todo|, 0
  {
    var b := todo[|todo| - 1];
    var rest := todo[..|todo| - 1];
    var s := SkipAll(cur, defs, b, Succ(cur, b));
    SkipAllBypass(orig, cur, defs, b, Succ(cur, b));
    if s.Ok? {
      var blocks' := s.value.0;
      SameOpsUnique(cur, blocks', defs);
      CardRemove(blocks'.Keys, seen, b);
      var next := rest + Succ(blocks', b);
      assert forall t | t in next :: t in blocks';
      var w := EmptyWalk(blocks', defs, next, seen + {b});
      assert EmptyWalk(cur, defs, todo, seen) == if w.Failure? then w else Ok((w.value.0, s.value.1 || w.value.1));
      EmptyWalkBypass(orig, blocks', defs, next, seen + {b});
    }
  }

  /**
   * `remove_empty_blocks` moves edges past empty blocks and nothing else:
   * every block keeps its operations and the kind and arguments of its
   * terminator, and each new successor is reached from an old one through
   * empty blocks that end in a `Goto`.
   */
  lemma EmptyWalkSpec(blocks: map<BlockId, Block>, defs: map<OpId, Def>, start: BlockId)
    requires SuccClosed(blocks) && OpsDefined(blocks, defs) && start in blocks
    ensures EmptyWalk(blocks, defs, [start], {}).Ok? ==> Bypassed(blocks, EmptyWalk(blocks, defs, [start], {}).value.0)
  {
    BypassedRefl(blocks);
    EmptyWalkBypass(blocks, blocks, defs, [start], {});
  }

  /** Three blocks in a row, the middle one empty. */
  const Chain: map<BlockId, Block> := map[0 := Block([], Goto(1)), 1 := Block([], Goto(2)), 2 := Block([], Return(None))]

  lemma ChainSkip()
    ensures SuccClosed(Chain) && OpsDefined(Chain, map[])
    ensures SkipAll(Chain, map[], 0, [1]) == Ok((Chain[0 := Block([], Goto(2))], true))
  {
    assert LeadingPhis(Chain[2].ops, map[]) == [];
    assert SkipEmpty(Chain, map[], 0, 1) == Ok((Chain[0 := Block([], Goto(2))], true));
    assert SkipAll(Chain, map[], 0, [1][..0]) == Ok((Chain, false));
  }

  lemma ChainTail()
    ensures var c := Chain[0 := Block([], Goto(2))];
      SuccClosed(c) && OpsDefined(c, map[]) && EmptyWalk(c, map[], [2], {0}) == Ok((c, false))
  {
    var c := Chain[0 := Block([], Goto(2))];
    assert SkipAll(c, map[], 2, []) == Ok((c, false));
    assert EmptyWalk(c, map[], [], {0, 2}) == Ok((c, false));
  }

  /** An empty block between two others is skipped: `0 -> 1 -> 2` becomes `0 -> 2`. */
  lemma EmptyChain()
    ensures SuccClosed(Chain) && OpsDefined(Chain, map[])
    ensures EmptyWalk(Chain, map[], [0], {}) == Ok((Chain[0 := Block([], Goto(2))], true))
  {
    ChainSkip();
    ChainTail();
    assert Succ(Chain, 0) == [1];
    assert Succ(Chain[0 := Block([], Goto(2))], 0) == [2];
    CardRemove(Chain.Keys, {}, 0);
  }

  /**
   * An empty block that jumps to itself is "skipped" onto itself: nothing
   * changes, yet the pass reports a change, so `repeat` runs it to its
   * round limit.
   */
  lemma EmptySelfLoop()
    ensures var blocks := map[0 := Block([], Goto(1)), 1 := Block([], Goto(1))];
      SuccClosed(blocks) && OpsDefined(blocks, map[]) &&
      SkipEmpty(blocks, map[], 0, 1) == Ok((blocks, true))
  {
    var blocks := map[0 := Block([], Goto(1)), 1 := Block([], Goto(1))];
    assert LeadingPhis(blocks[1].ops, map[]) == [];
    assert blocks[0 := Block([], ReplaceNext(Goto(1), 1, 1))] == blocks;
  }

  /**
   * The whole walk on that graph: the blocks come back unchanged, yet the
   * walk reports a change, which `RemoveEmptyBlocksCorrected` does not.
   */
  lemma SelfLoopWalk()
    ensures var blocks := map[0 := Block([], Goto(1)), 1 := Block([], Goto(1))];
      SuccClosed(blocks) && OpsDefined(blocks, map[]) &&
      EmptyWalk(blocks, map[], [0], {}) == Ok((blocks, true))
  {
    var blocks := map[0 := Block([], Goto(1)), 1 := Block([], Goto(1))];
    EmptySelfLoop();
    assert LeadingPhis(blocks[1].ops, map[]) == [];
    assert blocks[1 := Block([], ReplaceNext(Goto(1), 1, 1))] == blocks;
    assert Succ(blocks, 0) == [1] && Succ(blocks, 1) == [1];
    assert SkipAll(blocks, map[], 0, [1]) == Ok((blocks, true));
    assert SkipAll(blocks, map[], 1, [1]) == Ok((blocks, true));
    assert EmptyWalk(blocks, map[], [1], {0, 1}) == Ok((blocks, false));
    assert EmptyWalk(blocks, map[], [1], {0}) == Ok((blocks, true));
    assert [0][..0] + Succ(blocks, 0) == [1] && {} + {0} == {0};
  }
}
