/**
 * Taking the graph out of SSA form before code is emitted: splitting the
 * critical edges, replacing every phi by assignments at the end of its input
 * blocks, and numbering the blocks in walk order.
 */
module Emit {
  import opened Wrappers
  import opened Types
  import opened Ir
  import opened IrGraph

  // ---------------------------------------------------------------------
  // Critical edges

  /** The part of a graph that edge splitting changes. */
  datatype Cfg = Cfg(blocks: map<BlockId, Block>, defs: map<OpId, Def>, nextBlock: nat)

  function Snapshot(g: Graph): Cfg
    reads g
  {
    Cfg(g.blocks, g.defs, g.nextBlock)
  }

  /** The arena facts of `Graph.Valid` that do not involve the start block or the operation counter. */
  ghost predicate Shaped(st: Cfg)
  {
    SuccClosed(st.blocks) && UniqueOps(st.blocks) && PhisBelow(st.defs, st.nextBlock) &&
    forall b | b in st.blocks :: b < st.nextBlock && forall o | o in st.blocks[b].ops :: o in st.defs
  }

  /** An edge into `s` is split when `s` has other than exactly one predecessor. */
  predicate Critical(entry: map<BlockId, seq<BlockId>>, s: BlockId)
  {
    s in entry && |entry[s]| != 1
  }

  /**
   * One round of the inner loop of `remove_critical_edges`: a fresh empty
   * block that jumps to `s` takes over the edges from `b` to `s`, and the
   * leading phis of `s` name it instead of `b` (`replace_prev`).
   */
  ghost function SplitEdge(st: Cfg, entry: map<BlockId, seq<BlockId>>, b: BlockId, s: BlockId): (r: Cfg)
    requires Shaped(st) && b in st.blocks && s in st.blocks
    ensures Shaped(r) && r.nextBlock >= st.nextBlock && r.blocks.Keys >= st.blocks.Keys && r.defs.Keys == st.defs.Keys
  {
    if !Critical(entry, s) then st
    else
      var n := st.nextBlock;
      var blocks := st.blocks[n := Block([], Goto(s))];
      var blocks' := blocks[b := Block(blocks[b].ops, ReplaceNext(blocks[b].next, s, n))];
      var phis := LeadingPhis(blocks'[s].ops, st.defs);
      var r := Cfg(blocks', RenamePrev(st.defs, SetOf(phis), b, n), n + 1);
      SplitEdgeShaped(st, b, s, r);
      r
  }

  lemma SplitEdgeShaped(st: Cfg, b: BlockId, s: BlockId, r: Cfg)
    requires Shaped(st) && b in st.blocks && s in st.blocks
    requires var n := st.nextBlock;
      var blocks := st.blocks[n := Block([], Goto(s))];
      var blocks' := blocks[b := Block(blocks[b].ops, ReplaceNext(blocks[b].next, s, n))];
      r == Cfg(blocks', RenamePrev(st.defs, SetOf(LeadingPhis(blocks'[s].ops, st.defs)), b, n), n + 1)
    ensures Shaped(r)
  {
    var n := st.nextBlock;
    var phis := SetOf(LeadingPhis(r.blocks[s].ops, st.defs));
    SplitEdgeClosed(st.blocks, b, s, n, r.blocks);
    SplitEdgeUnique(st.blocks, b, s, n, r.blocks);
    SplitEdgeBelow(st.defs, phis, b, n);
    SplitEdgeOps(st, b, s, r.blocks, RenamePrev(st.defs, phis, b, n));
  }

  lemma SplitEdgeOps(st: Cfg, b: BlockId, s: BlockId, blocks': map<BlockId, Block>, defs': map<OpId, Def>)
    requires Shaped(st) && b in st.blocks && defs'.Keys == st.defs.Keys
    requires blocks' == st.blocks[st.nextBlock := Block([], Goto(s))][b := Block(st.blocks[b].ops, ReplaceNext(st.blocks[b].next, s, st.nextBlock))]
    ensures forall x | x in blocks' :: x < st.nextBlock + 1 && forall o | o in blocks'[x].ops :: o in defs'
  {
    forall x | x in blocks' ensures x < st.nextBlock + 1 && forall o | o in blocks'[x].ops :: o in defs' {
      if x != st.nextBlock {
        assert blocks'[x].ops == st.blocks[x].ops;
      }
    }
  }

  lemma SplitEdgeUnique(blocks: map<BlockId, Block>, b: BlockId, s: BlockId, n: BlockId, blocks': map<BlockId, Block>)
    requires UniqueOps(blocks) && b in blocks && n !in blocks
    requires blocks' == blocks[n := Block([], Goto(s))][b := Block(blocks[b].ops, ReplaceNext(blocks[b].next, s, n))]
    ensures UniqueOps(blocks') && blocks'.Keys == blocks.Keys + {n}
    ensures forall x | x in blocks' :: blocks'[x].ops == if x == n then [] else blocks[x].ops
  {
  }

  lemma SplitEdgeClosed(blocks: map<BlockId, Block>, b: BlockId, s: BlockId, n: BlockId, blocks': map<BlockId, Block>)
    requires SuccClosed(blocks) && b in blocks && s in blocks && n !in blocks
    requires blocks' == blocks[n := Block([], Goto(s))][b := Block(blocks[b].ops, ReplaceNext(blocks[b].next, s, n))]
    ensures SuccClosed(blocks')
  {
    ReplaceNextBlocks(blocks[b].next, s, n);
    var succs := NextBlocks(blocks'[b].next);
    forall y | y in succs ensures y in blocks' {
      var k :| 0 <= k < |succs| && succs[k] == y;
      assert NextBlocks(blocks[b].next)[k] in blocks;
    }
  }

  lemma SplitEdgeBelow(defs: map<OpId, Def>, phis: set<OpId>, b: BlockId, n: nat)
    requires PhisBelow(defs, n)
    ensures PhisBelow(RenamePrev(defs, phis, b, n), n + 1)
  {
    var defs' := RenamePrev(defs, phis, b, n);
    forall o | o in defs' && defs'[o].Phi?
      ensures forall pb | pb in defs'[o].prevblocks :: pb < n + 1
    {
      forall pb | pb in defs'[o].prevblocks ensures pb < n + 1 {
        if o in phis && defs[o].Phi? {
          var k :| 0 <= k < |defs'[o].prevblocks| && defs'[o].prevblocks[k] == pb;
          assert defs[o].prevblocks[k] in defs[o].prevblocks;
        } else {
          assert defs'[o] == defs[o];
        }
      }
    }
  }

  /** A graph whose maps were split from a valid graph's is valid again. */
  lemma CfgValid(st: Cfg, r: Cfg, start: BlockId, nextOp: nat)
    requires start in st.blocks && (forall o | o in st.defs :: o < nextOp)
    requires Shaped(r) && r.blocks.Keys >= st.blocks.Keys && r.defs.Keys == st.defs.Keys
    ensures start in r.blocks && Arena(r.blocks, r.defs, r.nextBlock, nextOp) && UniqueOps(r.blocks)
  {
  }

  lemma ValidShaped(g: Graph)
    requires g.Valid()
    ensures Shaped(Snapshot(g))
  {
  }

  /** The inner loop over the successors `targets` the block had when its turn came, up to the `j`-th. */
  ghost function SplitTargets(st: Cfg, entry: map<BlockId, seq<BlockId>>, b: BlockId, targets: seq<BlockId>, j: nat): (r: Cfg)
    requires Shaped(st) && b in st.blocks && (forall s | s in targets :: s in st.blocks) && j <= |targets|
    ensures Shaped(r) && r.nextBlock >= st.nextBlock && r.blocks.Keys >= st.blocks.Keys && r.defs.Keys == st.defs.Keys
  {
    if j == 0 then st
    else SplitEdge(SplitTargets(st, entry, b, targets, j - 1), entry, b, targets[j - 1])
  }

  /** One round of the outer loop: a block with exactly one successor is skipped. */
  ghost function SplitBlock(st: Cfg, entry: map<BlockId, seq<BlockId>>, b: BlockId): (r: Cfg)
    requires Shaped(st) && b in st.blocks
    ensures Shaped(r) && r.nextBlock >= st.nextBlock && r.blocks.Keys >= st.blocks.Keys && r.defs.Keys == st.defs.Keys
  {
    var succs := Succ(st.blocks, b);
    if |succs| == 1 then st else SplitTargets(st, entry, b, succs, |succs|)
  }

  /** `remove_critical_edges` over the blocks `order`, in that order. */
  ghost function SplitAll(st: Cfg, entry: map<BlockId, seq<BlockId>>, order: seq<BlockId>): (r: Cfg)
    requires Shaped(st) && forall b | b in order :: b in st.blocks
    ensures Shaped(r) && r.nextBlock >= st.nextBlock && r.blocks.Keys >= st.blocks.Keys && r.defs.Keys == st.defs.Keys
  {
    if order == [] then st
    else SplitBlock(SplitAll(st, entry, order[..|order| - 1]), entry, order[|order| - 1])
  }

  // Properties of edge splitting

  /** The edge that led to `s` now leads to `s2`: directly, or through a fresh block that jumps to `s`. */
  ghost predicate Edge(st: Cfg, entry: map<BlockId, seq<BlockId>>, r: Cfg, s: BlockId, s2: BlockId)
  {
    if Critical(entry, s) then s2 !in st.blocks && s2 in r.blocks && r.blocks[s2] == Block([], Goto(s))
    else s2 == s
  }

  /**
   * What became of block `b`: it keeps its operations; a conditional jump
   * keeps its condition and has each critical edge split; any other
   * terminator is left alone.
   */
  ghost predicate BlockSplit(st: Cfg, entry: map<BlockId, seq<BlockId>>, r: Cfg, b: BlockId)
    requires b in st.blocks
  {
    var n := st.blocks[b].next;
    b in r.blocks && r.blocks[b].ops == st.blocks[b].ops &&
    if n.ConditionalGoto? then
      var n2 := r.blocks[b].next;
      n2.ConditionalGoto? && n2.cond == n.cond &&
      Edge(st, entry, r, n.truetarget, n2.truetarget) && Edge(st, entry, r, n.falsetarget, n2.falsetarget)
    else r.blocks[b].next == n
  }

  /** Every block `r` has beyond those of `st` is fresh, empty, and jumps to a block of `st` in `targets`. */
  ghost predicate FreshBlocks(st: Cfg, r: Cfg, targets: set<BlockId>)
  {
    forall x | x in r.blocks && x !in st.blocks ::
      st.nextBlock <= x < r.nextBlock && r.blocks[x].ops == [] && r.blocks[x].next.Goto? && r.blocks[x].next.target in targets
  }

  /** Every block of `st` other than `b` is unchanged in `r`. */
  ghost predicate Frame(st: Cfg, r: Cfg, b: BlockId)
  {
    forall x | x in st.blocks && x != b :: x in r.blocks && r.blocks[x] == st.blocks[x]
  }

  /** What one round of the inner loop does to the blocks. */
  ghost predicate EdgeFacts(st: Cfg, entry: map<BlockId, seq<BlockId>>, b: BlockId, s: BlockId, r: Cfg)
    requires b in st.blocks
  {
    Frame(st, r, b) && FreshBlocks(st, r, {s}) && st.nextBlock <= r.nextBlock <= st.nextBlock + 1 &&
    b in r.blocks && st.blocks.Keys <= r.blocks.Keys && st.nextBlock !in st.blocks &&
    r.blocks[b] == Block(st.blocks[b].ops, if Critical(entry, s) then ReplaceNext(st.blocks[b].next, s, st.nextBlock) else st.blocks[b].next) &&
    (Critical(entry, s) ==> st.nextBlock in r.blocks && r.blocks[st.nextBlock] == Block([], Goto(s)))
  }

  lemma SplitEdgeSpec(st: Cfg, entry: map<BlockId, seq<BlockId>>, b: BlockId, s: BlockId)
    requires Shaped(st) && b in st.blocks && s in st.blocks
    ensures EdgeFacts(st, entry, b, s, SplitEdge(st, entry, b, s))
  {
  }

  lemma SplitBlockSpec(st: Cfg, entry: map<BlockId, seq<BlockId>>, b: BlockId)
    requires Shaped(st) && b in st.blocks
    ensures var r := SplitBlock(st, entry, b);
      Frame(st, r, b) && FreshBlocks(st, r, SetOf(Succ(st.blocks, b))) && BlockSplit(st, entry, r, b)
  {
    var succs := Succ(st.blocks, b);
    if st.blocks[b].next.ConditionalGoto? {
      SplitCondSpec(st, entry, b);
    } else if |succs| == 0 {
      assert SplitBlock(st, entry, b) == SplitTargets(st, entry, b, succs, 0);
    }
  }

  lemma SplitCondSpec(st: Cfg, entry: map<BlockId, seq<BlockId>>, b: BlockId)
    requires Shaped(st) && b in st.blocks && st.blocks[b].next.ConditionalGoto?
    ensures var r := SplitBlock(st, entry, b);
      Frame(st, r, b) && FreshBlocks(st, r, SetOf(Succ(st.blocks, b))) && BlockSplit(st, entry, r, b)
  {
    var n := st.blocks[b].next;
    var t, f := n.truetarget, n.falsetarget;
    var succs := Succ(st.blocks, b);
    assert succs == [f, t];
    var m := SplitEdge(st, entry, b, f);
    assert SplitTargets(st, entry, b, succs, 0) == st;
    assert SplitTargets(st, entry, b, succs, 1) == m;
    SplitEdgeSpec(st, entry, b, f);
    var r := SplitEdge(m, entry, b, t);
    SplitEdgeSpec(m, entry, b, t);
    assert SplitBlock(st, entry, b) == r;
    assert t in st.blocks && f in st.blocks;
    TwoEdges(st, entry, b, m, r);
  }

  /** The two rounds of the inner loop over a conditional jump, false target first. */
  lemma TwoEdges(st: Cfg, entry: map<BlockId, seq<BlockId>>, b: BlockId, m: Cfg, r: Cfg)
    requires b in st.blocks && st.blocks[b].next.ConditionalGoto?
    requires EdgeFacts(st, entry, b, st.blocks[b].next.falsetarget, m)
    requires EdgeFacts(m, entry, b, st.blocks[b].next.truetarget, r)
    requires st.blocks[b].next.truetarget in st.blocks && st.blocks[b].next.falsetarget in st.blocks
    ensures Frame(st, r, b) && FreshBlocks(st, r, SetOf(Succ(st.blocks, b))) && BlockSplit(st, entry, r, b)
  {
    var n := st.blocks[b].next;
    var c, t, f := n.cond, n.truetarget, n.falsetarget;
    assert Succ(st.blocks, b) == [f, t];
    var n1, n2 := st.nextBlock, m.nextBlock;
    assert n1 !in st.blocks && n2 !in m.blocks;
    var mn := m.blocks[b].next;
    assert mn == if Critical(entry, f) then ReplaceNext(n, f, n1) else n;
    assert mn.ConditionalGoto? && mn.cond == c && mn.truetarget == (if Critical(entry, f) && t == f then n1 else t);
    var rn := r.blocks[b].next;
    assert rn.ConditionalGoto? && rn.cond == c;
    if Critical(entry, f) {
      assert n1 in m.blocks && n1 != b;
      assert r.blocks[n1] == m.blocks[n1];
    }
    assert Edge(st, entry, r, f, rn.falsetarget);
    assert Edge(st, entry, r, t, rn.truetarget);
    forall x | x in r.blocks && x !in st.blocks
      ensures st.nextBlock <= x < r.nextBlock && r.blocks[x].ops == [] && r.blocks[x].next.Goto? && r.blocks[x].next.target in {f, t}
    {
      if x in m.blocks {
        assert r.blocks[x] == m.blocks[x];
      }
    }
  }

  /**
   * `remove_critical_edges` leaves the blocks outside the walk and their
   * operations alone, splits exactly the critical edges out of each
   * conditional jump it walks past, and adds nothing but empty blocks that
   * jump on to a block of the old graph.
   */
  lemma {:induction false} SplitAllSpec(st: Cfg, entry: map<BlockId, seq<BlockId>>, order: seq<BlockId>)
    requires Shaped(st) && (forall b | b in order :: b in st.blocks) && Distinct(order)
    ensures AllSplit(st, entry, order, SplitAll(st, entry, order))
  {
    if order != [] {
      var prefix, b := order[..|order| - 1], order[|order| - 1];
      assert forall i | 0 <= i < |prefix| :: prefix[i] == order[i];
      SplitAllSpec(st, entry, prefix);
      var m := SplitAll(st, entry, prefix);
      SplitBlockSpec(m, entry, b);
      assert SplitAll(st, entry, order) == SplitBlock(m, entry, b);
      AllSplitStep(st, entry, order, m, SplitBlock(m, entry, b));
    }
  }

  /** The conclusion of `SplitAllSpec`. */
  ghost predicate AllSplit(st: Cfg, entry: map<BlockId, seq<BlockId>>, order: seq<BlockId>, r: Cfg)
    requires forall b | b in order :: b in st.blocks
  {
    st.blocks.Keys <= r.blocks.Keys && st.nextBlock <= r.nextBlock &&
    (forall x | x in st.blocks && x !in order :: r.blocks[x] == st.blocks[x]) &&
    (forall b | b in order :: BlockSplit(st, entry, r, b)) &&
    FreshBlocks(st, r, st.blocks.Keys)
  }

  lemma AllSplitStep(st: Cfg, entry: map<BlockId, seq<BlockId>>, order: seq<BlockId>, m: Cfg, r: Cfg)
    requires SuccClosed(st.blocks) && (forall b | b in order :: b in st.blocks) && Distinct(order) && order != []
    requires AllSplit(st, entry, order[..|order| - 1], m)
    requires var b := order[|order| - 1];
      Frame(m, r, b) && FreshBlocks(m, r, SetOf(Succ(m.blocks, b))) && BlockSplit(m, entry, r, b) && m.nextBlock <= r.nextBlock
    ensures AllSplit(st, entry, order, r)
  {
    var b := order[|order| - 1];
    SplitStepFrame(st, entry, order, m, r);
    SplitStepBlocks(st, entry, order, m, r);
    FreshStep(st, m, r, b);
  }

  /** The blocks outside the walk so far stay as they were, and the last one walked was untouched before. */
  lemma SplitStepFrame(st: Cfg, entry: map<BlockId, seq<BlockId>>, order: seq<BlockId>, m: Cfg, r: Cfg)
    requires (forall b | b in order :: b in st.blocks) && Distinct(order) && order != []
    requires AllSplit(st, entry, order[..|order| - 1], m)
    requires Frame(m, r, order[|order| - 1])
    ensures m.blocks[order[|order| - 1]] == st.blocks[order[|order| - 1]]
    ensures forall x | x in st.blocks && x !in order :: r.blocks[x] == st.blocks[x]
  {
    var prefix, b := order[..|order| - 1], order[|order| - 1];
    assert forall i | 0 <= i < |prefix| :: prefix[i] == order[i];
    assert b !in prefix;
    forall x | x in st.blocks && x !in order ensures r.blocks[x] == st.blocks[x] {
      assert x !in prefix;
    }
  }

  /** Every block walked so far, the last one included, has had its critical edges split. */
  lemma SplitStepBlocks(st: Cfg, entry: map<BlockId, seq<BlockId>>, order: seq<BlockId>, m: Cfg, r: Cfg)
    requires (forall b | b in order :: b in st.blocks) && Distinct(order) && order != []
    requires AllSplit(st, entry, order[..|order| - 1], m)
    requires var b := order[|order| - 1];
      Frame(m, r, b) && BlockSplit(m, entry, r, b)
    ensures forall b2 | b2 in order :: BlockSplit(st, entry, r, b2)
  {
    var prefix, b := order[..|order| - 1], order[|order| - 1];
    assert forall i | 0 <= i < |prefix| :: prefix[i] == order[i];
    assert b !in prefix;
    assert m.blocks[b] == st.blocks[b];
    forall b2 | b2 in order ensures BlockSplit(st, entry, r, b2) {
      if b2 != b {
        assert b2 in prefix by {
          var k :| 0 <= k < |order| && order[k] == b2;
          assert k < |prefix| && prefix[k] == b2;
        }
        BlockSplitFrame(st, entry, m, r, b, b2);
      }
    }
  }

  lemma FreshStep(st: Cfg, m: Cfg, r: Cfg, b: BlockId)
    requires SuccClosed(st.blocks) && b in st.blocks && b in m.blocks && m.blocks[b] == st.blocks[b]
    requires FreshBlocks(st, m, st.blocks.Keys) && st.nextBlock <= m.nextBlock <= r.nextBlock
    requires Frame(m, r, b) && FreshBlocks(m, r, SetOf(Succ(m.blocks, b)))
    ensures FreshBlocks(st, r, st.blocks.Keys)
  {
    forall x | x in r.blocks && x !in st.blocks
      ensures st.nextBlock <= x < r.nextBlock && r.blocks[x].ops == [] && r.blocks[x].next.Goto? && r.blocks[x].next.target in st.blocks
    {
      if x in m.blocks {
        assert x != b && r.blocks[x] == m.blocks[x];
      } else {
        assert r.blocks[x].next.target in Succ(st.blocks, b);
      }
    }
  }

  /** A later round, which touches one other old block only, keeps what an earlier round did. */
  lemma BlockSplitFrame(st: Cfg, entry: map<BlockId, seq<BlockId>>, m: Cfg, r: Cfg, b: BlockId, b2: BlockId)
    requires b in st.blocks && b2 in st.blocks && b != b2 && st.blocks.Keys <= m.blocks.Keys
    requires BlockSplit(st, entry, m, b2) && Frame(m, r, b)
    ensures BlockSplit(st, entry, r, b2)
  {
  }

  /** Every input block a leading phi names is a block that jumps to the phi's block. */
  ghost predicate PhiPreds(st: Cfg)
    requires Shaped(st)
  {
    forall s | s in st.blocks :: PhiPredsAt(st, s)
  }

  /** The leading phis of block `s` name as input blocks only blocks that jump to `s`. */
  ghost predicate PhiPredsAt(st: Cfg, s: BlockId)
    requires Shaped(st) && s in st.blocks
  {
    forall o, pb | o in LeadingPhis(st.blocks[s].ops, st.defs) && pb in st.defs[o].prevblocks ::
      pb in st.blocks && s in Succ(st.blocks, pb)
  }

  /** `d` differs from `d0` at most in the input blocks of phis, and lists as many of them. */
  ghost predicate OnlyPrevBlocks(d0: map<OpId, Def>, d: map<OpId, Def>)
  {
    d.Keys == d0.Keys &&
    forall o | o in d0 ::
      if d0[o].Phi? then d[o].Phi? && d[o].prevvalues == d0[o].prevvalues && d[o].typ == d0[o].typ &&
        |d[o].prevblocks| == |d0[o].prevblocks|
      else d[o] == d0[o]
  }

  lemma {:induction false} LeadingRenamed(ops: seq<OpId>, defs: map<OpId, Def>, phis: set<OpId>, a: BlockId, c: BlockId)
    requires forall o | o in ops :: o in defs
    ensures LeadingPhis(ops, RenamePrev(defs, phis, a, c)) == LeadingPhis(ops, defs)
  {
    if ops != [] {
      LeadingRenamed(ops[1..], defs, phis, a, c);
    }
  }

  /** Splitting one edge changes the input blocks of phis only. */
  lemma SplitEdgeDefs(st: Cfg, entry: map<BlockId, seq<BlockId>>, b: BlockId, s: BlockId)
    requires Shaped(st) && b in st.blocks && s in st.blocks
    ensures OnlyPrevBlocks(st.defs, SplitEdge(st, entry, b, s).defs)
  {
    if Critical(entry, s) {
      var r := SplitEdge(st, entry, b, s);
      RenameOnlyPrev(st.defs, SetOf(LeadingPhis(r.blocks[s].ops, st.defs)), b, st.nextBlock);
    }
  }

  /** Splitting one edge keeps every leading phi's input blocks jumping to the phi's block. */
  lemma SplitEdgeKeep(st: Cfg, entry: map<BlockId, seq<BlockId>>, b: BlockId, s: BlockId)
    requires Shaped(st) && b in st.blocks && s in st.blocks && PhiPreds(st)
    ensures PhiPreds(SplitEdge(st, entry, b, s))
  {
    if Critical(entry, s) {
      var r := SplitEdge(st, entry, b, s);
      var n := st.nextBlock;
      var phis := SetOf(LeadingPhis(r.blocks[s].ops, st.defs));
      SplitEdgeSpec(st, entry, b, s);
      SplitEdgeUnique(st.blocks, b, s, n, r.blocks);
      PredsAfterSplit(st, entry, b, s, r, phis);
    }
  }

  lemma OnlyPrevTrans(d0: map<OpId, Def>, d1: map<OpId, Def>, d2: map<OpId, Def>)
    requires OnlyPrevBlocks(d0, d1) && OnlyPrevBlocks(d1, d2)
    ensures OnlyPrevBlocks(d0, d2)
  {
  }

  lemma {:induction false} SplitTargetsDefs(st: Cfg, entry: map<BlockId, seq<BlockId>>, b: BlockId, targets: seq<BlockId>, j: nat)
    requires Shaped(st) && b in st.blocks && (forall s | s in targets :: s in st.blocks) && j <= |targets|
    ensures OnlyPrevBlocks(st.defs, SplitTargets(st, entry, b, targets, j).defs)
  {
    if j > 0 {
      SplitTargetsDefs(st, entry, b, targets, j - 1);
      var m := SplitTargets(st, entry, b, targets, j - 1);
      SplitEdgeDefs(m, entry, b, targets[j - 1]);
      OnlyPrevTrans(st.defs, m.defs, SplitEdge(m, entry, b, targets[j - 1]).defs);
    }
  }

  lemma SplitBlockKeep(st: Cfg, entry: map<BlockId, seq<BlockId>>, b: BlockId)
    requires Shaped(st) && b in st.blocks && PhiPreds(st)
    ensures PhiPreds(SplitBlock(st, entry, b))
  {
    var succs := Succ(st.blocks, b);
    if st.blocks[b].next.ConditionalGoto? {
      SplitCondKeep(st, entry, b);
    } else if |succs| == 0 {
      assert SplitBlock(st, entry, b) == SplitTargets(st, entry, b, succs, 0);
    }
  }

  lemma SplitCondKeep(st: Cfg, entry: map<BlockId, seq<BlockId>>, b: BlockId)
    requires Shaped(st) && b in st.blocks && PhiPreds(st) && st.blocks[b].next.ConditionalGoto?
    ensures PhiPreds(SplitBlock(st, entry, b))
  {
    var succs := Succ(st.blocks, b);
    var t, f := st.blocks[b].next.truetarget, st.blocks[b].next.falsetarget;
    assert succs == [f, t];
    var m := SplitEdge(st, entry, b, f);
    assert SplitTargets(st, entry, b, succs, 1) == m by {
      assert SplitTargets(st, entry, b, succs, 0) == st;
    }
    SplitEdgeKeep(st, entry, b, f);
    SplitEdgeKeep(m, entry, b, t);
    assert SplitBlock(st, entry, b) == SplitEdge(m, entry, b, t);
  }

  /**
   * `remove_critical_edges` changes nothing about the operations and phis but
   * the input blocks of phis, and keeps every input block of a leading phi a
   * block that jumps to the phi's block.
   */
  lemma {:induction false} SplitAllPreds(st: Cfg, entry: map<BlockId, seq<BlockId>>, order: seq<BlockId>)
    requires Shaped(st) && forall b | b in order :: b in st.blocks
    ensures var r := SplitAll(st, entry, order);
      OnlyPrevBlocks(st.defs, r.defs) && (PhiPreds(st) ==> PhiPreds(r))
  {
    if order != [] {
      var prefix, b := order[..|order| - 1], order[|order| - 1];
      SplitAllPreds(st, entry, prefix);
      var m := SplitAll(st, entry, prefix);
      var succs := Succ(m.blocks, b);
      if |succs| != 1 {
        SplitTargetsDefs(m, entry, b, succs, |succs|);
      }
      if PhiPreds(st) {
        SplitBlockKeep(m, entry, b);
      }
      var r := SplitBlock(m, entry, b);
      OnlyPrevTrans(st.defs, m.defs, r.defs);
      if PhiPreds(st) {
        assert PhiPreds(m);
        assert PhiPreds(r);
      }
    }
  }

  lemma RenameOnlyPrev(defs: map<OpId, Def>, phis: set<OpId>, a: BlockId, c: BlockId)
    ensures OnlyPrevBlocks(defs, RenamePrev(defs, phis, a, c))
  {
  }

  lemma PredsAfterSplit(st: Cfg, entry: map<BlockId, seq<BlockId>>, b: BlockId, s: BlockId, r: Cfg, phis: set<OpId>)
    requires Shaped(st) && PhiPreds(st) && b in st.blocks && s in st.blocks && Critical(entry, s) && Shaped(r)
    requires EdgeFacts(st, entry, b, s, r) && r.blocks.Keys == st.blocks.Keys + {st.nextBlock}
    requires phis == SetOf(LeadingPhis(st.blocks[s].ops, st.defs)) && r.defs == RenamePrev(st.defs, phis, b, st.nextBlock)
    ensures PhiPreds(r)
  {
    assert SplitAt(st, entry, b, s, r, phis);
    PredsFromSplitAt(st, entry, b, s, r, phis);
  }

  lemma PredsFromSplitAt(st: Cfg, entry: map<BlockId, seq<BlockId>>, b: BlockId, s: BlockId, r: Cfg, phis: set<OpId>)
    requires Shaped(r) && SplitAt(st, entry, b, s, r, phis)
    ensures PhiPreds(r)
  {
    forall x | x in r.blocks ensures PhiPredsAt(r, x) {
      PredsAtAfterSplit(st, entry, b, s, r, phis, x);
    }
  }

  lemma PredsAtAfterSplit(st: Cfg, entry: map<BlockId, seq<BlockId>>, b: BlockId, s: BlockId, r: Cfg, phis: set<OpId>, x: BlockId)
    requires Shaped(r) && SplitAt(st, entry, b, s, r, phis) && x in r.blocks
    ensures PhiPredsAt(r, x)
  {
    forall o, pb | o in LeadingPhis(r.blocks[x].ops, r.defs) && pb in r.defs[o].prevblocks
      ensures pb in r.blocks && x in Succ(r.blocks, pb)
    {
      PredAfterSplitIf(st, entry, b, s, r, phis, x, o, pb);
    }
  }

  /** The facts `PredsAfterSplit` starts from. */
  ghost predicate SplitAt(st: Cfg, entry: map<BlockId, seq<BlockId>>, b: BlockId, s: BlockId, r: Cfg, phis: set<OpId>)
  {
    Shaped(st) && PhiPreds(st) && b in st.blocks && s in st.blocks && Critical(entry, s) &&
    EdgeFacts(st, entry, b, s, r) && r.blocks.Keys == st.blocks.Keys + {st.nextBlock} &&
    phis == SetOf(LeadingPhis(st.blocks[s].ops, st.defs)) && r.defs == RenamePrev(st.defs, phis, b, st.nextBlock)
  }

  /** `PredAfterSplit` with the split's facts as a hypothesis, so that the quantified call stays small. */
  lemma PredAfterSplitIf(st: Cfg, entry: map<BlockId, seq<BlockId>>, b: BlockId, s: BlockId, r: Cfg,
                         phis: set<OpId>, x: BlockId, o: OpId, pb: BlockId)
    requires Shaped(r) && SplitAt(st, entry, b, s, r, phis)
    requires x in r.blocks && o in LeadingPhis(r.blocks[x].ops, r.defs) && pb in r.defs[o].prevblocks
    ensures pb in r.blocks && x in Succ(r.blocks, pb)
  {
    assert r.defs.Keys == st.defs.Keys;
    PredAfterSplit(st, entry, b, s, r, phis, x, o, pb);
  }

  lemma PredAfterSplit(st: Cfg, entry: map<BlockId, seq<BlockId>>, b: BlockId, s: BlockId, r: Cfg,
                       phis: set<OpId>, x: BlockId, o: OpId, pb: BlockId)
    requires Shaped(st) && PhiPreds(st) && b in st.blocks && s in st.blocks && Critical(entry, s)
    requires EdgeFacts(st, entry, b, s, r) && r.blocks.Keys == st.blocks.Keys + {st.nextBlock}
    requires phis == SetOf(LeadingPhis(st.blocks[s].ops, st.defs)) && r.defs == RenamePrev(st.defs, phis, b, st.nextBlock)
    requires x in r.blocks && (forall o | o in r.blocks[x].ops :: o in st.defs)
    requires o in LeadingPhis(r.blocks[x].ops, r.defs) && pb in r.defs[o].prevblocks
    ensures pb in r.blocks && x in Succ(r.blocks, pb)
  {
    if x == s {
      PredAtTarget(st, entry, b, s, r, phis, x, o, pb);
    } else if x != st.nextBlock {
      PredElsewhere(st, entry, b, s, r, phis, x, o, pb);
    }
  }

  /** At the split edge's target, a phi input from `b` now comes from the new block. */
  lemma PredAtTarget(st: Cfg, entry: map<BlockId, seq<BlockId>>, b: BlockId, s: BlockId, r: Cfg,
                       phis: set<OpId>, x: BlockId, o: OpId, pb: BlockId)
    requires Shaped(st) && PhiPreds(st) && b in st.blocks && s in st.blocks && Critical(entry, s)
    requires EdgeFacts(st, entry, b, s, r) && r.blocks.Keys == st.blocks.Keys + {st.nextBlock}
    requires phis == SetOf(LeadingPhis(st.blocks[s].ops, st.defs)) && r.defs == RenamePrev(st.defs, phis, b, st.nextBlock)
    requires x in r.blocks && (forall o | o in r.blocks[x].ops :: o in st.defs)
    requires o in LeadingPhis(r.blocks[x].ops, r.defs) && pb in r.defs[o].prevblocks
    requires x == s
    ensures pb in r.blocks && x in Succ(r.blocks, pb)
  {
    var n := st.nextBlock;
    LeadingRenamed(r.blocks[x].ops, st.defs, phis, b, n);
    assert r.blocks[x].ops == st.blocks[x].ops;
    var k :| 0 <= k < |r.defs[o].prevblocks| && r.defs[o].prevblocks[k] == pb;
    var old_pb := st.defs[o].prevblocks[k];
    assert old_pb in st.defs[o].prevblocks;
    assert PhiPredsAt(st, x);
    assert old_pb in st.blocks && x in Succ(st.blocks, old_pb);
    assert o in phis;
    if old_pb != b {
      assert pb == old_pb && pb != b;
    }
  }

  /** Elsewhere the phi inputs are unchanged, and `b` still jumps to every other successor. */
  lemma PredElsewhere(st: Cfg, entry: map<BlockId, seq<BlockId>>, b: BlockId, s: BlockId, r: Cfg,
                       phis: set<OpId>, x: BlockId, o: OpId, pb: BlockId)
    requires Shaped(st) && PhiPreds(st) && b in st.blocks && s in st.blocks && Critical(entry, s)
    requires EdgeFacts(st, entry, b, s, r) && r.blocks.Keys == st.blocks.Keys + {st.nextBlock}
    requires phis == SetOf(LeadingPhis(st.blocks[s].ops, st.defs)) && r.defs == RenamePrev(st.defs, phis, b, st.nextBlock)
    requires x in r.blocks && (forall o | o in r.blocks[x].ops :: o in st.defs)
    requires o in LeadingPhis(r.blocks[x].ops, r.defs) && pb in r.defs[o].prevblocks
    requires x != s && x != st.nextBlock
    ensures pb in r.blocks && x in Succ(r.blocks, pb)
  {
    var n := st.nextBlock;
    LeadingRenamed(r.blocks[x].ops, st.defs, phis, b, n);
    assert r.blocks[x].ops == st.blocks[x].ops;
    var k :| 0 <= k < |r.defs[o].prevblocks| && r.defs[o].prevblocks[k] == pb;
    var old_pb := st.defs[o].prevblocks[k];
    assert old_pb in st.defs[o].prevblocks;
    assert PhiPredsAt(st, x);
    assert old_pb in st.blocks && x in Succ(st.blocks, old_pb);
    assert o in st.blocks[x].ops;
    assert o !in phis;
    assert pb == old_pb;
    if pb == b {
      ReplaceNextBlocks(st.blocks[b].next, s, n);
      var j :| 0 <= j < |Succ(st.blocks, b)| && Succ(st.blocks, b)[j] == x;
      assert Succ(r.blocks, b)[j] == x;
    }
  }

  /** One round of the inner loop on the graph's maps. */
  method SplitEdgeOn(st: Cfg, entry: map<BlockId, seq<BlockId>>, b: BlockId, s: BlockId) returns (r: Cfg)
    requires Shaped(st) && b in st.blocks && s in st.blocks
    ensures r == SplitEdge(st, entry, b, s)
  {
    r := st;
    if s in entry && |entry[s]| != 1 {
      var n := st.nextBlock;
      var blocks := st.blocks[n := Block([], Goto(s))];
      blocks := blocks[b := Block(blocks[b].ops, ReplaceNext(blocks[b].next, s, n))];
      assert Distinct(blocks[s].ops) by { SplitEdgeUnique(st.blocks, b, s, n, blocks); }
      var defs, ok := RenameLeading(st.defs, blocks[s].ops, b, n);
      assert ok by {
        forall o | o in LeadingPhis(blocks[s].ops, st.defs) ensures n !in st.defs[o].prevblocks {
          assert forall pb | pb in st.defs[o].prevblocks :: pb < n;
        }
      }
      r := Cfg(blocks, defs, n + 1);
    }
  }

  /** The inner loop of `remove_critical_edges` over the successor list of `b`. */
  method SplitBlockOn(st: Cfg, entry: map<BlockId, seq<BlockId>>, b: BlockId) returns (r: Cfg)
    requires Shaped(st) && b in st.blocks
    ensures r == SplitBlock(st, entry, b)
  {
    var succs := NextBlocks(st.blocks[b].next);
    r := st;
    if |succs| == 1 {
      return;
    }
    var j := 0;
    while j < |succs|
      invariant 0 <= j <= |succs| && r == SplitTargets(st, entry, b, succs, j)
    {
      r := SplitEdgeOn(r, entry, b, succs[j]);
      j := j + 1;
    }
  }

  /** The outer loop of `remove_critical_edges` on the graph's maps. */
  method SplitAllOn(st: Cfg, entry: map<BlockId, seq<BlockId>>, order: seq<BlockId>) returns (r: Cfg)
    requires Shaped(st) && forall b | b in order :: b in st.blocks
    ensures r == SplitAll(st, entry, order)
  {
    r := st;
    for i := 0 to |order|
      invariant r == SplitAll(st, entry, order[..i])
    {
      SplitAllNext(st, entry, order, i);
      r := SplitBlockOn(r, entry, order[i]);
    }
    SplitAllWhole(st, entry, order);
  }

  lemma SplitAllWhole(st: Cfg, entry: map<BlockId, seq<BlockId>>, order: seq<BlockId>)
    requires Shaped(st) && forall b | b in order :: b in st.blocks
    ensures SplitAll(st, entry, order[..|order|]) == SplitAll(st, entry, order)
  {
    assert order[..|order|] == order;
  }

  /** One more block of `order` split after the first `i`. */
  lemma SplitAllNext(st: Cfg, entry: map<BlockId, seq<BlockId>>, order: seq<BlockId>, i: nat)
    requires Shaped(st) && (forall b | b in order :: b in st.blocks) && i < |order|
    ensures order[i] in SplitAll(st, entry, order[..i]).blocks
    ensures SplitAll(st, entry, order[..i + 1]) == SplitBlock(SplitAll(st, entry, order[..i]), entry, order[i])
  {
    assert order[..i + 1][..i] == order[..i];
  }

  /** The graph takes over maps split from its own. */
  method Store(g: Graph, r: Cfg)
    requires g.Valid() && Shaped(r) && r.blocks.Keys >= g.blocks.Keys && r.defs.Keys == g.defs.Keys
    modifies g`blocks, g`defs, g`nextBlock
    ensures g.Valid() && Snapshot(g) == r
  {
    CfgValid(Snapshot(g), r, g.start, g.nextOp);
    g.blocks, g.defs, g.nextBlock := r.blocks, r.defs, r.nextBlock;
  }

  /**
   * `remove_critical_edges`. The walk order and the predecessor map are
   * computed once, before any edge is split; they are handed back as ghost
   * results so that the new state can be stated in terms of them.
   */
  method RemoveCriticalEdges(g: Graph) returns (ghost entry: map<BlockId, seq<BlockId>>, ghost order: seq<BlockId>)
    requires g.Valid()
    modifies g`blocks, g`defs, g`nextBlock
    ensures g.Valid()
    ensures entry == Entrymap(old(g.blocks), g.start) && IsEntrymap(old(g.blocks), g.start, entry)
    ensures order == Dfs(old(g.blocks), [g.start], {}) && Distinct(order)
    ensures Snapshot(g) == SplitAll(old(Snapshot(g)), entry, order)
  {
    var st := Snapshot(g);
    var e := g.MakeEntrymap();
    var blocks := g.IterBlocks();
    entry, order := e, blocks;
    ValidShaped(g);
    var cur := SplitAllOn(st, e, blocks);
    Store(g, cur);
  }

  // ---------------------------------------------------------------------
  // Phi removal

  /** An assignment `target = source` that `remove_phis` puts at the end of an input block. */
  datatype Move = Move(target: OpId, source: Option<Value>)

  function Min(a: nat, b: nat): nat { if a <= b then a else b }

  /**
   * The moves of phi `o` from the first `k` pairs of its input blocks and
   * values, each tagged with the block it goes to: every input that is not the
   * phi itself.
   */
  function PhiMoves(o: OpId, pbs: seq<BlockId>, pvs: seq<Option<Value>>, k: nat): seq<(BlockId, Move)>
    requires k <= |pbs| && k <= |pvs|
  {
    if k == 0 then []
    else PhiMoves(o, pbs, pvs, k - 1) + (if pvs[k - 1] == Some(OpRef(o)) then [] else [(pbs[k - 1], Move(o, pvs[k - 1]))])
  }

  /** `zip(op.prevblocks, op.prevvalues)` stops at the shorter list. */
  function DefMoves(o: OpId, d: Def): seq<(BlockId, Move)>
  {
    if d.Phi? then PhiMoves(o, d.prevblocks, d.prevvalues, Min(|d.prevblocks|, |d.prevvalues|)) else []
  }

  /** The moves of the phis among the first `j` operations of a block; phis need not lead. */
  function OpsMoves(ops: seq<OpId>, defs: map<OpId, Def>, j: nat): seq<(BlockId, Move)>
    requires j <= |ops| && forall o | o in ops :: o in defs
  {
    if j == 0 then [] else OpsMoves(ops, defs, j - 1) + DefMoves(ops[j - 1], defs[ops[j - 1]])
  }

  /** The moves of the first `i` blocks of the walk, in walk order. */
  function WalkMoves(blocks: map<BlockId, Block>, defs: map<OpId, Def>, order: seq<BlockId>, i: nat): seq<(BlockId, Move)>
    requires i <= |order| && Walkable(blocks, defs, order)
  {
    if i == 0 then []
    else WalkMoves(blocks, defs, order, i - 1) + OpsMoves(blocks[order[i - 1]].ops, defs, |blocks[order[i - 1]].ops|)
  }

  /** `all_newops[prevblock].append(move)` on the defaultdict. */
  function Append(acc: map<BlockId, seq<Move>>, x: (BlockId, Move)): map<BlockId, seq<Move>>
  {
    acc[x.0 := (if x.0 in acc then acc[x.0] else []) + [x.1]]
  }

  function AppendAll(acc: map<BlockId, seq<Move>>, ms: seq<(BlockId, Move)>): map<BlockId, seq<Move>>
  {
    if ms == [] then acc else Append(AppendAll(acc, ms[..|ms| - 1]), ms[|ms| - 1])
  }

  /** The moves of `ms` that go to block `pb`, in order. */
  function Group(ms: seq<(BlockId, Move)>, pb: BlockId): seq<Move>
  {
    if ms == [] then []
    else Group(ms[..|ms| - 1], pb) + (if ms[|ms| - 1].0 == pb then [ms[|ms| - 1].1] else [])
  }

  function Get(acc: map<BlockId, seq<Move>>, pb: BlockId): seq<Move>
  {
    if pb in acc then acc[pb] else []
  }

  /** The dictionary holds, for each block, the moves that go to it, in the order they were found. */
  lemma {:induction false} AppendAllSpec(acc: map<BlockId, seq<Move>>, ms: seq<(BlockId, Move)>)
    ensures forall pb :: Get(AppendAll(acc, ms), pb) == Get(acc, pb) + Group(ms, pb)
    ensures AppendAll(acc, ms).Keys == acc.Keys + set x | x in ms :: x.0
  {
    if ms != [] {
      var init := ms[..|ms| - 1];
      AppendAllSpec(acc, init);
      assert forall x | x in ms :: x in init || x == ms[|ms| - 1];
    }
  }

  lemma {:induction false} AppendAllConcat(acc: map<BlockId, seq<Move>>, a: seq<(BlockId, Move)>, b: seq<(BlockId, Move)>)
    ensures AppendAll(acc, a + b) == AppendAll(AppendAll(acc, a), b)
  {
    if b != [] {
      assert (a + b)[..|a + b| - 1] == a + b[..|b| - 1];
      AppendAllConcat(acc, a, b[..|b| - 1]);
    } else {
      assert a + b == a;
    }
  }

  lemma AppendAllSnoc(acc: map<BlockId, seq<Move>>, ms: seq<(BlockId, Move)>, x: (BlockId, Move))
    ensures AppendAll(acc, ms + [x]) == Append(AppendAll(acc, ms), x)
  {
    assert (ms + [x])[..|ms + [x]| - 1] == ms;
  }

  lemma PhiMovesStep(o: OpId, pbs: seq<BlockId>, pvs: seq<Option<Value>>, k: nat)
    requires k < |pbs| && k < |pvs|
    ensures pvs[k] == Some(OpRef(o)) ==> PhiMoves(o, pbs, pvs, k + 1) == PhiMoves(o, pbs, pvs, k)
    ensures pvs[k] != Some(OpRef(o)) ==> PhiMoves(o, pbs, pvs, k + 1) == PhiMoves(o, pbs, pvs, k) + [(pbs[k], Move(o, pvs[k]))]
  {
    assert PhiMoves(o, pbs, pvs, k) + [] == PhiMoves(o, pbs, pvs, k);
  }

  /** The inner loop over the inputs of one phi. */
  method CollectPhi(acc: map<BlockId, seq<Move>>, o: OpId, d: Def) returns (r: map<BlockId, seq<Move>>)
    requires d.Phi?
    ensures r == AppendAll(acc, DefMoves(o, d))
  {
    var pbs, pvs := d.prevblocks, d.prevvalues;
    var n := Min(|pbs|, |pvs|);
    r := acc;
    var k := 0;
    while k < n
      invariant k <= n && r == AppendAll(acc, PhiMoves(o, pbs, pvs, k))
    {
      PhiMovesStep(o, pbs, pvs, k);
      if pvs[k] != Some(OpRef(o)) {
        AppendAllSnoc(acc, PhiMoves(o, pbs, pvs, k), (pbs[k], Move(o, pvs[k])));
        r := Append(r, (pbs[k], Move(o, pvs[k])));
      }
      k := k + 1;
    }
  }

  /** The loop over the operations of one block. */
  method CollectOps(acc: map<BlockId, seq<Move>>, ops: seq<OpId>, defs: map<OpId, Def>) returns (r: map<BlockId, seq<Move>>)
    requires forall o | o in ops :: o in defs
    ensures r == AppendAll(acc, OpsMoves(ops, defs, |ops|))
  {
    r := acc;
    var j := 0;
    while j < |ops|
      invariant j <= |ops| && r == AppendAll(acc, OpsMoves(ops, defs, j))
    {
      var o := ops[j];
      AppendAllConcat(acc, OpsMoves(ops, defs, j), DefMoves(o, defs[o]));
      if defs[o].Phi? {
        r := CollectPhi(r, o, defs[o]);
      } else {
        assert AppendAll(r, DefMoves(o, defs[o])) == r;
      }
      j := j + 1;
    }
  }

  /** The first loop of `remove_phis`: `all_newops` over the blocks of the walk. */
  method CollectMoves(blocks: map<BlockId, Block>, defs: map<OpId, Def>, order: seq<BlockId>) returns (r: map<BlockId, seq<Move>>)
    requires Walkable(blocks, defs, order)
    ensures r == AppendAll(map[], WalkMoves(blocks, defs, order, |order|))
  {
    r := map[];
    var i := 0;
    while i < |order|
      invariant i <= |order| && r == AppendAll(map[], WalkMoves(blocks, defs, order, i))
    {
      var ops := blocks[order[i]].ops;
      AppendAllConcat(map[], WalkMoves(blocks, defs, order, i), OpsMoves(ops, defs, |ops|));
      r := CollectOps(r, ops, defs);
      i := i + 1;
    }
  }

  // The collected moves are exactly the non-trivial phi inputs of the walked blocks.

  /** `m` carries an input of phi `o` coming from block `pb` that is not the phi itself. */
  ghost predicate PhiInput(o: OpId, d: Def, pb: BlockId, m: Move)
  {
    d.Phi? &&
    exists k | 0 <= k < Min(|d.prevblocks|, |d.prevvalues|) ::
      d.prevblocks[k] == pb && d.prevvalues[k] != Some(OpRef(o)) && m == Move(o, d.prevvalues[k])
  }

  lemma {:induction false} PhiMovesMem(o: OpId, pbs: seq<BlockId>, pvs: seq<Option<Value>>, k: nat, x: (BlockId, Move))
    requires k <= |pbs| && k <= |pvs|
    ensures x in PhiMoves(o, pbs, pvs, k) <==>
      exists i | 0 <= i < k :: pbs[i] == x.0 && pvs[i] != Some(OpRef(o)) && x.1 == Move(o, pvs[i])
  {
    if k > 0 {
      PhiMovesMem(o, pbs, pvs, k - 1, x);
    }
  }

  lemma DefMovesMem(o: OpId, d: Def, x: (BlockId, Move))
    ensures x in DefMoves(o, d) <==> PhiInput(o, d, x.0, x.1)
  {
    if d.Phi? {
      PhiMovesMem(o, d.prevblocks, d.prevvalues, Min(|d.prevblocks|, |d.prevvalues|), x);
    }
  }

  lemma {:induction false} OpsMovesMem(ops: seq<OpId>, defs: map<OpId, Def>, j: nat, x: (BlockId, Move))
    requires j <= |ops| && forall o | o in ops :: o in defs
    ensures x in OpsMoves(ops, defs, j) <==> exists i | 0 <= i < j :: x in DefMoves(ops[i], defs[ops[i]])
  {
    if j > 0 {
      OpsMovesMem(ops, defs, j - 1, x);
    }
  }

  /** A move of the walk comes from one of its blocks. */
  lemma {:induction false} WalkMovesFrom(blocks: map<BlockId, Block>, defs: map<OpId, Def>, order: seq<BlockId>, i: nat, x: (BlockId, Move))
    returns (h: nat)
    requires i <= |order| && Walkable(blocks, defs, order)
    requires x in WalkMoves(blocks, defs, order, i)
    ensures h < i && x in OpsMoves(blocks[order[h]].ops, defs, |blocks[order[h]].ops|)
  {
    var ops := blocks[order[i - 1]].ops;
    assert WalkMoves(blocks, defs, order, i) == WalkMoves(blocks, defs, order, i - 1) + OpsMoves(ops, defs, |ops|);
    if x in OpsMoves(ops, defs, |ops|) {
      h := i - 1;
    } else {
      h := WalkMovesFrom(blocks, defs, order, i - 1, x);
    }
  }

  /** Every move of a walked block is a move of the walk. */
  lemma {:induction false} WalkMovesTo(blocks: map<BlockId, Block>, defs: map<OpId, Def>, order: seq<BlockId>, i: nat, h: nat, x: (BlockId, Move))
    requires i <= |order| && Walkable(blocks, defs, order) && h < i
    requires x in OpsMoves(blocks[order[h]].ops, defs, |blocks[order[h]].ops|)
    ensures x in WalkMoves(blocks, defs, order, i)
  {
    var ops := blocks[order[i - 1]].ops;
    assert WalkMoves(blocks, defs, order, i) == WalkMoves(blocks, defs, order, i - 1) + OpsMoves(ops, defs, |ops|);
    if h < i - 1 {
      WalkMovesTo(blocks, defs, order, i - 1, h, x);
    }
  }

  lemma {:induction false} GroupMem(ms: seq<(BlockId, Move)>, pb: BlockId, m: Move)
    ensures m in Group(ms, pb) <==> (pb, m) in ms
  {
    if ms != [] {
      var init := ms[..|ms| - 1];
      GroupMem(init, pb, m);
      assert ms == init + [ms[|ms| - 1]];
    }
  }

  /**
   * A block's list in `all_newops` holds `m` exactly when some phi of a
   * walked block (leading or not) has an input from that block, other than
   * the phi itself, that `m` assigns.
   */
  lemma MovesSpec(blocks: map<BlockId, Block>, defs: map<OpId, Def>, order: seq<BlockId>, pb: BlockId, m: Move)
    requires Walkable(blocks, defs, order)
    ensures m in Get(AppendAll(map[], WalkMoves(blocks, defs, order, |order|)), pb) <==>
      exists b, o | b in order && o in blocks[b].ops :: PhiInput(o, defs[o], pb, m)
  {
    var ms := WalkMoves(blocks, defs, order, |order|);
    AppendAllSpec(map[], ms);
    GroupMem(ms, pb, m);
    if (pb, m) in ms {
      var h := WalkMovesFrom(blocks, defs, order, |order|, (pb, m));
      var ops := blocks[order[h]].ops;
      OpsMovesMem(ops, defs, |ops|, (pb, m));
      var i :| 0 <= i < |ops| && (pb, m) in DefMoves(ops[i], defs[ops[i]]);
      DefMovesMem(ops[i], defs[ops[i]], (pb, m));
    }
    if exists b, o | b in order && o in blocks[b].ops :: PhiInput(o, defs[o], pb, m) {
      var b, o :| b in order && o in blocks[b].ops && PhiInput(o, defs[o], pb, m);
      var h :| 0 <= h < |order| && order[h] == b;
      var ops := blocks[b].ops;
      var i :| 0 <= i < |ops| && ops[i] == o;
      DefMovesMem(o, defs[o], (pb, m));
      OpsMovesMem(ops, defs, |ops|, (pb, m));
      WalkMovesTo(blocks, defs, order, |order|, h, (pb, m));
    }
  }

  // ---------------------------------------------------------------------
  // Emitting the moves

  /** The operations side of the arena, which is all that `remove_phis` changes. */
  datatype Body = Body(blocks: map<BlockId, Block>, defs: map<OpId, Def>, nextOp: nat)

  function BodyOf(g: Graph): Body
    reads g
  {
    Body(g.blocks, g.defs, g.nextOp)
  }

  /** Every operation of a block has a slot below the counter, and sits in one place only. */
  ghost predicate Solid(st: Body)
  {
    UniqueOps(st.blocks) &&
    (forall b | b in st.blocks :: forall o | o in st.blocks[b].ops :: o in st.defs) &&
    (forall o | o in st.defs :: o < st.nextOp)
  }

  /** Every move has a source; the builder's `None` placeholders are all patched. */
  predicate Patched(ms: seq<Move>)
  {
    forall i | 0 <= i < |ms| :: ms[i].source.Some?
  }

  /** A block's moves would read a phi that an earlier move of the same block already overwrote. */
  predicate Overlap(ms: seq<Move>)
  {
    exists i, j | 0 <= i < |ms| && 0 <= j < |ms| :: ms[j].source == Some(OpRef(ms[i].target))
  }

  /** Some block's moves cannot be emitted as plain assignments. */
  predicate Blocked(moves: map<BlockId, seq<Move>>)
  {
    exists pb | pb in moves :: Overlap(moves[pb]) || !Patched(moves[pb])
  }

  /** `ir.NonSSAAssignment(target, source)`. */
  function Assign(m: Move): Def
    requires m.source.Some?
  {
    MakeNonSSAAssignment(OpRef(m.target), m.source.value)
  }

  function Range(a: nat, n: nat): (r: seq<OpId>)
    ensures |r| == n && forall k | 0 <= k < n :: r[k] == a + k
  {
    if n == 0 then [] else Range(a, n - 1) + [a + n - 1]
  }

  lemma Snoc<T>(s: seq<T>)
    requires s != []
    ensures s[..|s| - 1] + [s[|s| - 1]] == s
  {
  }

  /** One more assignment at the end of block `pb`, in the next free slot. */
  function AppendOne(s: Body, pb: BlockId, m: Move): (r: Body)
    requires pb in s.blocks && m.source.Some?
    ensures r.blocks.Keys == s.blocks.Keys && r.nextOp == s.nextOp + 1
  {
    Body(s.blocks[pb := Block(s.blocks[pb].ops + [s.nextOp], s.blocks[pb].next)], s.defs[s.nextOp := Assign(m)], s.nextOp + 1)
  }

  /** The assignments for `ms` appended to block `pb` one after the other. */
  function AppendMoves(st: Body, pb: BlockId, ms: seq<Move>): (r: Body)
    requires pb in st.blocks && Patched(ms)
    ensures r.blocks.Keys == st.blocks.Keys && r.nextOp == st.nextOp + |ms|
  {
    if ms == [] then st else AppendOne(AppendMoves(st, pb, ms[..|ms| - 1]), pb, ms[|ms| - 1])
  }

  /** What any emission keeps: old slots, other blocks' edges, and new slots that are never phis. */
  ghost predicate Grown(st: Body, r: Body)
  {
    r.blocks.Keys == st.blocks.Keys && st.nextOp <= r.nextOp &&
    (forall b | b in st.blocks :: r.blocks[b].next == st.blocks[b].next) &&
    (forall o | o in st.defs :: o in r.defs && r.defs[o] == st.defs[o]) &&
    (forall o | o in r.defs && o !in st.defs :: st.nextOp <= o && !r.defs[o].Phi?)
  }

  /**
   * Block `b` of `r` holds `kept` followed by one assignment per move of
   * `ms`, each in a slot from `low` on.
   */
  ghost predicate Appended(kept: seq<OpId>, r: Body, b: BlockId, ms: seq<Move>, low: nat)
    requires b in r.blocks && Patched(ms)
  {
    var ops := r.blocks[b].ops;
    |ops| == |kept| + |ms| && ops[..|kept|] == kept &&
    forall i | |kept| <= i < |ops| :: low <= ops[i] && ops[i] in r.defs && r.defs[ops[i]] == Assign(ms[i - |kept|])
  }

  lemma AppendOneSolid(s: Body, pb: BlockId, m: Move)
    requires Solid(s) && pb in s.blocks && m.source.Some?
    ensures Solid(AppendOne(s, pb, m)) && Grown(s, AppendOne(s, pb, m))
  {
    var id := s.nextOp;
    var ops := s.blocks[pb].ops + [id];
    assert id !in s.defs;
    forall o, x | o in ops && x in s.blocks && x != pb
      ensures o !in s.blocks[x].ops
    {
      if o == id {
        assert id !in s.defs;
      } else {
        assert o in s.blocks[pb].ops;
      }
    }
    assert Distinct(ops) by {
      forall i | 0 <= i < |ops| - 1 ensures ops[i] != id {
        assert ops[i] in s.blocks[pb].ops;
      }
    }
    UniqueSetOps(s.blocks, pb, ops, s.blocks[pb].next);
  }

  /** What appending the assignments for `ms` to block `pb` of `st` leaves in `r`. */
  ghost predicate AppendFacts(st: Body, pb: BlockId, ms: seq<Move>, r: Body)
    requires pb in st.blocks && pb in r.blocks && Patched(ms)
  {
    r.nextOp == st.nextOp + |ms| &&
    (forall b | b in st.blocks && b != pb :: b in r.blocks && r.blocks[b] == st.blocks[b]) &&
    r.blocks[pb].ops == st.blocks[pb].ops + Range(st.nextOp, |ms|) &&
    Slots(r.defs, st.nextOp, ms)
  }

  /** The slots from `n` on hold the assignments for `ms`, in order. */
  ghost predicate Slots(defs: map<OpId, Def>, n: nat, ms: seq<Move>)
    requires Patched(ms)
  {
    forall o | n <= o < n + |ms| :: o in defs && defs[o] == Assign(ms[o - n])
  }

  lemma AppendFactsStep(st: Body, pb: BlockId, init: seq<Move>, m: Move, s: Body)
    requires pb in st.blocks && pb in s.blocks && Patched(init) && m.source.Some?
    requires AppendFacts(st, pb, init, s)
    ensures Patched(init + [m]) && AppendFacts(st, pb, init + [m], AppendOne(s, pb, m))
  {
    var ms := init + [m];
    var r := AppendOne(s, pb, m);
    assert Range(st.nextOp, |ms|) == Range(st.nextOp, |init|) + [s.nextOp];
    forall o | st.nextOp <= o < st.nextOp + |ms|
      ensures o in r.defs && r.defs[o] == Assign(ms[o - st.nextOp])
    {
      if o < s.nextOp {
        assert init[o - st.nextOp] == ms[o - st.nextOp];
      }
    }
  }

  ghost predicate AppendDone(st: Body, pb: BlockId, ms: seq<Move>, r: Body)
    requires pb in st.blocks && pb in r.blocks && Patched(ms)
  {
    Solid(r) && Grown(st, r) && AppendFacts(st, pb, ms, r)
  }

  lemma AppendDoneStep(st: Body, pb: BlockId, init: seq<Move>, m: Move, s: Body)
    requires pb in st.blocks && pb in s.blocks && Patched(init) && m.source.Some?
    requires AppendDone(st, pb, init, s)
    ensures Patched(init + [m]) && AppendDone(st, pb, init + [m], AppendOne(s, pb, m))
  {
    AppendOneSolid(s, pb, m);
    GrownTrans(st, s, AppendOne(s, pb, m));
    AppendFactsStep(st, pb, init, m, s);
  }

  /** Appending keeps the arena sound and touches block `pb` only, in the way `AppendFacts` says. */
  lemma {:induction false} AppendMovesSpec(st: Body, pb: BlockId, ms: seq<Move>)
    requires Solid(st) && pb in st.blocks && Patched(ms)
    ensures AppendDone(st, pb, ms, AppendMoves(st, pb, ms))
  {
    if ms == [] {
      assert st.blocks[pb].ops + Range(st.nextOp, 0) == st.blocks[pb].ops;
    } else {
      var init := ms[..|ms| - 1];
      AppendMovesSpec(st, pb, init);
      AppendDoneStep(st, pb, init, ms[|ms| - 1], AppendMoves(st, pb, init));
      Snoc(ms);
    }
  }

  /** The innermost loop of the emission: one assignment per move of block `pb`. */
  method AppendOn(st: Body, pb: BlockId, ms: seq<Move>) returns (r: Body)
    requires pb in st.blocks && Patched(ms)
    ensures r == AppendMoves(st, pb, ms)
  {
    r := st;
    var k := 0;
    while k < |ms|
      invariant k <= |ms| && Patched(ms[..k]) && r == AppendMoves(st, pb, ms[..k])
    {
      assert ms[..k + 1][..k] == ms[..k];
      r := AppendOne(r, pb, ms[k]);
      k := k + 1;
    }
    assert ms[..k] == ms;
  }

  lemma GrownTrans(a: Body, b: Body, c: Body)
    requires Grown(a, b) && Grown(b, c)
    ensures Grown(a, c)
  {
  }

  /** Every move of a block that exists gets an assignment when the block's turn comes in `keys`. */
  function EmitAll(st: Body, moves: map<BlockId, seq<Move>>, keys: seq<BlockId>): (r: Body)
    requires forall pb | pb in keys :: pb in moves && Patched(moves[pb])
    ensures r.blocks.Keys == st.blocks.Keys
  {
    if keys == [] then st
    else
      var s := EmitAll(st, moves, keys[..|keys| - 1]);
      var pb := keys[|keys| - 1];
      if pb in s.blocks then AppendMoves(s, pb, moves[pb]) else s
  }

  /** What emitting the moves of the blocks in `keys` leaves in `r`. */
  ghost predicate EmitFacts(st: Body, moves: map<BlockId, seq<Move>>, keys: seq<BlockId>, r: Body)
    requires forall pb | pb in keys :: pb in moves && Patched(moves[pb])
  {
    Solid(r) && Grown(st, r) &&
    (forall b | b in st.blocks && b !in keys :: r.blocks[b] == st.blocks[b]) &&
    (forall b | b in st.blocks && b in keys :: b in r.blocks && Appended(st.blocks[b].ops, r, b, moves[b], st.nextOp))
  }

  lemma AppendedKeep(kept: seq<OpId>, s: Body, r: Body, b: BlockId, ms: seq<Move>, low: nat)
    requires b in s.blocks && b in r.blocks && Patched(ms) && Appended(kept, s, b, ms, low)
    requires r.blocks[b] == s.blocks[b] && Grown(s, r)
    ensures Appended(kept, r, b, ms, low)
  {
  }

  lemma AppendedNew(st: Body, s: Body, pb: BlockId, ms: seq<Move>, r: Body)
    requires pb in st.blocks && pb in s.blocks && pb in r.blocks && Patched(ms)
    requires s.blocks[pb] == st.blocks[pb] && st.nextOp <= s.nextOp && AppendFacts(s, pb, ms, r)
    ensures Appended(st.blocks[pb].ops, r, pb, ms, st.nextOp)
  {
    var kept := st.blocks[pb].ops;
    var ops := r.blocks[pb].ops;
    assert ops[..|kept|] == kept;
    forall i | |kept| <= i < |ops|
      ensures st.nextOp <= ops[i] && ops[i] in r.defs && r.defs[ops[i]] == Assign(ms[i - |kept|])
    {
      assert ops[i] == s.nextOp + (i - |kept|);
    }
  }

  lemma EmitStep(st: Body, moves: map<BlockId, seq<Move>>, init: seq<BlockId>, pb: BlockId, s: Body)
    requires forall x | x in init :: x in moves && Patched(moves[x])
    requires pb in moves && Patched(moves[pb]) && pb !in init
    requires EmitFacts(st, moves, init, s)
    ensures forall x | x in init + [pb] :: x in moves && Patched(moves[x])
    ensures EmitFacts(st, moves, init + [pb], if pb in s.blocks then AppendMoves(s, pb, moves[pb]) else s)
  {
    var keys := init + [pb];
    if pb in s.blocks {
      var ms := moves[pb];
      var r := AppendMoves(s, pb, ms);
      AppendMovesSpec(s, pb, ms);
      GrownTrans(st, s, r);
      forall b | b in st.blocks && b in keys
        ensures b in r.blocks && Appended(st.blocks[b].ops, r, b, moves[b], st.nextOp)
      {
        if b == pb {
          AppendedNew(st, s, pb, ms, r);
        } else {
          assert b in init;
          AppendedKeep(st.blocks[b].ops, s, r, b, moves[b], st.nextOp);
        }
      }
    }
  }

  lemma {:induction false} EmitAllSpec(st: Body, moves: map<BlockId, seq<Move>>, keys: seq<BlockId>)
    requires forall pb | pb in keys :: pb in moves && Patched(moves[pb])
    requires Solid(st) && Distinct(keys)
    ensures EmitFacts(st, moves, keys, EmitAll(st, moves, keys))
  {
    if keys == [] {
    } else {
      var init := keys[..|keys| - 1];
      var pb := keys[|keys| - 1];
      assert forall x | x in init :: x in keys;
      assert Distinct(init);
      EmitAllSpec(st, moves, init);
      EmitStep(st, moves, init, pb, EmitAll(st, moves, init));
      Snoc(keys);
    }
  }

  /** The emission loop over the keys of `all_newops`, in whatever order the dictionary yields them. */
  method EmitOn(st: Body, moves: map<BlockId, seq<Move>>) returns (r: Body, ghost keys: seq<BlockId>)
    requires forall pb | pb in moves :: Patched(moves[pb])
    ensures Distinct(keys) && SetOf(keys) == moves.Keys
    ensures forall pb | pb in keys :: pb in moves && Patched(moves[pb])
    ensures r == EmitAll(st, moves, keys)
  {
    r, keys := st, [];
    var todo := moves.Keys;
    while todo != {}
      invariant todo <= moves.Keys && SetOf(keys) == moves.Keys - todo && Distinct(keys)
      invariant forall pb | pb in keys :: pb in moves && Patched(moves[pb])
      invariant r == EmitAll(st, moves, keys)
      decreases |todo|
    {
      var pb :| pb in todo;
      assert pb !in SetOf(keys);
      assert SetOf(keys + [pb]) == SetOf(keys) + {pb};
      Snoc(keys + [pb]);
      if pb in r.blocks {
        r := AppendOn(r, pb, moves[pb]);
      }
      keys := keys + [pb];
      todo := todo - {pb};
    }
  }

  // ---------------------------------------------------------------------
  // Dropping the phis

  /** `[op for op in ops if not isinstance(op, ir.Phi)]`. */
  function NonPhis(ops: seq<OpId>, defs: map<OpId, Def>): seq<OpId>
    requires forall o | o in ops :: o in defs
  {
    if ops == [] then []
    else NonPhis(ops[..|ops| - 1], defs) + (if defs[ops[|ops| - 1]].Phi? then [] else [ops[|ops| - 1]])
  }

  /** The filter keeps exactly the operations that are not phis, without repeating any. */
  lemma {:induction false} NonPhisSpec(ops: seq<OpId>, defs: map<OpId, Def>)
    requires forall o | o in ops :: o in defs
    ensures forall o :: o in NonPhis(ops, defs) <==> o in ops && !defs[o].Phi?
    ensures Distinct(ops) ==> Distinct(NonPhis(ops, defs))
  {
    if ops != [] {
      var init := ops[..|ops| - 1];
      var last := ops[|ops| - 1];
      assert forall o | o in init :: o in ops;
      NonPhisSpec(init, defs);
      Snoc(ops);
      if Distinct(ops) {
        assert Distinct(init);
        assert last !in init;
      }
    }
  }

  /** Assignments appended after the kept operations survive the filter as they are. */
  lemma {:induction false} NonPhisAppend(a: seq<OpId>, b: seq<OpId>, defs: map<OpId, Def>)
    requires forall o | o in a + b :: o in defs
    requires forall o | o in b :: !defs[o].Phi?
    ensures NonPhis(a + b, defs) == NonPhis(a, defs) + b
  {
    if b == [] {
      assert a + b == a;
    } else {
      var init := b[..|b| - 1];
      assert (a + b)[..|a + b| - 1] == a + init;
      NonPhisAppend(a, init, defs);
      Snoc(b);
    }
  }

  /** The filter only looks at the slots of the operations it is given. */
  lemma {:induction false} NonPhisAgree(ops: seq<OpId>, d1: map<OpId, Def>, d2: map<OpId, Def>)
    requires forall o | o in ops :: o in d1 && o in d2 && d1[o] == d2[o]
    ensures NonPhis(ops, d1) == NonPhis(ops, d2)
  {
    if ops != [] {
      NonPhisAgree(ops[..|ops| - 1], d1, d2);
    }
  }

  /** The phis of every walked block are gone; other blocks are as they were. */
  ghost function DropPhis(st: Body, order: seq<BlockId>): Body
    requires forall b | b in st.blocks :: forall o | o in st.blocks[b].ops :: o in st.defs
  {
    Body(map b | b in st.blocks :: if b in order then Block(NonPhis(st.blocks[b].ops, st.defs), st.blocks[b].next) else st.blocks[b],
         st.defs, st.nextOp)
  }

  lemma DropPhisSolid(st: Body, order: seq<BlockId>)
    requires Solid(st)
    ensures Solid(DropPhis(st, order)) && Grown(st, DropPhis(st, order))
  {
    var r := DropPhis(st, order);
    forall b | b in st.blocks
      ensures Distinct(r.blocks[b].ops) && forall o | o in r.blocks[b].ops :: o in st.blocks[b].ops
    {
      NonPhisSpec(st.blocks[b].ops, st.defs);
    }
  }

  lemma DropStep(st: Body, order: seq<BlockId>, i: nat, r: Body)
    requires Solid(st) && Distinct(order) && i < |order| && order[i] in st.blocks
    requires r == DropPhis(st, order[..i])
    ensures order[i] in r.blocks && forall o | o in r.blocks[order[i]].ops :: o in r.defs
    ensures var b := order[i];
      Body(r.blocks[b := Block(NonPhis(r.blocks[b].ops, r.defs), r.blocks[b].next)], r.defs, r.nextOp) == DropPhis(st, order[..i + 1])
  {
    var b := order[i];
    var pre := order[..i];
    var next := order[..i + 1];
    assert b !in pre;
    assert forall x :: x in next <==> x in pre || x == b;
    var d := DropPhis(st, next);
    assert r.blocks[b] == st.blocks[b];
    assert r.blocks[b := Block(NonPhis(r.blocks[b].ops, r.defs), r.blocks[b].next)] == d.blocks;
  }

  /** The last loop of `remove_phis`, over the blocks of the walk. */
  method DropOn(st: Body, order: seq<BlockId>) returns (r: Body)
    requires Solid(st) && Distinct(order) && forall b | b in order :: b in st.blocks
    ensures r == DropPhis(st, order)
  {
    r := st;
    var i := 0;
    while i < |order|
      invariant i <= |order| && r == DropPhis(st, order[..i])
    {
      var b := order[i];
      DropStep(st, order, i, r);
      r := Body(r.blocks[b := Block(NonPhis(r.blocks[b].ops, r.defs), r.blocks[b].next)], r.defs, r.nextOp);
      i := i + 1;
    }
    assert order[..i] == order;
  }

  /**
   * After the moves are emitted and the phis dropped: no walked block holds
   * a phi, and every block holds what it kept of its old operations followed
   * by one assignment per move that goes to it.
   */
  lemma RemovePhisSpec(st: Body, moves: map<BlockId, seq<Move>>, keys: seq<BlockId>, order: seq<BlockId>)
    requires Solid(st) && Distinct(keys) && SetOf(keys) == moves.Keys
    requires forall pb | pb in keys :: pb in moves && Patched(moves[pb])
    ensures Solid(EmitAll(st, moves, keys)) && Solid(DropPhis(EmitAll(st, moves, keys), order))
    ensures Grown(st, DropPhis(EmitAll(st, moves, keys), order))
    ensures var r := DropPhis(EmitAll(st, moves, keys), order);
      forall b | b in order && b in r.blocks :: forall o | o in r.blocks[b].ops :: !r.defs[o].Phi?
    ensures var r := DropPhis(EmitAll(st, moves, keys), order);
      forall b | b in st.blocks ::
        Appended(if b in order then NonPhis(st.blocks[b].ops, st.defs) else st.blocks[b].ops, r, b, Get(moves, b), st.nextOp)
  {
    var e := EmitAll(st, moves, keys);
    EmitAllSpec(st, moves, keys);
    DropPhisSolid(e, order);
    GrownTrans(st, e, DropPhis(e, order));
    var r := DropPhis(e, order);
    forall b | b in order && b in r.blocks
      ensures forall o | o in r.blocks[b].ops :: !r.defs[o].Phi?
    {
      NonPhisSpec(e.blocks[b].ops, e.defs);
    }
    forall b | b in st.blocks
      ensures Appended(if b in order then NonPhis(st.blocks[b].ops, st.defs) else st.blocks[b].ops, r, b, Get(moves, b), st.nextOp)
    {
      KeptBlock(st, moves, keys, order, e, b);
    }
  }

  /** After the emission every block holds its old operations and then its assignments. */
  lemma EmittedBlock(st: Body, moves: map<BlockId, seq<Move>>, keys: seq<BlockId>, e: Body, b: BlockId)
    requires forall pb | pb in keys :: pb in moves && Patched(moves[pb])
    requires SetOf(keys) == moves.Keys && b in st.blocks
    requires EmitFacts(st, moves, keys, e)
    ensures b in e.blocks && Patched(Get(moves, b)) && Appended(st.blocks[b].ops, e, b, Get(moves, b), st.nextOp)
  {
    if b !in keys {
      assert e.blocks[b].ops[..|st.blocks[b].ops|] == st.blocks[b].ops;
    }
  }

  lemma KeptBlock(st: Body, moves: map<BlockId, seq<Move>>, keys: seq<BlockId>, order: seq<BlockId>, e: Body, b: BlockId)
    requires forall pb | pb in keys :: pb in moves && Patched(moves[pb])
    requires Solid(st) && SetOf(keys) == moves.Keys && b in st.blocks
    requires EmitFacts(st, moves, keys, e)
    ensures Appended(if b in order then NonPhis(st.blocks[b].ops, st.defs) else st.blocks[b].ops, DropPhis(e, order), b, Get(moves, b), st.nextOp)
  {
    EmittedBlock(st, moves, keys, e, b);
    if b in order {
      FilteredBlock(st.blocks[b].ops, st.defs, e, b, Get(moves, b), st.nextOp, DropPhis(e, order));
    }
  }

  /** Filtering the phis out of a block that holds `old_ops` and then assignments. */
  lemma FilteredBlock(old_ops: seq<OpId>, defs: map<OpId, Def>, e: Body, b: BlockId, ms: seq<Move>, low: nat, r: Body)
    requires b in e.blocks && Patched(ms) && Appended(old_ops, e, b, ms, low)
    requires forall o | o in old_ops :: o in defs && o in e.defs && e.defs[o] == defs[o]
    requires forall o | o in e.blocks[b].ops :: o in e.defs
    requires b in r.blocks && r.defs == e.defs && r.blocks[b].ops == NonPhis(e.blocks[b].ops, e.defs)
    ensures Appended(NonPhis(old_ops, defs), r, b, ms, low)
  {
    var ops := e.blocks[b].ops;
    var tail := ops[|old_ops|..];
    AppendedTail(old_ops, e, b, ms, low);
    NonPhisAppend(old_ops, tail, e.defs);
    NonPhisAgree(old_ops, defs, e.defs);
    AppendedOf(NonPhis(old_ops, defs), tail, r, b, ms, low);
  }

  /** The assignments after the kept operations of an `Appended` block. */
  lemma AppendedTail(kept: seq<OpId>, e: Body, b: BlockId, ms: seq<Move>, low: nat)
    requires b in e.blocks && Patched(ms) && Appended(kept, e, b, ms, low)
    ensures var ops := e.blocks[b].ops; var tail := ops[|kept|..];
      ops == kept + tail && |tail| == |ms| &&
      (forall j | 0 <= j < |tail| :: low <= tail[j] && tail[j] in e.defs && e.defs[tail[j]] == Assign(ms[j])) &&
      (forall o | o in tail :: o in e.defs && !e.defs[o].Phi?)
  {
    var ops := e.blocks[b].ops;
    var tail := ops[|kept|..];
    assert ops == kept + tail;
    forall j | 0 <= j < |tail| ensures low <= tail[j] && tail[j] in e.defs && e.defs[tail[j]] == Assign(ms[j]) {
      assert tail[j] == ops[|kept| + j];
    }
  }

  /** A block made of `kept` and then one assignment per move is `Appended`. */
  lemma AppendedOf(kept: seq<OpId>, tail: seq<OpId>, r: Body, b: BlockId, ms: seq<Move>, low: nat)
    requires b in r.blocks && Patched(ms) && r.blocks[b].ops == kept + tail && |tail| == |ms|
    requires forall j | 0 <= j < |tail| :: low <= tail[j] && tail[j] in r.defs && r.defs[tail[j]] == Assign(ms[j])
    ensures Appended(kept, r, b, ms, low)
  {
    var rops := r.blocks[b].ops;
    assert rops[..|kept|] == kept;
    forall i | |kept| <= i < |rops|
      ensures low <= rops[i] && rops[i] in r.defs && r.defs[rops[i]] == Assign(ms[i - |kept|])
    {
      assert rops[i] == tail[i - |kept|];
    }
  }

  /** The graph takes over the emitted operations. */
  method StoreBody(g: Graph, r: Body)
    requires g.Valid() && Solid(r) && Grown(BodyOf(g), r)
    modifies g`blocks, g`defs, g`nextOp
    ensures g.Valid() && BodyOf(g) == r
  {
    ghost var st := BodyOf(g);
    assert PhisBelow(r.defs, g.nextBlock) by {
      forall o | o in r.defs && r.defs[o].Phi? ensures forall pb | pb in r.defs[o].prevblocks :: pb < g.nextBlock {
        assert o in st.defs;
      }
    }
    assert SuccClosed(r.blocks) by {
      forall b | b in r.blocks ensures forall s | s in NextBlocks(r.blocks[b].next) :: s in r.blocks {
        assert r.blocks[b].next == st.blocks[b].next;
      }
    }
    g.blocks, g.defs, g.nextOp := r.blocks, r.defs, r.nextOp;
  }

  /**
   * `remove_phis`: every phi input other than the phi itself becomes a
   * `NonSSAAssignment` at the end of the input block, and then the phis of
   * the walked blocks are dropped. It fails, as the source's assertion does,
   * when a block's assignments would read a phi that one of them writes, and
   * also when an input is still the builder's `None` placeholder. The walk
   * order, the collected moves and the order in which the dictionary yields
   * its keys are handed back as ghost results.
   */
  method RemovePhis(g: Graph) returns (r: Result<()>, ghost order: seq<BlockId>, ghost moves: map<BlockId, seq<Move>>, ghost keys: seq<BlockId>)
    requires g.Valid()
    modifies g`blocks, g`defs, g`nextOp
    ensures g.Valid()
    ensures order == Dfs(old(g.blocks), [g.start], {}) && Distinct(order) && Walkable(old(g.blocks), old(g.defs), order)
    ensures moves == AppendAll(map[], WalkMoves(old(g.blocks), old(g.defs), order, |order|))
    ensures r.Failure? <==> Blocked(moves)
    ensures r.Failure? || moves == map[] ==> BodyOf(g) == old(BodyOf(g))
    ensures r.Ok? && moves != map[] ==>
      Distinct(keys) && SetOf(keys) == moves.Keys && (forall pb | pb in keys :: pb in moves && Patched(moves[pb])) &&
      Solid(EmitAll(old(BodyOf(g)), moves, keys)) && BodyOf(g) == DropPhis(EmitAll(old(BodyOf(g)), moves, keys), order)
  {
    var walk, all := CollectWalk(g);
    order, moves, keys := walk, all, [];
    if Blocked(all) {
      return Failure("remove_phis: moves of a block overlap or read a placeholder"), order, moves, keys;
    }
    if all == map[] {
      return Ok(()), order, moves, keys;
    }
    keys := EmitAndDrop(g, all, walk);
    r := Ok(());
  }

  /** The walk of `remove_phis` and the moves collected along it. */
  method CollectWalk(g: Graph) returns (order: seq<BlockId>, moves: map<BlockId, seq<Move>>)
    requires g.Valid()
    ensures order == Dfs(g.blocks, [g.start], {}) && Distinct(order) && Walkable(g.blocks, g.defs, order)
    ensures moves == AppendAll(map[], WalkMoves(g.blocks, g.defs, order, |order|))
  {
    order := g.IterBlocks();
    moves := CollectMoves(g.blocks, g.defs, order);
  }

  /** The two loops of `remove_phis` that change the graph, once no assertion can fail. */
  method EmitAndDrop(g: Graph, moves: map<BlockId, seq<Move>>, order: seq<BlockId>) returns (ghost keys: seq<BlockId>)
    requires g.Valid() && Distinct(order) && forall b | b in order :: b in g.blocks
    requires forall pb | pb in moves :: Patched(moves[pb])
    modifies g`blocks, g`defs, g`nextOp
    ensures g.Valid() && Distinct(keys) && SetOf(keys) == moves.Keys && (forall pb | pb in keys :: pb in moves && Patched(moves[pb]))
    ensures Solid(EmitAll(old(BodyOf(g)), moves, keys)) && BodyOf(g) == DropPhis(EmitAll(old(BodyOf(g)), moves, keys), order)
  {
    var st := BodyOf(g);
    var e, ks := EmitOn(st, moves);
    keys := ks;
    RemovePhisSpec(st, moves, ks, order);
    var d := DropOn(e, order);
    StoreBody(g, d);
  }

  /**
   * No assignment at the end of a block reads a phi that another assignment
   * of the same block writes, so their order does not matter.
   */
  lemma AssignmentsIndependent(kept: seq<OpId>, r: Body, b: BlockId, ms: seq<Move>, low: nat)
    requires b in r.blocks && Patched(ms) && !Overlap(ms) && Appended(kept, r, b, ms, low)
    ensures var ops := r.blocks[b].ops;
      forall i, j | |kept| <= i < |ops| && |kept| <= j < |ops| ::
        r.defs[ops[i]].Op? && r.defs[ops[i]].kind == NonSSAAssignment && |r.defs[ops[j]].args| == 2 &&
        r.defs[ops[j]].args[1] != r.defs[ops[i]].args[0]
  {
    var ops := r.blocks[b].ops;
    forall i, j | |kept| <= i < |ops| && |kept| <= j < |ops|
      ensures r.defs[ops[i]].Op? && r.defs[ops[i]].kind == NonSSAAssignment && |r.defs[ops[j]].args| == 2 &&
        r.defs[ops[j]].args[1] != r.defs[ops[i]].args[0]
    {
      var mi, mj := ms[i - |kept|], ms[j - |kept|];
      assert r.defs[ops[i]] == Assign(mi) && r.defs[ops[j]] == Assign(mj);
      assert mj.source != Some(OpRef(mi.target));
    }
  }

  // ---------------------------------------------------------------------
  // Program counters

  /** `pc[b]` is the position of `b` in `blocks`, its last one if it occurs twice. */
  ghost predicate Numbered(blocks: seq<BlockId>, pc: map<BlockId, nat>)
  {
    pc.Keys == SetOf(blocks) &&
    forall b | b in pc :: pc[b] < |blocks| && blocks[pc[b]] == b && forall j | pc[b] < j < |blocks| :: blocks[j] != b
  }

  /** `for i, block in enumerate(blocks): block._pc = i`. */
  method AssignPcs(blocks: seq<BlockId>) returns (pc: map<BlockId, nat>)
    ensures Numbered(blocks, pc)
  {
    pc := map[];
    var i := 0;
    while i < |blocks|
      invariant i <= |blocks| && pc.Keys == SetOf(blocks[..i])
      invariant forall b | b in pc :: pc[b] < i && blocks[pc[b]] == b && forall j | pc[b] < j < i :: blocks[j] != b
    {
      assert SetOf(blocks[..i + 1]) == SetOf(blocks[..i]) + {blocks[i]};
      pc := pc[blocks[i] := i];
      i := i + 1;
    }
    assert blocks[..i] == blocks;
  }

  /** With a walk that has no repeats the PCs are exactly 0 .. n-1, in walk order. */
  lemma NumberedExact(blocks: seq<BlockId>, pc: map<BlockId, nat>)
    requires Distinct(blocks) && Numbered(blocks, pc)
    ensures forall i | 0 <= i < |blocks| :: blocks[i] in pc && pc[blocks[i]] == i
    ensures forall b1, b2 | b1 in pc && b2 in pc && b1 != b2 :: pc[b1] != pc[b2]
  {
    forall i | 0 <= i < |blocks| ensures blocks[i] in pc && pc[blocks[i]] == i {
      assert blocks[i] in SetOf(blocks);
      var p := pc[blocks[i]];
      assert blocks[p] == blocks[i];
    }
  }

  /** What `CodeEmitter.__init__` computes besides the rewritten graph. */
  datatype Layout = Layout(blocks: seq<BlockId>, pc: map<BlockId, nat>, entrymap: map<BlockId, seq<BlockId>>)

  /**
   * `CodeEmitter.__init__`: split the critical edges, replace the phis by
   * assignments, number the blocks in walk order and compute the
   * predecessor lists of the result.
   */
  method NewEmitter(g: Graph) returns (r: Result<Layout>)
    requires g.Valid()
    modifies g`blocks, g`defs, g`nextBlock, g`nextOp
    ensures g.Valid()
    ensures r.Ok? ==>
      r.value.blocks == Dfs(g.blocks, [g.start], {}) && Distinct(r.value.blocks) &&
      Numbered(r.value.blocks, r.value.pc) &&
      r.value.entrymap == Entrymap(g.blocks, g.start) && IsEntrymap(g.blocks, g.start, r.value.entrymap)
  {
    var entry, order := RemoveCriticalEdges(g);
    var res, walk, moves, keys := RemovePhis(g);
    if res.Failure? {
      return Failure(res.msg);
    }
    var blocks := g.IterBlocks();
    var pc := AssignPcs(blocks);
    NumberedExact(blocks, pc);
    var entrymap := g.MakeEntrymap();
    r := Ok(Layout(blocks, pc, entrymap));
  }
}
