/**
 * The control-flow graph: an arena of blocks and of operation/phi slots, the
 * depth-first block order every pass walks in (`iterblocks`), the predecessor
 * map (`make_entrymap`), the consistency check, value replacement, block
 * splitting and phi predecessor bookkeeping. The topological orders are in
 * topo.dfy.
 */
module IrGraph {
  import opened Wrappers
  import opened Types
  import opened Ir

  // ---------------------------------------------------------------------
  // Shape of the arena

  /** Every successor of a block of the arena is a block of the arena. */
  ghost predicate SuccClosed(blocks: map<BlockId, Block>)
  {
    forall b | b in blocks :: forall s | s in NextBlocks(blocks[b].next) :: s in blocks
  }

  /** Blocks only name slots that exist, and the fresh-id counters are above every id in use. */
  ghost predicate Arena(blocks: map<BlockId, Block>, defs: map<OpId, Def>, nextBlock: nat, nextOp: nat)
  {
    SuccClosed(blocks) &&
    (forall b | b in blocks :: b < nextBlock && forall o | o in blocks[b].ops :: o in defs) &&
    (forall o | o in defs :: o < nextOp) &&
    PhisBelow(defs, nextBlock)
  }

  /** Every input block a phi names has an id below `n`. */
  ghost predicate PhisBelow(defs: map<OpId, Def>, n: nat)
  {
    forall o | o in defs && defs[o].Phi? :: forall pb | pb in defs[o].prevblocks :: pb < n
  }

  /** Every operation of a block has a slot in the arena. */
  ghost predicate OpsDefined(blocks: map<BlockId, Block>, defs: map<OpId, Def>)
  {
    forall x | x in blocks :: forall o | o in blocks[x].ops :: o in defs
  }

  /** No operation sits in two blocks, or twice in one block. */
  ghost predicate UniqueOps(blocks: map<BlockId, Block>)
  {
    (forall b | b in blocks :: Distinct(blocks[b].ops)) &&
    (forall b1, b2, o | b1 in blocks && b2 in blocks && o in blocks[b1].ops && o in blocks[b2].ops :: b1 == b2)
  }

  /** Two arenas with the same blocks and the same edges. */
  ghost predicate SameEdges(b1: map<BlockId, Block>, b2: map<BlockId, Block>)
  {
    b1.Keys == b2.Keys && forall b | b in b1 :: NextBlocks(b1[b].next) == NextBlocks(b2[b].next)
  }

  /** Two arenas with the same blocks, the same operations in each, and the same edges. */
  ghost predicate SameShape(b1: map<BlockId, Block>, b2: map<BlockId, Block>)
  {
    b1.Keys == b2.Keys &&
    forall b | b in b1 :: b1[b].ops == b2[b].ops && NextBlocks(b1[b].next) == NextBlocks(b2[b].next)
  }

  function Succ(blocks: map<BlockId, Block>, b: BlockId): seq<BlockId>
    requires b in blocks
  {
    NextBlocks(blocks[b].next)
  }

  // ---------------------------------------------------------------------
  // Depth-first order

  lemma CardRemove(keys: set<BlockId>, seen: set<BlockId>, b: BlockId)
    requires b in keys && b !in seen
    ensures |keys - (seen + {b})| < |keys - seen|
  {
    var a := keys - (seen + {b});
    assert keys - seen == a + {b};
    assert b !in a;
  }

  /**
   * `iterblocks`: pop the last block of the work list, skip it if it was seen,
   * otherwise yield it and push its successors.
   */
  function Dfs(blocks: map<BlockId, Block>, todo: seq<BlockId>, seen: set<BlockId>): (r: seq<BlockId>)
    requires SuccClosed(blocks)
    requires forall t | t in todo :: t in blocks
    ensures forall x | x in r :: x in blocks
    decreases |blocks.Keys - seen|, |todo|
  {
    if todo == [] then []
    else
      var b := todo[|todo| - 1];
      var rest := todo[..|todo| - 1];
      if b in seen then Dfs(blocks, rest, seen)
      else
        CardRemove(blocks.Keys, seen, b);
        [b] + Dfs(blocks, rest + Succ(blocks, b), seen + {b})
  }

  /** One step of `Dfs`: the last block to do is visited unless it was seen. */
  lemma DfsPop(blocks: map<BlockId, Block>, todo: seq<BlockId>, seen: set<BlockId>)
    requires SuccClosed(blocks) && todo != [] && forall t | t in todo :: t in blocks
    ensures todo[|todo| - 1] in blocks && forall t | t in todo[..|todo| - 1] :: t in blocks
    ensures todo[|todo| - 1] in seen ==> Dfs(blocks, todo, seen) == Dfs(blocks, todo[..|todo| - 1], seen)
    ensures todo[|todo| - 1] !in seen ==> forall s | s in Succ(blocks, todo[|todo| - 1]) :: s in blocks
    ensures todo[|todo| - 1] !in seen ==>
      Dfs(blocks, todo, seen) ==
      [todo[|todo| - 1]] + Dfs(blocks, todo[..|todo| - 1] + Succ(blocks, todo[|todo| - 1]), seen + {todo[|todo| - 1]})
  {
  }

  /** The depth-first walk of `iterblocks`, with an explicit stack. */
  method DfsWalk(blocks: map<BlockId, Block>, start: BlockId) returns (order: seq<BlockId>)
    requires SuccClosed(blocks) && start in blocks
    ensures order == Dfs(blocks, [start], {})
  {
    var todo := [start];
    var seen: set<BlockId> := {};
    order := [];
    while todo != []
      invariant forall t | t in todo :: t in blocks
      invariant order + Dfs(blocks, todo, seen) == Dfs(blocks, [start], {})
      decreases |blocks.Keys - seen|, |todo|
    {
      DfsPop(blocks, todo, seen);
      var b := todo[|todo| - 1];
      todo := todo[..|todo| - 1];
      if b in seen {
        continue;
      }
      CardRemove(blocks.Keys, seen, b);
      order := order + [b];
      seen := seen + {b};
      todo := todo + NextBlocks(blocks[b].next);
    }
  }

  /** A set of blocks that contains `start` and every successor of its members. */
  ghost predicate ClosedFrom(blocks: map<BlockId, Block>, start: BlockId, c: set<BlockId>)
  {
    start in c && forall b | b in c && b in blocks :: forall s | s in Succ(blocks, b) :: s in c
  }

  /**
   * The blocks reachable from `start`: a closed set containing `start` that
   * lies inside every other such set.
   */
  ghost predicate IsReachSet(blocks: map<BlockId, Block>, start: BlockId, r: set<BlockId>)
  {
    r <= blocks.Keys && ClosedFrom(blocks, start, r) &&
    forall c | ClosedFrom(blocks, start, c) :: r <= c
  }

  lemma ReachSetUnique(blocks: map<BlockId, Block>, start: BlockId, r1: set<BlockId>, r2: set<BlockId>)
    requires IsReachSet(blocks, start, r1) && IsReachSet(blocks, start, r2)
    ensures r1 == r2
  {
  }

  /** Every block of a walk exists and names only existing operations. */
  ghost predicate Walkable(blocks: map<BlockId, Block>, defs: map<OpId, Def>, order: seq<BlockId>)
  {
    forall b | b in order :: b in blocks && forall o | o in blocks[b].ops :: o in defs
  }

  function SetOf<T>(s: seq<T>): set<T>
  {
    set x | x in s
  }

  predicate Distinct<T(==)>(s: seq<T>)
  {
    forall i, j | 0 <= i < j < |s| :: s[i] != s[j]
  }

  /** The walk yields no block twice and none it had already seen. */
  lemma {:induction false} DfsDistinct(blocks: map<BlockId, Block>, todo: seq<BlockId>, seen: set<BlockId>)
    requires SuccClosed(blocks)
    requires forall t | t in todo :: t in blocks
    ensures Distinct(Dfs(blocks, todo, seen)) && forall x | x in Dfs(blocks, todo, seen) :: x !in seen
    decreases |blocks.Keys - seen|, |todo|
  {
    if todo != [] {
      var b := todo[|todo| - 1];
      var rest := todo[..|todo| - 1];
      if b in seen {
        DfsDistinct(blocks, rest, seen);
      } else {
        CardRemove(blocks.Keys, seen, b);
        DfsDistinct(blocks, rest + Succ(blocks, b), seen + {b});
        var r := Dfs(blocks, rest + Succ(blocks, b), seen + {b});
        assert Dfs(blocks, todo, seen) == [b] + r;
      }
    }
  }

  /** The walk never leaves a closed set that holds what it has seen and what it still has to visit. */
  lemma {:induction false} DfsWithin(blocks: map<BlockId, Block>, todo: seq<BlockId>, seen: set<BlockId>,
                                      start: BlockId, c: set<BlockId>)
    requires SuccClosed(blocks)
    requires forall t | t in todo :: t in blocks
    requires ClosedFrom(blocks, start, c) && forall t | t in todo :: t in c
    ensures forall x | x in Dfs(blocks, todo, seen) :: x in c
    decreases |blocks.Keys - seen|, |todo|
  {
    if todo != [] {
      var b := todo[|todo| - 1];
      var rest := todo[..|todo| - 1];
      if b in seen {
        DfsWithin(blocks, rest, seen, start, c);
      } else {
        CardRemove(blocks.Keys, seen, b);
        DfsWithin(blocks, rest + Succ(blocks, b), seen + {b}, start, c);
      }
    }
  }

  /** Everything the walk has seen has its successors seen or still to be visited. */
  ghost predicate Frontier(blocks: map<BlockId, Block>, todo: seq<BlockId>, seen: set<BlockId>)
  {
    forall b | b in seen && b in blocks :: forall s | s in Succ(blocks, b) :: s in seen || s in todo
  }

  lemma FrontierPopSeen(blocks: map<BlockId, Block>, todo: seq<BlockId>, seen: set<BlockId>)
    requires todo != [] && todo[|todo| - 1] in seen
    requires Frontier(blocks, todo, seen)
    ensures Frontier(blocks, todo[..|todo| - 1], seen)
  {
    var rest := todo[..|todo| - 1];
    forall x, s | x in seen && x in blocks && s in Succ(blocks, x) ensures s in seen || s in rest {
      if s !in seen {
        var k :| 0 <= k < |todo| && todo[k] == s;
        assert k < |rest| && rest[k] == s;
      }
    }
  }

  lemma FrontierPopNew(blocks: map<BlockId, Block>, todo: seq<BlockId>, seen: set<BlockId>)
    requires todo != [] && todo[|todo| - 1] in blocks
    requires Frontier(blocks, todo, seen)
    ensures Frontier(blocks, todo[..|todo| - 1] + Succ(blocks, todo[|todo| - 1]), seen + {todo[|todo| - 1]})
  {
    var b := todo[|todo| - 1];
    var todo' := todo[..|todo| - 1] + Succ(blocks, b);
    forall x, s | x in seen + {b} && x in blocks && s in Succ(blocks, x) ensures s in seen + {b} || s in todo' {
      if x != b && s !in seen && s != b {
        var k :| 0 <= k < |todo| && todo[k] == s;
        assert todo'[k] == s;
      }
    }
  }

  /** What has been seen, together with what the walk still yields, is closed under successors. */
  lemma {:induction false} DfsClosed(blocks: map<BlockId, Block>, todo: seq<BlockId>, seen: set<BlockId>)
    requires SuccClosed(blocks)
    requires forall t | t in todo :: t in blocks
    requires Frontier(blocks, todo, seen)
    ensures Frontier(blocks, [], seen + (set x | x in Dfs(blocks, todo, seen)))
    decreases |blocks.Keys - seen|, |todo|
  {
    if todo != [] {
      var b := todo[|todo| - 1];
      var rest := todo[..|todo| - 1];
      if b in seen {
        FrontierPopSeen(blocks, todo, seen);
        DfsClosed(blocks, rest, seen);
      } else {
        CardRemove(blocks.Keys, seen, b);
        var todo' := rest + Succ(blocks, b);
        FrontierPopNew(blocks, todo, seen);
        DfsClosed(blocks, todo', seen + {b});
        DfsSeenStep(blocks, todo, seen);
      }
    }
  }

  /** A step of the walk to a new block moves that block from what it yields to what it has seen. */
  lemma DfsSeenStep(blocks: map<BlockId, Block>, todo: seq<BlockId>, seen: set<BlockId>)
    requires SuccClosed(blocks)
    requires forall t | t in todo :: t in blocks
    requires todo != [] && todo[|todo| - 1] !in seen
    ensures var b := todo[|todo| - 1];
      seen + SetOf(Dfs(blocks, todo, seen)) ==
      (seen + {b}) + SetOf(Dfs(blocks, todo[..|todo| - 1] + Succ(blocks, b), seen + {b}))
  {
    var b := todo[|todo| - 1];
    CardRemove(blocks.Keys, seen, b);
    var r' := Dfs(blocks, todo[..|todo| - 1] + Succ(blocks, b), seen + {b});
    assert Dfs(blocks, todo, seen) == [b] + r';
    assert (set x | x in [b] + r') == {b} + (set x | x in r');
  }

  /** The set of blocks `iterblocks` visits from `start`. */
  ghost function Reachable(blocks: map<BlockId, Block>, start: BlockId): set<BlockId>
    requires SuccClosed(blocks) && start in blocks
  {
    set x | x in Dfs(blocks, [start], {})
  }

  /**
   * `iterblocks` starts at `start`, visits every block at most once, and
   * visits exactly the blocks reachable from `start`.
   */
  lemma DfsOrder(blocks: map<BlockId, Block>, start: BlockId)
    requires SuccClosed(blocks) && start in blocks
    ensures var order := Dfs(blocks, [start], {});
      |order| >= 1 && order[0] == start && Distinct(order) &&
      IsReachSet(blocks, start, Reachable(blocks, start))
  {
    var order := Dfs(blocks, [start], {});
    CardRemove(blocks.Keys, {}, start);
    assert order == [start] + Dfs(blocks, [] + Succ(blocks, start), {start});
    DfsDistinct(blocks, [start], {});
    DfsClosed(blocks, [start], {});
    forall c | ClosedFrom(blocks, start, c) ensures Reachable(blocks, start) <= c {
      DfsWithin(blocks, [start], {}, start, c);
    }
  }

  // ---------------------------------------------------------------------
  // Predecessor lists

  /** `entry[s]` of a `defaultdict(list)`. */
  function Get<K, V>(m: map<K, seq<V>>, k: K): seq<V>
  {
    if k in m then m[k] else []
  }

  /** The inner loop of `make_entrymap` on its entry dictionary: `b` is appended to the list of each successor. */
  function RecordEdges(entry: map<BlockId, seq<BlockId>>, b: BlockId, ns: seq<BlockId>): map<BlockId, seq<BlockId>>
  {
    if ns == [] then entry
    else
      var e := RecordEdges(entry, b, ns[..|ns| - 1]);
      var n := ns[|ns| - 1];
      e[n := Get(e, n) + [b]]
  }

  /** The inner loop of `make_entrymap` on the work list: the successors not yet seen. */
  function Unseen(ns: seq<BlockId>, seen: set<BlockId>): seq<BlockId>
  {
    if ns == [] then []
    else Unseen(ns[..|ns| - 1], seen) + (if ns[|ns| - 1] in seen then [] else [ns[|ns| - 1]])
  }

  lemma {:induction false} RecordEdgesSpec(entry: map<BlockId, seq<BlockId>>, b: BlockId, ns: seq<BlockId>)
    ensures RecordEdges(entry, b, ns).Keys == entry.Keys + set n | n in ns
    ensures forall s, p :: p in Get(RecordEdges(entry, b, ns), s) <==> p in Get(entry, s) || (p == b && s in ns)
  {
    if ns != [] {
      var init := ns[..|ns| - 1];
      var n := ns[|ns| - 1];
      RecordEdgesSpec(entry, b, init);
      assert ns == init + [n];
      var e := RecordEdges(entry, b, init);
      forall s, p ensures p in Get(RecordEdges(entry, b, ns), s) <==> p in Get(entry, s) || (p == b && s in ns) {
        assert Get(RecordEdges(entry, b, ns), s) == if s == n then Get(e, n) + [b] else Get(e, s);
        assert s in ns <==> s in init || s == n;
      }
    }
  }

  lemma {:induction false} UnseenSpec(ns: seq<BlockId>, seen: set<BlockId>)
    ensures forall n :: n in Unseen(ns, seen) <==> n in ns && n !in seen
    ensures CountIn(Unseen(ns, seen), seen) == 0
  {
    if ns != [] {
      UnseenSpec(ns[..|ns| - 1], seen);
      assert ns == ns[..|ns| - 1] + [ns[|ns| - 1]];
      CountInAppend(Unseen(ns[..|ns| - 1], seen), if ns[|ns| - 1] in seen then [] else [ns[|ns| - 1]], seen);
    }
  }

  /** How many entries of a work list have already been seen. */
  function CountIn(todo: seq<BlockId>, seen: set<BlockId>): nat
  {
    if todo == [] then 0 else CountIn(todo[..|todo| - 1], seen) + (if todo[|todo| - 1] in seen then 1 else 0)
  }

  lemma {:induction false} CountInAppend(a: seq<BlockId>, b: seq<BlockId>, seen: set<BlockId>)
    ensures CountIn(a + b, seen) == CountIn(a, seen) + CountIn(b, seen)
    decreases |b|
  {
    if b == [] {
      assert a + b == a;
    } else {
      assert (a + b)[..|a + b| - 1] == a + b[..|b| - 1];
      assert (a + b)[|a + b| - 1] == b[|b| - 1];
      CountInAppend(a, b[..|b| - 1], seen);
    }
  }

  // ---------------------------------------------------------------------
  // What `check` demands

  /** The values `check` counts as defined: the graph's arguments and the operations of the visited blocks. */
  ghost function DefinedValues(blocks: map<BlockId, Block>, args: seq<Value>, order: seq<BlockId>): set<Value>
    requires forall b | b in order :: b in blocks
  {
    (set a | a in args) + (set b, o | b in order && o in blocks[b].ops :: OpRef(o))
  }

  /**
   * Every input block of a phi of `b` is a reachable block with an edge to `b`.
   * The start block counts as having no predecessors.
   */
  ghost predicate PhisOk(blocks: map<BlockId, Block>, defs: map<OpId, Def>, start: BlockId, order: seq<BlockId>, b: BlockId)
    requires b in blocks
  {
    forall o | o in blocks[b].ops && o in defs && defs[o].Phi? ::
      forall pb | pb in defs[o].prevblocks :: pb in order && pb in blocks && b != start && b in Succ(blocks, pb)
  }

  predicate DefinedOrConstant(v: Value, defined: set<Value>) { v in defined || v.Const? }

  /** `b` holds no operation twice, and everything its operations and terminator use is defined or a constant. */
  ghost predicate ArgsOk(blocks: map<BlockId, Block>, defs: map<OpId, Def>, defined: set<Value>, b: BlockId)
    requires b in blocks
  {
    Distinct(blocks[b].ops) &&
    (forall o | o in blocks[b].ops && o in defs ::
       !HasPlaceholder(defs[o]) && forall v | v in DefArgs(defs[o]) :: DefinedOrConstant(v, defined)) &&
    (forall v | v in NextArgs(blocks[b].next) :: DefinedOrConstant(v, defined))
  }

  /** What `Graph.check` asserts, over the blocks `order` visits. */
  ghost predicate Consistent(blocks: map<BlockId, Block>, defs: map<OpId, Def>, start: BlockId, args: seq<Value>,
                             order: seq<BlockId>)
    requires forall b | b in order :: b in blocks
  {
    (forall b | b in order :: PhisOk(blocks, defs, start, order, b)) &&
    (forall b | b in order :: ArgsOk(blocks, defs, DefinedValues(blocks, args, order), b))
  }

  // ---------------------------------------------------------------------
  // One round of value replacement

  /** The operations the blocks `bs` hold. */
  ghost function OpsOf(blocks: map<BlockId, Block>, bs: set<BlockId>): set<OpId>
  {
    set b, o | b in bs && b in blocks && o in blocks[b].ops :: o
  }

  /** Every operation of `ops` has its arguments replaced once. */
  function ReplaceDefs(defs: map<OpId, Def>, ops: set<OpId>, repl: map<Value, Value>): map<OpId, Def>
  {
    map o | o in defs :: if o in ops then ReplaceInDef(defs[o], repl) else defs[o]
  }

  /** Every terminator of the blocks `bs` has its arguments replaced once. */
  function ReplaceNexts(blocks: map<BlockId, Block>, bs: set<BlockId>, repl: map<Value, Value>): map<BlockId, Block>
  {
    map b | b in blocks :: if b in bs then Block(blocks[b].ops, ReplaceInNext(blocks[b].next, repl)) else blocks[b]
  }

  /** The walk only looks at the edges, so arenas of the same shape are walked alike. */
  lemma {:induction false} DfsShape(b1: map<BlockId, Block>, b2: map<BlockId, Block>, todo: seq<BlockId>, seen: set<BlockId>)
    requires SameEdges(b1, b2) && SuccClosed(b1) && SuccClosed(b2)
    requires forall t | t in todo :: t in b1
    ensures Dfs(b1, todo, seen) == Dfs(b2, todo, seen)
    decreases |b1.Keys - seen|, |todo|
  {
    if todo != [] {
      var b := todo[|todo| - 1];
      var rest := todo[..|todo| - 1];
      if b in seen {
        DfsShape(b1, b2, rest, seen);
      } else {
        CardRemove(b1.Keys, seen, b);
        DfsShape(b1, b2, rest + Succ(b1, b), seen + {b});
      }
    }
  }

  lemma SameShapeArena(b1: map<BlockId, Block>, b2: map<BlockId, Block>, defs: map<OpId, Def>, nextBlock: nat, nextOp: nat)
    requires SameShape(b1, b2) && Arena(b2, defs, nextBlock, nextOp) && UniqueOps(b2)
    ensures Arena(b1, defs, nextBlock, nextOp) && UniqueOps(b1)
  {
    forall b | b in b1 ensures forall s | s in NextBlocks(b1[b].next) :: s in b1 {
      assert NextBlocks(b1[b].next) == NextBlocks(b2[b].next);
    }
  }

  lemma ReplaceNextsShape(blocks: map<BlockId, Block>, bs: set<BlockId>, repl: map<Value, Value>)
    ensures SameShape(ReplaceNexts(blocks, bs, repl), blocks)
  {
    forall b | b in blocks ensures NextBlocks(ReplaceNexts(blocks, bs, repl)[b].next) == NextBlocks(blocks[b].next) {
      ReplaceInNextSpec(blocks[b].next, repl);
    }
  }

  lemma ReplaceNothing(blocks: map<BlockId, Block>, defs: map<OpId, Def>, repl: map<Value, Value>)
    ensures ReplaceNexts(blocks, {}, repl) == blocks && ReplaceDefs(defs, {}, repl) == defs
    ensures OpsOf(blocks, {}) == {}
  {
  }

  lemma ReplaceNextsStep(blocks: map<BlockId, Block>, done: set<BlockId>, b: BlockId, repl: map<Value, Value>)
    requires b in blocks && b !in done
    ensures ReplaceNexts(blocks, done, repl)[b := Block(blocks[b].ops, ReplaceInNext(blocks[b].next, repl))] ==
            ReplaceNexts(blocks, done + {b}, repl)
  {
  }

  /** The blocks of `done` and a further block `b` hold disjoint operations. */
  lemma OpsOfStep(blocks: map<BlockId, Block>, done: set<BlockId>, b: BlockId)
    requires UniqueOps(blocks) && b in blocks && b !in done
    ensures OpsOf(blocks, done) !! SetOf(blocks[b].ops)
    ensures OpsOf(blocks, done + {b}) == OpsOf(blocks, done) + SetOf(blocks[b].ops)
    ensures Distinct(blocks[b].ops)
  {
  }

  /** Some operation of `ops` names a key of the replacement map. */
  ghost predicate OpsMention(defs: map<OpId, Def>, ops: set<OpId>, repl: map<Value, Value>)
  {
    exists o | o in ops && o in defs :: Mentions(DefArgs(defs[o]), repl)
  }

  /** Some terminator of the blocks `bs` names a key of the replacement map. */
  ghost predicate NextsMention(blocks: map<BlockId, Block>, bs: set<BlockId>, repl: map<Value, Value>)
  {
    exists b | b in bs && b in blocks :: Mentions(ReplaceableNextArgs(blocks[b].next), repl)
  }

  lemma MentionUnion(blocks: map<BlockId, Block>, defs: map<OpId, Def>, s: set<OpId>, t: set<OpId>,
                     done: set<BlockId>, b: BlockId, repl: map<Value, Value>)
    ensures OpsMention(defs, s + t, repl) <==> OpsMention(defs, s, repl) || OpsMention(defs, t, repl)
    ensures NextsMention(blocks, done + {b}, repl) <==>
            NextsMention(blocks, done, repl) || (b in blocks && Mentions(ReplaceableNextArgs(blocks[b].next), repl))
  {
  }

  /** Value replacement leaves a slot's kind and a phi's input blocks alone. */
  predicate SameInputBlocks(d1: Def, d2: Def)
  {
    d1.Phi? == d2.Phi? && (d1.Phi? ==> d1.prevblocks == d2.prevblocks)
  }

  lemma PhisBelowKept(defs: map<OpId, Def>, defs': map<OpId, Def>, n: nat)
    requires PhisBelow(defs, n) && defs'.Keys == defs.Keys
    requires forall o | o in defs :: SameInputBlocks(defs'[o], defs[o])
    ensures PhisBelow(defs', n)
  {
    forall o | o in defs' && defs'[o].Phi? ensures forall pb | pb in defs'[o].prevblocks :: pb < n {
      assert SameInputBlocks(defs'[o], defs[o]);
    }
  }

  /** Replacing in two disjoint sets of operations, one after the other, is replacing in their union. */
  lemma ReplaceDefsUnion(defs: map<OpId, Def>, s: set<OpId>, t: set<OpId>, repl: map<Value, Value>)
    requires s !! t
    ensures ReplaceDefs(ReplaceDefs(defs, s, repl), t, repl) == ReplaceDefs(defs, s + t, repl)
  {
  }

  // ---------------------------------------------------------------------
  // Phi predecessor bookkeeping

  /** The phis at the head of a block: `replace_prev` and `prevblocks_from_phis` stop at the first non-phi. */
  function LeadingPhis(ops: seq<OpId>, defs: map<OpId, Def>): (r: seq<OpId>)
    requires forall o | o in ops :: o in defs
    ensures |r| <= |ops| && r == ops[..|r|]
    ensures forall o | o in r :: defs[o].Phi?
    ensures |r| < |ops| ==> !defs[ops[|r|]].Phi?
  {
    if ops == [] || !defs[ops[0]].Phi? then [] else [ops[0]] + LeadingPhis(ops[1..], defs)
  }

  /** The phis `phis` have every input block `a` renamed to `c`. */
  function RenamePrev(defs: map<OpId, Def>, phis: set<OpId>, a: BlockId, c: BlockId): map<OpId, Def>
  {
    map o | o in defs :: if o in phis && defs[o].Phi? then defs[o].(prevblocks := Rename(defs[o].prevblocks, a, c)) else defs[o]
  }

  /** No phi names `c` as an input block. */
  ghost predicate FreshInPhis(defs: map<OpId, Def>, c: BlockId)
  {
    forall o | o in defs && defs[o].Phi? :: c !in defs[o].prevblocks
  }

  /**
   * `replace_prev(a, c)` on each block of `succs` in turn, as a function of
   * the slots: `None` when an assertion fails because a phi already names `c`.
   */
  /**
   * The loop of `split` over the successors on the slots: `replace_prev(a, c)`
   * on each in turn, stopping at the first that fails.
   */
  method RetargetLoop(blocks: map<BlockId, Block>, defs: map<OpId, Def>, succs: seq<BlockId>, a: BlockId, c: BlockId,
                      ghost n: nat) returns (defs': map<OpId, Def>, ok: bool)
    requires UniqueOps(blocks) && forall b, o | b in blocks && o in blocks[b].ops :: o in defs
    requires (forall s | s in succs :: s in blocks) && PhisBelow(defs, n) && c < n
    ensures defs'.Keys == defs.Keys && PhisBelow(defs', n)
    ensures var r := RetargetPhis(blocks, defs, succs, a, c);
      (ok <==> r.Some?) && (ok ==> defs' == r.value)
  {
    defs', ok := defs, true;
    var i := 0;
    while i < |succs|
      invariant 0 <= i <= |succs|
      invariant defs'.Keys == defs.Keys && PhisBelow(defs', n)
      invariant RetargetPhis(blocks, defs, succs[..i], a, c) == Some(defs')
    {
      var d := defs';
      assert Distinct(blocks[succs[i]].ops);
      defs', ok := RenameLeading(d, blocks[succs[i]].ops, a, c);
      PhisBelowRenamed(d, defs', c, n);
      RetargetSnoc(blocks, defs, succs, i, a, c, d, defs', ok);
      if !ok {
        return;
      }
      i := i + 1;
    }
    assert succs[..i] == succs;
  }

  /** `RetargetPhis` over one more successor, given the outcome of `replace_prev` on it. */
  lemma RetargetSnoc(blocks: map<BlockId, Block>, defs: map<OpId, Def>, succs: seq<BlockId>, i: nat,
                     a: BlockId, c: BlockId, d: map<OpId, Def>, d': map<OpId, Def>, ok: bool)
    requires forall b, o | b in blocks && o in blocks[b].ops :: o in defs
    requires forall s | s in succs :: s in blocks
    requires i < |succs| && RetargetPhis(blocks, defs, succs[..i], a, c) == Some(d)
    requires ok <==> forall o | o in LeadingPhis(blocks[succs[i]].ops, d) :: c !in d[o].prevblocks
    requires ok ==> d' == RenamePrev(d, SetOf(LeadingPhis(blocks[succs[i]].ops, d)), a, c)
    ensures ok ==> RetargetPhis(blocks, defs, succs[..i + 1], a, c) == Some(d')
    ensures !ok ==> RetargetPhis(blocks, defs, succs, a, c) == None
  {
    assert succs[..i + 1][..i] == succs[..i];
    if !ok {
      RetargetPhisNone(blocks, defs, succs, i + 1, a, c);
    }
  }

  ghost function RetargetPhis(blocks: map<BlockId, Block>, defs: map<OpId, Def>, succs: seq<BlockId>,
                              a: BlockId, c: BlockId): (r: Option<map<OpId, Def>>)
    requires forall b, o | b in blocks && o in blocks[b].ops :: o in defs
    requires forall s | s in succs :: s in blocks
    ensures r.Some? ==> r.value.Keys == defs.Keys
  {
    if succs == [] then Some(defs)
    else
      match RetargetPhis(blocks, defs, succs[..|succs| - 1], a, c)
      case None => None
      case Some(d) =>
        var phis := LeadingPhis(blocks[succs[|succs| - 1]].ops, d);
        if forall o | o in phis :: c !in d[o].prevblocks then Some(RenamePrev(d, SetOf(phis), a, c)) else None
  }

  /** `min(n, len)`: where a Python slice bound past the end of a list stops. */
  function Clip(n: nat, len: nat): nat
  {
    if n <= len then n else len
  }

  /**
   * The blocks while `split` retargets phis: `b` keeps the operations before
   * `index`, the new block `nb` takes those from `index` on (without the one
   * at `index` unless `keepOp`) and `b`'s terminator.
   */
  function SplitBlocks(blocks: map<BlockId, Block>, b: BlockId, index: nat, keepOp: bool, nb: BlockId): map<BlockId, Block>
    requires b in blocks
  {
    var ops := blocks[b].ops;
    var from := Clip(if keepOp then index else index + 1, |ops|);
    blocks[b := Block(ops[..Clip(index, |ops|)], blocks[b].next)][nb := Block(ops[from..], blocks[b].next)]
  }

  /**
   * Giving block `b` a new list of operations keeps them unique when the list
   * is free of repeats and holds nothing that another block holds.
   */
  lemma UniqueSetOps(blocks: map<BlockId, Block>, b: BlockId, ops: seq<OpId>, n: Next)
    requires UniqueOps(blocks) && Distinct(ops)
    requires forall o, x | o in ops && x in blocks && x != b :: o !in blocks[x].ops
    ensures UniqueOps(blocks[b := Block(ops, n)])
  {
  }

  /** The two halves of a list without repeats are without repeats and share nothing. */
  lemma SliceFacts(ops: seq<OpId>, cut: nat, from: nat)
    requires Distinct(ops) && cut <= from <= |ops|
    ensures Distinct(ops[..cut]) && Distinct(ops[from..])
    ensures forall o | o in ops[..cut] :: o in ops && o !in ops[from..]
    ensures forall o | o in ops[from..] :: o in ops
  {
    assert forall i | 0 <= i < cut :: ops[..cut][i] == ops[i];
    assert forall i | 0 <= i < |ops| - from :: ops[from..][i] == ops[from + i];
    forall o | o in ops[..cut] ensures o !in ops[from..] {
      var i :| 0 <= i < cut && ops[..cut][i] == o;
      forall j | 0 <= j < |ops| - from ensures ops[from..][j] != o {
        assert i < from + j;
      }
    }
  }

  /** Splitting a block into two halves with a fresh id keeps the arena well formed. */
  lemma SplitArena(blocks: map<BlockId, Block>, defs: map<OpId, Def>, nextBlock: nat, nextOp: nat,
                   b: BlockId, index: nat, keepOp: bool)
    requires Arena(blocks, defs, nextBlock, nextOp) && UniqueOps(blocks) && b in blocks
    ensures var mid := SplitBlocks(blocks, b, index, keepOp, nextBlock);
      Arena(mid, defs, nextBlock + 1, nextOp) && UniqueOps(mid) &&
      SuccClosed(mid[b := Block(mid[b].ops, Goto(nextBlock))]) && UniqueOps(mid[b := Block(mid[b].ops, Goto(nextBlock))])
  {
    SplitUnique(blocks, defs, nextBlock, nextOp, b, index, keepOp);
    var mid := SplitBlocks(blocks, b, index, keepOp, nextBlock);
    UniqueSetOps(mid, b, mid[b].ops, Goto(nextBlock));
  }

  /** The two halves of a split hold no operation twice and none another block holds. */
  lemma SplitUnique(blocks: map<BlockId, Block>, defs: map<OpId, Def>, nextBlock: nat, nextOp: nat,
                    b: BlockId, index: nat, keepOp: bool)
    requires Arena(blocks, defs, nextBlock, nextOp) && UniqueOps(blocks) && b in blocks
    ensures var mid := SplitBlocks(blocks, b, index, keepOp, nextBlock);
      UniqueOps(mid) && mid.Keys == blocks.Keys + {nextBlock} && nextBlock !in blocks &&
      (forall x | x in blocks && x != b :: mid[x] == blocks[x]) &&
      mid[b].next == blocks[b].next && mid[nextBlock].next == blocks[b].next &&
      (forall o | o in mid[b].ops || o in mid[nextBlock].ops :: o in blocks[b].ops)
  {
    var ops := blocks[b].ops;
    var cut := Clip(index, |ops|);
    var from := Clip(if keepOp then index else index + 1, |ops|);
    var n := blocks[b].next;
    assert nextBlock !in blocks;
    SliceFacts(ops, cut, from);
    var m1 := blocks[b := Block(ops[..cut], n)];
    UniqueSetOps(blocks, b, ops[..cut], n);
    UniqueSetOps(m1, nextBlock, ops[from..], n);
  }

  /** Renaming input blocks keeps every phi a phi, so the leading phis stay the same. */
  lemma {:induction false} LeadingPhisRename(ops: seq<OpId>, defs: map<OpId, Def>, phis: set<OpId>, a: BlockId, c: BlockId)
    requires forall o | o in ops :: o in defs
    ensures LeadingPhis(ops, RenamePrev(defs, phis, a, c)) == LeadingPhis(ops, defs)
  {
    if ops != [] {
      LeadingPhisRename(ops[1..], defs, phis, a, c);
    }
  }

  /** The leading phis of `ops` depend only on the slots of `ops`. */
  lemma {:induction false} LeadingPhisAgree(ops: seq<OpId>, d1: map<OpId, Def>, d2: map<OpId, Def>)
    requires forall o | o in ops :: o in d1 && o in d2 && d1[o] == d2[o]
    ensures LeadingPhis(ops, d1) == LeadingPhis(ops, d2)
  {
    if ops != [] {
      LeadingPhisAgree(ops[1..], d1, d2);
    }
  }

  /**
   * With a fresh new block `c` and no successor listed twice, no assertion
   * of `replace_prev` can fail, and only the slots of the successors change.
   */
  lemma {:induction false} RetargetFresh(blocks: map<BlockId, Block>, defs: map<OpId, Def>, succs: seq<BlockId>,
                                         a: BlockId, c: BlockId)
    requires forall b, o | b in blocks && o in blocks[b].ops :: o in defs
    requires forall s | s in succs :: s in blocks
    requires UniqueOps(blocks) && Distinct(succs) && FreshInPhis(defs, c)
    ensures var r := RetargetPhis(blocks, defs, succs, a, c);
      r.Some? && forall o | o in defs && o !in OpsOf(blocks, SetOf(succs)) :: r.value[o] == defs[o]
    decreases |succs|
  {
    if succs != [] {
      var pre := succs[..|succs| - 1];
      assert forall i | 0 <= i < |pre| :: pre[i] == succs[i];
      RetargetFresh(blocks, defs, pre, a, c);
      RetargetFreshLast(blocks, defs, succs, a, c, RetargetPhis(blocks, defs, pre, a, c).value);
    }
  }

  /** The last successor of `RetargetFresh`, given what holds for the others. */
  lemma RetargetFreshLast(blocks: map<BlockId, Block>, defs: map<OpId, Def>, succs: seq<BlockId>,
                          a: BlockId, c: BlockId, d: map<OpId, Def>)
    requires forall b, o | b in blocks && o in blocks[b].ops :: o in defs
    requires forall s | s in succs :: s in blocks
    requires UniqueOps(blocks) && Distinct(succs) && FreshInPhis(defs, c)
    requires succs != [] && RetargetPhis(blocks, defs, succs[..|succs| - 1], a, c) == Some(d)
    requires forall o | o in defs && o !in OpsOf(blocks, SetOf(succs[..|succs| - 1])) :: d[o] == defs[o]
    ensures var r := RetargetPhis(blocks, defs, succs, a, c);
      r.Some? && forall o | o in defs && o !in OpsOf(blocks, SetOf(succs)) :: r.value[o] == defs[o]
  {
    var pre := succs[..|succs| - 1];
    var s := succs[|succs| - 1];
    assert succs == pre + [s];
    LastDisjoint(blocks, pre, s);
    LeadingPhisAgree(blocks[s].ops, d, defs);
    var phis := LeadingPhis(blocks[s].ops, d);
    assert forall o | o in phis :: c !in d[o].prevblocks by {
      forall o | o in phis ensures c !in d[o].prevblocks {
        assert o in blocks[s].ops;
      }
    }
    var r := RenamePrev(d, SetOf(phis), a, c);
    assert RetargetPhis(blocks, defs, succs, a, c) == Some(r);
    assert s in SetOf(succs);
    forall o | o in phis ensures o in OpsOf(blocks, SetOf(succs)) {
      assert o in blocks[s].ops;
    }
    OpsOfMono(blocks, SetOf(pre), SetOf(succs));
    forall o | o in defs && o !in OpsOf(blocks, SetOf(succs)) ensures r[o] == defs[o] {
      assert o !in SetOf(phis);
      assert r[o] == d[o];
    }
  }

  /** Without repetitions, the last block's operations are not among the earlier ones'. */
  lemma LastDisjoint(blocks: map<BlockId, Block>, pre: seq<BlockId>, s: BlockId)
    requires Distinct(pre + [s]) && UniqueOps(blocks)
    requires s in blocks && forall b | b in pre :: b in blocks
    ensures Distinct(pre)
    ensures forall o | o in blocks[s].ops :: o !in OpsOf(blocks, SetOf(pre))
  {
    var succs := pre + [s];
    assert forall i | 0 <= i < |pre| :: succs[i] == pre[i];
    forall o | o in blocks[s].ops ensures o !in OpsOf(blocks, SetOf(pre)) {
      forall b | b in SetOf(pre) && b in blocks ensures o !in blocks[b].ops {
        var i :| 0 <= i < |pre| && pre[i] == b;
        assert succs[i] == b && succs[|pre|] == s;
        assert b != s;
      }
    }
  }

  lemma OpsOfMono(blocks: map<BlockId, Block>, s1: set<BlockId>, s2: set<BlockId>)
    requires s1 <= s2
    ensures OpsOf(blocks, s1) <= OpsOf(blocks, s2)
  {
  }

  /** `split` into a fresh block never fails when no successor is listed twice. */
  lemma RetargetSucceeds(blocks: map<BlockId, Block>, defs: map<OpId, Def>, succs: seq<BlockId>, a: BlockId, c: BlockId)
    requires forall b, o | b in blocks && o in blocks[b].ops :: o in defs
    requires forall s | s in succs :: s in blocks
    requires UniqueOps(blocks) && Distinct(succs) && FreshInPhis(defs, c)
    ensures RetargetPhis(blocks, defs, succs, a, c).Some?
  {
    RetargetFresh(blocks, defs, succs, a, c);
  }

  // ---------------------------------------------------------------------
  // The graph object

  class Graph {
    var name: string
    var args: seq<Value>
    var start: BlockId
    var hasLoop: bool
    var blocks: map<BlockId, Block>
    var defs: map<OpId, Def>
    /** Fresh-id counters: creating a `Block()` or an operation takes the next id. */
    var nextBlock: nat
    var nextOp: nat

    /** The arena is well formed. */
    ghost predicate Wf()
      reads this
    {
      start in blocks && Arena(blocks, defs, nextBlock, nextOp)
    }

    /** The arena is well formed and every operation sits in one place only. */
    ghost predicate Valid()
      reads this
    {
      Wf() && UniqueOps(blocks)
    }

    constructor (name: string, args: seq<Value>, blocks: map<BlockId, Block>, defs: map<OpId, Def>,
                 start: BlockId, hasLoop: bool, nextBlock: nat, nextOp: nat)
      requires start in blocks && Arena(blocks, defs, nextBlock, nextOp) && UniqueOps(blocks)
      ensures Valid()
      ensures this.name == name && this.args == args && this.blocks == blocks && this.defs == defs
      ensures this.start == start && this.hasLoop == hasLoop
      ensures this.nextBlock == nextBlock && this.nextOp == nextOp
    {
      this.name, this.args, this.blocks, this.defs := name, args, blocks, defs;
      this.start, this.hasLoop, this.nextBlock, this.nextOp := start, hasLoop, nextBlock, nextOp;
    }

    /** `iterblocks`, materialised as `list(graph.iterblocks())`. */
    method IterBlocks() returns (order: seq<BlockId>)
      requires Wf()
      ensures order == Dfs(blocks, [start], {})
      ensures |order| >= 1 && order[0] == start && Distinct(order)
      ensures IsReachSet(blocks, start, set b | b in order)
    {
      order := DfsWalk(blocks, start);
      DfsOrder(blocks, start);
    }
  
    /**
     * `make_entrymap`: the predecessor lists of the reachable blocks. The
     * start block's list is emptied at the end even when an edge leads back
     * to it. A block that is pushed twice before it is first popped is
     * processed twice, so a list can name a predecessor more than once.
     */
    method MakeEntrymap() returns (entry: map<BlockId, seq<BlockId>>)
      requires Wf()
      ensures entry == Entrymap(blocks, start)
      ensures IsEntrymap(blocks, start, entry)
    {
      var todo := [start];
      var seen: set<BlockId> := {};
      entry := map[];
      while todo != []
        invariant EntryInv(blocks, start, todo, seen, entry)
        invariant EntryWalk(blocks, todo, seen, entry) == EntryWalk(blocks, [start], {}, map[])
        decreases |blocks.Keys - seen|, CountIn(todo, seen)
      {
        ghost var todo0, seen0, entry0 := todo, seen, entry;
        var b := todo[|todo| - 1];
        todo := todo[..|todo| - 1];
        seen := seen + {b};
        entry, todo := RecordSuccessors(entry, todo, seen, b, NextBlocks(blocks[b].next));
        EntryStep(blocks, start, todo0, seen0, entry0);
      }
      entry := entry[start := []];
      EntrymapIsEntrymap(blocks, start);
    }
    /** `check`: the phi, uniqueness and definedness assertions, as one verdict. */
    method Check() returns (ok: bool)
      requires Wf()
      ensures ok <==> Consistent(blocks, defs, start, args, Dfs(blocks, [start], {}))
    {
      var entry := MakeEntrymap();
      var order := IterBlocks();
      var defined;
      ok, defined := CheckPhis(entry, order);
      if ok {
        ok := CheckArgs(order, defined);
      }
    }

    /** The first loop of `check`: the phi assertions, collecting the defined values. */
    method CheckPhis(entry: map<BlockId, seq<BlockId>>, order: seq<BlockId>) returns (ok: bool, defined: set<Value>)
      requires Wf() && PredLists(blocks, start, entry, SetOf(order)) && forall b | b in order :: b in blocks
      ensures ok <==> forall b | b in order :: PhisOk(blocks, defs, start, order, b)
      ensures ok ==> defined == DefinedValues(blocks, args, order)
    {
      defined := set a | a in args;
      var i := 0;
      while i < |order|
        invariant 0 <= i <= |order|
        invariant forall j | 0 <= j < i :: PhisOk(blocks, defs, start, order, order[j])
        invariant defined == DefinedValues(blocks, args, order[..i])
      {
        var b := order[i];
        var okb, added := ScanPhis(b, entry, order);
        if !okb {
          return false, defined;
        }
        DefinedValuesSnoc(blocks, args, order, i);
        forall j | 0 <= j < i + 1 ensures PhisOk(blocks, defs, start, order, order[j]) {
          if j == i {
            assert order[j] == b;
          }
        }
        defined := defined + added;
        i := i + 1;
      }
      assert order[..i] == order;
      ok := true;
    }

    /** The second loop of `check`: uniqueness and definedness in every visited block. */
    method CheckArgs(order: seq<BlockId>, defined: set<Value>) returns (ok: bool)
      requires Wf() && forall b | b in order :: b in blocks
      ensures ok <==> forall b | b in order :: ArgsOk(blocks, defs, defined, b)
    {
      var i := 0;
      while i < |order|
        invariant 0 <= i <= |order|
        invariant forall j | 0 <= j < i :: ArgsOk(blocks, defs, defined, order[j])
      {
        var okb := ScanArgs(order[i], defined);
        if !okb {
          return false;
        }
        i := i + 1;
      }
      return true;
    }

    /** The inner loop of `check` over the input blocks `pbs` of one phi in `b`. */
    method PhiInputsOk(b: BlockId, pbs: seq<BlockId>, entry: map<BlockId, seq<BlockId>>, order: seq<BlockId>)
      returns (ok: bool)
      requires Wf() && b in blocks && PredLists(blocks, start, entry, SetOf(order)) && b in order
      ensures ok <==> forall pb | pb in pbs :: pb in order && pb in blocks && b != start && b in Succ(blocks, pb)
    {
      var k := 0;
      while k < |pbs|
        invariant 0 <= k <= |pbs|
        invariant forall pb | pb in pbs[..k] :: pb in order && pb in blocks && b != start && b in Succ(blocks, pb)
      {
        var pb := pbs[k];
        assert pbs[..k + 1] == pbs[..k] + [pb];
        if pb !in entry || pb !in entry[b] {
          assert !(pb in order && pb in blocks && b != start && b in Succ(blocks, pb));
          return false;
        }
        k := k + 1;
      }
      assert pbs[..k] == pbs;
      return true;
    }

    /** The first loop of `check` on one block: the phi assertions, and the operations it defines. */
    method ScanPhis(b: BlockId, entry: map<BlockId, seq<BlockId>>, order: seq<BlockId>)
      returns (ok: bool, added: set<Value>)
      requires Wf() && b in blocks && PredLists(blocks, start, entry, SetOf(order)) && b in order
      ensures ok <==> PhisOk(blocks, defs, start, order, b)
      ensures ok ==> added == set o | o in blocks[b].ops :: OpRef(o)
    {
      var ops := blocks[b].ops;
      added := {};
      var i := 0;
      while i < |ops|
        invariant 0 <= i <= |ops|
        invariant added == set o | o in ops[..i] :: OpRef(o)
        invariant forall o | o in ops[..i] && defs[o].Phi? ::
          forall pb | pb in defs[o].prevblocks :: pb in order && pb in blocks && b != start && b in Succ(blocks, pb)
      {
        var o := ops[i];
        assert ops[..i + 1] == ops[..i] + [o];
        added := added + {OpRef(o)};
        if defs[o].Phi? {
          var inputsOk := PhiInputsOk(b, defs[o].prevblocks, entry, order);
          if !inputsOk {
            return false, added;
          }
        }
        i := i + 1;
      }
      assert ops[..i] == ops;
      return true, added;
    }

    /** The second loop of `check` on one block. */
    method ScanArgs(b: BlockId, defined: set<Value>) returns (ok: bool)
      requires Wf() && b in blocks
      ensures ok <==> ArgsOk(blocks, defs, defined, b)
    {
      var ops := blocks[b].ops;
      ok := NoDuplicates(ops);
      if !ok {
        return;
      }
      var i := 0;
      while i < |ops|
        invariant 0 <= i <= |ops|
        invariant forall o | o in ops[..i] ::
          !HasPlaceholder(defs[o]) && forall v | v in DefArgs(defs[o]) :: DefinedOrConstant(v, defined)
      {
        var d := defs[ops[i]];
        assert ops[..i + 1] == ops[..i] + [ops[i]];
        if HasPlaceholder(d) {
          return false;
        }
        ok := AllDefined(DefArgs(d), defined);
        if !ok {
          return;
        }
        i := i + 1;
      }
      assert ops[..i] == ops;
      ok := AllDefined(NextArgs(blocks[b].next), defined);
    }

    /**
     * `replace_prev`: in the leading phis of `b`, every input block `a`
     * becomes `c`; it fails when one of them already names `c`.
     */
    method ReplacePrev(b: BlockId, a: BlockId, c: BlockId) returns (ok: bool)
      requires Valid() && b in blocks && c in blocks
      modifies this`defs
      ensures Valid() && defs.Keys == old(defs).Keys
      ensures ok <==> forall o | o in LeadingPhis(blocks[b].ops, old(defs)) :: c !in old(defs)[o].prevblocks
      ensures ok ==> defs == RenamePrev(old(defs), SetOf(LeadingPhis(blocks[b].ops, old(defs))), a, c)
    {
      assert Distinct(blocks[b].ops);
      ghost var d0 := defs;
      defs, ok := RenameLeading(defs, blocks[b].ops, a, c);
      PhisBelowRenamed(d0, defs, c, nextBlock);
    }

    /**
     * `Block.split`: a fresh block takes the tail of `b` from `index` on
     * (dropping the operation at `index` unless `keepOp`) and `b`'s
     * terminator; the successors' phis learn that their input is now the new
     * block, and `b` ends in a `Goto` to it.
     */
    method Split(b: BlockId, index: nat, keepOp: bool) returns (nb: BlockId, ok: bool)
      requires Valid() && b in blocks
      modifies this`blocks, this`defs, this`nextBlock
      ensures Valid() && nb == old(nextBlock) && nextBlock == nb + 1 && nb !in old(blocks)
      ensures var mid := SplitBlocks(old(blocks), b, index, keepOp, nb);
        var r := RetargetPhis(mid, old(defs), Succ(old(blocks), b), b, nb);
        (ok <==> r.Some?) &&
        (ok ==> defs == r.value && blocks == mid[b := Block(mid[b].ops, Goto(nb))])
      ensures Distinct(Succ(old(blocks), b)) ==> ok
    {
      var succs := NextBlocks(blocks[b].next);
      nb := Carve(b, index, keepOp);
      ok := RetargetAll(succs, b, nb);
      if ok {
        blocks := blocks[b := Block(blocks[b].ops, Goto(nb))];
      }
    }

    /** The first half of `split`: the tail of `b` moves to a fresh block, with `b`'s terminator. */
    method Carve(b: BlockId, index: nat, keepOp: bool) returns (nb: BlockId)
      requires Valid() && b in blocks
      modifies this`blocks, this`nextBlock
      ensures Valid() && nb == old(nextBlock) && nextBlock == nb + 1 && nb !in old(blocks)
      ensures blocks == SplitBlocks(old(blocks), b, index, keepOp, nb)
      ensures FreshInPhis(defs, nb) && nb in blocks
      ensures SuccClosed(blocks[b := Block(blocks[b].ops, Goto(nb))]) && UniqueOps(blocks[b := Block(blocks[b].ops, Goto(nb))])
    {
      nb := nextBlock;
      SplitArena(blocks, defs, nextBlock, nextOp, b, index, keepOp);
      blocks := SplitBlocks(blocks, b, index, keepOp, nb);
      assert FreshInPhis(defs, nb);
      nextBlock := nextBlock + 1;
    }

    /** The loop of `split` over the successors: `replace_prev(a, c)` on each. */
    method RetargetAll(succs: seq<BlockId>, a: BlockId, c: BlockId) returns (ok: bool)
      requires Valid() && c in blocks && forall s | s in succs :: s in blocks
      modifies this`defs
      ensures Valid() && defs.Keys == old(defs).Keys
      ensures var r := RetargetPhis(blocks, old(defs), succs, a, c);
        (ok <==> r.Some?) && (ok ==> defs == r.value)
      ensures Distinct(succs) && FreshInPhis(old(defs), c) ==> ok
    {
      if Distinct(succs) && FreshInPhis(defs, c) {
        RetargetSucceeds(blocks, defs, succs, a, c);
      }
      var d;
      d, ok := RetargetLoop(blocks, defs, succs, a, c, nextBlock);
      defs := d;
    }

    /**
     * `replace_ops`: one round of replacement over the reachable blocks. It
     * fails when a reachable operation is itself a key of the map; otherwise
     * every reachable operation and terminator has its arguments replaced
     * once, and the result says whether any of them named a key.
     */
    method ReplaceOps(repl: map<Value, Value>) returns (changed: bool, ok: bool)
      requires Valid()
      modifies this`defs, this`blocks
      ensures Valid() && SameShape(blocks, old(blocks)) && defs.Keys == old(defs).Keys
      ensures ok <==> forall o | o in OpsOf(old(blocks), Reachable(old(blocks), start)) :: OpRef(o) !in repl
      ensures ok ==> defs == ReplaceDefs(old(defs), OpsOf(old(blocks), Reachable(old(blocks), start)), repl)
      ensures ok ==> blocks == ReplaceNexts(old(blocks), Reachable(old(blocks), start), repl)
      ensures ok ==> (changed <==> OpsMention(old(defs), OpsOf(old(blocks), Reachable(old(blocks), start)), repl) ||
                                   NextsMention(old(blocks), Reachable(old(blocks), start), repl))
    {
      var order := IterBlocks();
      assert Reachable(blocks, start) == SetOf(order);
      var blocks', defs';
      blocks', defs', changed, ok := ReplaceInBlocks(blocks, defs, order, repl);
      PhisBelowKept(defs, defs', nextBlock);
      SameShapeArena(blocks', blocks, defs', nextBlock, nextOp);
      blocks, defs := blocks', defs';
    }
  }

  /** `len(set(ops)) == len(ops)`. */
  method NoDuplicates(ops: seq<OpId>) returns (ok: bool)
    ensures ok <==> Distinct(ops)
  {
    var seen: set<OpId> := {};
    var i := 0;
    while i < |ops|
      invariant 0 <= i <= |ops|
      invariant Distinct(ops[..i])
      invariant seen == set o | o in ops[..i]
    {
      assert ops[..i + 1] == ops[..i] + [ops[i]];
      if ops[i] in seen {
        var j :| 0 <= j < i && ops[j] == ops[i];
        return false;
      }
      seen := seen + {ops[i]};
      i := i + 1;
    }
    assert ops[..i] == ops;
    return true;
  }

  /** Once one of the phis has input blocks, every later one has the same input blocks. */
  ghost predicate SameInputs(defs: map<OpId, Def>, phis: seq<OpId>)
    requires forall o | o in phis :: o in defs && defs[o].Phi?
  {
    forall i, j | 0 <= i < j < |phis| && defs[phis[i]].prevblocks != [] ::
      defs[phis[j]].prevblocks == defs[phis[i]].prevblocks
  }

  /**
   * `prevblocks_from_phis`: the input blocks that the leading phis of a block
   * have in common. A phi with no inputs before the first one with inputs
   * is passed over; it fails when a later leading phi has other inputs.
   */
  method PrevblocksFromPhis(defs: map<OpId, Def>, ops: seq<OpId>) returns (res: seq<BlockId>, ok: bool)
    requires forall o | o in ops :: o in defs
    ensures ok <==> SameInputs(defs, LeadingPhis(ops, defs))
    ensures var phis := LeadingPhis(ops, defs);
      ok ==> (forall o | o in phis :: defs[o].prevblocks == [] || defs[o].prevblocks == res) &&
             (res != [] ==> exists o | o in phis :: defs[o].prevblocks == res)
  {
    ghost var phis := LeadingPhis(ops, defs);
    res := [];
    var i := 0;
    while i < |ops| && defs[ops[i]].Phi?
      invariant 0 <= i <= |phis| && phis[..i] == ops[..i]
      invariant forall k, j | 0 <= k < j < i && defs[phis[k]].prevblocks != [] ::
                  defs[phis[j]].prevblocks == defs[phis[k]].prevblocks
      invariant forall k | 0 <= k < i :: defs[phis[k]].prevblocks == [] || defs[phis[k]].prevblocks == res
      invariant res != [] ==> exists k | 0 <= k < i :: defs[phis[k]].prevblocks == res
      invariant res == [] ==> forall k | 0 <= k < i :: defs[phis[k]].prevblocks == []
    {
      assert i < |phis| && phis[i] == ops[i];
      var pbs := defs[ops[i]].prevblocks;
      if res != [] {
        if pbs != res {
          ghost var k :| 0 <= k < i && defs[phis[k]].prevblocks == res;
          assert 0 <= k < i < |phis| && defs[phis[k]].prevblocks != [] && defs[phis[i]].prevblocks != defs[phis[k]].prevblocks;
          assert !SameInputs(defs, phis);
          return res, false;
        }
      } else {
        res := pbs;
      }
      i := i + 1;
    }
    assert i == |phis|;
    ok := true;
  }

  /** Once one retargeting fails, retargeting a longer list fails too. */
  lemma RetargetPhisNone(blocks: map<BlockId, Block>, defs: map<OpId, Def>, succs: seq<BlockId>, i: nat, a: BlockId, c: BlockId)
    requires forall b, o | b in blocks && o in blocks[b].ops :: o in defs
    requires forall s | s in succs :: s in blocks
    requires i <= |succs| && RetargetPhis(blocks, defs, succs[..i], a, c) == None
    ensures RetargetPhis(blocks, defs, succs, a, c) == None
    decreases |succs| - i
  {
    if i < |succs| {
      assert succs[..i + 1][..i] == succs[..i];
      RetargetPhisNone(blocks, defs, succs, i + 1, a, c);
    } else {
      assert succs[..i] == succs;
    }
  }

  /** `d1` is `d2` with some input blocks possibly renamed to `c`. */
  predicate RenamedInputs(d1: Def, d2: Def, c: BlockId)
  {
    d1.Phi? == d2.Phi? && (d1.Phi? ==> forall pb | pb in d1.prevblocks :: pb in d2.prevblocks || pb == c)
  }

  lemma PhisBelowRenamed(defs: map<OpId, Def>, defs': map<OpId, Def>, c: BlockId, n: nat)
    requires PhisBelow(defs, n) && defs'.Keys == defs.Keys && c < n
    requires forall o | o in defs :: RenamedInputs(defs'[o], defs[o], c)
    ensures PhisBelow(defs', n)
  {
    forall o | o in defs' && defs'[o].Phi? ensures forall pb | pb in defs'[o].prevblocks :: pb < n {
      assert RenamedInputs(defs'[o], defs[o], c);
    }
  }

  /** The loop of `replace_prev` over the operations of one block. */
  method RenameLeading(defs: map<OpId, Def>, ops: seq<OpId>, a: BlockId, c: BlockId)
    returns (defs': map<OpId, Def>, ok: bool)
    requires Distinct(ops) && forall o | o in ops :: o in defs
    ensures defs'.Keys == defs.Keys
    ensures forall o | o in defs :: RenamedInputs(defs'[o], defs[o], c)
    ensures ok <==> forall o | o in LeadingPhis(ops, defs) :: c !in defs[o].prevblocks
    ensures ok ==> defs' == RenamePrev(defs, SetOf(LeadingPhis(ops, defs)), a, c)
  {
    ghost var phis := LeadingPhis(ops, defs);
    defs' := defs;
    RenameStart(defs, ops, phis, a, c);
    var i := 0;
    while i < |ops| && defs'[ops[i]].Phi?
      invariant RenameSoFar(defs, ops, phis, i, a, c, defs')
    {
      var o := ops[i];
      RenameNext(defs, ops, phis, i, a, c, defs');
      if c in defs'[o].prevblocks {
        RenamePrevInputs(defs, SetOf(phis[..i]), a, c);
        return defs', false;
      }
      defs' := RenamedOne(defs', o, a, c);
      i := i + 1;
    }
    RenameDone(defs, ops, phis, i, a, c, defs');
    RenamePrevInputs(defs, SetOf(phis), a, c);
    ok := true;
  }

  /** `phi.prevblocks` of the slot `o` with `a` renamed to `c`. */
  function RenamedOne(defs: map<OpId, Def>, o: OpId, a: BlockId, c: BlockId): map<OpId, Def>
    requires o in defs && defs[o].Phi?
  {
    defs[o := defs[o].(prevblocks := Rename(defs[o].prevblocks, a, c))]
  }

  /** The loop state of `RenameLeading` after the first `i` leading phis `phis` of `ops`. */
  ghost predicate RenameSoFar(defs: map<OpId, Def>, ops: seq<OpId>, phis: seq<OpId>, i: nat, a: BlockId, c: BlockId,
                              cur: map<OpId, Def>)
  {
    Distinct(ops) && (forall o | o in ops :: o in defs) && phis == LeadingPhis(ops, defs) &&
    i <= |phis| && phis[..i] == ops[..i] &&
    (forall o | o in phis[..i] :: c !in defs[o].prevblocks) &&
    cur == RenamePrev(defs, SetOf(phis[..i]), a, c)
  }

  /** Renaming only replaces `a` by `c`, and keeps every slot a phi or not. */
  lemma RenamePrevInputs(defs: map<OpId, Def>, phis: set<OpId>, a: BlockId, c: BlockId)
    ensures var r := RenamePrev(defs, phis, a, c);
      r.Keys == defs.Keys && forall o | o in defs :: RenamedInputs(r[o], defs[o], c)
  {
    var r := RenamePrev(defs, phis, a, c);
    forall o | o in defs ensures RenamedInputs(r[o], defs[o], c) {
      if o in phis && defs[o].Phi? {
        forall pb | pb in r[o].prevblocks ensures pb in defs[o].prevblocks || pb == c {
          var k :| 0 <= k < |r[o].prevblocks| && r[o].prevblocks[k] == pb;
          assert defs[o].prevblocks[k] in defs[o].prevblocks;
        }
      }
    }
  }

  /** A phi at `ops[i]` is the next leading phi, not yet renamed; an input `c` fails the assertion. */
  lemma RenameNext(defs: map<OpId, Def>, ops: seq<OpId>, phis: seq<OpId>, i: nat, a: BlockId, c: BlockId,
                   cur: map<OpId, Def>)
    requires RenameSoFar(defs, ops, phis, i, a, c, cur) && i < |ops| && cur[ops[i]].Phi?
    ensures i < |phis| && cur[ops[i]] == defs[ops[i]]
    ensures c in cur[ops[i]].prevblocks ==> !(forall o | o in phis :: c !in defs[o].prevblocks)
    ensures c !in cur[ops[i]].prevblocks ==> RenameSoFar(defs, ops, phis, i + 1, a, c, RenamedOne(cur, ops[i], a, c))
  {
    SlotUnrenamed(defs, ops, phis, i, a, c, cur);
    PhisUpTo(defs, ops, phis, i, a, c, cur);
    LeadingPhisGrow(ops, defs, i);
    assert phis[i] == ops[i] && phis[i] in phis;
    if c !in cur[ops[i]].prevblocks {
      RenameAdvance(defs, ops, phis, i, a, c, cur);
    }
  }

  lemma RenameStart(defs: map<OpId, Def>, ops: seq<OpId>, phis: seq<OpId>, a: BlockId, c: BlockId)
    requires Distinct(ops) && (forall o | o in ops :: o in defs) && phis == LeadingPhis(ops, defs)
    ensures RenameSoFar(defs, ops, phis, 0, a, c, defs)
  {
    assert SetOf(phis[..0]) == {};
    assert defs == RenamePrev(defs, {}, a, c);
  }

  /** The slot the loop of `RenameLeading` looks at next is not renamed yet. */
  lemma SlotUnrenamed(defs: map<OpId, Def>, ops: seq<OpId>, phis: seq<OpId>, i: nat, a: BlockId, c: BlockId,
                      cur: map<OpId, Def>)
    requires RenameSoFar(defs, ops, phis, i, a, c, cur) && i < |ops|
    ensures ops[i] in cur && cur[ops[i]] == defs[ops[i]]
  {
    forall k | 0 <= k < i ensures phis[..i][k] != ops[i] {
      assert phis[..i][k] == ops[k];
    }
    assert ops[i] !in SetOf(phis[..i]);
  }

  lemma PhisUpTo(defs: map<OpId, Def>, ops: seq<OpId>, phis: seq<OpId>, i: nat, a: BlockId, c: BlockId,
                 cur: map<OpId, Def>)
    requires RenameSoFar(defs, ops, phis, i, a, c, cur) && i < |ops| && defs[ops[i]].Phi?
    ensures forall k | 0 <= k <= i :: defs[ops[k]].Phi?
  {
    forall k | 0 <= k < i ensures defs[ops[k]].Phi? {
      assert phis[..i][k] == ops[k] && phis[k] in phis;
    }
  }

  /** The leading phis reach past `i` when the operations up to `i` are all phis. */
  lemma {:induction false} LeadingPhisGrow(ops: seq<OpId>, defs: map<OpId, Def>, i: nat)
    requires (forall o | o in ops :: o in defs) && i < |ops| && forall k | 0 <= k <= i :: defs[ops[k]].Phi?
    ensures i < |LeadingPhis(ops, defs)|
  {
    if i > 0 {
      assert forall k | 0 <= k <= i - 1 :: ops[1..][k] == ops[k + 1];
      LeadingPhisGrow(ops[1..], defs, i - 1);
    }
  }

  /** The leading phis end at the first operation that is not one. */
  lemma {:induction false} LeadingPhisStop(ops: seq<OpId>, defs: map<OpId, Def>, i: nat)
    requires (forall o | o in ops :: o in defs) && i <= |LeadingPhis(ops, defs)|
    requires i < |ops| ==> !defs[ops[i]].Phi?
    ensures i == |LeadingPhis(ops, defs)|
  {
    if i > 0 {
      assert LeadingPhis(ops, defs) == [ops[0]] + LeadingPhis(ops[1..], defs);
      LeadingPhisStop(ops[1..], defs, i - 1);
    }
  }

  lemma RenameAdvance(defs: map<OpId, Def>, ops: seq<OpId>, phis: seq<OpId>, i: nat, a: BlockId, c: BlockId,
                      cur: map<OpId, Def>)
    requires RenameSoFar(defs, ops, phis, i, a, c, cur) && i < |phis|
    requires phis[i] == ops[i] && cur[ops[i]] == defs[ops[i]] && cur[ops[i]].Phi? && c !in cur[ops[i]].prevblocks
    ensures RenameSoFar(defs, ops, phis, i + 1, a, c, RenamedOne(cur, ops[i], a, c))
  {
    PrefixDistinct(ops, phis);
    RenamePrevStep(defs, phis, i, a, c, cur, RenamedOne(cur, ops[i], a, c));
    PrefixGrow(phis, ops, i);
    NoInputStep(defs, phis, i, c);
  }

  lemma PrefixDistinct(ops: seq<OpId>, phis: seq<OpId>)
    requires Distinct(ops) && |phis| <= |ops| && phis == ops[..|phis|]
    ensures Distinct(phis)
  {
    assert forall k | 0 <= k < |phis| :: phis[k] == ops[k];
  }

  lemma PrefixGrow(phis: seq<OpId>, ops: seq<OpId>, i: nat)
    requires i < |phis| && i < |ops| && phis[..i] == ops[..i] && phis[i] == ops[i]
    ensures phis[..i + 1] == ops[..i + 1]
  {
    assert phis[..i + 1] == phis[..i] + [phis[i]];
    assert ops[..i + 1] == ops[..i] + [ops[i]];
  }

  lemma NoInputStep(defs: map<OpId, Def>, phis: seq<OpId>, i: nat, c: BlockId)
    requires i < |phis| && forall o | o in phis :: o in defs && defs[o].Phi?
    requires (forall o | o in phis[..i] :: c !in defs[o].prevblocks) && c !in defs[phis[i]].prevblocks
    ensures forall o | o in phis[..i + 1] :: c !in defs[o].prevblocks
  {
    assert phis[..i + 1] == phis[..i] + [phis[i]];
  }

  /** The loop of `RenameLeading` stops after the last leading phi, with every one renamed. */
  lemma RenameDone(defs: map<OpId, Def>, ops: seq<OpId>, phis: seq<OpId>, i: nat, a: BlockId, c: BlockId,
                   cur: map<OpId, Def>)
    requires RenameSoFar(defs, ops, phis, i, a, c, cur) && (i < |ops| ==> !cur[ops[i]].Phi?)
    ensures forall o | o in phis :: c !in defs[o].prevblocks
    ensures cur == RenamePrev(defs, SetOf(phis), a, c)
  {
    if i < |ops| {
      assert forall k | 0 <= k < i :: phis[..i][k] == ops[k];
      assert ops[i] !in SetOf(phis[..i]);
    }
    LeadingPhisStop(ops, defs, i);
    assert phis[..i] == phis;
  }

  lemma RenamePrevStep(defs: map<OpId, Def>, phis: seq<OpId>, i: nat, a: BlockId, c: BlockId,
                       prev: map<OpId, Def>, next: map<OpId, Def>)
    requires i < |phis| && Distinct(phis) && phis[i] in defs && defs[phis[i]].Phi?
    requires prev == RenamePrev(defs, SetOf(phis[..i]), a, c)
    requires next == prev[phis[i] := prev[phis[i]].(prevblocks := Rename(prev[phis[i]].prevblocks, a, c))]
    ensures next == RenamePrev(defs, SetOf(phis[..i + 1]), a, c)
  {
    assert phis[..i + 1] == phis[..i] + [phis[i]];
    assert phis[i] !in phis[..i];
  }

  /** The loop of `replace_ops` over the blocks `order`. */
  method ReplaceInBlocks(blocks: map<BlockId, Block>, defs: map<OpId, Def>, order: seq<BlockId>, repl: map<Value, Value>)
    returns (blocks': map<BlockId, Block>, defs': map<OpId, Def>, changed: bool, ok: bool)
    requires UniqueOps(blocks) && Distinct(order) && forall b | b in order :: b in blocks
    requires forall b, o | b in blocks && o in blocks[b].ops :: o in defs
    ensures SameShape(blocks', blocks) && defs'.Keys == defs.Keys
    ensures forall o | o in defs :: SameInputBlocks(defs'[o], defs[o])
    ensures ok <==> forall o | o in OpsOf(blocks, SetOf(order)) :: OpRef(o) !in repl
    ensures ok ==> defs' == ReplaceDefs(defs, OpsOf(blocks, SetOf(order)), repl)
    ensures ok ==> blocks' == ReplaceNexts(blocks, SetOf(order), repl)
    ensures ok ==> (changed <==> OpsMention(defs, OpsOf(blocks, SetOf(order)), repl) ||
                                 NextsMention(blocks, SetOf(order), repl))
  {
    ReplaceNothing(blocks, defs, repl);
    blocks', defs', changed := blocks, defs, false;
    var i := 0;
    while i < |order|
      invariant 0 <= i <= |order|
      invariant RoundInv(blocks, defs, order, i, repl, blocks', defs', changed)
    {
      var b := order[i];
      var blk := blocks'[b];
      RoundLookup(blocks, defs, order, i, repl, blocks', defs', changed);
      var defs'', ch, okb := ReplaceInBlock(defs', blk.ops, repl);
      if !okb {
        RoundFail(blocks, defs, order, i, repl, blocks', defs', changed);
        return blocks', defs'', changed, false;
      }
      ghost var blocks0, changed0 := blocks', changed;
      changed := changed || ch || Mentions(ReplaceableNextArgs(blk.next), repl);
      blocks' := blocks'[b := Block(blk.ops, ReplaceInNext(blk.next, repl))];
      RoundStep(blocks, defs, order, i, repl, blocks0, defs', changed0, defs'', ch, blocks', changed);
      defs' := defs'';
      i := i + 1;
    }
    assert order[..i] == order;
    ReplaceNextsShape(blocks, SetOf(order), repl);
    ok := true;
  }

  /** The invariant of the `replace_ops` loop after the first `i` blocks. */
  ghost predicate RoundInv(blocks: map<BlockId, Block>, defs: map<OpId, Def>, order: seq<BlockId>, i: nat,
                           repl: map<Value, Value>, blocks': map<BlockId, Block>, defs': map<OpId, Def>, changed: bool)
    requires i <= |order|
  {
    blocks' == ReplaceNexts(blocks, SetOf(order[..i]), repl) &&
    defs' == ReplaceDefs(defs, OpsOf(blocks, SetOf(order[..i])), repl) &&
    (forall o | o in OpsOf(blocks, SetOf(order[..i])) :: OpRef(o) !in repl) &&
    (changed <==> OpsMention(defs, OpsOf(blocks, SetOf(order[..i])), repl) || NextsMention(blocks, SetOf(order[..i]), repl))
  }

  /** The block about to be processed, and its operations, are still untouched. */
  lemma RoundLookup(blocks: map<BlockId, Block>, defs: map<OpId, Def>, order: seq<BlockId>, i: nat,
                    repl: map<Value, Value>, blocks': map<BlockId, Block>, defs': map<OpId, Def>, changed: bool)
    requires UniqueOps(blocks) && Distinct(order) && forall b | b in order :: b in blocks
    requires forall b, o | b in blocks && o in blocks[b].ops :: o in defs
    requires i < |order| && RoundInv(blocks, defs, order, i, repl, blocks', defs', changed)
    ensures order[i] in blocks' && blocks'[order[i]] == blocks[order[i]]
    ensures Distinct(blocks[order[i]].ops) && forall o | o in blocks[order[i]].ops :: o in defs' && defs'[o] == defs[o]
  {
    var b := order[i];
    assert b !in SetOf(order[..i]);
    OpsOfStep(blocks, SetOf(order[..i]), b);
  }

  lemma RoundFail(blocks: map<BlockId, Block>, defs: map<OpId, Def>, order: seq<BlockId>, i: nat,
                  repl: map<Value, Value>, blocks': map<BlockId, Block>, defs': map<OpId, Def>, changed: bool)
    requires forall b | b in order :: b in blocks
    requires i < |order| && RoundInv(blocks, defs, order, i, repl, blocks', defs', changed)
    ensures SameShape(blocks', blocks) && defs'.Keys == defs.Keys
    ensures forall o | o in defs :: SameInputBlocks(defs'[o], defs[o])
    ensures (exists o | o in blocks[order[i]].ops :: OpRef(o) in repl) ==>
            exists o | o in OpsOf(blocks, SetOf(order)) :: OpRef(o) in repl
  {
    ReplaceNextsShape(blocks, SetOf(order[..i]), repl);
    if o :| o in blocks[order[i]].ops && OpRef(o) in repl {
      assert order[i] in SetOf(order);
      assert o in OpsOf(blocks, SetOf(order));
    }
  }

  lemma RoundStep(blocks: map<BlockId, Block>, defs: map<OpId, Def>, order: seq<BlockId>, i: nat,
                  repl: map<Value, Value>, blocks': map<BlockId, Block>, defs': map<OpId, Def>, changed: bool,
                  defs'': map<OpId, Def>, ch: bool, blocks'': map<BlockId, Block>, changed': bool)
    requires UniqueOps(blocks) && Distinct(order) && forall b | b in order :: b in blocks
    requires i < |order| && RoundInv(blocks, defs, order, i, repl, blocks', defs', changed)
    requires forall o | o in blocks[order[i]].ops :: OpRef(o) !in repl
    requires forall o | o in blocks[order[i]].ops :: o in defs' && defs'[o] == defs[o]
    requires defs'' == ReplaceDefs(defs', SetOf(blocks[order[i]].ops), repl)
    requires ch <==> OpsMention(defs', SetOf(blocks[order[i]].ops), repl)
    requires blocks'' == blocks'[order[i] := Block(blocks[order[i]].ops, ReplaceInNext(blocks[order[i]].next, repl))]
    requires changed' == (changed || ch || Mentions(ReplaceableNextArgs(blocks[order[i]].next), repl))
    ensures RoundInv(blocks, defs, order, i + 1, repl, blocks'', defs'', changed')
  {
    var b := order[i];
    var done := SetOf(order[..i]);
    var doneOps := OpsOf(blocks, done);
    var blockOps := SetOf(blocks[b].ops);
    assert b !in done;
    assert order[..i + 1] == order[..i] + [b];
    assert SetOf(order[..i + 1]) == done + {b};
    OpsOfStep(blocks, done, b);
    assert OpsMention(defs', blockOps, repl) <==> OpsMention(defs, blockOps, repl);
    ReplaceDefsUnion(defs, doneOps, blockOps, repl);
    MentionUnion(blocks, defs, doneOps, blockOps, done, b, repl);
    ReplaceNextsStep(blocks, done, b, repl);
  }

  /** The inner loop of `replace_ops` over the operations of one block. */
  method ReplaceInBlock(defs: map<OpId, Def>, ops: seq<OpId>, repl: map<Value, Value>)
    returns (defs': map<OpId, Def>, changed: bool, ok: bool)
    requires Distinct(ops) && forall o | o in ops :: o in defs
    ensures defs'.Keys == defs.Keys
    ensures forall o | o in defs :: SameInputBlocks(defs'[o], defs[o])
    ensures ok <==> forall o | o in ops :: OpRef(o) !in repl
    ensures ok ==> defs' == ReplaceDefs(defs, SetOf(ops), repl)
    ensures ok ==> (changed <==> OpsMention(defs, SetOf(ops), repl))
  {
    defs', changed := defs, false;
    var i := 0;
    while i < |ops|
      invariant 0 <= i <= |ops|
      invariant defs' == ReplaceDefs(defs, SetOf(ops[..i]), repl)
      invariant forall o | o in defs :: SameInputBlocks(defs'[o], defs[o])
      invariant forall o | o in ops[..i] :: OpRef(o) !in repl
      invariant changed <==> OpsMention(defs, SetOf(ops[..i]), repl)
    {
      var o := ops[i];
      assert ops[..i + 1] == ops[..i] + [o];
      if OpRef(o) in repl {
        return defs', changed, false;
      }
      assert o !in ops[..i];
      var d := defs'[o];
      changed := changed || Mentions(DefArgs(d), repl);
      defs' := defs'[o := ReplaceInDef(d, repl)];
      i := i + 1;
    }
    assert ops[..i] == ops;
    ok := true;
  }

  method AllDefined(vs: seq<Value>, defined: set<Value>) returns (ok: bool)
    ensures ok <==> forall v | v in vs :: DefinedOrConstant(v, defined)
  {
    var i := 0;
    while i < |vs|
      invariant 0 <= i <= |vs|
      invariant forall v | v in vs[..i] :: DefinedOrConstant(v, defined)
    {
      assert vs[..i + 1] == vs[..i] + [vs[i]];
      if !DefinedOrConstant(vs[i], defined) {
        return false;
      }
      i := i + 1;
    }
    assert vs[..i] == vs;
    return true;
  }

  lemma DefinedValuesSnoc(blocks: map<BlockId, Block>, args: seq<Value>, order: seq<BlockId>, i: nat)
    requires forall x | x in order :: x in blocks
    requires i < |order|
    ensures DefinedValues(blocks, args, order[..i + 1]) ==
            DefinedValues(blocks, args, order[..i]) + set o | o in blocks[order[i]].ops :: OpRef(o)
  {
    assert order[..i + 1] == order[..i] + [order[i]];
  }

  /** The inner loop of `make_entrymap`: note `b` as a predecessor of each successor and push the unseen ones. */
  method RecordSuccessors(entry: map<BlockId, seq<BlockId>>, todo: seq<BlockId>, seen: set<BlockId>,
                          b: BlockId, nexts: seq<BlockId>)
    returns (entry': map<BlockId, seq<BlockId>>, todo': seq<BlockId>)
    ensures entry' == RecordEdges(entry, b, nexts)
    ensures todo' == todo + Unseen(nexts, seen)
  {
    entry', todo' := entry, todo;
    var i := 0;
    while i < |nexts|
      invariant 0 <= i <= |nexts|
      invariant entry' == RecordEdges(entry, b, nexts[..i])
      invariant todo' == todo + Unseen(nexts[..i], seen)
    {
      var n := nexts[i];
      assert nexts[..i + 1][..i] == nexts[..i];
      entry' := entry'[n := Get(entry', n) + [b]];
      if n !in seen {
        todo' := todo' + [n];
      }
      i := i + 1;
    }
    assert nexts[..i] == nexts;
  }

  /**
   * The predecessor lists of `make_entrymap`: one list per reachable block;
   * the start block's is empty; `p` is in the list of `s` exactly when `p` is
   * reachable and has an edge to `s`.
   */
  ghost predicate IsEntrymap(blocks: map<BlockId, Block>, start: BlockId, entry: map<BlockId, seq<BlockId>>)
    requires SuccClosed(blocks) && start in blocks
  {
    PredLists(blocks, start, entry, Reachable(blocks, start))
  }

  /** `entry` holds the predecessor lists of the blocks `rs`, as `IsEntrymap` describes. */
  ghost predicate PredLists(blocks: map<BlockId, Block>, start: BlockId, entry: map<BlockId, seq<BlockId>>, rs: set<BlockId>)
  {
    entry.Keys == rs &&
    start in entry && entry[start] == [] &&
    (forall s, p | s in entry && p in entry[s] :: s != start && p in entry && p in blocks && s in Succ(blocks, p)) &&
    (forall p, s | p in entry && p in blocks && s in Succ(blocks, p) && s != start :: s in entry && p in entry[s])
  }

  /**
   * The `make_entrymap` loop as a function: pop the last block of the work
   * list, mark it seen, append it to the list of each of its successors in
   * order and push the successors not yet seen. A block pushed twice before
   * it is popped is popped twice, so its edges are recorded twice.
   */
  ghost function EntryWalk(blocks: map<BlockId, Block>, todo: seq<BlockId>, seen: set<BlockId>,
                           entry: map<BlockId, seq<BlockId>>): map<BlockId, seq<BlockId>>
    requires SuccClosed(blocks) && forall t | t in todo :: t in blocks
    decreases |blocks.Keys - seen|, CountIn(todo, seen)
  {
    if todo == [] then entry
    else
      var b := todo[|todo| - 1];
      WalkNext(blocks, todo, seen);
      EntryWalk(blocks, todo[..|todo| - 1] + Unseen(Succ(blocks, b), seen + {b}), seen + {b},
                RecordEdges(entry, b, Succ(blocks, b)))
  }

  /** The entry map `make_entrymap` returns: the walk from the start block, with the start block's list emptied. */
  ghost function Entrymap(blocks: map<BlockId, Block>, start: BlockId): map<BlockId, seq<BlockId>>
    requires SuccClosed(blocks) && start in blocks
  {
    EntryWalk(blocks, [start], {}, map[])[start := []]
  }

  /** One pop of the walk keeps the work list inside the blocks and shrinks the measure. */
  lemma WalkNext(blocks: map<BlockId, Block>, todo: seq<BlockId>, seen: set<BlockId>)
    requires SuccClosed(blocks) && todo != [] && forall t | t in todo :: t in blocks
    ensures var b := todo[|todo| - 1];
      var seen' := seen + {b};
      var todo' := todo[..|todo| - 1] + Unseen(Succ(blocks, b), seen');
      (forall t | t in todo' :: t in blocks) &&
      (|blocks.Keys - seen'| < |blocks.Keys - seen| ||
       (|blocks.Keys - seen'| == |blocks.Keys - seen| && CountIn(todo', seen') < CountIn(todo, seen)))
  {
    var b := todo[|todo| - 1];
    UnseenSpec(Succ(blocks, b), seen + {b});
    StepMeasure(blocks, todo, seen);
  }

  /** Walking from a state that satisfies the loop invariant ends in a state that satisfies it with an empty work list. */
  lemma {:induction false} EntryWalkInv(blocks: map<BlockId, Block>, start: BlockId, todo: seq<BlockId>,
                                        seen: set<BlockId>, entry: map<BlockId, seq<BlockId>>)
    returns (seen': set<BlockId>)
    requires EntryInv(blocks, start, todo, seen, entry)
    ensures EntryInv(blocks, start, [], seen', EntryWalk(blocks, todo, seen, entry))
    decreases |blocks.Keys - seen|, CountIn(todo, seen)
  {
    if todo == [] {
      seen' := seen;
    } else {
      var b := todo[|todo| - 1];
      EntryStep(blocks, start, todo, seen, entry);
      seen' := EntryWalkInv(blocks, start, todo[..|todo| - 1] + Unseen(Succ(blocks, b), seen + {b}), seen + {b},
                            RecordEdges(entry, b, Succ(blocks, b)));
    }
  }

  /** The entry map of `make_entrymap` lists, for each reachable block, exactly its reachable predecessors. */
  lemma EntrymapIsEntrymap(blocks: map<BlockId, Block>, start: BlockId)
    requires SuccClosed(blocks) && start in blocks
    ensures IsEntrymap(blocks, start, Entrymap(blocks, start))
  {
    var seen := EntryWalkInv(blocks, start, [start], {}, map[]);
    EntryDone(blocks, start, seen, EntryWalk(blocks, [start], {}, map[]), Entrymap(blocks, start));
  }

  /** Block 0 branches to 1 and 2, block 1 goes to 2, block 2 goes to 3, block 3 returns. */
  const Diamond: map<BlockId, Block> := map[0 := Block([], ConditionalGoto(TRUE, 1, 2)), 1 := Block([], Goto(2)),
                                            2 := Block([], Goto(3)), 3 := Block([], Return(None))]

  /** Block 2 is pushed twice before it is popped, so the list of block 3 names it twice. */
  lemma DiamondEntrymap(d: map<BlockId, Block>)
    requires d == Diamond
    ensures SuccClosed(d)
    ensures var m := Entrymap(d, 0);
      m.Keys == {0, 1, 2, 3} && m[0] == [] && m[1] == [0] && m[2] == [0, 1] && m[3] == [2, 2]
  {
    DiamondSucc(d);
    var e4 := DiamondWalk(d);
    DiamondLists(e4);
  }

  /** The edges of `Diamond`, which is all the walk looks at. */
  ghost predicate DiamondShape(d: map<BlockId, Block>)
  {
    SuccClosed(d) && 0 in d && 1 in d && 2 in d && 3 in d &&
    Succ(d, 0) == [2, 1] && Succ(d, 1) == [2] && Succ(d, 2) == [3] && Succ(d, 3) == []
  }

  lemma DiamondSucc(d: map<BlockId, Block>)
    requires d == Diamond
    ensures DiamondShape(d)
  {
  }

  /** The five pops of the walk on `Diamond`: block 2 is popped twice. */
  lemma DiamondWalk(d: map<BlockId, Block>) returns (e4: map<BlockId, seq<BlockId>>)
    requires DiamondShape(d)
    ensures EntryWalk(d, [0], {}, map[]) == e4
    ensures var e2 := RecordEdges(RecordEdges(map[], 0, [2, 1]), 1, [2]);
      e4 == e2[3 := Get(e2, 3) + [2]][3 := Get(e2[3 := Get(e2, 3) + [2]], 3) + [2]]
  {
    var e1 := RecordEdges(map[], 0, [2, 1]);
    var e2 := RecordEdges(e1, 1, [2]);
    var e3 := e2[3 := Get(e2, 3) + [2]];
    e4 := e3[3 := Get(e3, 3) + [2]];
    DiamondPopZero(d);
    assert [] + [0] == [0];
    DiamondPopOne(d, e1);
    DiamondPopTwo(d, e2);
    DiamondPopThree(d, e3);
    DiamondPopLast(d, e3);
  }

  /** Block 0 is popped and pushes block 2, then block 1. */
  lemma DiamondPopZero(d: map<BlockId, Block>)
    requires DiamondShape(d)
    ensures EntryWalk(d, [] + [0], {}, map[]) == EntryWalk(d, [2] + [1], {} + {0}, RecordEdges(map[], 0, [2, 1]))
  {
    UnseenTwo(2, 1, {} + {0});
    UnseenOne(2, {} + {0});
    WalkPop(d, [], 0, {}, map[], [2] + [1], {} + {0}, RecordEdges(map[], 0, [2, 1]));
  }

  /** Block 1 is popped and pushes block 2 a second time. */
  lemma DiamondPopOne(d: map<BlockId, Block>, e1: map<BlockId, seq<BlockId>>)
    requires DiamondShape(d)
    ensures EntryWalk(d, [2] + [1], {} + {0}, e1) == EntryWalk(d, [2] + [2], {} + {0} + {1}, RecordEdges(e1, 1, [2]))
  {
    UnseenOne(2, {} + {0} + {1});
    WalkPop(d, [2], 1, {} + {0}, e1, [2] + [2], {} + {0} + {1}, RecordEdges(e1, 1, [2]));
  }

  /** Block 2 is popped for the first time and pushes block 3. */
  lemma DiamondPopTwo(d: map<BlockId, Block>, e2: map<BlockId, seq<BlockId>>)
    requires DiamondShape(d)
    ensures EntryWalk(d, [2] + [2], {} + {0} + {1}, e2) ==
      EntryWalk(d, [2] + [3], {} + {0} + {1} + {2}, e2[3 := Get(e2, 3) + [2]])
  {
    RecordOne(e2, 2, 3);
    UnseenOne(3, {} + {0} + {1} + {2});
    WalkPop(d, [2], 2, {} + {0} + {1}, e2, [2] + [3], {} + {0} + {1} + {2}, e2[3 := Get(e2, 3) + [2]]);
  }

  /** Block 3 has no successor. */
  lemma DiamondPopThree(d: map<BlockId, Block>, e3: map<BlockId, seq<BlockId>>)
    requires DiamondShape(d)
    ensures EntryWalk(d, [2] + [3], {} + {0} + {1} + {2}, e3) == EntryWalk(d, [2], {} + {0} + {1} + {2} + {3}, e3)
  {
    assert RecordEdges(e3, 3, []) == e3 && Unseen([], {} + {0} + {1} + {2} + {3}) == [];
    WalkPop(d, [2], 3, {} + {0} + {1} + {2}, e3, [2], {} + {0} + {1} + {2} + {3}, e3);
  }

  /** Block 2 is popped again: its edge to block 3 is recorded a second time and nothing is pushed. */
  lemma DiamondPopLast(d: map<BlockId, Block>, e3: map<BlockId, seq<BlockId>>)
    requires DiamondShape(d)
    ensures EntryWalk(d, [2], {} + {0} + {1} + {2} + {3}, e3) == e3[3 := Get(e3, 3) + [2]]
  {
    var seen := {} + {0} + {1} + {2} + {3};
    RecordOne(e3, 2, 3);
    UnseenOne(3, seen);
    WalkPop(d, [], 2, seen, e3, [], seen, e3[3 := Get(e3, 3) + [2]]);
    assert [] + [2] == [2];
  }

  /** The lists the walk on `Diamond` leaves, with the start block's emptied. */
  lemma DiamondLists(e4: map<BlockId, seq<BlockId>>)
    requires var e2 := RecordEdges(RecordEdges(map[], 0, [2, 1]), 1, [2]);
      e4 == e2[3 := Get(e2, 3) + [2]][3 := Get(e2[3 := Get(e2, 3) + [2]], 3) + [2]]
    ensures var m := e4[0 := []];
      m.Keys == {0, 1, 2, 3} && m[0] == [] && m[1] == [0] && m[2] == [0, 1] && m[3] == [2, 2]
  {
    var empty: map<BlockId, seq<BlockId>> := map[];
    var r := RecordEdges(empty, 0, [2]);
    var e1 := RecordEdges(empty, 0, [2, 1]);
    var e2 := RecordEdges(e1, 1, [2]);
    RecordOne(empty, 0, 2);
    RecordTwo(empty, 0, 2, 1);
    RecordOne(e1, 1, 2);
    assert Get(empty, 2) == [] && [] + [0] == [0];
    assert r == empty[2 := [0]];
    assert Get(r, 1) == [];
    assert e1 == r[1 := [0]];
    assert Get(e1, 2) == [0] && [0] + [1] == [0, 1];
    assert e2 == e1[2 := [0, 1]];
    assert Get(e2, 3) == [] && [] + [2] == [2] && [2] + [2] == [2, 2];
  }

  /** One pop of the walk, with the new work list, seen set and entry map named. */
  lemma WalkPop(blocks: map<BlockId, Block>, todo: seq<BlockId>, b: BlockId, seen: set<BlockId>,
                entry: map<BlockId, seq<BlockId>>, todo': seq<BlockId>, seen': set<BlockId>,
                entry': map<BlockId, seq<BlockId>>)
    requires SuccClosed(blocks) && b in blocks && forall t | t in todo :: t in blocks
    requires seen' == seen + {b} && entry' == RecordEdges(entry, b, Succ(blocks, b))
    requires todo' == todo + Unseen(Succ(blocks, b), seen') && forall t | t in todo' :: t in blocks
    ensures EntryWalk(blocks, todo + [b], seen, entry) == EntryWalk(blocks, todo', seen', entry')
  {
    assert (todo + [b])[..|todo|] == todo;
  }

  lemma RecordOne(e: map<BlockId, seq<BlockId>>, b: BlockId, n: BlockId)
    ensures RecordEdges(e, b, [n]) == e[n := Get(e, n) + [b]]
  {
    assert [n][..0] == [];
  }

  lemma RecordTwo(e: map<BlockId, seq<BlockId>>, b: BlockId, m: BlockId, n: BlockId)
    ensures var r := RecordEdges(e, b, [m]); RecordEdges(e, b, [m, n]) == r[n := Get(r, n) + [b]]
  {
    assert [m, n][..1] == [m];
  }

  lemma UnseenOne(n: BlockId, seen: set<BlockId>)
    ensures Unseen([n], seen) == if n in seen then [] else [n]
  {
    assert [n][..0] == [];
  }

  lemma UnseenTwo(m: BlockId, n: BlockId, seen: set<BlockId>)
    ensures Unseen([m, n], seen) == Unseen([m], seen) + if n in seen then [] else [n]
  {
    assert [m, n][..1] == [m];
  }

  /** The loop invariant of `make_entrymap`. */
  ghost predicate EntryInv(blocks: map<BlockId, Block>, start: BlockId, todo: seq<BlockId>, seen: set<BlockId>,
                           entry: map<BlockId, seq<BlockId>>)
  {
    EntryBase(blocks, start, todo, seen, entry) &&
    EntryWithin(blocks, start, todo, seen, entry) &&
    EntryPending(start, todo, seen, entry) &&
    EntrySound(blocks, seen, entry) &&
    EntryComplete(blocks, seen, entry)
  }

  ghost predicate EntryBase(blocks: map<BlockId, Block>, start: BlockId, todo: seq<BlockId>, seen: set<BlockId>,
                            entry: map<BlockId, seq<BlockId>>)
  {
    SuccClosed(blocks) && start in blocks &&
    (forall t | t in todo :: t in blocks) && seen <= blocks.Keys && entry.Keys <= blocks.Keys
  }

  /** Nothing outside the reachable blocks is ever touched. */
  ghost predicate EntryWithin(blocks: map<BlockId, Block>, start: BlockId, todo: seq<BlockId>, seen: set<BlockId>,
                              entry: map<BlockId, seq<BlockId>>)
  {
    forall c | ClosedFrom(blocks, start, c) :: seen <= c && entry.Keys <= c && forall t | t in todo :: t in c
  }

  /** Every block with a list is processed or still to be processed. */
  ghost predicate EntryPending(start: BlockId, todo: seq<BlockId>, seen: set<BlockId>, entry: map<BlockId, seq<BlockId>>)
  {
    (start in seen || start in todo) && (forall s | s in entry :: s in seen || s in todo) &&
    (forall x | x in seen :: x == start || x in entry) && (forall t | t in todo :: t == start || t in entry)
  }

  ghost predicate EntrySound(blocks: map<BlockId, Block>, seen: set<BlockId>, entry: map<BlockId, seq<BlockId>>)
  {
    forall s, p | s in entry && p in entry[s] :: p in seen && p in blocks && s in Succ(blocks, p)
  }

  ghost predicate EntryComplete(blocks: map<BlockId, Block>, seen: set<BlockId>, entry: map<BlockId, seq<BlockId>>)
  {
    forall p, s | p in seen && p in blocks && s in Succ(blocks, p) :: s in entry && p in entry[s]
  }

  /** One round of the `make_entrymap` loop keeps the invariant and shrinks the measure. */
  lemma EntryStep(blocks: map<BlockId, Block>, start: BlockId, todo: seq<BlockId>, seen: set<BlockId>,
                  entry: map<BlockId, seq<BlockId>>)
    requires EntryInv(blocks, start, todo, seen, entry) && todo != []
    ensures var b := todo[|todo| - 1];
      var seen' := seen + {b};
      var todo' := todo[..|todo| - 1] + Unseen(Succ(blocks, b), seen');
      var entry' := RecordEdges(entry, b, Succ(blocks, b));
      EntryInv(blocks, start, todo', seen', entry') &&
      (|blocks.Keys - seen'| < |blocks.Keys - seen| ||
       (|blocks.Keys - seen'| == |blocks.Keys - seen| && CountIn(todo', seen') < CountIn(todo, seen)))
  {
    var b := todo[|todo| - 1];
    var rest := todo[..|todo| - 1];
    var seen' := seen + {b};
    var ns := Succ(blocks, b);
    var todo' := rest + Unseen(ns, seen');
    var entry' := RecordEdges(entry, b, ns);
    assert todo == rest + [b];
    RecordEdgesSpec(entry, b, ns);
    UnseenSpec(ns, seen');
    StepMeasure(blocks, todo, seen);
    StepWithin(blocks, start, todo, seen, entry);
    StepPending(blocks, start, todo, seen, entry);
    StepSound(blocks, b, seen, entry);
    StepComplete(blocks, b, seen, entry);
  }

  lemma StepMeasure(blocks: map<BlockId, Block>, todo: seq<BlockId>, seen: set<BlockId>)
    requires todo != [] && todo[|todo| - 1] in blocks
    ensures var b := todo[|todo| - 1];
      var seen' := seen + {b};
      var todo' := todo[..|todo| - 1] + Unseen(Succ(blocks, b), seen');
      |blocks.Keys - seen'| < |blocks.Keys - seen| ||
      (|blocks.Keys - seen'| == |blocks.Keys - seen| && CountIn(todo', seen') < CountIn(todo, seen))
  {
    var b := todo[|todo| - 1];
    var rest := todo[..|todo| - 1];
    var seen' := seen + {b};
    var ns := Succ(blocks, b);
    assert todo == rest + [b];
    UnseenSpec(ns, seen');
    CountInAppend(rest, Unseen(ns, seen'), seen');
    CountInAppend(rest, [b], seen);
    if b !in seen {
      CardRemove(blocks.Keys, seen, b);
    } else {
      assert seen' == seen;
      assert CountIn([b], seen) == 1;
    }
  }

  lemma StepWithin(blocks: map<BlockId, Block>, start: BlockId, todo: seq<BlockId>, seen: set<BlockId>,
                   entry: map<BlockId, seq<BlockId>>)
    requires EntryBase(blocks, start, todo, seen, entry) && EntryWithin(blocks, start, todo, seen, entry) && todo != []
    ensures var b := todo[|todo| - 1];
      EntryWithin(blocks, start, todo[..|todo| - 1] + Unseen(Succ(blocks, b), seen + {b}), seen + {b},
                  RecordEdges(entry, b, Succ(blocks, b)))
  {
    var b := todo[|todo| - 1];
    var ns := Succ(blocks, b);
    RecordEdgesSpec(entry, b, ns);
    UnseenSpec(ns, seen + {b});
    forall c | ClosedFrom(blocks, start, c)
      ensures seen + {b} <= c && RecordEdges(entry, b, ns).Keys <= c &&
              forall t | t in todo[..|todo| - 1] + Unseen(ns, seen + {b}) :: t in c
    {
      assert b in c;
    }
  }

  lemma StepPending(blocks: map<BlockId, Block>, start: BlockId, todo: seq<BlockId>, seen: set<BlockId>,
                    entry: map<BlockId, seq<BlockId>>)
    requires EntryBase(blocks, start, todo, seen, entry) && EntryPending(start, todo, seen, entry) && todo != []
    ensures var b := todo[|todo| - 1];
      EntryPending(start, todo[..|todo| - 1] + Unseen(Succ(blocks, b), seen + {b}), seen + {b},
                   RecordEdges(entry, b, Succ(blocks, b)))
  {
    var b := todo[|todo| - 1];
    var rest := todo[..|todo| - 1];
    var ns := Succ(blocks, b);
    var todo' := rest + Unseen(ns, seen + {b});
    var e := RecordEdges(entry, b, ns);
    RecordEdgesKeys(entry, b, ns);
    UnseenSpec(ns, seen + {b});
    forall t | t in todo ensures t == b || t in rest {
      var i :| 0 <= i < |todo| && todo[i] == t;
      if i < |rest| {
        assert rest[i] == t;
      }
    }
    forall s | s in e ensures s in seen + {b} || s in todo' {
      if s !in entry && s !in seen + {b} {
        assert s in Unseen(ns, seen + {b});
      }
    }
    forall t | t in todo' ensures t == start || t in e {
      if t !in rest {
        assert t in ns;
      }
    }
  }

  lemma RecordEdgesKeys(entry: map<BlockId, seq<BlockId>>, b: BlockId, ns: seq<BlockId>)
    ensures RecordEdges(entry, b, ns).Keys == entry.Keys + set n | n in ns
  {
    RecordEdgesSpec(entry, b, ns);
  }

  lemma StepSound(blocks: map<BlockId, Block>, b: BlockId, seen: set<BlockId>, entry: map<BlockId, seq<BlockId>>)
    requires EntrySound(blocks, seen, entry) && b in blocks
    ensures EntrySound(blocks, seen + {b}, RecordEdges(entry, b, Succ(blocks, b)))
  {
    var e := RecordEdges(entry, b, Succ(blocks, b));
    RecordEdgesSpec(entry, b, Succ(blocks, b));
    forall s, p | s in e && p in e[s] ensures p in seen + {b} && p in blocks && s in Succ(blocks, p) {
      assert p in Get(e, s);
    }
  }

  lemma StepComplete(blocks: map<BlockId, Block>, b: BlockId, seen: set<BlockId>, entry: map<BlockId, seq<BlockId>>)
    requires EntryComplete(blocks, seen, entry) && b in blocks
    ensures EntryComplete(blocks, seen + {b}, RecordEdges(entry, b, Succ(blocks, b)))
  {
    var e := RecordEdges(entry, b, Succ(blocks, b));
    RecordEdgesSpec(entry, b, Succ(blocks, b));
    forall p, s | p in seen + {b} && p in blocks && s in Succ(blocks, p) ensures s in e && p in e[s] {
      assert p in Get(entry, s) || p == b;
      assert p in Get(e, s);
    }
  }

  /** When the work list is empty, the entry lists describe the reachable blocks. */
  lemma EntryDone(blocks: map<BlockId, Block>, start: BlockId, seen: set<BlockId>, entry: map<BlockId, seq<BlockId>>,
                  e: map<BlockId, seq<BlockId>>)
    requires EntryInv(blocks, start, [], seen, entry) && e == entry[start := []]
    ensures IsEntrymap(blocks, start, e)
  {
    EntryReach(blocks, start, seen, entry);
    assert e.Keys == seen;
    assert PredLists(blocks, start, e, seen);
  }

  /** When the work list is empty, the blocks seen are the reachable ones. */
  lemma EntryReach(blocks: map<BlockId, Block>, start: BlockId, seen: set<BlockId>, entry: map<BlockId, seq<BlockId>>)
    requires EntryInv(blocks, start, [], seen, entry)
    ensures seen == Reachable(blocks, start)
  {
    SeenReachSet(blocks, start, seen, entry);
    DfsOrder(blocks, start);
    ReachSetUnique(blocks, start, seen, Reachable(blocks, start));
  }

  lemma SeenReachSet(blocks: map<BlockId, Block>, start: BlockId, seen: set<BlockId>, entry: map<BlockId, seq<BlockId>>)
    requires EntryInv(blocks, start, [], seen, entry)
    ensures IsReachSet(blocks, start, seen)
  {
    assert EntryPending(start, [], seen, entry) && EntryComplete(blocks, seen, entry);
    forall b, t | b in seen && b in blocks && t in Succ(blocks, b) ensures t in seen {
      assert t in entry;
    }
    assert EntryWithin(blocks, start, [], seen, entry);
  }
}
