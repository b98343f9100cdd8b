/**
 * `join_blocks`: a block that ends in a jump to a block with no other
 * predecessor absorbs that block's operations and terminator, over and over
 * along a chain of such jumps.
 */
module Joins {
  import opened Wrappers
  import opened Types
  import opened Ir
  import opened IrGraph
  import opened Branches

  /** What the pass has done so far: the arena, the blocks absorbed by others and whether anything changed. */
  datatype Joining = Joining(blocks: map<BlockId, Block>, defs: map<OpId, Def>, joined: set<BlockId>, changed: bool)

  /** One turn of the inner loop: stop, fail, or `b` has absorbed `nb`. */
  datatype Step =
    | Stop
    | Stuck(msg: string)
    | Joined(blocks: map<BlockId, Block>, defs: map<OpId, Def>, nb: BlockId)

  /** Some operation of `ops` is a phi. */
  ghost predicate HasPhi(defs: map<OpId, Def>, ops: seq<OpId>)
    requires forall o | o in ops :: o in defs
  {
    exists o | o in ops :: defs[o].Phi?
  }

  /**
   * `b` takes the operations of `nb` after its own, and `nb`'s terminator;
   * `nb` is left without operations (the source sets them to `None`).
   */
  function Join(blocks: map<BlockId, Block>, b: BlockId, nb: BlockId): (r: map<BlockId, Block>)
    requires b in blocks && nb in blocks && b != nb
    ensures r.Keys == blocks.Keys
  {
    blocks[b := Block(blocks[b].ops + blocks[nb].ops, blocks[nb].next)][nb := Block([], blocks[nb].next)]
  }

  lemma JoinClosed(blocks: map<BlockId, Block>, defs: map<OpId, Def>, b: BlockId, nb: BlockId)
    requires SuccClosed(blocks) && OpsDefined(blocks, defs) && b in blocks && nb in blocks && b != nb
    ensures SuccClosed(Join(blocks, b, nb)) && OpsDefined(Join(blocks, b, nb), defs)
  {
    var r := Join(blocks, b, nb);
    assert forall x | x in r :: NextBlocks(r[x].next) == NextBlocks(blocks[if x == b then nb else x].next);
    assert forall x | x in r :: forall o | o in r[x].ops :: o in blocks[x].ops || o in blocks[nb].ops;
  }

  /**
   * The body of the inner `while` of `join_blocks` for the block `b`. It
   * stops unless `b` jumps to a block `nb` with exactly one entry in the
   * entry map; it fails where the source raises: `nb` is `b` itself or was
   * absorbed already (its operations are `None`), `nb` holds a phi, or
   * `replace_prev` on a successor meets an absorbed block or a phi that
   * already names `b`.
   */
  ghost function JoinStep(blocks: map<BlockId, Block>, defs: map<OpId, Def>, entry: map<BlockId, seq<BlockId>>,
                          joined: set<BlockId>, b: BlockId): (r: Step)
    requires SuccClosed(blocks) && OpsDefined(blocks, defs) && b in blocks
    ensures r.Joined? ==>
      r.nb in blocks && r.nb !in joined && r.nb != b && r.blocks == Join(blocks, b, r.nb) &&
      SuccClosed(r.blocks) && OpsDefined(r.blocks, r.defs) && r.defs.Keys == defs.Keys
  {
    if !blocks[b].next.Goto? then Stop
    else
      var nb := blocks[b].next.target;
      if nb !in entry || |entry[nb]| != 1 then Stop
      else if nb == b || nb in joined then Stuck("the block was joined already")
      else if HasPhi(defs, blocks[nb].ops) then Stuck("phi in a block with one predecessor")
      else
        var bl := Join(blocks, b, nb);
        JoinClosed(blocks, defs, b, nb);
        if exists s | s in Succ(bl, b) :: s in joined || s == nb then Stuck("replace_prev failed")
        else
          match RetargetPhis(bl, defs, Succ(bl, b), nb, b)
          case None => Stuck("replace_prev failed")
          case Some(df) => Joined(bl, df, nb)
  }

  /** The rest of a walk, with whether an earlier step changed something. */
  function JoinRest(changed: bool, w: Result<Joining>): Result<Joining>
  {
    if w.Failure? then w else Ok(w.value.(changed := changed || w.value.changed))
  }

  /** The inner `while` of `join_blocks`: `b` absorbs the chain of blocks it reaches by single-entry jumps. */
  ghost function JoinChain(blocks: map<BlockId, Block>, defs: map<OpId, Def>, entry: map<BlockId, seq<BlockId>>,
                           joined: set<BlockId>, b: BlockId): (r: Result<Joining>)
    requires SuccClosed(blocks) && OpsDefined(blocks, defs) && b in blocks
    ensures r.Ok? ==>
      r.value.blocks.Keys == blocks.Keys && SuccClosed(r.value.blocks) && OpsDefined(r.value.blocks, r.value.defs) &&
      r.value.defs.Keys == defs.Keys && joined <= r.value.joined && (r.value.changed <==> r.value.joined != joined)
    ensures r.Ok? && !r.value.changed ==> r.value == Joining(blocks, defs, joined, false)
    decreases |blocks.Keys - joined|
  {
    match JoinStep(blocks, defs, entry, joined, b)
    case Stop => Ok(Joining(blocks, defs, joined, false))
    case Stuck(m) => Failure(m)
    case Joined(bl, df, nb) =>
      CardRemove(blocks.Keys, joined, nb);
      JoinRest(true, JoinChain(bl, df, entry, joined + {nb}, b))
  }

  /** The `for` loop of `join_blocks` over the blocks of the entry map, in the order `keys`. */
  ghost function JoinAll(blocks: map<BlockId, Block>, defs: map<OpId, Def>, entry: map<BlockId, seq<BlockId>>,
                         keys: seq<BlockId>): (r: Result<Joining>)
    requires SuccClosed(blocks) && OpsDefined(blocks, defs) && forall k | k in keys :: k in blocks
    ensures r.Ok? ==>
      r.value.blocks.Keys == blocks.Keys && SuccClosed(r.value.blocks) && OpsDefined(r.value.blocks, r.value.defs) &&
      r.value.defs.Keys == defs.Keys && (r.value.changed <==> r.value.joined != {})
    ensures r.Ok? && !r.value.changed ==> r.value == Joining(blocks, defs, {}, false)
  {
    if keys == [] then Ok(Joining(blocks, defs, {}, false))
    else
      var w := JoinAll(blocks, defs, entry, keys[..|keys| - 1]);
      var b := keys[|keys| - 1];
      if w.Failure? || b in w.value.joined then w
      else JoinRest(w.value.changed, JoinChain(w.value.blocks, w.value.defs, entry, w.value.joined, b))
  }

  // ---------------------------------------------------------------------
  // What joining keeps

  /** All operations of an arena. */
  ghost function AllOps(blocks: map<BlockId, Block>): set<OpId>
  {
    OpsOf(blocks, blocks.Keys)
  }

  /**
   * The arena after some joins: every operation kept exactly once, the
   * absorbed blocks emptied and the others only extended at their end.
   */
  ghost predicate Moved(blocks: map<BlockId, Block>, w: Joining)
  {
    UniqueOps(w.blocks) && AllOps(w.blocks) == AllOps(blocks) &&
    (forall j | j in w.joined :: j in w.blocks && w.blocks[j].ops == []) &&
    forall x | x in blocks && x in w.blocks && x !in w.joined :: blocks[x].ops <= w.blocks[x].ops
  }

  /** A join moves the operations of `nb` to the end of `b`, losing and doubling none. */
  lemma JoinMoves(blocks: map<BlockId, Block>, b: BlockId, nb: BlockId)
    requires UniqueOps(blocks) && b in blocks && nb in blocks && b != nb
    ensures UniqueOps(Join(blocks, b, nb)) && AllOps(Join(blocks, b, nb)) == AllOps(blocks)
  {
    var r := Join(blocks, b, nb);
    var ops := blocks[b].ops + blocks[nb].ops;
    assert r[b].ops == ops;
    forall i, j | 0 <= i < j < |ops| ensures ops[i] != ops[j] {
      if i < |blocks[b].ops| && j >= |blocks[b].ops| {
        assert ops[i] in blocks[b].ops && ops[j] in blocks[nb].ops;
      }
    }
    forall x, y, o | x in r && y in r && o in r[x].ops && o in r[y].ops ensures x == y {
      var x0 := if x == b && o !in blocks[b].ops then nb else x;
      var y0 := if y == b && o !in blocks[b].ops then nb else y;
      assert o in blocks[x0].ops && o in blocks[y0].ops;
    }
    forall o | o in AllOps(blocks) ensures o in AllOps(r) {
      var x :| x in blocks && o in blocks[x].ops;
      var x1 := if x == nb then b else x;
      assert o in r[x1].ops;
    }
    forall o | o in AllOps(r) ensures o in AllOps(blocks) {
      var x :| x in r && o in r[x].ops;
      var x0 := if x == b && o !in blocks[b].ops then nb else x;
      assert o in blocks[x0].ops;
    }
  }

  lemma {:induction false} JoinChainMoves(blocks: map<BlockId, Block>, defs: map<OpId, Def>, entry: map<BlockId, seq<BlockId>>,
                                          joined: set<BlockId>, b: BlockId, base: map<BlockId, Block>)
    requires SuccClosed(blocks) && OpsDefined(blocks, defs) && b in blocks && b !in joined
    requires Moved(base, Joining(blocks, defs, joined, false))
    requires JoinChain(blocks, defs, entry, joined, b).Ok?
    ensures Moved(base, JoinChain(blocks, defs, entry, joined, b).value)
    decreases |blocks.Keys - joined|
  {
    match JoinStep(blocks, defs, entry, joined, b)
    case Stop =>
    case Stuck(m) =>
    case Joined(bl, df, nb) =>
      MovedStep(base, blocks, defs, df, joined, b, nb);
      CardRemove(blocks.Keys, joined, nb);
      JoinChainMoves(bl, df, entry, joined + {nb}, b, base);
      MovedRest(base, true, JoinChain(bl, df, entry, joined + {nb}, b));
  }

  lemma MovedRest(base: map<BlockId, Block>, changed: bool, w: Result<Joining>)
    requires w.Ok? && Moved(base, w.value)
    ensures JoinRest(changed, w).Ok? && Moved(base, JoinRest(changed, w).value)
  {
  }

  lemma MovedStep(base: map<BlockId, Block>, blocks: map<BlockId, Block>, defs: map<OpId, Def>, defs': map<OpId, Def>,
                  joined: set<BlockId>, b: BlockId, nb: BlockId)
    requires b in blocks && nb in blocks && b != nb && b !in joined && nb !in joined
    requires Moved(base, Joining(blocks, defs, joined, false))
    ensures Moved(base, Joining(Join(blocks, b, nb), defs', joined + {nb}, false))
  {
    JoinMoves(blocks, b, nb);
    var bl := Join(blocks, b, nb);
    forall j | j in joined + {nb} ensures j in bl && bl[j].ops == [] {
      if j != nb {
        assert j != b && j in joined;
        assert bl[j] == blocks[j];
      }
    }
    forall x | x in base && x in bl && x !in joined + {nb} ensures base[x].ops <= bl[x].ops {
      assert base[x].ops <= blocks[x].ops;
      assert blocks[x].ops <= bl[x].ops;
    }
  }

  /**
   * `join_blocks` loses no operation and duplicates none, every block it
   * absorbed is left empty, and every other block keeps its operations in
   * front of those it takes over.
   */
  lemma {:induction false} JoinAllMoves(blocks: map<BlockId, Block>, defs: map<OpId, Def>, entry: map<BlockId, seq<BlockId>>,
                                        keys: seq<BlockId>)
    requires SuccClosed(blocks) && OpsDefined(blocks, defs) && UniqueOps(blocks) && forall k | k in keys :: k in blocks
    requires JoinAll(blocks, defs, entry, keys).Ok?
    ensures Moved(blocks, JoinAll(blocks, defs, entry, keys).value)
  {
    if keys != [] {
      var init := keys[..|keys| - 1];
      assert forall k | k in init :: k in keys;
      var w := JoinAll(blocks, defs, entry, init);
      JoinAllMoves(blocks, defs, entry, init);
      var b := keys[|keys| - 1];
      if b !in w.value.joined {
        JoinChainMoves(w.value.blocks, w.value.defs, entry, w.value.joined, b, blocks);
      }
    }
  }

  // ---------------------------------------------------------------------
  // The loops

  /** What the loops of `join_blocks` keep about the arena, with `n` above every block id. */
  ghost predicate Joinable(blocks: map<BlockId, Block>, defs: map<OpId, Def>, n: nat)
  {
    SuccClosed(blocks) && OpsDefined(blocks, defs) && UniqueOps(blocks) && PhisBelow(defs, n) &&
    forall k | k in blocks :: k < n
  }

  /** The `assert not isinstance(op, Phi)` loop over the operations of the absorbed block. */
  method FindPhi(defs: map<OpId, Def>, ops: seq<OpId>) returns (found: bool)
    requires forall o | o in ops :: o in defs
    ensures found <==> HasPhi(defs, ops)
  {
    var i := 0;
    while i < |ops|
      invariant i <= |ops| && forall j | 0 <= j < i :: !defs[ops[j]].Phi?
    {
      if defs[ops[i]].Phi? {
        return true;
      }
      i := i + 1;
    }
    return false;
  }

  /** The successors of `b` that are absorbed blocks, where `replace_prev` meets operations that are `None`. */
  method FindJoined(succs: seq<BlockId>, joined: set<BlockId>) returns (found: bool)
    ensures found <==> exists s | s in succs :: s in joined
  {
    var i := 0;
    while i < |succs|
      invariant i <= |succs| && forall j | 0 <= j < i :: succs[j] !in joined
    {
      if succs[i] in joined {
        return true;
      }
      i := i + 1;
    }
    return false;
  }

  method JoinStepOn(blocks: map<BlockId, Block>, defs: map<OpId, Def>, entry: map<BlockId, seq<BlockId>>,
                    joined: set<BlockId>, b: BlockId, ghost n: nat) returns (r: Step)
    requires Joinable(blocks, defs, n) && b in blocks
    ensures r == JoinStep(blocks, defs, entry, joined, b)
    ensures r.Joined? ==> Joinable(r.blocks, r.defs, n)
  {
    if !blocks[b].next.Goto? {
      return Stop;
    }
    var nb := blocks[b].next.target;
    if nb !in entry || |entry[nb]| != 1 {
      return Stop;
    }
    if nb == b || nb in joined {
      return Stuck("the block was joined already");
    }
    var phi := FindPhi(defs, blocks[nb].ops);
    if phi {
      return Stuck("phi in a block with one predecessor");
    }
    var bl := Join(blocks, b, nb);
    JoinClosed(blocks, defs, b, nb);
    JoinMoves(blocks, b, nb);
    var bad := FindJoined(Succ(bl, b), joined + {nb});
    if bad {
      return Stuck("replace_prev failed");
    }
    var df, ok := RetargetLoop(bl, defs, Succ(bl, b), nb, b, n);
    if !ok {
      return Stuck("replace_prev failed");
    }
    r := Joined(bl, df, nb);
  }

  /** The loop invariant of `JoinChainOn`. */
  ghost predicate ChainInv(blocks: map<BlockId, Block>, defs: map<OpId, Def>, entry: map<BlockId, seq<BlockId>>,
                           joined: set<BlockId>, b: BlockId, n: nat, w: Joining)
  {
    Joinable(blocks, defs, n) && b in blocks && Joinable(w.blocks, w.defs, n) && w.blocks.Keys == blocks.Keys &&
    JoinChain(blocks, defs, entry, joined, b) == JoinRest(w.changed, JoinChain(w.blocks, w.defs, entry, w.joined, b))
  }

  /** The inner `while` of `join_blocks`. */
  method JoinChainOn(blocks: map<BlockId, Block>, defs: map<OpId, Def>, entry: map<BlockId, seq<BlockId>>,
                     joined: set<BlockId>, b: BlockId, ghost n: nat) returns (r: Result<Joining>)
    requires Joinable(blocks, defs, n) && b in blocks
    ensures r == JoinChain(blocks, defs, entry, joined, b)
    ensures r.Ok? ==> Joinable(r.value.blocks, r.value.defs, n)
  {
    var w := Joining(blocks, defs, joined, false);
    while true
      invariant ChainInv(blocks, defs, entry, joined, b, n, w)
      decreases |blocks.Keys - w.joined|
    {
      var s := JoinStepOn(w.blocks, w.defs, entry, w.joined, b, n);
      if s.Stop? {
        return Ok(w);
      }
      if s.Stuck? {
        return Failure(s.msg);
      }
      ChainNext(blocks, defs, entry, joined, b, n, w, s);
      w := Joining(s.blocks, s.defs, w.joined + {s.nb}, true);
    }
  }

  lemma ChainNext(blocks: map<BlockId, Block>, defs: map<OpId, Def>, entry: map<BlockId, seq<BlockId>>,
                  joined: set<BlockId>, b: BlockId, n: nat, w: Joining, s: Step)
    requires ChainInv(blocks, defs, entry, joined, b, n, w)
    requires s == JoinStep(w.blocks, w.defs, entry, w.joined, b) && s.Joined? && Joinable(s.blocks, s.defs, n)
    ensures ChainInv(blocks, defs, entry, joined, b, n, Joining(s.blocks, s.defs, w.joined + {s.nb}, true))
    ensures |blocks.Keys - (w.joined + {s.nb})| < |blocks.Keys - w.joined|
  {
    CardRemove(w.blocks.Keys, w.joined, s.nb);
    ChainUnfold(w.blocks, w.defs, entry, w.joined, b, s);
    RestTrue(w.changed, JoinChain(s.blocks, s.defs, entry, w.joined + {s.nb}, b));
  }

  lemma ChainUnfold(blocks: map<BlockId, Block>, defs: map<OpId, Def>, entry: map<BlockId, seq<BlockId>>,
                    joined: set<BlockId>, b: BlockId, s: Step)
    requires SuccClosed(blocks) && OpsDefined(blocks, defs) && b in blocks
    requires s == JoinStep(blocks, defs, entry, joined, b) && s.Joined?
    ensures JoinChain(blocks, defs, entry, joined, b) == JoinRest(true, JoinChain(s.blocks, s.defs, entry, joined + {s.nb}, b))
  {
  }

  lemma RestTrue(changed: bool, w: Result<Joining>)
    ensures JoinRest(changed, JoinRest(true, w)) == JoinRest(true, w)
  {
  }

  lemma {:induction false} JoinAllFailed(blocks: map<BlockId, Block>, defs: map<OpId, Def>, entry: map<BlockId, seq<BlockId>>,
                                         keys: seq<BlockId>, i: nat)
    requires SuccClosed(blocks) && OpsDefined(blocks, defs) && forall k | k in keys :: k in blocks
    requires i <= |keys| && JoinAll(blocks, defs, entry, keys[..i]).Failure?
    ensures JoinAll(blocks, defs, entry, keys) == JoinAll(blocks, defs, entry, keys[..i])
  {
    if i < |keys| {
      var init := keys[..|keys| - 1];
      assert init[..i] == keys[..i];
      assert forall k | k in init :: k in keys;
      JoinAllFailed(blocks, defs, entry, init, i);
    } else {
      assert keys[..i] == keys;
    }
  }

  /** One more block of the `for` loop of `JoinAllOn`. */
  lemma JoinAllNext(blocks: map<BlockId, Block>, defs: map<OpId, Def>, entry: map<BlockId, seq<BlockId>>,
                    keys: seq<BlockId>, i: nat, w: Joining, c: Result<Joining>)
    requires SuccClosed(blocks) && OpsDefined(blocks, defs) && forall k | k in keys :: k in blocks
    requires i < |keys| && JoinAll(blocks, defs, entry, keys[..i]) == Ok(w)
    requires keys[i] !in w.joined
    requires c == JoinChain(w.blocks, w.defs, entry, w.joined, keys[i])
    ensures c.Failure? ==> JoinAll(blocks, defs, entry, keys) == c
    ensures c.Ok? ==> JoinAll(blocks, defs, entry, keys[..i + 1]) == JoinRest(w.changed, c)
  {
    assert keys[..i + 1][..i] == keys[..i];
    if c.Failure? {
      JoinAllFailed(blocks, defs, entry, keys, i + 1);
    }
  }

  /** The `for` loop of `join_blocks` over the blocks of the entry map, in the order `keys`. */
  method JoinAllOn(blocks: map<BlockId, Block>, defs: map<OpId, Def>, entry: map<BlockId, seq<BlockId>>,
                   keys: seq<BlockId>, ghost n: nat) returns (r: Result<Joining>)
    requires Joinable(blocks, defs, n) && forall k | k in keys :: k in blocks
    ensures r == JoinAll(blocks, defs, entry, keys)
    ensures r.Ok? ==> Joinable(r.value.blocks, r.value.defs, n)
  {
    var w := Joining(blocks, defs, {}, false);
    for i := 0 to |keys|
      invariant JoinAll(blocks, defs, entry, keys[..i]) == Ok(w)
      invariant Joinable(w.blocks, w.defs, n)
    {
      assert keys[..i + 1][..i] == keys[..i];
      if keys[i] in w.joined {
        continue;
      }
      var c := JoinChainOn(w.blocks, w.defs, entry, w.joined, keys[i], n);
      JoinAllNext(blocks, defs, entry, keys, i, w, c);
      if c.Failure? {
        return c;
      }
      w := c.value.(changed := w.changed || c.value.changed);
    }
    assert keys[..|keys|] == keys;
    r := Ok(w);
  }

  lemma EntryKeysIn(blocks: map<BlockId, Block>, start: BlockId, entry: map<BlockId, seq<BlockId>>)
    requires SuccClosed(blocks) && start in blocks && IsEntrymap(blocks, start, entry)
    ensures entry.Keys <= blocks.Keys
  {
    assert entry.Keys == Reachable(blocks, start);
    assert forall x | x in Dfs(blocks, [start], {}) :: x in blocks;
  }

  /** Two blocks in a row: `0: [f] goto 1`, `1: [g] return`. */
  const Pair: map<BlockId, Block> := map[0 := Block([0], Goto(1)), 1 := Block([1], Return(None))]
  const PairDefs: map<OpId, Def> := map[0 := Op(Operation, "f", [], Int), 1 := Op(Operation, "g", [], Int)]

  lemma PairStep()
    ensures SuccClosed(Pair) && OpsDefined(Pair, PairDefs)
    ensures JoinStep(Pair, PairDefs, map[0 := [], 1 := [0]], {}, 0) ==
      Joined(map[0 := Block([0, 1], Return(None)), 1 := Block([], Return(None))], PairDefs, 1)
  {
    assert !HasPhi(PairDefs, Pair[1].ops) by {
      assert forall o | o in Pair[1].ops :: o == 1;
    }
    assert Pair[0].ops + Pair[1].ops == [0, 1];
    var bl := Join(Pair, 0, 1);
    assert bl == map[0 := Block([0, 1], Return(None)), 1 := Block([], Return(None))] by {
      assert bl.Keys == {0, 1};
    }
    assert Succ(bl, 0) == [];
    assert RetargetPhis(bl, PairDefs, [], 1, 0) == Some(PairDefs);
  }

  /** The second block is absorbed by the first, and visiting it afterwards does nothing. */
  lemma PairJoined()
    ensures SuccClosed(Pair) && OpsDefined(Pair, PairDefs)
    ensures JoinAll(Pair, PairDefs, map[0 := [], 1 := [0]], [0, 1]) ==
      Ok(Joining(map[0 := Block([0, 1], Return(None)), 1 := Block([], Return(None))], PairDefs, {1}, true))
  {
    var entry := map[0 := [], 1 := [0]];
    var bl := map[0 := Block([0, 1], Return(None)), 1 := Block([], Return(None))];
    PairStep();
    assert JoinStep(bl, PairDefs, entry, {1}, 0) == Stop;
    assert JoinChain(bl, PairDefs, entry, {1}, 0) == Ok(Joining(bl, PairDefs, {1}, false));
    ChainUnfold(Pair, PairDefs, entry, {}, 0, JoinStep(Pair, PairDefs, entry, {}, 0));
    assert {} + {1} == {1};
    assert JoinChain(Pair, PairDefs, entry, {}, 0) == Ok(Joining(bl, PairDefs, {1}, true));
    assert [0, 1][..1] == [0] && [0][..0] == [];
    assert JoinAll(Pair, PairDefs, entry, [0]) == Ok(Joining(bl, PairDefs, {1}, true));
  }

  /**
   * On `Diamond` the list of block 3 names block 2 twice, so block 2 does not
   * absorb block 3 although block 3 has a single predecessor.
   */
  lemma DiamondStaysApart(d: map<BlockId, Block>, defs: map<OpId, Def>)
    requires d == Diamond
    ensures SuccClosed(d) && OpsDefined(d, defs)
    ensures JoinStep(d, defs, Entrymap(d, 0), {}, 2) == Stop
  {
    DiamondEntrymap(d);
    assert d[2].next == Goto(3);
  }

  /** The keys of a dictionary, in an order the model does not fix. */
  method Enumerate(s: set<BlockId>) returns (keys: seq<BlockId>)
    ensures Distinct(keys) && SetOf(keys) == s
  {
    keys := [];
    var rest := s;
    while rest != {}
      invariant Distinct(keys) && SetOf(keys) + rest == s && SetOf(keys) !! rest
      decreases |rest|
    {
      var k :| k in rest;
      keys := keys + [k];
      rest := rest - {k};
    }
  }

  /**
   * `join_blocks` on the graph: the entry map is built, its blocks are gone
   * through in some order `keys`, and the graph takes the arena of the walk.
   * The result says whether a block was absorbed.
   */
  method JoinBlocks(g: Graph) returns (r: Result<bool>, ghost entry: map<BlockId, seq<BlockId>>, ghost keys: seq<BlockId>)
    requires g.Valid()
    modifies g`blocks, g`defs
    ensures g.Valid()
    ensures entry == Entrymap(old(g.blocks), g.start) && IsEntrymap(old(g.blocks), g.start, entry)
    ensures Distinct(keys) && SetOf(keys) == entry.Keys
    ensures forall k | k in keys :: k in old(g.blocks)
    ensures var w := JoinAll(old(g.blocks), old(g.defs), entry, keys);
      (r.Ok? <==> w.Ok?) &&
      (r.Ok? ==> r.value == w.value.changed && g.blocks == w.value.blocks && g.defs == w.value.defs) &&
      (r.Failure? ==> g.blocks == old(g.blocks) && g.defs == old(g.defs))
  {
    var e := g.MakeEntrymap();
    entry := e;
    var ks := Enumerate(e.Keys);
    keys := ks;
    EntryKeysIn(g.blocks, g.start, e);
    var w := JoinAllOn(g.blocks, g.defs, e, ks, g.nextBlock);
    if w.Failure? {
      return Failure(w.msg), entry, keys;
    }
    g.blocks, g.defs := w.value.blocks, w.value.defs;
    r := Ok(w.value.changed);
  }
}
