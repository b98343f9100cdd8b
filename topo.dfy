/**
 * `topo_order` and `topo_order_best_attempt`: orders of the reachable blocks
 * in which every block comes after its predecessors, as far as the loops of
 * the graph allow.
 */
module Topo {
  import opened Ir
  import opened IrGraph

  // ---------------------------------------------------------------------
  // Predecessors and the `incoming` map

  /** The blocks of `rs` that jump to `c`. */
  ghost function Preds(blocks: map<BlockId, Block>, rs: set<BlockId>, c: BlockId): set<BlockId>
  {
    set b | b in rs && b in blocks && c in Succ(blocks, b)
  }

  /**
   * `incoming` after its first loop: the blocks with a predecessor among `rs`
   * are the keys, each mapped to exactly those predecessors.
   */
  ghost predicate IsIncoming(blocks: map<BlockId, Block>, rs: set<BlockId>, inc: map<BlockId, set<BlockId>>)
  {
    (forall c | c in inc :: inc[c] != {} && inc[c] == Preds(blocks, rs, c)) &&
    (forall b, c | b in rs && b in blocks && c in Succ(blocks, b) :: c in inc)
  }

  /** `incoming[nextblock].add(block)` for every successor `nextblock` of `block`. */
  method AddPreds(inc: map<BlockId, set<BlockId>>, b: BlockId, ns: seq<BlockId>)
    returns (inc': map<BlockId, set<BlockId>>)
    ensures forall c :: c in inc' <==> c in inc || c in ns
    ensures forall c | c in inc' :: inc'[c] == (if c in inc then inc[c] else {}) + (if c in ns then {b} else {})
  {
    inc' := inc;
    var j := 0;
    while j < |ns|
      invariant 0 <= j <= |ns|
      invariant forall c :: c in inc' <==> c in inc || c in ns[..j]
      invariant forall c | c in inc' :: inc'[c] == (if c in inc then inc[c] else {}) + (if c in ns[..j] then {b} else {})
    {
      var n := ns[j];
      assert ns[..j + 1] == ns[..j] + [n];
      inc' := inc'[n := (if n in inc' then inc'[n] else {}) + {b}];
      j := j + 1;
    }
    assert ns[..j] == ns;
  }

  /** The `defaultdict(set)` of predecessors both topological orders start from. */
  method BuildIncoming(blocks: map<BlockId, Block>, order: seq<BlockId>) returns (inc: map<BlockId, set<BlockId>>)
    requires forall b | b in order :: b in blocks
    ensures IsIncoming(blocks, SetOf(order), inc)
  {
    inc := map[];
    var i := 0;
    while i < |order|
      invariant 0 <= i <= |order|
      invariant IsIncoming(blocks, SetOf(order[..i]), inc)
    {
      var b := order[i];
      var inc' := AddPreds(inc, b, NextBlocks(blocks[b].next));
      IncomingStep(blocks, order, i, inc, inc');
      inc := inc';
      i := i + 1;
    }
    assert order[..i] == order;
  }

  lemma IncomingStep(blocks: map<BlockId, Block>, order: seq<BlockId>, i: nat,
                     inc: map<BlockId, set<BlockId>>, inc': map<BlockId, set<BlockId>>)
    requires i < |order| && order[i] in blocks
    requires IsIncoming(blocks, SetOf(order[..i]), inc)
    requires forall c :: c in inc' <==> c in inc || c in Succ(blocks, order[i])
    requires forall c | c in inc' :: inc'[c] == (if c in inc then inc[c] else {}) +
                                                 (if c in Succ(blocks, order[i]) then {order[i]} else {})
    ensures IsIncoming(blocks, SetOf(order[..i + 1]), inc')
  {
    var b := order[i];
    assert order[..i + 1] == order[..i] + [b];
    assert SetOf(order[..i + 1]) == SetOf(order[..i]) + {b};
    forall c | c in inc' ensures inc'[c] == Preds(blocks, SetOf(order[..i + 1]), c) {
      assert Preds(blocks, SetOf(order[..i + 1]), c) ==
             Preds(blocks, SetOf(order[..i]), c) + (if c in Succ(blocks, b) then {b} else {});
    }
  }

  // ---------------------------------------------------------------------
  // Rankings: the reachable graph has no cycle

  /** Every edge between blocks of `rs` climbs in `rank`. */
  ghost predicate Ranking(blocks: map<BlockId, Block>, rs: set<BlockId>, rank: map<BlockId, nat>)
  {
    (forall u | u in rs :: u in rank) &&
    forall u, v | u in rs && u in blocks && v in Succ(blocks, u) :: v in rank && rank[u] < rank[v]
  }

  ghost predicate Acyclic(blocks: map<BlockId, Block>, rs: set<BlockId>)
  {
    exists rank :: Ranking(blocks, rs, rank)
  }

  /** Every reachable block other than `start` has a reachable predecessor. */
  lemma HasPred(blocks: map<BlockId, Block>, start: BlockId, rs: set<BlockId>, c: BlockId)
    requires IsReachSet(blocks, start, rs) && c in rs && c != start
    ensures Preds(blocks, rs, c) != {}
  {
    if Preds(blocks, rs, c) == {} {
      var smaller := rs - {c};
      forall b | b in smaller && b in blocks ensures forall s | s in Succ(blocks, b) :: s in smaller {
        forall s | s in Succ(blocks, b) ensures s in smaller {
          assert s in rs;
          assert b !in Preds(blocks, rs, c);
        }
      }
      assert ClosedFrom(blocks, start, smaller);
      assert false;
    }
  }

  /** Without a cycle, nothing jumps back to the start block. */
  lemma RankStart(blocks: map<BlockId, Block>, start: BlockId, rs: set<BlockId>)
    requires IsReachSet(blocks, start, rs) && Acyclic(blocks, rs)
    ensures Preds(blocks, rs, start) == {}
  {
    var rank :| Ranking(blocks, rs, rank);
    var above := set v | v in rs && rank[v] >= rank[start];
    forall b | b in above && b in blocks ensures forall s | s in Succ(blocks, b) :: s in above {
      forall s | s in Succ(blocks, b) ensures s in above {
        assert s in rs;
      }
    }
    assert ClosedFrom(blocks, start, above);
    assert rs <= above;
    forall p | p in rs ensures p !in Preds(blocks, rs, start) {
      assert p in above;
    }
  }

  /** An order that puts every edge forward gives a ranking: the position. */
  lemma OrderRanking(blocks: map<BlockId, Block>, start: BlockId, rs: set<BlockId>, topo: seq<BlockId>)
    requires IsReachSet(blocks, start, rs) && TopoSorted(blocks, start, rs, topo)
    ensures Acyclic(blocks, rs)
  {
    var rank := map x | x in SetOf(topo) :: IndexOf(topo, x);
    forall u, v | u in rs && u in blocks && v in Succ(blocks, u) ensures v in rank && rank[u] < rank[v] {
      assert v in rs;
      var i := IndexOf(topo, u);
      var j := IndexOf(topo, v);
      assert topo[j] in Succ(blocks, topo[i]);
    }
    assert Ranking(blocks, rs, rank);
  }

  function IndexOf<T(==)>(s: seq<T>, x: T): (r: nat)
    requires x in s
    ensures r < |s| && s[r] == x
  {
    if s[0] == x then 0 else 1 + IndexOf(s[1..], x)
  }

  /**
   * What `topo_order` promises: every reachable block exactly once, the start
   * block first, and every edge going forward.
   */
  ghost predicate TopoSorted(blocks: map<BlockId, Block>, start: BlockId, rs: set<BlockId>, topo: seq<BlockId>)
  {
    Distinct(topo) && SetOf(topo) == rs && |topo| >= 1 && topo[0] == start &&
    forall i, j | 0 <= i < |topo| && 0 <= j < |topo| && topo[i] in blocks && topo[j] in Succ(blocks, topo[i]) :: i < j
  }

  // ---------------------------------------------------------------------
  // Releasing the children of a block

  /** The successors of a block without repetitions: the loop over `set(next_blocks())`. */
  function Children(ns: seq<BlockId>): (r: seq<BlockId>)
    ensures Distinct(r) && SetOf(r) == SetOf(ns)
  {
    if ns == [] then []
    else
      var rest := Children(ns[1..]);
      assert SetOf(ns) == {ns[0]} + SetOf(ns[1..]);
      if ns[0] in rest then rest else [ns[0]] + rest
  }

  /** `incoming[c]` once `b` is discarded from it; a missing key reads as an empty set. */
  function Left(inc: map<BlockId, set<BlockId>>, b: BlockId, c: BlockId): set<BlockId>
  {
    if c in inc then inc[c] - {b} else {}
  }

  /** The children of `b`, in order, whose last waiting predecessor was `b`. */
  function Released(inc: map<BlockId, set<BlockId>>, b: BlockId, cs: seq<BlockId>): seq<BlockId>
  {
    if cs == [] then []
    else
      var c := cs[|cs| - 1];
      Released(inc, b, cs[..|cs| - 1]) + (if Left(inc, b, c) == {} then [c] else [])
  }

  lemma {:induction false} ReleasedSpec(inc: map<BlockId, set<BlockId>>, b: BlockId, cs: seq<BlockId>)
    ensures forall c :: c in Released(inc, b, cs) <==> c in cs && Left(inc, b, c) == {}
    ensures Distinct(cs) ==> Distinct(Released(inc, b, cs))
  {
    if cs != [] {
      var pre := cs[..|cs| - 1];
      var c := cs[|cs| - 1];
      ReleasedSpec(inc, b, pre);
      assert cs == pre + [c];
      if Distinct(cs) {
        assert Distinct(pre) && c !in pre;
      }
    }
  }

  /** `incoming` after the children `cs` of `b` are released. */
  ghost predicate ReleaseKeys(inc: map<BlockId, set<BlockId>>, inc': map<BlockId, set<BlockId>>, b: BlockId, cs: seq<BlockId>)
  {
    (forall c :: c in inc' <==> (c in inc && c !in cs) || (c in cs && Left(inc, b, c) != {})) &&
    (forall c | c in inc' :: inc'[c] == if c in cs then Left(inc, b, c) else inc[c])
  }

  /**
   * The inner loop of `topo_order`: each child loses `b` from its waiting set,
   * and a child left with none is pushed and dropped from `incoming`.
   */
  method Release(inc: map<BlockId, set<BlockId>>, noInc: seq<BlockId>, b: BlockId, cs: seq<BlockId>)
    returns (inc': map<BlockId, set<BlockId>>, noInc': seq<BlockId>)
    requires Distinct(cs)
    ensures noInc' == noInc + Released(inc, b, cs)
    ensures ReleaseKeys(inc, inc', b, cs)
  {
    inc' := inc;
    noInc' := noInc;
    var j := 0;
    while j < |cs|
      invariant 0 <= j <= |cs|
      invariant noInc' == noInc + Released(inc, b, cs[..j])
      invariant ReleaseKeys(inc, inc', b, cs[..j])
    {
      var c := cs[j];
      var left := if c in inc' then inc'[c] - {b} else {};
      var inc2, noInc2 := inc', noInc';
      if left == {} {
        noInc2 := noInc' + [c];
        inc2 := inc' - {c};
      } else {
        inc2 := inc'[c := left];
      }
      ReleaseStep(inc, noInc, b, cs, j, inc', noInc', inc2, noInc2);
      inc', noInc' := inc2, noInc2;
      j := j + 1;
    }
    assert cs[..j] == cs;
  }

  lemma ReleaseStep(inc: map<BlockId, set<BlockId>>, noInc: seq<BlockId>, b: BlockId, cs: seq<BlockId>, j: nat,
                    inc1: map<BlockId, set<BlockId>>, noInc1: seq<BlockId>,
                    inc2: map<BlockId, set<BlockId>>, noInc2: seq<BlockId>)
    requires j < |cs| && Distinct(cs)
    requires noInc1 == noInc + Released(inc, b, cs[..j]) && ReleaseKeys(inc, inc1, b, cs[..j])
    requires var c := cs[j];
      var left := if c in inc1 then inc1[c] - {b} else {};
      inc2 == (if left == {} then inc1 - {c} else inc1[c := left]) &&
      noInc2 == (if left == {} then noInc1 + [c] else noInc1)
    ensures noInc2 == noInc + Released(inc, b, cs[..j + 1]) && ReleaseKeys(inc, inc2, b, cs[..j + 1])
  {
    var c := cs[j];
    assert cs[..j + 1] == cs[..j] + [c];
    assert c !in cs[..j];
    assert (c in inc1) == (c in inc);
    assert c in inc1 ==> inc1[c] == inc[c];
    ReleasedSnoc(inc, b, cs[..j], c);
    if c !in inc1 {
      assert inc1 - {c} == inc1;
    }
    ReleaseKeysStep(inc, b, cs, j, inc1, inc2);
  }

  // ---------------------------------------------------------------------
  // `topo_order`: Kahn's algorithm

  /** Blocks taken or pending are reachable. */
  ghost predicate Placed(rs: set<BlockId>, noInc: seq<BlockId>, topo: seq<BlockId>)
  {
    SetOf(topo) <= rs && SetOf(noInc) <= rs
  }

  /** A block still in `incoming` waits for exactly its predecessors not yet taken. */
  ghost predicate Waiting(blocks: map<BlockId, Block>, rs: set<BlockId>, inc: map<BlockId, set<BlockId>>, topo: seq<BlockId>)
  {
    forall c | c in inc :: inc[c] != {} && inc[c] == Preds(blocks, rs, c) - SetOf(topo)
  }

  /** Every reachable block is taken, pending or waiting. */
  ghost predicate Covered(rs: set<BlockId>, inc: map<BlockId, set<BlockId>>, noInc: seq<BlockId>, topo: seq<BlockId>)
  {
    forall c | c in rs :: c in topo || c in noInc || c in inc
  }

  /** A block taken or pending, other than the start block, has all its predecessors taken. */
  ghost predicate Ready(blocks: map<BlockId, Block>, start: BlockId, rs: set<BlockId>, noInc: seq<BlockId>, topo: seq<BlockId>)
  {
    forall c | (c in topo || c in noInc) && c != start :: Preds(blocks, rs, c) <= SetOf(topo)
  }

  /** A child of a taken block is waiting, pending, or taken after it. */
  ghost predicate Forward(blocks: map<BlockId, Block>, inc: map<BlockId, set<BlockId>>, noInc: seq<BlockId>, topo: seq<BlockId>)
  {
    forall k, c | 0 <= k < |topo| && topo[k] in blocks && c in Succ(blocks, topo[k]) ::
      c in inc || c in noInc || c in topo[k + 1..]
  }

  ghost predicate StartFirst(start: BlockId, noInc: seq<BlockId>, topo: seq<BlockId>)
  {
    (topo == [] ==> noInc == [start]) && (topo != [] ==> topo[0] == start)
  }

  ghost predicate KahnInv(blocks: map<BlockId, Block>, start: BlockId, rs: set<BlockId>,
                          inc: map<BlockId, set<BlockId>>, noInc: seq<BlockId>, topo: seq<BlockId>)
  {
    Placed(rs, noInc, topo) && Waiting(blocks, rs, inc, topo) && Covered(rs, inc, noInc, topo) &&
    Ready(blocks, start, rs, noInc, topo) && Forward(blocks, inc, noInc, topo) && StartFirst(start, noInc, topo)
  }

  /** Without a cycle no block is ever taken or pushed twice. */
  ghost predicate KahnDistinct(inc: map<BlockId, set<BlockId>>, noInc: seq<BlockId>, topo: seq<BlockId>)
  {
    Distinct(topo) && Distinct(noInc) && SetOf(topo) !! SetOf(noInc) &&
    forall c | c in inc :: c !in topo && c !in noInc
  }

  /** One round of the outer loop: pop `b`, take it, release its children. */
  ghost predicate KahnMove(blocks: map<BlockId, Block>, inc: map<BlockId, set<BlockId>>, noInc: seq<BlockId>, topo: seq<BlockId>,
                           b: BlockId, cs: seq<BlockId>,
                           inc': map<BlockId, set<BlockId>>, noInc': seq<BlockId>, topo': seq<BlockId>)
  {
    noInc != [] && b == noInc[|noInc| - 1] && TakeMove(blocks, inc, topo, b, cs, inc', topo') &&
    noInc' == noInc[..|noInc| - 1] + Released(inc, b, cs)
  }

  /** Taking `b` and discarding it from the waiting sets of its children `cs`. */
  ghost predicate TakeMove(blocks: map<BlockId, Block>, inc: map<BlockId, set<BlockId>>, topo: seq<BlockId>,
                           b: BlockId, cs: seq<BlockId>, inc': map<BlockId, set<BlockId>>, topo': seq<BlockId>)
  {
    b in blocks && cs == Children(Succ(blocks, b)) && topo' == topo + [b] && ReleaseKeys(inc, inc', b, cs)
  }

  lemma KahnInit(blocks: map<BlockId, Block>, start: BlockId, rs: set<BlockId>, inc: map<BlockId, set<BlockId>>)
    requires IsReachSet(blocks, start, rs) && IsIncoming(blocks, rs, inc)
    ensures KahnInv(blocks, start, rs, inc, [start], [])
    ensures Acyclic(blocks, rs) ==> KahnDistinct(inc, [start], [])
  {
    forall c | c in rs ensures c in [start] || c in inc {
      if c != start {
        HasPred(blocks, start, rs, c);
        var p :| p in Preds(blocks, rs, c);
      }
    }
    assert Covered(rs, inc, [start], []);
    if Acyclic(blocks, rs) {
      RankStart(blocks, start, rs);
    }
  }

  /** Facts about one round shared by the step lemmas. */
  lemma MoveFacts(blocks: map<BlockId, Block>, inc: map<BlockId, set<BlockId>>, noInc: seq<BlockId>, topo: seq<BlockId>,
                  b: BlockId, cs: seq<BlockId>, inc': map<BlockId, set<BlockId>>, noInc': seq<BlockId>, topo': seq<BlockId>)
    requires KahnMove(blocks, inc, noInc, topo, b, cs, inc', noInc', topo')
    ensures SetOf(cs) == SetOf(Succ(blocks, b))
    ensures forall x :: x in noInc <==> x in noInc[..|noInc| - 1] || x == b
    ensures forall x :: x in topo' <==> x in topo || x == b
    ensures forall x :: x in noInc' <==> x in noInc[..|noInc| - 1] || (x in cs && Left(inc, b, x) == {})
    ensures SetOf(topo') == SetOf(topo) + {b}
  {
    ReleasedSpec(inc, b, cs);
    assert noInc == noInc[..|noInc| - 1] + [b];
  }

  lemma StepWaiting(blocks: map<BlockId, Block>, rs: set<BlockId>, inc: map<BlockId, set<BlockId>>, topo: seq<BlockId>,
                    b: BlockId, cs: seq<BlockId>, inc': map<BlockId, set<BlockId>>, topo': seq<BlockId>)
    requires Waiting(blocks, rs, inc, topo) && b in rs
    requires TakeMove(blocks, inc, topo, b, cs, inc', topo')
    ensures Waiting(blocks, rs, inc', topo')
  {
    assert SetOf(topo') == SetOf(topo) + {b};
    forall c | c in inc' ensures inc'[c] != {} && inc'[c] == Preds(blocks, rs, c) - SetOf(topo') {
      if c !in cs {
        assert c !in SetOf(Succ(blocks, b));
        assert b !in Preds(blocks, rs, c);
      }
    }
  }

  lemma StepCovered(blocks: map<BlockId, Block>, rs: set<BlockId>, inc: map<BlockId, set<BlockId>>, noInc: seq<BlockId>, topo: seq<BlockId>,
                    b: BlockId, cs: seq<BlockId>, inc': map<BlockId, set<BlockId>>, noInc': seq<BlockId>, topo': seq<BlockId>)
    requires Covered(rs, inc, noInc, topo)
    requires KahnMove(blocks, inc, noInc, topo, b, cs, inc', noInc', topo')
    ensures Covered(rs, inc', noInc', topo')
  {
    MoveFacts(blocks, inc, noInc, topo, b, cs, inc', noInc', topo');
  }

  lemma StepReady(blocks: map<BlockId, Block>, start: BlockId, rs: set<BlockId>,
                  inc: map<BlockId, set<BlockId>>, noInc: seq<BlockId>, topo: seq<BlockId>,
                  b: BlockId, cs: seq<BlockId>, inc': map<BlockId, set<BlockId>>, noInc': seq<BlockId>, topo': seq<BlockId>)
    requires Waiting(blocks, rs, inc, topo) && Covered(rs, inc, noInc, topo) && Ready(blocks, start, rs, noInc, topo)
    requires SetOf(cs) <= rs
    requires KahnMove(blocks, inc, noInc, topo, b, cs, inc', noInc', topo')
    ensures Ready(blocks, start, rs, noInc', topo')
  {
    MoveFacts(blocks, inc, noInc, topo, b, cs, inc', noInc', topo');
    forall c | (c in topo' || c in noInc') && c != start ensures Preds(blocks, rs, c) <= SetOf(topo') {
      if c in topo || c in noInc {
      } else {
        assert c in cs && Left(inc, b, c) == {};
        if c in inc {
          assert inc[c] == Preds(blocks, rs, c) - SetOf(topo);
        }
      }
    }
  }

  lemma StepForward(blocks: map<BlockId, Block>, inc: map<BlockId, set<BlockId>>, noInc: seq<BlockId>, topo: seq<BlockId>,
                    b: BlockId, cs: seq<BlockId>, inc': map<BlockId, set<BlockId>>, noInc': seq<BlockId>, topo': seq<BlockId>)
    requires Forward(blocks, inc, noInc, topo)
    requires KahnMove(blocks, inc, noInc, topo, b, cs, inc', noInc', topo')
    ensures Forward(blocks, inc', noInc', topo')
  {
    MoveFacts(blocks, inc, noInc, topo, b, cs, inc', noInc', topo');
    forall k, c | 0 <= k < |topo'| && topo'[k] in blocks && c in Succ(blocks, topo'[k])
      ensures c in inc' || c in noInc' || c in topo'[k + 1..]
    {
      if k == |topo| {
        assert topo'[k] == b && c in SetOf(Succ(blocks, b));
        assert c in cs;
      } else {
        assert topo'[k] == topo[k];
        assert topo'[k + 1..] == topo[k + 1..] + [b];
        if c in topo[k + 1..] {
        } else if c in inc {
        } else {
          assert c in noInc;
        }
      }
    }
  }

  lemma StepDistinct(blocks: map<BlockId, Block>, start: BlockId, rs: set<BlockId>,
                     inc: map<BlockId, set<BlockId>>, noInc: seq<BlockId>, topo: seq<BlockId>,
                     b: BlockId, cs: seq<BlockId>, inc': map<BlockId, set<BlockId>>, noInc': seq<BlockId>, topo': seq<BlockId>)
    requires IsReachSet(blocks, start, rs) && Acyclic(blocks, rs)
    requires KahnInv(blocks, start, rs, inc, noInc, topo) && KahnDistinct(inc, noInc, topo)
    requires KahnMove(blocks, inc, noInc, topo, b, cs, inc', noInc', topo')
    ensures KahnDistinct(inc', noInc', topo')
  {
    MoveFacts(blocks, inc, noInc, topo, b, cs, inc', noInc', topo');
    var rest := noInc[..|noInc| - 1];
    var rel := Released(inc, b, cs);
    ReleasedSpec(inc, b, cs);
    assert noInc == rest + [b];
    DistinctSplit(rest, [b]);
    assert b !in topo;
    assert b in rs;
    ReleasedWaited(blocks, start, rs, inc, noInc, topo, b, cs, inc', noInc', topo');
    DistinctSplit(topo, [b]);
    DistinctSplit(rest, rel);
  }

  /** A released child was waiting: it cannot have been taken or pushed before. */
  lemma ReleasedWaited(blocks: map<BlockId, Block>, start: BlockId, rs: set<BlockId>,
                       inc: map<BlockId, set<BlockId>>, noInc: seq<BlockId>, topo: seq<BlockId>,
                       b: BlockId, cs: seq<BlockId>, inc': map<BlockId, set<BlockId>>, noInc': seq<BlockId>, topo': seq<BlockId>)
    requires IsReachSet(blocks, start, rs) && Acyclic(blocks, rs)
    requires KahnInv(blocks, start, rs, inc, noInc, topo) && KahnDistinct(inc, noInc, topo)
    requires KahnMove(blocks, inc, noInc, topo, b, cs, inc', noInc', topo') && b in rs && b !in topo
    ensures forall c | c in Released(inc, b, cs) :: c in inc && c !in topo && c !in noInc
  {
    MoveFacts(blocks, inc, noInc, topo, b, cs, inc', noInc', topo');
    RankStart(blocks, start, rs);
    ReleasedSpec(inc, b, cs);
    forall c | c in Released(inc, b, cs) ensures c in inc {
      assert c in cs && c in SetOf(Succ(blocks, b));
      assert c in Succ(blocks, b) && c in rs;
      assert b in Preds(blocks, rs, c);
      assert c != start;
      assert !(Preds(blocks, rs, c) <= SetOf(topo));
    }
  }

  lemma {:induction false} DistinctSplit<T>(a: seq<T>, b: seq<T>)
    ensures Distinct(a + b) <==> Distinct(a) && Distinct(b) && SetOf(a) !! SetOf(b)
  {
    var s := a + b;
    assert forall i | 0 <= i < |a| :: s[i] == a[i];
    assert forall i | 0 <= i < |b| :: s[|a| + i] == b[i];
    if Distinct(a) && Distinct(b) && SetOf(a) !! SetOf(b) {
      forall i, j | 0 <= i < j < |s| ensures s[i] != s[j] {
        if j < |a| {
        } else if i >= |a| {
          assert s[i] == b[i - |a|] && s[j] == b[j - |a|];
        } else {
          assert s[i] in SetOf(a) && s[j] == b[j - |a|] && s[j] in SetOf(b);
        }
      }
    }
    if Distinct(s) {
      forall x | x in SetOf(a) ensures x !in SetOf(b) {
        var i :| 0 <= i < |a| && a[i] == x;
        forall j | 0 <= j < |b| ensures b[j] != x {
          assert s[i] != s[|a| + j];
        }
      }
      forall i, j | 0 <= i < j < |b| ensures b[i] != b[j] {
        assert s[|a| + i] != s[|a| + j];
      }
    }
  }

  lemma KahnStep(blocks: map<BlockId, Block>, start: BlockId, rs: set<BlockId>,
                 inc: map<BlockId, set<BlockId>>, noInc: seq<BlockId>, topo: seq<BlockId>,
                 b: BlockId, cs: seq<BlockId>, inc': map<BlockId, set<BlockId>>, noInc': seq<BlockId>, topo': seq<BlockId>)
    requires IsReachSet(blocks, start, rs)
    requires KahnInv(blocks, start, rs, inc, noInc, topo)
    requires Acyclic(blocks, rs) ==> KahnDistinct(inc, noInc, topo)
    requires KahnMove(blocks, inc, noInc, topo, b, cs, inc', noInc', topo')
    ensures KahnInv(blocks, start, rs, inc', noInc', topo')
    ensures Acyclic(blocks, rs) ==> KahnDistinct(inc', noInc', topo')
  {
    MoveFacts(blocks, inc, noInc, topo, b, cs, inc', noInc', topo');
    assert b in rs;
    assert SetOf(cs) <= rs;
    StepWaiting(blocks, rs, inc, topo, b, cs, inc', topo');
    StepCovered(blocks, rs, inc, noInc, topo, b, cs, inc', noInc', topo');
    StepReady(blocks, start, rs, inc, noInc, topo, b, cs, inc', noInc', topo');
    StepForward(blocks, inc, noInc, topo, b, cs, inc', noInc', topo');
    assert Placed(rs, noInc', topo');
    assert StartFirst(start, noInc', topo');
    if Acyclic(blocks, rs) {
      StepDistinct(blocks, start, rs, inc, noInc, topo, b, cs, inc', noInc', topo');
    }
  }

  /** A successful run is a topological order of the reachable blocks. */
  lemma KahnSound(blocks: map<BlockId, Block>, start: BlockId, rs: set<BlockId>,
                  inc: map<BlockId, set<BlockId>>, topo: seq<BlockId>)
    requires KahnInv(blocks, start, rs, inc, [], topo)
    requires SetOf(topo) == rs && Distinct(topo) && start in rs
    ensures TopoSorted(blocks, start, rs, topo)
  {
    assert start in topo;
    forall i, j | 0 <= i < |topo| && 0 <= j < |topo| && topo[i] in blocks && topo[j] in Succ(blocks, topo[i]) ensures i < j {
      var c := topo[j];
      assert topo[i] in topo;
      assert Preds(blocks, rs, c) - SetOf(topo) == {};
      assert c !in inc;
      assert c in inc || c in [] || c in topo[i + 1..];
      assert c in topo[i + 1..];
      var m :| i + 1 <= m < |topo| && topo[m] == c;
    }
  }

  /** Infinite descent: with a ranking, no block can wait forever. */
  lemma {:induction false} NoneWaiting(blocks: map<BlockId, Block>, rs: set<BlockId>, rank: map<BlockId, nat>,
                                       inc: map<BlockId, set<BlockId>>, topo: seq<BlockId>, c: BlockId)
    requires Ranking(blocks, rs, rank) && Waiting(blocks, rs, inc, topo) && Covered(rs, inc, [], topo)
    requires c in inc && c in rank
    ensures false
    decreases rank[c]
  {
    var p :| p in inc[c];
    assert p in rs && p !in topo;
    NoneWaiting(blocks, rs, rank, inc, topo, p);
  }

  lemma DistinctCard<T>(s: seq<T>)
    requires Distinct(s)
    ensures |SetOf(s)| == |s|
  {
    if s != [] {
      var pre := s[..|s| - 1];
      assert s == pre + [s[|s| - 1]];
      DistinctSplit(pre, [s[|s| - 1]]);
      DistinctCard(pre);
      assert SetOf(s) == SetOf(pre) + {s[|s| - 1]};
    }
  }

  lemma SubsetCard<T>(a: set<T>, b: set<T>)
    requires a <= b
    ensures |a| <= |b|
  {
    assert b == a + (b - a);
  }

  /** Without a cycle the run takes every reachable block exactly once. */
  lemma KahnComplete(blocks: map<BlockId, Block>, start: BlockId, order: seq<BlockId>,
                     inc: map<BlockId, set<BlockId>>, noInc: seq<BlockId>, topo: seq<BlockId>)
    requires IsReachSet(blocks, start, SetOf(order)) && Distinct(order) && Acyclic(blocks, SetOf(order))
    requires KahnInv(blocks, start, SetOf(order), inc, noInc, topo) && KahnDistinct(inc, noInc, topo)
    requires noInc == [] || |topo| > |order|
    ensures noInc == [] && SetOf(topo) == SetOf(order) && Distinct(topo)
  {
    var rs := SetOf(order);
    DistinctCard(topo);
    DistinctCard(order);
    SubsetCard(SetOf(topo), rs);
    if inc != map[] {
      var c :| c in inc;
      var rank :| Ranking(blocks, rs, rank);
      var p :| p in inc[c];
      assert p in rs && c in Succ(blocks, p);
      NoneWaiting(blocks, rs, rank, inc, topo, c);
      assert false;
    }
  }

  /** The outer loop of `topo_order`; a run that takes more blocks than there are stops as a failure. */
  method Kahn(blocks: map<BlockId, Block>, start: BlockId, order: seq<BlockId>, inc0: map<BlockId, set<BlockId>>)
    returns (topo: seq<BlockId>, ok: bool)
    requires |order| >= 1 && order[0] == start && Distinct(order)
    requires IsReachSet(blocks, start, SetOf(order)) && IsIncoming(blocks, SetOf(order), inc0)
    ensures ok ==> TopoSorted(blocks, start, SetOf(order), topo)
    ensures ok <==> Acyclic(blocks, SetOf(order))
  {
    ghost var rs := SetOf(order);
    KahnInit(blocks, start, rs, inc0);
    var inc := inc0;
    var noInc := [order[0]];
    topo := [];
    while noInc != [] && |topo| <= |order|
      invariant KahnInv(blocks, start, rs, inc, noInc, topo)
      invariant Acyclic(blocks, rs) ==> KahnDistinct(inc, noInc, topo)
      decreases |order| + 1 - |topo|
    {
      var b := noInc[|noInc| - 1];
      assert b in rs;
      var cs := Children(NextBlocks(blocks[b].next));
      var inc', noInc' := Release(inc, noInc[..|noInc| - 1], b, cs);
      var topo' := topo + [b];
      KahnStep(blocks, start, rs, inc, noInc, topo, b, cs, inc', noInc', topo');
      inc, noInc, topo := inc', noInc', topo';
    }
    ok := noInc == [] && SetOf(topo) == SetOf(order) && Distinct(topo);
    if ok {
      KahnSound(blocks, start, rs, inc, topo);
      OrderRanking(blocks, start, rs, topo);
    }
    if Acyclic(blocks, rs) {
      KahnComplete(blocks, start, order, inc, noInc, topo);
    }
  }

  /**
   * `topo_order`: the blocks in an order where each comes after all its
   * predecessors; it succeeds exactly when the reachable graph has no cycle.
   */
  method TopoOrder(g: Graph) returns (topo: seq<BlockId>, ok: bool)
    requires g.Wf()
    ensures ok ==> TopoSorted(g.blocks, g.start, Reachable(g.blocks, g.start), topo)
    ensures ok <==> Acyclic(g.blocks, Reachable(g.blocks, g.start))
  {
    var order := g.IterBlocks();
    DfsOrder(g.blocks, g.start);
    assert SetOf(order) == Reachable(g.blocks, g.start);
    var inc := BuildIncoming(g.blocks, order);
    topo, ok := Kahn(g.blocks, g.start, order, inc);
  }

  // ---------------------------------------------------------------------
  // `topo_order_best_attempt`: Kahn's algorithm that breaks into loops

  /** The children `cs` that are still in `incoming`. */
  function Waiters(inc: map<BlockId, set<BlockId>>, cs: seq<BlockId>): seq<BlockId>
  {
    if cs == [] then []
    else
      var c := cs[|cs| - 1];
      Waiters(inc, cs[..|cs| - 1]) + (if c in inc then [c] else [])
  }

  lemma {:induction false} WaitersSpec(inc: map<BlockId, set<BlockId>>, cs: seq<BlockId>)
    ensures forall c :: c in Waiters(inc, cs) <==> c in cs && c in inc
    ensures Distinct(cs) ==> Distinct(Waiters(inc, cs))
  {
    if cs != [] {
      var pre := cs[..|cs| - 1];
      var c := cs[|cs| - 1];
      WaitersSpec(inc, pre);
      assert cs == pre + [c];
      if Distinct(cs) {
        assert Distinct(pre) && c !in pre;
      }
    }
  }

  lemma ReleasedSnoc(inc: map<BlockId, set<BlockId>>, b: BlockId, xs: seq<BlockId>, c: BlockId)
    ensures Released(inc, b, xs + [c]) == Released(inc, b, xs) + (if Left(inc, b, c) == {} then [c] else [])
  {
    assert (xs + [c])[..|xs|] == xs;
  }

  /**
   * The inner loop of `topo_order_best_attempt`: only children still in
   * `incoming` lose `b`, and those left with none are pushed.
   */
  method ReleaseWaiting(inc: map<BlockId, set<BlockId>>, noInc: seq<BlockId>, b: BlockId, cs: seq<BlockId>)
    returns (inc': map<BlockId, set<BlockId>>, noInc': seq<BlockId>)
    requires Distinct(cs)
    ensures noInc' == noInc + Released(inc, b, Waiters(inc, cs))
    ensures ReleaseKeys(inc, inc', b, cs)
  {
    inc' := inc;
    noInc' := noInc;
    var j := 0;
    while j < |cs|
      invariant 0 <= j <= |cs|
      invariant ReleasedSoFar(inc, noInc, b, cs, j, inc', noInc')
    {
      var c := cs[j];
      var inc2, noInc2 := inc', noInc';
      if c in inc' {
        var left := inc'[c] - {b};
        if left == {} {
          noInc2 := noInc' + [c];
          inc2 := inc' - {c};
        } else {
          inc2 := inc'[c := left];
        }
      }
      ReleaseWaitingStep(inc, noInc, b, cs, j, inc', noInc', inc2, noInc2);
      inc', noInc' := inc2, noInc2;
      j := j + 1;
    }
    ReleasedAll(inc, noInc, b, cs, inc', noInc');
  }

  /** The invariant of the loop of `ReleaseWaiting` after the first `j` children. */
  ghost predicate ReleasedSoFar(inc: map<BlockId, set<BlockId>>, noInc: seq<BlockId>, b: BlockId, cs: seq<BlockId>,
                                j: nat, inc1: map<BlockId, set<BlockId>>, noInc1: seq<BlockId>)
    requires j <= |cs|
  {
    noInc1 == noInc + Released(inc, b, Waiters(inc, cs[..j])) && ReleaseKeys(inc, inc1, b, cs[..j])
  }

  lemma ReleasedAll(inc: map<BlockId, set<BlockId>>, noInc: seq<BlockId>, b: BlockId, cs: seq<BlockId>,
                    inc1: map<BlockId, set<BlockId>>, noInc1: seq<BlockId>)
    requires ReleasedSoFar(inc, noInc, b, cs, |cs|, inc1, noInc1)
    ensures noInc1 == noInc + Released(inc, b, Waiters(inc, cs)) && ReleaseKeys(inc, inc1, b, cs)
  {
    assert cs[..|cs|] == cs;
  }

  lemma ReleaseWaitingStep(inc: map<BlockId, set<BlockId>>, noInc: seq<BlockId>, b: BlockId, cs: seq<BlockId>, j: nat,
                           inc1: map<BlockId, set<BlockId>>, noInc1: seq<BlockId>,
                           inc2: map<BlockId, set<BlockId>>, noInc2: seq<BlockId>)
    requires j < |cs| && Distinct(cs) && ReleasedSoFar(inc, noInc, b, cs, j, inc1, noInc1)
    requires var c := cs[j];
      inc2 == (if c in inc1 then (if inc1[c] - {b} == {} then inc1 - {c} else inc1[c := inc1[c] - {b}]) else inc1) &&
      noInc2 == (if c in inc1 && inc1[c] - {b} == {} then noInc1 + [c] else noInc1)
    ensures ReleasedSoFar(inc, noInc, b, cs, j + 1, inc2, noInc2)
  {
    var c := cs[j];
    assert c !in cs[..j];
    assert (c in inc1) == (c in inc);
    assert c in inc1 ==> inc1[c] == inc[c];
    PushedStep(inc, noInc, b, cs, j, noInc1, noInc2, c in inc1 && inc1[c] - {b} == {});
    ReleaseKeysStep(inc, b, cs, j, inc1, inc2);
  }

  lemma PushedStep(inc: map<BlockId, set<BlockId>>, noInc: seq<BlockId>, b: BlockId, cs: seq<BlockId>, j: nat,
                   noInc1: seq<BlockId>, noInc2: seq<BlockId>, push: bool)
    requires j < |cs| && noInc1 == noInc + Released(inc, b, Waiters(inc, cs[..j]))
    requires push == (cs[j] in inc && Left(inc, b, cs[j]) == {})
    requires noInc2 == if push then noInc1 + [cs[j]] else noInc1
    ensures noInc2 == noInc + Released(inc, b, Waiters(inc, cs[..j + 1]))
  {
    var c := cs[j];
    assert cs[..j + 1][..j] == cs[..j];
    var w := Waiters(inc, cs[..j]);
    if c in inc {
      assert Waiters(inc, cs[..j + 1]) == w + [c];
      ReleasedSnoc(inc, b, w, c);
    } else {
      assert Waiters(inc, cs[..j + 1]) == w;
    }
  }

  lemma ReleaseKeysStep(inc: map<BlockId, set<BlockId>>, b: BlockId, cs: seq<BlockId>, j: nat,
                        inc1: map<BlockId, set<BlockId>>, inc2: map<BlockId, set<BlockId>>)
    requires j < |cs| && cs[j] !in cs[..j] && ReleaseKeys(inc, inc1, b, cs[..j])
    requires var c := cs[j];
      inc2 == (if c in inc1 then (if inc1[c] - {b} == {} then inc1 - {c} else inc1[c := inc1[c] - {b}]) else inc1)
    ensures ReleaseKeys(inc, inc2, b, cs[..j + 1])
  {
    var c := cs[j];
    assert cs[..j + 1] == cs[..j] + [c];
    assert (c in inc1) == (c in inc);
    assert c in inc1 ==> inc1[c] == inc[c];
    forall x ensures x in inc2 <==> (x in inc && x !in cs[..j + 1]) || (x in cs[..j + 1] && Left(inc, b, x) != {}) {
      assert x in cs[..j + 1] <==> x in cs[..j] || x == c;
    }
    forall x | x in inc2 ensures inc2[x] == if x in cs[..j + 1] then Left(inc, b, x) else inc[x] {
      assert x in cs[..j + 1] <==> x in cs[..j] || x == c;
    }
  }

  /** `for block in order: if block in incoming: ... break`. */
  method FirstWaiting(order: seq<BlockId>, inc: map<BlockId, set<BlockId>>) returns (i: nat)
    requires exists c :: c in inc && c in order
    ensures i < |order| && order[i] in inc
    ensures forall j | 0 <= j < i :: order[j] !in inc
  {
    i := 0;
    while order[i] !in inc
      invariant i < |order|
      decreases |order| - i
      invariant forall j | 0 <= j < i :: order[j] !in inc
      invariant exists c :: c in inc && c in order[i..]
    {
      assert order[i..] == [order[i]] + order[i + 1..];
      i := i + 1;
    }
  }

  /** Each block not taken as a loop breaker comes after all its predecessors. */
  ghost predicate Ordered(blocks: map<BlockId, Block>, rs: set<BlockId>, result: seq<BlockId>, picked: set<BlockId>)
  {
    forall j | 0 <= j < |result| && result[j] !in picked :: Preds(blocks, rs, result[j]) <= SetOf(result[..j])
  }

  ghost predicate BestInv(blocks: map<BlockId, Block>, start: BlockId, rs: set<BlockId>,
                          inc: map<BlockId, set<BlockId>>, noInc: seq<BlockId>, result: seq<BlockId>, picked: set<BlockId>)
  {
    KahnDistinct(inc, noInc, result) && inc.Keys + SetOf(result) + SetOf(noInc) == rs &&
    Waiting(blocks, rs, inc, result) && Ordered(blocks, rs, result, picked) &&
    (forall c | c in noInc && c !in picked :: Preds(blocks, rs, c) <= SetOf(result)) &&
    StartFirst(start, noInc, result) && Preds(blocks, rs, start) == {}
  }

  /** The keys of `incoming` and the start block make up the reachable blocks. */
  lemma IncomingKeys(blocks: map<BlockId, Block>, start: BlockId, rs: set<BlockId>, inc: map<BlockId, set<BlockId>>)
    requires IsReachSet(blocks, start, rs) && IsIncoming(blocks, rs, inc)
    ensures inc.Keys + {start} == rs
  {
    forall c | c in inc ensures c in rs {
      var p :| p in Preds(blocks, rs, c);
    }
    forall c | c in rs && c != start ensures c in inc {
      HasPred(blocks, start, rs, c);
      var p :| p in Preds(blocks, rs, c);
    }
  }

  /** Facts about one take of the inner loop shared by the step lemmas. */
  ghost predicate BestMove(blocks: map<BlockId, Block>, inc: map<BlockId, set<BlockId>>, noInc: seq<BlockId>, result: seq<BlockId>,
                           b: BlockId, cs: seq<BlockId>, inc': map<BlockId, set<BlockId>>, noInc': seq<BlockId>, result': seq<BlockId>)
  {
    noInc != [] && b == noInc[|noInc| - 1] && TakeMove(blocks, inc, result, b, cs, inc', result') &&
    noInc' == noInc[..|noInc| - 1] + Released(inc, b, Waiters(inc, cs))
  }

  lemma BestMoveFacts(blocks: map<BlockId, Block>, inc: map<BlockId, set<BlockId>>, noInc: seq<BlockId>, result: seq<BlockId>,
                      b: BlockId, cs: seq<BlockId>, inc': map<BlockId, set<BlockId>>, noInc': seq<BlockId>, result': seq<BlockId>)
    requires BestMove(blocks, inc, noInc, result, b, cs, inc', noInc', result')
    ensures forall c :: c in Released(inc, b, Waiters(inc, cs)) <==> c in cs && c in inc && Left(inc, b, c) == {}
    ensures Distinct(Released(inc, b, Waiters(inc, cs)))
    ensures noInc == noInc[..|noInc| - 1] + [b]
    ensures SetOf(result') == SetOf(result) + {b}
  {
    ReleasedSpec(inc, b, Waiters(inc, cs));
    WaitersSpec(inc, cs);
    assert noInc == noInc[..|noInc| - 1] + [b];
  }

  lemma BestTakeParts(blocks: map<BlockId, Block>, rs: set<BlockId>,
                      inc: map<BlockId, set<BlockId>>, noInc: seq<BlockId>, result: seq<BlockId>,
                      b: BlockId, cs: seq<BlockId>, inc': map<BlockId, set<BlockId>>, noInc': seq<BlockId>, result': seq<BlockId>)
    requires KahnDistinct(inc, noInc, result) && inc.Keys + SetOf(result) + SetOf(noInc) == rs
    requires BestMove(blocks, inc, noInc, result, b, cs, inc', noInc', result')
    ensures KahnDistinct(inc', noInc', result') && inc'.Keys + SetOf(result') + SetOf(noInc') == rs
    ensures inc'.Keys <= inc.Keys && b in rs && b !in result
  {
    BestMoveFacts(blocks, inc, noInc, result, b, cs, inc', noInc', result');
    var rest := noInc[..|noInc| - 1];
    var rel := Released(inc, b, Waiters(inc, cs));
    DistinctSplit(rest, [b]);
    DistinctSplit(result, [b]);
    DistinctSplit(rest, rel);
    assert b in SetOf(noInc);
    assert b !in result && b !in inc;
  }

  lemma TakeCard(rs: set<BlockId>, result: seq<BlockId>, b: BlockId)
    requires b in rs && b !in result
    ensures |rs - SetOf(result + [b])| < |rs - SetOf(result)|
  {
    assert SetOf(result + [b]) == SetOf(result) + {b};
    CardRemove(rs, SetOf(result), b);
  }

  lemma BestTakeOrder(blocks: map<BlockId, Block>, rs: set<BlockId>,
                      inc: map<BlockId, set<BlockId>>, noInc: seq<BlockId>, result: seq<BlockId>, picked: set<BlockId>,
                      b: BlockId, cs: seq<BlockId>, inc': map<BlockId, set<BlockId>>, noInc': seq<BlockId>, result': seq<BlockId>)
    requires Waiting(blocks, rs, inc, result) && Ordered(blocks, rs, result, picked)
    requires forall c | c in noInc && c !in picked :: Preds(blocks, rs, c) <= SetOf(result)
    requires BestMove(blocks, inc, noInc, result, b, cs, inc', noInc', result')
    ensures Ordered(blocks, rs, result', picked)
    ensures forall c | c in noInc' && c !in picked :: Preds(blocks, rs, c) <= SetOf(result')
  {
    BestMoveFacts(blocks, inc, noInc, result, b, cs, inc', noInc', result');
    var rel := Released(inc, b, Waiters(inc, cs));
    forall j | 0 <= j < |result'| && result'[j] !in picked ensures Preds(blocks, rs, result'[j]) <= SetOf(result'[..j]) {
      if j < |result| {
        assert result'[..j] == result[..j];
      } else {
        assert result'[..j] == result;
      }
    }
    forall c | c in noInc' && c !in picked ensures Preds(blocks, rs, c) <= SetOf(result') {
      if c in rel {
        assert inc[c] == Preds(blocks, rs, c) - SetOf(result);
      }
    }
  }

  lemma BestTake(blocks: map<BlockId, Block>, start: BlockId, rs: set<BlockId>,
                 inc: map<BlockId, set<BlockId>>, noInc: seq<BlockId>, result: seq<BlockId>, picked: set<BlockId>,
                 b: BlockId, cs: seq<BlockId>, inc': map<BlockId, set<BlockId>>, noInc': seq<BlockId>, result': seq<BlockId>)
    requires BestInv(blocks, start, rs, inc, noInc, result, picked)
    requires BestMove(blocks, inc, noInc, result, b, cs, inc', noInc', result')
    ensures BestInv(blocks, start, rs, inc', noInc', result', picked)
    ensures inc'.Keys <= inc.Keys && |rs - SetOf(result')| < |rs - SetOf(result)|
  {
    StepWaiting(blocks, rs, inc, result, b, cs, inc', result');
    BestTakeParts(blocks, rs, inc, noInc, result, b, cs, inc', noInc', result');
    BestTakeOrder(blocks, rs, inc, noInc, result, picked, b, cs, inc', noInc', result');
    TakeCard(rs, result, b);
  }

  lemma PendingLast(blocks: map<BlockId, Block>, start: BlockId, rs: set<BlockId>,
                    inc: map<BlockId, set<BlockId>>, noInc: seq<BlockId>, result: seq<BlockId>, picked: set<BlockId>)
    requires BestInv(blocks, start, rs, inc, noInc, result, picked) && noInc != []
    ensures inc.Keys + SetOf(result) + SetOf(noInc) == rs
    ensures noInc[|noInc| - 1] in rs && noInc[|noInc| - 1] !in inc && noInc[|noInc| - 1] !in result
  {
    assert noInc[|noInc| - 1] in SetOf(noInc);
  }

  /** One round of the inner loop of `topo_order_best_attempt`. */
  method TakeOne(blocks: map<BlockId, Block>, start: BlockId, ghost rs: set<BlockId>, ghost picked: set<BlockId>,
                 inc: map<BlockId, set<BlockId>>, noInc: seq<BlockId>, result: seq<BlockId>)
    returns (inc': map<BlockId, set<BlockId>>, noInc': seq<BlockId>, result': seq<BlockId>)
    requires rs <= blocks.Keys && BestInv(blocks, start, rs, inc, noInc, result, picked) && noInc != []
    ensures BestInv(blocks, start, rs, inc', noInc', result', picked)
    ensures inc'.Keys <= inc.Keys && |rs - SetOf(result')| < |rs - SetOf(result)|
  {
    var b := noInc[|noInc| - 1];
    PendingLast(blocks, start, rs, inc, noInc, result, picked);
    assert inc.Keys + SetOf(result) + SetOf(noInc) == rs;
    assert b !in inc;
    assert b !in result;
    var cs := Children(NextBlocks(blocks[b].next));
    inc', noInc' := ReleaseWaiting(inc, noInc[..|noInc| - 1], b, cs);
    result' := result + [b];
    BestTake(blocks, start, rs, inc, noInc, result, picked, b, cs, inc', noInc', result');
  }

  /** The inner loop of `topo_order_best_attempt`: take pending blocks until none is left. */
  method TakeReady(blocks: map<BlockId, Block>, start: BlockId, ghost rs: set<BlockId>, ghost picked: set<BlockId>,
                   inc: map<BlockId, set<BlockId>>, noInc: seq<BlockId>, result: seq<BlockId>)
    returns (inc': map<BlockId, set<BlockId>>, result': seq<BlockId>)
    requires rs <= blocks.Keys && BestInv(blocks, start, rs, inc, noInc, result, picked)
    ensures BestInv(blocks, start, rs, inc', [], result', picked)
    ensures inc'.Keys <= inc.Keys
  {
    inc', result' := inc, result;
    var pending := noInc;
    while pending != []
      invariant BestInv(blocks, start, rs, inc', pending, result', picked)
      invariant inc'.Keys <= inc.Keys
      decreases |rs - SetOf(result')|
    {
      inc', pending, result' := TakeOne(blocks, start, rs, picked, inc', pending, result');
    }
  }

  lemma BestPick(blocks: map<BlockId, Block>, start: BlockId, rs: set<BlockId>,
                 inc: map<BlockId, set<BlockId>>, result: seq<BlockId>, picked: set<BlockId>, b: BlockId)
    requires BestInv(blocks, start, rs, inc, [], result, picked) && b in inc
    ensures BestInv(blocks, start, rs, inc - {b}, [b], result, picked + {b})
    ensures b in rs
  {
    PickDistinct(inc, result, b);
    PickKeys(rs, inc, result, b);
    PickWaiting(blocks, rs, inc, result, b);
    assert StartFirst(start, [b], result);
    assert forall c | c in [b] && c !in picked + {b} :: Preds(blocks, rs, c) <= SetOf(result);
  }

  /** Picking a waiting block shrinks `incoming`. */
  lemma PickCard(inc: map<BlockId, set<BlockId>>, incHead: map<BlockId, set<BlockId>>, b: BlockId)
    requires b in inc && inc.Keys <= incHead.Keys
    ensures |(inc - {b}).Keys| < |incHead.Keys|
  {
    SubsetCardStrict((inc - {b}).Keys, incHead.Keys, b);
  }

  lemma PickDistinct(inc: map<BlockId, set<BlockId>>, result: seq<BlockId>, b: BlockId)
    requires KahnDistinct(inc, [], result) && b in inc
    ensures KahnDistinct(inc - {b}, [b], result)
  {
    assert SetOf([b]) == {b};
  }

  lemma PickKeys(rs: set<BlockId>, inc: map<BlockId, set<BlockId>>, result: seq<BlockId>, b: BlockId)
    requires inc.Keys + SetOf(result) + SetOf([]) == rs && b in inc
    ensures (inc - {b}).Keys + SetOf(result) + SetOf([b]) == rs && b in rs
  {
    assert SetOf([b]) == {b};
    assert SetOf<BlockId>([]) == {};
  }

  lemma PickWaiting(blocks: map<BlockId, Block>, rs: set<BlockId>, inc: map<BlockId, set<BlockId>>, result: seq<BlockId>, b: BlockId)
    requires Waiting(blocks, rs, inc, result)
    ensures Waiting(blocks, rs, inc - {b}, result)
  {
  }

  /** The reachable blocks are taken or waiting once nothing is pending. */
  lemma BestCovered(rs: set<BlockId>, inc: map<BlockId, set<BlockId>>, result: seq<BlockId>)
    requires inc.Keys + SetOf(result) + SetOf([]) == rs
    ensures Covered(rs, inc, [], result) && inc.Keys <= rs
  {
    assert SetOf<BlockId>([]) == {};
  }

  /** A block that has to be picked to go on lies on a cycle: no ranking exists. */
  lemma StuckCycle(blocks: map<BlockId, Block>, start: BlockId, rs: set<BlockId>,
                   inc: map<BlockId, set<BlockId>>, result: seq<BlockId>, picked: set<BlockId>)
    requires BestInv(blocks, start, rs, inc, [], result, picked) && inc != map[]
    ensures !Acyclic(blocks, rs)
  {
    if Acyclic(blocks, rs) {
      var rank :| Ranking(blocks, rs, rank);
      var c :| c in inc;
      BestCovered(rs, inc, result);
      assert c in rank;
      NoneWaiting(blocks, rs, rank, inc, result, c);
      assert false;
    }
  }

  /** With no loop breaker taken, `Ordered` is a topological order. */
  lemma OrderedSorted(blocks: map<BlockId, Block>, start: BlockId, rs: set<BlockId>, result: seq<BlockId>)
    requires Distinct(result) && SetOf(result) == rs && |result| >= 1 && result[0] == start
    requires Ordered(blocks, rs, result, {})
    ensures TopoSorted(blocks, start, rs, result)
  {
    forall i, j | 0 <= i < |result| && 0 <= j < |result| && result[i] in blocks && result[j] in Succ(blocks, result[i])
      ensures i < j
    {
      assert result[i] in Preds(blocks, rs, result[j]);
      assert result[i] in result[..j];
      var m :| 0 <= m < j && result[..j][m] == result[i];
      assert result[m] == result[i];
    }
  }

  lemma SortedOrdered(blocks: map<BlockId, Block>, start: BlockId, rs: set<BlockId>, result: seq<BlockId>)
    requires TopoSorted(blocks, start, rs, result)
    ensures Ordered(blocks, rs, result, {})
  {
    forall j | 0 <= j < |result| ensures Preds(blocks, rs, result[j]) <= SetOf(result[..j]) {
      forall p | p in Preds(blocks, rs, result[j]) ensures p in SetOf(result[..j]) {
        var i := IndexOf(result, p);
        assert result[j] in Succ(blocks, result[i]);
        assert result[..j][i] == p;
      }
    }
  }

  lemma BestInit(blocks: map<BlockId, Block>, start: BlockId, rs: set<BlockId>, inc: map<BlockId, set<BlockId>>)
    requires IsReachSet(blocks, start, rs) && IsIncoming(blocks, rs, inc) && start !in inc
    ensures BestInv(blocks, start, rs, inc, [start], [], {})
  {
    IncomingKeys(blocks, start, rs, inc);
    assert Preds(blocks, rs, start) == {};
  }

  lemma StartKey(blocks: map<BlockId, Block>, rs: set<BlockId>, inc: map<BlockId, set<BlockId>>, start: BlockId)
    requires IsIncoming(blocks, rs, inc)
    ensures start in inc <==> Preds(blocks, rs, start) != {}
  {
    if Preds(blocks, rs, start) != {} {
      var p :| p in Preds(blocks, rs, start);
    }
  }

  lemma BestDone(blocks: map<BlockId, Block>, start: BlockId, rs: set<BlockId>,
                 inc: map<BlockId, set<BlockId>>, result: seq<BlockId>, picked: set<BlockId>)
    requires BestInv(blocks, start, rs, inc, [], result, picked) && inc == map[]
    ensures Distinct(result) && SetOf(result) == rs && |result| >= 1 && result[0] == start
    ensures Ordered(blocks, rs, result, picked)
  {
  }

  /** The outer loop of `topo_order_best_attempt`; `picked` collects the blocks taken to break into a loop. */
  method BestLoop(blocks: map<BlockId, Block>, start: BlockId, order: seq<BlockId>, ghost rs: set<BlockId>,
                  inc0: map<BlockId, set<BlockId>>)
    returns (result: seq<BlockId>, ghost picked: set<BlockId>)
    requires rs == SetOf(order) && rs <= blocks.Keys && BestInv(blocks, start, rs, inc0, [start], [], {})
    ensures Distinct(result) && SetOf(result) == rs && |result| >= 1 && result[0] == start
    ensures Ordered(blocks, rs, result, picked)
    ensures picked <= rs && (picked != {} ==> !Acyclic(blocks, rs))
  {
    var inc := inc0;
    var noInc := [start];
    result := [];
    picked := {};
    while true
      invariant BestInv(blocks, start, rs, inc, noInc, result, picked)
      invariant picked <= rs && (picked != {} ==> !Acyclic(blocks, rs))
      decreases |inc.Keys|
    {
      ghost var incHead := inc;
      inc, result := TakeReady(blocks, start, rs, picked, inc, noInc, result);
      if inc == map[] {
        BestDone(blocks, start, rs, inc, result, picked);
        return;
      }
      // We have a loop: just pick a block.
      WaitingInOrder(blocks, start, rs, inc, result, picked, order);
      var i := FirstWaiting(order, inc);
      var b := order[i];
      StuckCycle(blocks, start, rs, inc, result, picked);
      BestPick(blocks, start, rs, inc, result, picked, b);
      PickCard(inc, incHead, b);
      noInc := [b];
      inc := inc - {b};
      picked := picked + {b};
    }
  }

  lemma WaitingInOrder(blocks: map<BlockId, Block>, start: BlockId, rs: set<BlockId>,
                       inc: map<BlockId, set<BlockId>>, result: seq<BlockId>, picked: set<BlockId>, order: seq<BlockId>)
    requires BestInv(blocks, start, rs, inc, [], result, picked) && rs == SetOf(order) && inc != map[]
    ensures exists c :: c in inc && c in order
  {
    var c :| c in inc;
    assert c in rs;
  }

  lemma SubsetCardStrict<T>(a: set<T>, b: set<T>, x: T)
    requires a + {x} <= b && x !in a
    ensures |a| < |b|
  {
    SubsetCard(a + {x}, b);
  }

  /** The loops of `topo_order_best_attempt` once `incoming` is built. */
  method BestKahn(blocks: map<BlockId, Block>, start: BlockId, order: seq<BlockId>, inc0: map<BlockId, set<BlockId>>)
    returns (result: seq<BlockId>, ok: bool, ghost picked: set<BlockId>)
    requires |order| >= 1 && order[0] == start && Distinct(order)
    requires IsReachSet(blocks, start, SetOf(order)) && IsIncoming(blocks, SetOf(order), inc0)
    ensures ok <==> Preds(blocks, SetOf(order), start) == {}
    ensures ok ==> Distinct(result) && SetOf(result) == SetOf(order) && |result| >= 1 && result[0] == start
    ensures ok ==> Ordered(blocks, SetOf(order), result, picked)
    ensures picked <= SetOf(order) && (picked != {} ==> !Acyclic(blocks, SetOf(order)))
  {
    ghost var rs := SetOf(order);
    IncomingKeys(blocks, start, rs, inc0);
    assert inc0.Keys + {start} == SetOf(order);
    StartKey(blocks, rs, inc0, start);
    if start in inc0 {
      // The first block popped is `start`: `assert block not in incoming` fails.
      return [], false, {};
    }
    BestInit(blocks, start, rs, inc0);
    result, picked := BestLoop(blocks, start, order, rs, inc0);
    assert SetOf(result) == SetOf(order);
    ok := true;
  }

  /**
   * `topo_order_best_attempt`: without loops, `topo_order`; otherwise every
   * reachable block once, the start block first, and each block after its
   * predecessors except where a loop had to be broken into, which happens
   * only when the graph really has a cycle.
   */
  method TopoOrderBestAttempt(g: Graph) returns (result: seq<BlockId>, ok: bool, ghost picked: set<BlockId>)
    requires g.Wf()
    ensures var rs := Reachable(g.blocks, g.start);
      (!g.hasLoop ==> (ok <==> Acyclic(g.blocks, rs)) && picked == {}) &&
      (g.hasLoop ==> (ok <==> Preds(g.blocks, rs, g.start) == {})) &&
      (ok ==> Distinct(result) && SetOf(result) == rs && |result| >= 1 && result[0] == g.start) &&
      (ok ==> Ordered(g.blocks, rs, result, picked)) &&
      (picked != {} ==> !Acyclic(g.blocks, rs)) &&
      (Acyclic(g.blocks, rs) ==> ok && TopoSorted(g.blocks, g.start, rs, result))
  {
    ghost var rs := Reachable(g.blocks, g.start);
    if !g.hasLoop {
      result, ok := TopoOrder(g);
      picked := {};
      if ok {
        SortedOrdered(g.blocks, g.start, rs, result);
      }
      return;
    }
    var order := g.IterBlocks();
    DfsOrder(g.blocks, g.start);
    assert SetOf(order) == rs;
    var inc := BuildIncoming(g.blocks, order);
    result, ok, picked := BestKahn(g.blocks, g.start, order, inc);
    if Acyclic(g.blocks, rs) {
      RankStart(g.blocks, g.start, rs);
      OrderedSorted(g.blocks, g.start, rs, result);
    }
  }
}
