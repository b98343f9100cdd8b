/**
 * `find_anticipated_casts`, a backward dataflow analysis over the whole
 * graph whose sets are intersected over the successors.
 */
module Dataflow {
  import opened Wrappers
  import opened Types
  import opened Ir
  import opened IrGraph
  import opened Topo
  import opened Passes

  /** `value.resolved_type`; a reference to a slot the arena does not hold has no type here and reads as `Unit`. */
  function ValueType(defs: map<OpId, Def>, v: Value): Type
  {
    match v
    case Argument(_, t) => t
    case OpRef(o) => if o in defs then defs[o].typ else Unit
    case Const(c) => ConstType(c)
  }

  function Reversed<T>(s: seq<T>): (r: seq<T>)
    ensures |r| == |s| && forall i | 0 <= i < |s| :: r[i] == s[|s| - 1 - i]
  {
    if s == [] then [] else Reversed(s[1..]) + [s[0]]
  }

  // ---------------------------------------------------------------------
  // find_anticipated_casts

  /** An anticipated cast: a value and the small bitvector or machine integer type it is cast to. */
  type CastTo = (Value, Type)

  /** `zz5izDzKz5i64`, the mangled name of `int_to_int64`. */
  const IntToInt64: string := "zz5izDzKz5i64"

  /** A cast to a small fixed bitvector, or a call of `int_to_int64`, with the argument it converts. */
  predicate RecordsCast(d: Def)
  {
    d.Op? && |d.args| >= 1 && ((d.kind == Cast && IsSmallFixed(d.typ)) || d.name == IntToInt64)
  }

  /** The casts that happen within a block. */
  ghost function CastsIn(defs: map<OpId, Def>, ops: seq<OpId>): set<CastTo>
    requires forall o | o in ops :: o in defs
  {
    set o | o in ops && RecordsCast(defs[o]) :: (defs[o].args[0], defs[o].typ)
  }

  /** The successors that do not end in `Raise`, in order. */
  function NonRaising(blocks: map<BlockId, Block>, ns: seq<BlockId>): (r: seq<BlockId>)
    requires forall n | n in ns :: n in blocks
    ensures forall n :: n in r <==> n in ns && !blocks[n].next.Raise?
  {
    if ns == [] then []
    else NonRaising(blocks, ns[..|ns| - 1]) + (if blocks[ns[|ns| - 1]].next.Raise? then [] else [ns[|ns| - 1]])
  }

  /** `s = set(m[ns[0]])`, then `intersection_update` with the sets of the other blocks. */
  function Meet(m: map<BlockId, set<CastTo>>, ns: seq<BlockId>): (r: set<CastTo>)
    requires ns != [] && forall n | n in ns :: n in m
    ensures forall x :: x in r <==> forall n | n in ns :: x in m[n]
  {
    if |ns| == 1 then m[ns[0]]
    else
      var r := Meet(m, ns[..|ns| - 1]) * m[ns[|ns| - 1]];
      assert forall n | n in ns :: n in ns[..|ns| - 1] || n == ns[|ns| - 1];
      r
  }

  /** The set of one block: the meet over its non-raising successors when all are done, plus its own casts. */
  ghost function AnticipatedIn(blocks: map<BlockId, Block>, defs: map<OpId, Def>, m: map<BlockId, set<CastTo>>, b: BlockId): set<CastTo>
    requires SuccClosed(blocks) && OpsDefined(blocks, defs) && b in blocks
  {
    var ns := NonRaising(blocks, Succ(blocks, b));
    (if ns != [] && forall n | n in ns :: n in m then Meet(m, ns) else {}) + CastsIn(defs, blocks[b].ops)
  }

  /** The loop of `find_anticipated_casts` over `order`, the reversed topological order. */
  ghost function Anticipated(blocks: map<BlockId, Block>, defs: map<OpId, Def>, order: seq<BlockId>): (r: map<BlockId, set<CastTo>>)
    requires SuccClosed(blocks) && OpsDefined(blocks, defs) && forall b | b in order :: b in blocks
    ensures r.Keys == SetOf(order)
  {
    if order == [] then map[]
    else
      var m := Anticipated(blocks, defs, order[..|order| - 1]);
      assert SetOf(order) == SetOf(order[..|order| - 1]) + {order[|order| - 1]} by {
        assert forall b | b in order :: b in order[..|order| - 1] || b == order[|order| - 1];
      }
      m[order[|order| - 1] := AnticipatedIn(blocks, defs, m, order[|order| - 1])]
  }

  /** Each entry is set once, so a longer walk keeps the entries of a shorter one. */
  lemma {:induction false} AnticipatedPrefix(blocks: map<BlockId, Block>, defs: map<OpId, Def>, order: seq<BlockId>, i: nat)
    requires SuccClosed(blocks) && OpsDefined(blocks, defs) && (forall b | b in order :: b in blocks) && Distinct(order)
    requires i <= |order|
    ensures forall b | b in order[..i] :: Anticipated(blocks, defs, order)[b] == Anticipated(blocks, defs, order[..i])[b]
  {
    if i < |order| {
      var init := order[..|order| - 1];
      assert init[..i] == order[..i];
      assert forall b | b in init :: b in order;
      assert Distinct(init) by {
        assert forall j | 0 <= j < |init| :: init[j] == order[j];
      }
      AnticipatedPrefix(blocks, defs, init, i);
      forall b | b in order[..i] ensures b != order[|order| - 1] {
        var j :| 0 <= j < i && order[j] == b;
      }
    } else {
      assert order[..i] == order;
    }
  }

  /**
   * The dataflow equation the result satisfies: the set of the block at
   * position `i` is the intersection of the sets of its non-raising
   * successors, taken only when all of them come earlier in the order, plus
   * the casts within the block.
   */
  lemma AnticipatedAt(blocks: map<BlockId, Block>, defs: map<OpId, Def>, order: seq<BlockId>, i: nat)
    requires SuccClosed(blocks) && OpsDefined(blocks, defs) && (forall b | b in order :: b in blocks) && Distinct(order)
    requires i < |order|
    ensures var a := Anticipated(blocks, defs, order);
      var b := order[i];
      var ns := NonRaising(blocks, Succ(blocks, b));
      a[b] ==
        (if ns != [] && forall n | n in ns :: n in order[..i] then Meet(a, ns) else {}) + CastsIn(defs, blocks[b].ops)
  {
    var a := Anticipated(blocks, defs, order);
    var b := order[i];
    AnticipatedPrefix(blocks, defs, order, i + 1);
    AnticipatedPrefix(blocks, defs, order, i);
    AnticipatedLast(blocks, defs, order, i);
    var m := Anticipated(blocks, defs, order[..i]);
    assert b in order[..i + 1];
    var ns := NonRaising(blocks, Succ(blocks, b));
    if ns != [] && forall n | n in ns :: n in order[..i] {
      MeetAgree(a, m, ns);
    }
  }

  lemma AnticipatedLast(blocks: map<BlockId, Block>, defs: map<OpId, Def>, order: seq<BlockId>, i: nat)
    requires SuccClosed(blocks) && OpsDefined(blocks, defs) && (forall b | b in order :: b in blocks) && i < |order|
    ensures Anticipated(blocks, defs, order[..i + 1])[order[i]] ==
      AnticipatedIn(blocks, defs, Anticipated(blocks, defs, order[..i]), order[i])
  {
    var pre := order[..i + 1];
    assert pre[..|pre| - 1] == order[..i];
  }

  lemma MeetAgree(m1: map<BlockId, set<CastTo>>, m2: map<BlockId, set<CastTo>>, ns: seq<BlockId>)
    requires ns != [] && forall n | n in ns :: n in m1 && n in m2 && m1[n] == m2[n]
    ensures Meet(m1, ns) == Meet(m2, ns)
  {
  }

  /** In a graph without cycles the reversed topological order puts every successor first. */
  lemma ReversedTopo(blocks: map<BlockId, Block>, start: BlockId, rs: set<BlockId>, topo: seq<BlockId>, i: nat)
    requires TopoSorted(blocks, start, rs, topo) && ClosedFrom(blocks, start, rs) && i < |topo|
    ensures var order := Reversed(topo);
      order[i] in blocks ==> forall n | n in Succ(blocks, order[i]) :: n in order[..i]
  {
    var order := Reversed(topo);
    if order[i] in blocks {
      forall n | n in Succ(blocks, order[i]) ensures n in order[..i] {
        ReversedSucc(blocks, start, rs, topo, i, n);
      }
    }
  }

  /** One successor of `ReversedTopo`: it comes later in `topo`, so earlier in the reversed order. */
  lemma ReversedSucc(blocks: map<BlockId, Block>, start: BlockId, rs: set<BlockId>, topo: seq<BlockId>, i: nat, n: BlockId)
    requires TopoSorted(blocks, start, rs, topo) && ClosedFrom(blocks, start, rs) && i < |topo|
    requires Reversed(topo)[i] in blocks && n in Succ(blocks, Reversed(topo)[i])
    ensures n in Reversed(topo)[..i]
  {
    var order := Reversed(topo);
    var k := |topo| - 1 - i;
    assert topo[k] == order[i] && topo[k] in rs;
    assert n in SetOf(topo);
    var j :| 0 <= j < |topo| && topo[j] == n;
    assert k < j;
    assert order[|topo| - 1 - j] == n;
  }

  lemma ReversedSet<T>(s: seq<T>)
    ensures SetOf(Reversed(s)) == SetOf(s)
    ensures Distinct(s) ==> Distinct(Reversed(s))
  {
    var r := Reversed(s);
    forall x | x in s ensures x in r {
      var i :| 0 <= i < |s| && s[i] == x;
      assert r[|s| - 1 - i] == x;
    }
  }

  /**
   * Without cycles the analysis is the plain backward one: the set of a
   * block is the intersection of the sets of its non-raising successors
   * (empty when there are none) plus its own casts.
   */
  lemma AnticipatedAcyclic(blocks: map<BlockId, Block>, defs: map<OpId, Def>, start: BlockId, rs: set<BlockId>,
                           topo: seq<BlockId>, b: BlockId)
    requires SuccClosed(blocks) && OpsDefined(blocks, defs) && rs <= blocks.Keys
    requires TopoSorted(blocks, start, rs, topo) && ClosedFrom(blocks, start, rs) && b in topo
    ensures var a := Anticipated(blocks, defs, Reversed(topo));
      var ns := NonRaising(blocks, Succ(blocks, b));
      a.Keys == rs && forall n | n in ns :: n in a
    ensures var a := Anticipated(blocks, defs, Reversed(topo));
      var ns := NonRaising(blocks, Succ(blocks, b));
      a[b] == (if ns != [] then Meet(a, ns) else {}) + CastsIn(defs, blocks[b].ops)
  {
    var order := Reversed(topo);
    ReversedSet(topo);
    var i :| 0 <= i < |order| && order[i] == b;
    ReversedTopo(blocks, start, rs, topo, i);
    AnticipatedAt(blocks, defs, order, i);
  }

  lemma AnticipatedNext(blocks: map<BlockId, Block>, defs: map<OpId, Def>, order: seq<BlockId>, i: nat)
    requires SuccClosed(blocks) && OpsDefined(blocks, defs) && (forall b | b in order :: b in blocks) && i < |order|
    ensures var m := Anticipated(blocks, defs, order[..i]);
      Anticipated(blocks, defs, order[..i + 1]) == m[order[i] := AnticipatedIn(blocks, defs, m, order[i])]
  {
    assert order[..i + 1][..i] == order[..i];
  }

  /** The casts of one block, as the loop over its operations collects them. */
  method CastsInOn(defs: map<OpId, Def>, ops: seq<OpId>) returns (s: set<CastTo>)
    requires forall o | o in ops :: o in defs
    ensures s == CastsIn(defs, ops)
  {
    s := {};
    for i := 0 to |ops|
      invariant s == CastsIn(defs, ops[..i])
    {
      var d := defs[ops[i]];
      assert forall o | o in ops[..i + 1] :: o in ops[..i] || o == ops[i];
      if RecordsCast(d) {
        s := s + {(d.args[0], d.typ)};
      }
    }
    assert ops[..|ops|] == ops;
  }

  /** The intersection loop: start from the first successor's set and intersect with the others. */
  method MeetOn(m: map<BlockId, set<CastTo>>, ns: seq<BlockId>) returns (s: set<CastTo>)
    requires ns != [] && forall n | n in ns :: n in m
    ensures s == Meet(m, ns)
  {
    s := m[ns[0]];
    for i := 1 to |ns|
      invariant s == Meet(m, ns[..i])
    {
      assert ns[..i + 1][..i] == ns[..i];
      s := s * m[ns[i]];
    }
    assert ns[..|ns|] == ns;
  }

  /** The loop of `find_anticipated_casts` over the blocks in `order`. */
  method AnticipatedOn(blocks: map<BlockId, Block>, defs: map<OpId, Def>, order: seq<BlockId>)
    returns (m: map<BlockId, set<CastTo>>)
    requires SuccClosed(blocks) && OpsDefined(blocks, defs) && forall b | b in order :: b in blocks
    ensures m == Anticipated(blocks, defs, order)
  {
    m := map[];
    for i := 0 to |order|
      invariant m == Anticipated(blocks, defs, order[..i])
    {
      var b := order[i];
      AnticipatedNext(blocks, defs, order, i);
      var ns := NonRaising(blocks, Succ(blocks, b));
      var s: set<CastTo> := {};
      if ns != [] && forall n | n in ns :: n in m {
        s := MeetOn(m, ns);
      }
      var casts := CastsInOn(defs, blocks[b].ops);
      m := m[b := s + casts];
    }
    assert order[..|order|] == order;
  }

  /**
   * `find_anticipated_casts`: the analysis over the reversed result of
   * `topo_order_best_attempt`; it fails where that does.
   */
  method FindAnticipatedCasts(g: Graph) returns (r: Result<map<BlockId, set<CastTo>>>, ghost topo: seq<BlockId>)
    requires g.Wf()
    ensures var rs := Reachable(g.blocks, g.start);
      r.Ok? ==>
        SetOf(topo) == rs && Distinct(topo) && (forall b | b in Reversed(topo) :: b in g.blocks) &&
        r.value == Anticipated(g.blocks, g.defs, Reversed(topo))
    ensures var rs := Reachable(g.blocks, g.start);
      (!g.hasLoop ==> (r.Ok? <==> Acyclic(g.blocks, rs))) &&
      (Acyclic(g.blocks, rs) ==> r.Ok? && TopoSorted(g.blocks, g.start, rs, topo))
  {
    var result, ok, picked := TopoOrderBestAttempt(g);
    topo := result;
    if !ok {
      return Failure("no topological order"), topo;
    }
    ghost var rs := Reachable(g.blocks, g.start);
    DfsOrder(g.blocks, g.start);
    assert rs <= g.blocks.Keys by {
      assert forall x | x in Dfs(g.blocks, [g.start], {}) :: x in g.blocks;
    }
    var order := Reversed(result);
    ReversedSet(result);
    var m := AnticipatedOn(g.blocks, g.defs, order);
    r := Ok(m);
  }
}
