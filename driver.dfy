/**
 * The `repeat` driver, which runs a cleanup pass until it reports no change
 * (at most 1000 rounds) and then checks the graph; `_bare_optimize`, the
 * fixed sequence of cleanup passes, and `light_simplify`, its repetition.
 * `remove_useless_switch`, which is not repeated itself but ends with the
 * repeated `remove_dead`, lives here too, and so does the repeated
 * `remove_dead` that `swap_not` runs after a change.
 */
module Driver {
  import opened Wrappers
  import opened Types
  import opened Ir
  import opened IrGraph
  import opened Passes
  import opened Branches
  import opened Joins
  import opened Cse
  import opened Asserts
  import opened Peephole
  import opened Optimizer

  /** The round limit of `repeat`. */
  const RoundLimit: nat := 1000

  /**
   * What the passes take from the code generator: the builtin-name map, the
   * runtime library (its unwraps and its pure functions) and the constant
   * folding of its pure functions.
   */
  datatype Support = Support(builtins: map<string, string>, lib: Library,
                             fold: (string, seq<Constant>, Type) -> Option<Constant>)

  /**
   * The passes the optimizer applies with `@repeat`. `RemoveIfTrueFalsePass`
   * is `remove_if_true_false` as a round of its own: the source runs it from
   * `remove_superfluous_enum_cases` and `remove_double_exception_check`,
   * which are not modelled, so no pass list here names it.
   */
  datatype Pass =
    | RemoveDeadPass
    | RemoveEmptyBlocksPass
    | JoinBlocksPass
    | SwapNotPass
    | SimplifyPhisPass
    | RemoveIfTrueFalsePass
    | ConvertSailAssertPass
    | CsePass
    | LocalOptPass(doubleCasts: bool)
    | BareOptimizePass

  /**
   * `_bare_optimize` runs the repeated passes, `swap_not` the repeated
   * `remove_dead`; every other pass is one round.
   */
  function Rank(p: Pass): nat
  {
    if p.BareOptimizePass? then 2 else if p.SwapNotPass? then 1 else 0
  }

  // ---------------------------------------------------------------------
  // repeat

  /** One round of pass `p`: the undecorated function. */
  method RunRound(g: Graph, p: Pass, cg: Support) returns (r: Result<bool>)
    requires g.Valid()
    modifies g`blocks, g`defs, g`nextBlock, g`nextOp
    ensures g.Valid()
    decreases Rank(p), 1
  {
    match p {
      case RemoveDeadPass =>
        ghost var order, needed;
        var changed;
        changed, order, needed := RemoveDead(g, cg.lib.pure, cg.builtins);
        r := Ok(changed);
      case RemoveEmptyBlocksPass =>
        r := RemoveEmptyBlocks(g);
      case JoinBlocksPass =>
        ghost var entry, keys;
        r, entry, keys := JoinBlocks(g);
      case SwapNotPass =>
        ghost var order;
        r, order := SwapNotRound(g, cg);
      case SimplifyPhisPass =>
        ghost var order;
        r, order := SimplifyPhisAsWritten(g);
      case RemoveIfTrueFalsePass =>
        ghost var order, keys;
        r, order, keys := RemoveIfTrueFalse(g);
      case ConvertSailAssertPass =>
        ghost var order;
        r, order := ConvertSailAsserts(g, cg.builtins);
      case CsePass =>
        ghost var entry, topo, sorted;
        r, entry, topo, sorted := CommonSubexpressions(g, cg.lib.pure, cg.builtins);
      case LocalOptPass(doubleCasts) =>
        r := LocalOptRound(g, cg, doubleCasts);
      case BareOptimizePass =>
        ghost var results;
        r, results := BareOptimize(g, cg);
    }
  }

  /**
   * `localopt`: one run of the local optimizer; when it reports no change,
   * the graph is as it was.
   */
  method LocalOptRound(g: Graph, cg: Support, doubleCasts: bool) returns (r: Result<bool>)
    requires g.Valid()
    modifies g`blocks, g`defs, g`nextOp
    ensures g.Valid()
    ensures r.Ok? && !r.value ==> g.blocks == old(g.blocks) && g.defs == old(g.defs) && g.nextOp == old(g.nextOp)
  {
    ghost var topo, ant, w, keys;
    r, topo, ant, w, keys := LocalOptimize(g, cg.builtins, cg.lib, cg.fold, doubleCasts);
  }

  /**
   * `swap_not`: the walk, and when it swapped a branch the repeated
   * `remove_dead`. The result is what the walk reported.
   */
  method SwapNotRound(g: Graph, cg: Support) returns (r: Result<bool>, ghost order: seq<BlockId>)
    requires g.Valid()
    modifies g`blocks, g`defs, g`nextBlock, g`nextOp
    ensures g.Valid()
    ensures order == Dfs(old(g.blocks), [g.start], {})
    ensures (exists b | b in order :: SwapNext(old(g.blocks)[b].next, old(g.defs)).Failure?) ==> r.Failure?
    ensures r.Ok? ==> (r.value <==> exists b | b in order :: NegatedBranch(old(g.blocks)[b].next, old(g.defs)))
    ensures r.Ok? && !r.value ==> g.blocks == old(g.blocks) && g.defs == old(g.defs)
    decreases 1, 0
  {
    r, order := SwapNot(g);
    if r.Ok? && !r.value {
      SwapIdle(old(g.blocks), g.defs, order);
    }
    if r.Ok? && r.value {
      ghost var changes;
      var d;
      d, changes := Repeated(g, RemoveDeadPass, cg);
      if d.Failure? {
        r := d;
      }
    }
  }

  /**
   * `repeat(func)`: rounds of `p` until one reports no change, at most
   * `RoundLimit` of them; the result says whether the first round changed
   * anything, and a changed graph is checked. `changes` lists what each
   * round reported: every round but the last reported a change, and the
   * last reported none unless the limit was reached.
   */
  method Repeated(g: Graph, p: Pass, cg: Support)
    returns (r: Result<bool>, ghost changes: seq<bool>)
    requires g.Valid()
    modifies g`blocks, g`defs, g`nextBlock, g`nextOp
    ensures g.Valid() && |changes| <= RoundLimit
    ensures forall i | 0 <= i < |changes| - 1 :: changes[i]
    ensures r.Ok? ==> |changes| >= 1 && r.value == changes[0]
    ensures r.Ok? && |changes| < RoundLimit ==> !changes[|changes| - 1]
    ensures r.Ok? && r.value ==> Consistent(g.blocks, g.defs, g.start, g.args, Dfs(g.blocks, [g.start], {}))
    decreases Rank(p), 2
  {
    var everChanged := false;
    changes := [];
    var i := 0;
    while i < RoundLimit
      invariant g.Valid() && i == |changes| <= RoundLimit
      invariant forall j | 0 <= j < |changes| :: changes[j]
      invariant everChanged <==> |changes| >= 1
    {
      var c := RunRound(g, p, cg);
      if c.Failure? {
        return Failure(c.msg), changes;
      }
      changes := changes + [c.value];
      if !c.value {
        break;
      }
      everChanged := true;
      i := i + 1;
    }
    if everChanged {
      var ok := g.Check();
      if !ok {
        return Failure("graph check failed"), changes;
      }
    }
    r := Ok(everChanged);
  }

  // ---------------------------------------------------------------------
  // remove_useless_switch

  /** A `ConditionalGoto` whose two targets are the same block. */
  predicate UselessSwitch(n: Next)
  {
    n.ConditionalGoto? && n.truetarget == n.falsetarget
  }

  /** The blocks of `done` that end in a useless switch jump straight to its target. */
  function Unswitched(blocks: map<BlockId, Block>, done: set<BlockId>): (r: map<BlockId, Block>)
    ensures r.Keys == blocks.Keys
  {
    map x | x in blocks ::
      if x in done && UselessSwitch(blocks[x].next) then Block(blocks[x].ops, Goto(blocks[x].next.truetarget))
      else blocks[x]
  }

  /** The `assert not isinstance(op, Phi)` on the target of a useless switch of `x` fails. */
  ghost predicate PhiAtSwitch(blocks: map<BlockId, Block>, defs: map<OpId, Def>, x: BlockId)
    requires x in blocks && SuccClosed(blocks) && OpsDefined(blocks, defs)
  {
    UselessSwitch(blocks[x].next) &&
    (assert blocks[x].next.truetarget in NextBlocks(blocks[x].next);
     exists o | o in blocks[blocks[x].next.truetarget].ops :: defs[o].Phi?)
  }

  /**
   * Unswitching keeps every block's operations and the set of its successors,
   * and leaves no useless switch in the blocks it covers.
   */
  lemma UnswitchedSpec(blocks: map<BlockId, Block>, done: set<BlockId>)
    ensures var r := Unswitched(blocks, done);
      (forall x | x in blocks :: r[x].ops == blocks[x].ops && SetOf(Succ(r, x)) == SetOf(Succ(blocks, x))) &&
      (forall x | x in blocks && x in done :: !UselessSwitch(r[x].next)) &&
      (forall x | x in blocks && x !in done :: r[x] == blocks[x]) &&
      ((forall x | x in blocks && x in done :: !UselessSwitch(blocks[x].next)) ==> r == blocks) &&
      (SuccClosed(blocks) ==> SuccClosed(r))
  {
    var r := Unswitched(blocks, done);
    forall x | x in blocks
      ensures SetOf(Succ(r, x)) == SetOf(Succ(blocks, x))
    {
      if x in done && UselessSwitch(blocks[x].next) {
        var t := blocks[x].next.truetarget;
        assert Succ(r, x) == [t] && Succ(blocks, x) == [t, t];
      }
    }
  }

  /** Every block of `done` either keeps its terminator or has its useless switch collapsed. */
  lemma UnswitchedNext(blocks: map<BlockId, Block>, done: set<BlockId>, x: BlockId)
    requires x in blocks
    ensures Unswitched(blocks, done + {x}) ==
      if UselessSwitch(blocks[x].next) then Unswitched(blocks, done)[x := Block(blocks[x].ops, Goto(blocks[x].next.truetarget))]
      else Unswitched(blocks, done)
  {
  }

  /** `for op in target.operations: assert not isinstance(op, Phi)`. */
  method HasPhiOn(defs: map<OpId, Def>, ops: seq<OpId>) returns (found: bool)
    requires forall o | o in ops :: o in defs
    ensures found <==> exists o | o in ops :: defs[o].Phi?
  {
    found := false;
    for i := 0 to |ops|
      invariant forall j | 0 <= j < i :: !defs[ops[j]].Phi?
    {
      if defs[ops[i]].Phi? {
        return true;
      }
    }
  }

  /** What the loop of `UnswitchOn` knows after the first `i` listed blocks. */
  ghost predicate UnswitchInv(blocks: map<BlockId, Block>, defs: map<OpId, Def>, order: seq<BlockId>, i: nat,
                              cur: map<BlockId, Block>, res: bool)
    requires SuccClosed(blocks) && OpsDefined(blocks, defs) && (forall x | x in order :: x in blocks) && i <= |order|
  {
    cur == Unswitched(blocks, SetOf(order[..i])) &&
    (forall j | 0 <= j < i :: !PhiAtSwitch(blocks, defs, order[j])) &&
    (res <==> exists j | 0 <= j < i :: UselessSwitch(blocks[order[j]].next))
  }

  /** One more listed block: a useless switch not yet collapsed is one of `blocks` itself. */
  lemma UnswitchStep(blocks: map<BlockId, Block>, defs: map<OpId, Def>, order: seq<BlockId>, i: nat,
                     cur: map<BlockId, Block>, res: bool)
    requires SuccClosed(blocks) && OpsDefined(blocks, defs) && (forall x | x in order :: x in blocks) && i < |order|
    requires UnswitchInv(blocks, defs, order, i, cur, res)
    ensures var x := order[i];
      var t := cur[x].next;
      if UselessSwitch(t) then
        cur[x] == blocks[x] && t.truetarget in blocks && cur[t.truetarget].ops == blocks[t.truetarget].ops &&
        (PhiAtSwitch(blocks, defs, x) <==> exists o | o in blocks[t.truetarget].ops :: defs[o].Phi?) &&
        (!PhiAtSwitch(blocks, defs, x) ==> UnswitchInv(blocks, defs, order, i + 1, cur[x := Block(cur[x].ops, Goto(t.truetarget))], true))
      else UnswitchInv(blocks, defs, order, i + 1, cur, res)
  {
    var x := order[i];
    assert SetOf(order[..i + 1]) == SetOf(order[..i]) + {x} by {
      assert order[..i + 1] == order[..i] + [x];
    }
    UnswitchedNext(blocks, SetOf(order[..i]), x);
    if x in SetOf(order[..i]) {
      var j :| 0 <= j < i && order[j] == x;
      assert !PhiAtSwitch(blocks, defs, order[j]);
      if UselessSwitch(blocks[x].next) {
        assert UselessSwitch(blocks[order[j]].next);
      }
    } else {
      assert cur[x] == blocks[x];
    }
    if UselessSwitch(cur[x].next) {
      assert cur[x] == blocks[x];
      assert blocks[x].next.truetarget in NextBlocks(blocks[x].next);
    }
  }

  /** At the end of the list the invariant of `UnswitchOn` is its postcondition. */
  lemma UnswitchDone(blocks: map<BlockId, Block>, defs: map<OpId, Def>, order: seq<BlockId>, cur: map<BlockId, Block>, res: bool)
    requires SuccClosed(blocks) && OpsDefined(blocks, defs) && (forall x | x in order :: x in blocks)
    requires UnswitchInv(blocks, defs, order, |order|, cur, res)
    ensures !exists x | x in order :: PhiAtSwitch(blocks, defs, x)
    ensures cur == Unswitched(blocks, SetOf(order))
    ensures res <==> exists x | x in order :: UselessSwitch(blocks[x].next)
  {
    assert order[..|order|] == order;
    if res {
      var j :| 0 <= j < |order| && UselessSwitch(blocks[order[j]].next);
      assert order[j] in order;
    }
    forall x | x in order ensures !PhiAtSwitch(blocks, defs, x) {
      var j :| 0 <= j < |order| && order[j] == x;
    }
  }

  /** The loop of `remove_useless_switch` over the listed blocks, on the blocks as values. */
  method UnswitchOn(blocks: map<BlockId, Block>, defs: map<OpId, Def>, order: seq<BlockId>)
    returns (r: Result<(map<BlockId, Block>, bool)>)
    requires SuccClosed(blocks) && OpsDefined(blocks, defs) && forall x | x in order :: x in blocks
    ensures r.Failure? <==> exists x | x in order :: PhiAtSwitch(blocks, defs, x)
    ensures r.Ok? ==> r.value.0 == Unswitched(blocks, SetOf(order))
    ensures r.Ok? ==> (r.value.1 <==> exists x | x in order :: UselessSwitch(blocks[x].next))
  {
    var cur: map<BlockId, Block> := blocks;
    var res := false;
    assert order[..0] == [];
    for i := 0 to |order|
      invariant UnswitchInv(blocks, defs, order, i, cur, res)
    {
      var step := UnswitchOne(blocks, defs, order, i, cur, res);
      if step.Failure? {
        assert order[i] in order;
        return Failure(step.msg);
      }
      cur, res := step.value.0, step.value.1;
    }
    UnswitchDone(blocks, defs, order, cur, res);
    r := Ok((cur, res));
  }

  /** The body of the loop of `remove_useless_switch`, for listed block `i`. */
  method UnswitchOne(blocks: map<BlockId, Block>, defs: map<OpId, Def>, order: seq<BlockId>, i: nat,
                     cur: map<BlockId, Block>, res: bool) returns (r: Result<(map<BlockId, Block>, bool)>)
    requires SuccClosed(blocks) && OpsDefined(blocks, defs) && (forall x | x in order :: x in blocks) && i < |order|
    requires UnswitchInv(blocks, defs, order, i, cur, res)
    ensures r.Failure? ==> PhiAtSwitch(blocks, defs, order[i])
    ensures r.Ok? ==> UnswitchInv(blocks, defs, order, i + 1, r.value.0, r.value.1)
  {
    UnswitchStep(blocks, defs, order, i, cur, res);
    var x := order[i];
    var n := cur[x].next;
    r := Ok((cur, res));
    if n.ConditionalGoto? && n.truetarget == n.falsetarget {
      var phi := HasPhiOn(defs, cur[n.truetarget].ops);
      if phi {
        return Failure("phi in the target of a useless switch");
      }
      r := Ok((cur[x := Block(cur[x].ops, Goto(n.truetarget))], true));
    }
  }

  /** The loop of `remove_useless_switch` on the graph. */
  method UselessSwitchRound(g: Graph) returns (r: Result<bool>, ghost order: seq<BlockId>)
    requires g.Valid()
    modifies g`blocks
    ensures g.Valid()
    ensures order == Dfs(old(g.blocks), [g.start], {}) && forall x | x in order :: x in old(g.blocks)
    ensures r.Failure? <==> exists x | x in order :: PhiAtSwitch(old(g.blocks), g.defs, x)
    ensures r.Ok? ==> g.blocks == Unswitched(old(g.blocks), SetOf(order))
    ensures r.Ok? ==> (r.value <==> exists x | x in order :: UselessSwitch(old(g.blocks)[x].next))
  {
    var walk := g.IterBlocks();
    order := walk;
    var s := UnswitchOn(g.blocks, g.defs, walk);
    if s.Failure? {
      return Failure(s.msg), order;
    }
    UnswitchedSpec(g.blocks, SetOf(walk));
    StoreBlocks(g, s.value.0);
    r := Ok(s.value.1);
  }

  /**
   * `remove_useless_switch`: every listed block whose branch has one target
   * for both outcomes jumps there instead; if any did, the repeated
   * `remove_dead` follows. It fails on a phi in such a target.
   */
  method RemoveUselessSwitch(g: Graph, cg: Support)
    returns (r: Result<bool>, ghost order: seq<BlockId>)
    requires g.Valid()
    modifies g`blocks, g`defs, g`nextBlock, g`nextOp
    ensures g.Valid()
    ensures order == Dfs(old(g.blocks), [g.start], {}) && forall x | x in order :: x in old(g.blocks)
    ensures (exists x | x in order :: PhiAtSwitch(old(g.blocks), old(g.defs), x)) ==> r.Failure?
    ensures r.Ok? ==> (r.value <==> exists x | x in order :: UselessSwitch(old(g.blocks)[x].next))
    ensures r.Ok? && !r.value ==> g.blocks == old(g.blocks) && g.defs == old(g.defs)
    decreases 0, 3
  {
    ghost var blocks0 := g.blocks;
    var s;
    s, order := UselessSwitchRound(g);
    if s.Failure? {
      return s, order;
    }
    if !s.value {
      UnswitchedSpec(blocks0, SetOf(order));
      return s, order;
    }
    ghost var changes;
    var d;
    d, changes := Repeated(g, RemoveDeadPass, cg);
    if d.Failure? {
      return d, order;
    }
    r := Ok(true);
  }

  // ---------------------------------------------------------------------
  // _bare_optimize

  /**
   * The passes of `_bare_optimize` in their order, all repeated but the last,
   * `remove_useless_switch`.
   */
  const BarePasses: seq<Pass> := [JoinBlocksPass, RemoveDeadPass, SimplifyPhisPass, LocalOptPass(false),
                                  RemoveEmptyBlocksPass, SwapNotPass, CsePass, LocalOptPass(true)]

  /**
   * `_bare_optimize`: the passes in their fixed order. `results` holds what
   * each reported, the ones of `BarePasses` and then `remove_useless_switch`;
   * a failing pass stops the sequence. The result is whether any reported a
   * change.
   */
  method BareOptimize(g: Graph, cg: Support) returns (r: Result<bool>, ghost results: seq<bool>)
    requires g.Valid()
    modifies g`blocks, g`defs, g`nextBlock, g`nextOp
    ensures g.Valid()
    ensures r.Ok? ==> |results| == |BarePasses| + 1 && (r.value <==> true in results)
    ensures r.Failure? ==> |results| <= |BarePasses|
    decreases 2, 0
  {
    results := [];
    var res := false;
    for i := 0 to |BarePasses|
      invariant g.Valid() && |results| == i && (res <==> true in results)
    {
      ghost var changes;
      var s;
      s, changes := Repeated(g, BarePasses[i], cg);
      if s.Failure? {
        return s, results;
      }
      results := results + [s.value];
      res := s.value || res;
    }
    ghost var order;
    var u;
    u, order := RemoveUselessSwitch(g, cg);
    if u.Failure? {
      return u, results;
    }
    results := results + [u.value];
    r := Ok(u.value || res);
  }

  /** `light_simplify` (`_optimize`): `_bare_optimize` repeated. */
  method LightSimplify(g: Graph, cg: Support) returns (r: Result<bool>, ghost changes: seq<bool>)
    requires g.Valid()
    modifies g`blocks, g`defs, g`nextBlock, g`nextOp
    ensures g.Valid() && |changes| <= RoundLimit
    ensures r.Ok? ==> |changes| >= 1 && r.value == changes[0]
    ensures r.Ok? && |changes| < RoundLimit ==> !changes[|changes| - 1]
    ensures r.Ok? && r.value ==> Consistent(g.blocks, g.defs, g.start, g.args, Dfs(g.blocks, [g.start], {}))
    decreases 3, 0
  {
    r, changes := Repeated(g, BareOptimizePass, cg);
  }
}
