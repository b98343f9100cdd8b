/**
 * `convert_sail_assert_to_exception`: every call of `zsail_assert` becomes a
 * branch. The block is split after the call, and the call itself is dropped.
 * The block then ends in a `ConditionalGoto` on the asserted condition, with
 * the rest of the block as the true target and a fresh block that raises the
 * message as the false target. One call per block is lowered per round.
 */
module Asserts {
  import opened Wrappers
  import opened Types
  import opened Ir
  import opened IrGraph
  import opened Passes

  const SailAssert: string := "zsail_assert"

  /** An operation (of any class) that calls `zsail_assert` after builtin renaming. */
  predicate IsAssert(d: Def, builtins: map<string, string>)
  {
    d.Op? && BuiltinName(builtins, d.name) == SailAssert
  }

  /** The index of the first assertion among `ops`. */
  function FirstAssert(defs: map<OpId, Def>, ops: seq<OpId>, builtins: map<string, string>): (r: Option<nat>)
    requires forall o | o in ops :: o in defs
    ensures r.Some? ==> r.value < |ops| && IsAssert(defs[ops[r.value]], builtins)
    ensures r.Some? ==> forall j | 0 <= j < r.value :: !IsAssert(defs[ops[j]], builtins)
    ensures r.None? ==> forall j | 0 <= j < |ops| :: !IsAssert(defs[ops[j]], builtins)
  {
    if ops == [] then None
    else if IsAssert(defs[ops[0]], builtins) then Some(0)
    else
      match FirstAssert(defs, ops[1..], builtins)
      case None => None
      case Some(i) => Some(i + 1)
  }

  /** `for index, op in enumerate(block.operations)` up to the first assertion. */
  method FirstAssertOn(defs: map<OpId, Def>, ops: seq<OpId>, builtins: map<string, string>) returns (r: Option<nat>)
    requires forall o | o in ops :: o in defs
    ensures r == FirstAssert(defs, ops, builtins)
  {
    for i := 0 to |ops|
      invariant forall j | 0 <= j < i :: !IsAssert(defs[ops[j]], builtins)
    {
      if IsAssert(defs[ops[i]], builtins) {
        FirstAssertIs(defs, ops, builtins, i);
        return Some(i);
      }
    }
    FirstAssertNone(defs, ops, builtins);
    return None;
  }

  lemma {:induction false} FirstAssertIs(defs: map<OpId, Def>, ops: seq<OpId>, builtins: map<string, string>, i: nat)
    requires forall o | o in ops :: o in defs
    requires i < |ops| && IsAssert(defs[ops[i]], builtins) && forall j | 0 <= j < i :: !IsAssert(defs[ops[j]], builtins)
    ensures FirstAssert(defs, ops, builtins) == Some(i)
  {
    if i > 0 {
      assert !IsAssert(defs[ops[0]], builtins);
      FirstAssertIs(defs, ops[1..], builtins, i - 1);
    }
  }

  lemma {:induction false} FirstAssertNone(defs: map<OpId, Def>, ops: seq<OpId>, builtins: map<string, string>)
    requires forall o | o in ops :: o in defs
    requires forall j | 0 <= j < |ops| :: !IsAssert(defs[ops[j]], builtins)
    ensures FirstAssert(defs, ops, builtins) == None
  {
    if ops != [] {
      assert !IsAssert(defs[ops[0]], builtins);
      FirstAssertNone(defs, ops[1..], builtins);
    }
  }

  /** The comment `sail_assert <message>` that a string message leaves behind. */
  function AssertComment(msg: Value): Option<string>
  {
    if msg.Const? && msg.c.StringConstant? then Some("sail_assert " + msg.c.s) else None
  }

  // ---------------------------------------------------------------------
  // Arena updates

  /** Retargeting phis changes only phis. */
  lemma {:induction false} RetargetKeepsOps(blocks: map<BlockId, Block>, defs: map<OpId, Def>, succs: seq<BlockId>, a: BlockId, c: BlockId)
    requires forall b, o | b in blocks && o in blocks[b].ops :: o in defs
    requires forall s | s in succs :: s in blocks
    ensures var r := RetargetPhis(blocks, defs, succs, a, c);
      r.Some? ==> forall o | o in defs :: r.value[o].Op? == defs[o].Op? && (defs[o].Op? ==> r.value[o] == defs[o])
  {
    if succs != [] {
      assert forall s | s in succs[..|succs| - 1] :: s in succs;
      RetargetKeepsOps(blocks, defs, succs[..|succs| - 1], a, c);
    }
  }

  /** Splitting a block keeps every operation's slot and leaves non-phis alone. */
  lemma SplitKeepsDefs(blocks: map<BlockId, Block>, defs: map<OpId, Def>, b: BlockId, index: nat, nb: BlockId)
    requires b in blocks && SuccClosed(blocks)
    requires forall x, o | x in blocks && o in blocks[x].ops :: o in defs
    ensures var mid := SplitBlocks(blocks, b, index, false, nb);
      var rp := RetargetPhis(mid, defs, Succ(blocks, b), b, nb);
      rp.Some? ==> DefsKept(defs, rp.value)
  {
    var mid := SplitBlocks(blocks, b, index, false, nb);
    var ops := blocks[b].ops;
    assert forall o | o in ops[Clip(index + 1, |ops|)..] :: o in ops;
    assert forall o | o in ops[..Clip(index, |ops|)] :: o in ops;
    assert forall x, o | x in mid && o in mid[x].ops :: o in defs;
    RetargetKeepsOps(mid, defs, Succ(blocks, b), b, nb);
  }

  /** A fresh block that raises `msg`. */
  method AddRaiseBlock(g: Graph, msg: Value) returns (fb: BlockId)
    requires g.Valid()
    modifies g`blocks, g`nextBlock
    ensures g.Valid() && fb == old(g.nextBlock) && g.nextBlock == fb + 1 && fb !in old(g.blocks)
    ensures g.blocks == old(g.blocks)[fb := Block([], Raise(msg))]
  {
    fb := g.nextBlock;
    assert fb !in g.blocks;
    g.blocks := g.blocks[fb := Block([], Raise(msg))];
    g.nextBlock := g.nextBlock + 1;
  }

  /** A fresh comment at the end of block `b`. */
  method AppendComment(g: Graph, b: BlockId, text: string) returns (c: OpId)
    requires g.Valid() && b in g.blocks
    modifies g`blocks, g`defs, g`nextOp
    ensures g.Valid() && c == old(g.nextOp) && g.nextOp == c + 1 && c !in old(g.defs)
    ensures g.defs == old(g.defs)[c := MakeComment(text)]
    ensures g.blocks == old(g.blocks)[b := Block(old(g.blocks)[b].ops + [c], old(g.blocks)[b].next)]
  {
    c := g.nextOp;
    assert c !in g.defs;
    assert forall x | x in g.blocks :: c !in g.blocks[x].ops;
    UniqueSetOps(g.blocks, b, g.blocks[b].ops + [c], g.blocks[b].next);
    g.defs := g.defs[c := MakeComment(text)];
    g.blocks := g.blocks[b := Block(g.blocks[b].ops + [c], g.blocks[b].next)];
    g.nextOp := g.nextOp + 1;
  }

  /** Block `b` gets a new terminator whose targets are blocks of the graph. */
  method SetNext(g: Graph, b: BlockId, n: Next)
    requires g.Valid() && b in g.blocks && forall s | s in NextBlocks(n) :: s in g.blocks
    modifies g`blocks
    ensures g.Valid() && g.blocks == old(g.blocks)[b := Block(old(g.blocks)[b].ops, n)]
  {
    g.blocks := g.blocks[b := Block(g.blocks[b].ops, n)];
  }

  // ---------------------------------------------------------------------
  // Lowering

  /**
   * The blocks after the assertion at `index` of `b` is lowered: `b` keeps
   * the operations before it, then the comment `c` if there is one, and
   * branches on `cond`; `nb` takes the operations after it and the old
   * terminator; `fb` raises `msg`.
   */
  function Lowered(blocks: map<BlockId, Block>, b: BlockId, index: nat, nb: BlockId, fb: BlockId,
                   cond: Value, msg: Value, c: Option<OpId>): map<BlockId, Block>
    requires b in blocks && index < |blocks[b].ops|
  {
    var ops := blocks[b].ops;
    blocks[b := Block(ops[..index] + (if c.Some? then [c.value] else []), ConditionalGoto(cond, nb, fb))]
          [nb := Block(ops[index + 1..], blocks[b].next)]
          [fb := Block([], Raise(msg))]
  }

  /** What lowering does to the blocks, stated edge by edge. */
  lemma LoweredShape(blocks: map<BlockId, Block>, b: BlockId, index: nat, nb: BlockId, fb: BlockId,
                     cond: Value, msg: Value, c: Option<OpId>)
    requires b in blocks && index < |blocks[b].ops| && nb !in blocks && fb !in blocks && nb != fb
    ensures var r := Lowered(blocks, b, index, nb, fb, cond, msg, c);
      r.Keys == blocks.Keys + {nb, fb} &&
      (forall x | x in blocks && x != b :: r[x] == blocks[x]) &&
      Succ(r, b) == [fb, nb] && Succ(r, nb) == Succ(blocks, b) && Succ(r, fb) == [] &&
      |r[b].ops| == index + (if c.Some? then 1 else 0) &&
      r[b].ops[..index] + [blocks[b].ops[index]] + r[nb].ops == blocks[b].ops
  {
  }

  /** Splitting, then branching, lowers. */
  lemma SplitThenBranch(blocks: map<BlockId, Block>, b: BlockId, index: nat, nb: BlockId, fb: BlockId,
                        cond: Value, msg: Value, c: Option<OpId>)
    requires b in blocks && index < |blocks[b].ops| && nb != b && fb != b && fb != nb
    ensures var mid := SplitBlocks(blocks, b, index, false, nb);
      var split := mid[b := Block(mid[b].ops, Goto(nb))];
      split[fb := Block([], Raise(msg))][b := Block(split[b].ops + (if c.Some? then [c.value] else []), ConditionalGoto(cond, nb, fb))]
        == Lowered(blocks, b, index, nb, fb, cond, msg, c)
  {
  }

  /** The tail of the lowering, once the block is split: the raise block, the comment and the branch. */
  method Branch(g: Graph, b: BlockId, nb: BlockId, cond: Value, msg: Value) returns (fb: BlockId, c: Option<OpId>)
    requires g.Valid() && b in g.blocks && nb in g.blocks
    modifies g`blocks, g`defs, g`nextBlock, g`nextOp
    ensures g.Valid() && fb == old(g.nextBlock) && g.nextBlock == fb + 1 && g.nextOp >= old(g.nextOp)
    ensures c == (if AssertComment(msg).Some? then Some(old(g.nextOp)) else None)
    ensures c.None? ==> g.defs == old(g.defs)
    ensures c.Some? ==> old(g.nextOp) !in old(g.defs) && g.defs == old(g.defs)[c.value := MakeComment(AssertComment(msg).value)]
    ensures g.blocks == old(g.blocks)[fb := Block([], Raise(msg))]
                                     [b := Block(old(g.blocks)[b].ops + (if c.Some? then [c.value] else []), ConditionalGoto(cond, nb, fb))]
  {
    fb := AddRaiseBlock(g, msg);
    var text := AssertComment(msg);
    c := None;
    if text.Some? {
      var o := AppendComment(g, b, text.value);
      c := Some(o);
    } else {
      assert g.blocks[b].ops + [] == g.blocks[b].ops;
    }
    SetNext(g, b, ConditionalGoto(cond, nb, fb));
  }

  /**
   * One lowering on the graph: `block.split(index, keep_op=False)`, then the
   * branch. It fails when the call has fewer than two arguments or when
   * `replace_prev` fails in the split.
   */
  method LowerAssert(g: Graph, b: BlockId, index: nat) returns (r: Result<(BlockId, BlockId, Option<OpId>)>)
    requires g.Valid() && b in g.blocks && index < |g.blocks[b].ops| && g.defs[g.blocks[b].ops[index]].Op?
    modifies g`blocks, g`defs, g`nextBlock, g`nextOp
    ensures g.Valid() && g.nextOp >= old(g.nextOp)
    ensures r.Ok? ==> DefsKept(old(g.defs), g.defs) && old(g.blocks).Keys <= g.blocks.Keys && g.nextBlock >= old(g.nextBlock)
    ensures r.Ok? ==> forall y | y in old(g.blocks) && y != b :: g.blocks[y] == old(g.blocks)[y]
    ensures var d := old(g.defs)[old(g.blocks)[b].ops[index]];
      var rp := RetargetPhis(SplitBlocks(old(g.blocks), b, index, false, old(g.nextBlock)), old(g.defs),
                             Succ(old(g.blocks), b), b, old(g.nextBlock));
      (r.Failure? <==> |d.args| < 2 || rp.None?) &&
      (r.Ok? ==>
        var (nb, fb, c) := r.value;
        nb == old(g.nextBlock) && fb == nb + 1 && nb !in old(g.blocks) && fb !in old(g.blocks) &&
        c == (if AssertComment(d.args[1]).Some? then Some(old(g.nextOp)) else None) &&
        g.blocks == Lowered(old(g.blocks), b, index, nb, fb, d.args[0], d.args[1], c) &&
        (c.None? ==> g.defs == rp.value) &&
        (c.Some? ==> old(g.nextOp) !in rp.value && g.defs == rp.value[c.value := MakeComment(AssertComment(d.args[1]).value)]))
  {
    var d := g.defs[g.blocks[b].ops[index]];
    if |d.args| < 2 {
      return Failure("zsail_assert without a message");
    }
    ghost var blocks0, defs0 := g.blocks, g.defs;
    SplitKeepsDefs(g.blocks, g.defs, b, index, g.nextBlock);
    var nb, ok := g.Split(b, index, false);
    if !ok {
      return Failure("replace_prev failed");
    }
    ghost var defs1 := g.defs;
    var fb, c := Branch(g, b, nb, d.args[0], d.args[1]);
    if c.Some? {
      DefsKeptFresh(defs0, defs1, c.value, MakeComment(AssertComment(d.args[1]).value));
    }
    SplitThenBranch(blocks0, b, index, nb, fb, d.args[0], d.args[1], c);
    LoweredShape(blocks0, b, index, nb, fb, d.args[0], d.args[1], c);
    r := Ok((nb, fb, c));
  }

  // ---------------------------------------------------------------------
  // One round over the blocks

  /** Operations keep their slots and their class; non-phi operations are untouched. */
  ghost predicate DefsKept(before: map<OpId, Def>, after: map<OpId, Def>)
  {
    before.Keys <= after.Keys &&
    forall o | o in before :: after[o].Op? == before[o].Op? && (before[o].Op? ==> after[o] == before[o])
  }

  /** A fresh slot keeps every old one. */
  lemma DefsKeptFresh(before: map<OpId, Def>, after: map<OpId, Def>, c: OpId, v: Def)
    requires DefsKept(before, after) && c !in after
    ensures DefsKept(before, after[c := v])
  {
  }

  /** Two arenas that agree on which operations are assertions agree on the first one. */
  lemma {:induction false} FirstAssertAgree(d1: map<OpId, Def>, d2: map<OpId, Def>, ops: seq<OpId>, builtins: map<string, string>)
    requires forall o | o in ops :: o in d1
    requires DefsKept(d1, d2)
    ensures FirstAssert(d1, ops, builtins) == FirstAssert(d2, ops, builtins)
  {
    if ops != [] {
      assert IsAssert(d1[ops[0]], builtins) == IsAssert(d2[ops[0]], builtins);
      FirstAssertAgree(d1, d2, ops[1..], builtins);
    }
  }

  /**
   * Block `x`, which was `ob` when the round began over an arena `odefs`
   * whose block ids were below `bound`, is in its lowered form in
   * `blocks`/`defs`: unchanged when it held no assertion; otherwise it keeps
   * the operations before the first assertion, then the comment, and branches
   * on the asserted condition to a new block holding the rest and a new block
   * raising the message.
   */
  ghost predicate LoweredAt(blocks: map<BlockId, Block>, defs: map<OpId, Def>, odefs: map<OpId, Def>,
                            builtins: map<string, string>, bound: nat, ob: Block, x: BlockId)
    requires forall o | o in ob.ops :: o in odefs
  {
    x in blocks &&
    match FirstAssert(odefs, ob.ops, builtins)
    case None => blocks[x] == ob
    case Some(k) =>
      var d := odefs[ob.ops[k]];
      var n := blocks[x].next;
      var ops := blocks[x].ops;
      |d.args| >= 2 && n.ConditionalGoto? && n.cond == d.args[0] &&
      var text := AssertComment(d.args[1]);
      n.truetarget >= bound && n.falsetarget >= bound &&
      n.truetarget in blocks && blocks[n.truetarget] == Block(ob.ops[k + 1..], ob.next) &&
      n.falsetarget in blocks && blocks[n.falsetarget] == Block([], Raise(d.args[1])) &&
      |ops| == k + (if text.Some? then 1 else 0) && ops[..k] == ob.ops[..k] &&
      (text.Some? ==> ops[k] in defs && defs[ops[k]] == MakeComment(text.value))
  }

  /** A step that touches only block `b` and fresh blocks keeps every other block lowered. */
  lemma LoweredAtFrame(blocks: map<BlockId, Block>, defs: map<OpId, Def>, blocks': map<BlockId, Block>, defs': map<OpId, Def>,
                       odefs: map<OpId, Def>, builtins: map<string, string>, bound: nat, ob: Block, x: BlockId, b: BlockId)
    requires forall o | o in ob.ops :: o in odefs
    requires LoweredAt(blocks, defs, odefs, builtins, bound, ob, x)
    requires x != b && b < bound && blocks.Keys <= blocks'.Keys && DefsKept(defs, defs')
    requires forall y | y in blocks && y != b :: blocks'[y] == blocks[y]
    ensures LoweredAt(blocks', defs', odefs, builtins, bound, ob, x)
  {
  }

  /** The blocks `LowerAssert` leaves behind are in the lowered form. */
  lemma LoweredIsLoweredAt(blocks: map<BlockId, Block>, defs': map<OpId, Def>, odefs: map<OpId, Def>,
                           builtins: map<string, string>, bound: nat, b: BlockId, k: nat, nb: BlockId, fb: BlockId, c: Option<OpId>)
    requires b in blocks && (forall o | o in blocks[b].ops :: o in odefs)
    requires FirstAssert(odefs, blocks[b].ops, builtins) == Some(k)
    requires |odefs[blocks[b].ops[k]].args| >= 2
    requires nb >= bound && fb >= bound && b < bound && nb != fb
    requires var msg := odefs[blocks[b].ops[k]].args[1];
      c.Some? == AssertComment(msg).Some? &&
      (c.Some? ==> c.value in defs' && defs'[c.value] == MakeComment(AssertComment(msg).value))
    ensures var d := odefs[blocks[b].ops[k]];
      LoweredAt(Lowered(blocks, b, k, nb, fb, d.args[0], d.args[1], c), defs', odefs, builtins, bound, blocks[b], b)
  {
  }

  /** Lowering the first assertion of `b`, found at `k`. */
  method LowerFound(g: Graph, b: BlockId, k: nat, builtins: map<string, string>, ghost odefs: map<OpId, Def>, ghost bound: nat)
    returns (r: Result<bool>)
    requires g.Valid() && b in g.blocks && b < bound <= g.nextBlock
    requires (forall o | o in g.blocks[b].ops :: o in odefs) && DefsKept(odefs, g.defs)
    requires FirstAssert(odefs, g.blocks[b].ops, builtins) == Some(k)
    modifies g`blocks, g`defs, g`nextBlock, g`nextOp
    ensures g.Valid() && (r.Failure? || r == Ok(true))
    ensures r.Ok? ==> DefsKept(old(g.defs), g.defs) && old(g.blocks).Keys <= g.blocks.Keys && g.nextBlock >= old(g.nextBlock)
    ensures r.Ok? ==> forall y | y in old(g.blocks) && y != b :: g.blocks[y] == old(g.blocks)[y]
    ensures r.Ok? ==> LoweredAt(g.blocks, g.defs, odefs, builtins, bound, old(g.blocks)[b], b)
  {
    ghost var ob := g.blocks[b];
    ghost var blocks0, defs0 := g.blocks, g.defs;
    var lr := LowerAssert(g, b, k);
    if lr.Failure? {
      return Failure(lr.msg);
    }
    var (nb, fb, c) := lr.value;
    assert defs0[ob.ops[k]] == odefs[ob.ops[k]];
    LoweredIsLoweredAt(blocks0, g.defs, odefs, builtins, bound, b, k, nb, fb, c);
    r := Ok(true);
  }

  /**
   * The body of the round for one block: the first assertion in it, if any,
   * is lowered. The result says whether there was one.
   */
  method LowerFirst(g: Graph, b: BlockId, builtins: map<string, string>, ghost odefs: map<OpId, Def>, ghost bound: nat)
    returns (r: Result<bool>)
    requires g.Valid() && b in g.blocks && b < bound <= g.nextBlock
    requires (forall o | o in g.blocks[b].ops :: o in odefs) && DefsKept(odefs, g.defs)
    modifies g`blocks, g`defs, g`nextBlock, g`nextOp
    ensures g.Valid()
    ensures r.Ok? ==> DefsKept(old(g.defs), g.defs) && old(g.blocks).Keys <= g.blocks.Keys && g.nextBlock >= old(g.nextBlock)
    ensures r.Ok? ==> forall y | y in old(g.blocks) && y != b :: g.blocks[y] == old(g.blocks)[y]
    ensures var f := FirstAssert(odefs, old(g.blocks)[b].ops, builtins);
      (f.None? ==> r == Ok(false)) &&
      (r.Ok? ==> r.value == f.Some? && LoweredAt(g.blocks, g.defs, odefs, builtins, bound, old(g.blocks)[b], b)) &&
      (r.Failure? ==> f.Some?)
  {
    var f := FirstAssertOn(g.defs, g.blocks[b].ops, builtins);
    FirstAssertAgree(odefs, g.defs, g.blocks[b].ops, builtins);
    if f.None? {
      return Ok(false);
    }
    r := LowerFound(g, b, f.value, builtins, odefs, bound);
  }

  /** The blocks of `order[..i]` stay lowered when `b`, which is not among them, is lowered next. */
  lemma LoweredPrefixFrame(blocks: map<BlockId, Block>, defs: map<OpId, Def>, blocks': map<BlockId, Block>, defs': map<OpId, Def>,
                           ob: map<BlockId, Block>, odefs: map<OpId, Def>, builtins: map<string, string>, bound: nat,
                           prefix: seq<BlockId>, b: BlockId)
    requires forall x, o | x in ob && o in ob[x].ops :: o in odefs
    requires forall x | x in prefix :: x in ob && LoweredAt(blocks, defs, odefs, builtins, bound, ob[x], x)
    requires b !in prefix && b < bound && blocks.Keys <= blocks'.Keys && DefsKept(defs, defs')
    requires forall y | y in blocks && y != b :: blocks'[y] == blocks[y]
    ensures forall x | x in prefix :: LoweredAt(blocks', defs', odefs, builtins, bound, ob[x], x)
  {
    forall x | x in prefix
      ensures LoweredAt(blocks', defs', odefs, builtins, bound, ob[x], x)
    {
      LoweredAtFrame(blocks, defs, blocks', defs', odefs, builtins, bound, ob[x], x, b);
    }
  }

  /**
   * The round so far: the blocks of `done` are lowered and the others are as
   * they were in `ob`; `res` says whether any block of `done` held an
   * assertion.
   */
  ghost predicate Round(blocks: map<BlockId, Block>, defs: map<OpId, Def>, nextBlock: nat,
                        ob: map<BlockId, Block>, od: map<OpId, Def>, bound: nat, builtins: map<string, string>,
                        done: seq<BlockId>, res: bool)
  {
    OpsDefined(ob, od) && (forall x | x in ob :: x < bound) &&
    DefsKept(od, defs) && ob.Keys <= blocks.Keys && nextBlock >= bound &&
    (forall x | x in ob && x !in done :: blocks[x] == ob[x]) &&
    (forall x | x in done :: x in ob && LoweredAt(blocks, defs, od, builtins, bound, ob[x], x)) &&
    (res <==> exists x | x in done :: FirstAssert(od, ob[x].ops, builtins).Some?)
  }

  lemma PrefixSnoc<T>(s: seq<T>, i: nat)
    requires i < |s|
    ensures s[..i + 1] == s[..i] + [s[i]]
    ensures Distinct(s) ==> s[i] !in s[..i]
  {
    if Distinct(s) {
      assert forall j | 0 <= j < i :: s[..i][j] == s[j] != s[i];
    }
  }

  /** Before the first block, nothing is lowered. */
  lemma RoundStart(blocks: map<BlockId, Block>, defs: map<OpId, Def>, nextBlock: nat, nextOp: nat, builtins: map<string, string>)
    requires Arena(blocks, defs, nextBlock, nextOp)
    ensures Round(blocks, defs, nextBlock, blocks, defs, nextBlock, builtins, [], false)
  {
  }

  /** Lowering a block that is not yet visited extends the round by it. */
  lemma RoundNext(blocks: map<BlockId, Block>, defs: map<OpId, Def>, nextBlock: nat,
                  blocks': map<BlockId, Block>, defs': map<OpId, Def>, nextBlock': nat,
                  ob: map<BlockId, Block>, od: map<OpId, Def>, bound: nat, builtins: map<string, string>,
                  done: seq<BlockId>, res: bool, b: BlockId, v: bool)
    requires Round(blocks, defs, nextBlock, ob, od, bound, builtins, done, res)
    requires b in ob && b !in done
    requires DefsKept(defs, defs') && blocks.Keys <= blocks'.Keys && nextBlock' >= nextBlock
    requires forall y | y in blocks && y != b :: blocks'[y] == blocks[y]
    requires v == FirstAssert(od, ob[b].ops, builtins).Some?
    requires LoweredAt(blocks', defs', od, builtins, bound, ob[b], b)
    ensures Round(blocks', defs', nextBlock', ob, od, bound, builtins, done + [b], res || v)
  {
    LoweredPrefixFrame(blocks, defs, blocks', defs', ob, od, builtins, bound, done, b);
    if v {
      assert b in done + [b];
    }
  }

  /** One iteration of the round: block `b`, not yet visited, is lowered. */
  method ConvertStep(g: Graph, b: BlockId, builtins: map<string, string>, ghost ob: map<BlockId, Block>, ghost od: map<OpId, Def>,
                     ghost bound: nat, ghost done: seq<BlockId>, res: bool) returns (r: Result<bool>)
    requires g.Valid() && Round(g.blocks, g.defs, g.nextBlock, ob, od, bound, builtins, done, res)
    requires b in ob && b !in done
    modifies g`blocks, g`defs, g`nextBlock, g`nextOp
    ensures g.Valid()
    ensures r.Ok? ==> Round(g.blocks, g.defs, g.nextBlock, ob, od, bound, builtins, done + [b], r.value)
    ensures r.Failure? ==> FirstAssert(od, ob[b].ops, builtins).Some?
  {
    ghost var blocks1, defs1, nextBlock1 := g.blocks, g.defs, g.nextBlock;
    var s := LowerFirst(g, b, builtins, od, bound);
    if s.Failure? {
      return s;
    }
    RoundNext(blocks1, defs1, nextBlock1, g.blocks, g.defs, g.nextBlock, ob, od, bound, builtins, done, res, b, s.value);
    r := Ok(res || s.value);
  }

  /**
   * `convert_sail_assert_to_exception`, one round: the blocks are listed
   * first, then the first assertion of each listed block is lowered. The
   * result says whether any listed block held one; every listed block ends
   * in its lowered form and every other old block is untouched.
   */
  method ConvertSailAsserts(g: Graph, builtins: map<string, string>) returns (r: Result<bool>, ghost order: seq<BlockId>)
    requires g.Valid()
    modifies g`blocks, g`defs, g`nextBlock, g`nextOp
    ensures g.Valid()
    ensures order == Dfs(old(g.blocks), [g.start], {}) && Distinct(order) && forall x | x in order :: x in old(g.blocks)
    ensures r.Ok? ==> (r.value <==> exists x | x in order :: FirstAssert(old(g.defs), old(g.blocks)[x].ops, builtins).Some?)
    ensures r.Ok? ==> forall x | x in order :: LoweredAt(g.blocks, g.defs, old(g.defs), builtins, old(g.nextBlock), old(g.blocks)[x], x)
    ensures r.Ok? ==> forall x | x in old(g.blocks) && x !in order :: x in g.blocks && g.blocks[x] == old(g.blocks)[x]
    ensures r.Failure? ==> exists x | x in order :: FirstAssert(old(g.defs), old(g.blocks)[x].ops, builtins).Some?
  {
    var blocks := g.IterBlocks();
    order := blocks;
    ghost var ob, od, bound := g.blocks, g.defs, g.nextBlock;
    var res := false;
    RoundStart(g.blocks, g.defs, g.nextBlock, g.nextOp, builtins);
    for i := 0 to |blocks|
      invariant g.Valid() && Round(g.blocks, g.defs, g.nextBlock, ob, od, bound, builtins, blocks[..i], res)
    {
      var b := blocks[i];
      PrefixSnoc(blocks, i);
      var s := ConvertStep(g, b, builtins, ob, od, bound, blocks[..i], res);
      if s.Failure? {
        assert b in order;
        return s, order;
      }
      res := s.value;
    }
    assert blocks[..|blocks|] == blocks;
    r := Ok(res);
  }
}
