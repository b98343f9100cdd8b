/**
 * The first two steps of `construct_ir`: cutting a function's flat statement
 * list into label-indexed blocks that never fall through, and
 * `compute_entryblocks`, the predecessor lists the SSA builder reads.
 */
module Construct {
  import opened Wrappers
  import Parse

  type Stmts = seq<Parse.Statement>

  // ---------------------------------------------------------------------
  // Block boundaries

  /** The indices `construct_ir` starts a block at: every jump target and every index after a conditional jump. */
  ghost function JumpTargets(body: Stmts): set<nat>
  {
    (set i | 0 <= i < |body| :: Parse.Target(body[i])) +
    (set i | 0 <= i < |body| && body[i].ConditionalJump? :: i + 1)
  }

  /** Where the block starting at `k` ends: at the next start, or at the end of the body. */
  function NextStart(body: Stmts, jt: set<nat>, k: nat): (e: nat)
    requires k < |body|
    ensures k < e <= |body|
    ensures e == |body| || e in jt
    decreases |body| - k
  {
    if k + 1 == |body| || k + 1 in jt then k + 1 else NextStart(body, jt, k + 1)
  }

  /** No block starts strictly between `k` and `NextStart(k)`, which makes it the first start after `k`. */
  lemma {:induction false} NextStartGap(body: Stmts, jt: set<nat>, k: nat, j: nat)
    requires k < |body| && k < j < NextStart(body, jt, k)
    ensures j !in jt
    decreases |body| - k
  {
    if j > k + 1 {
      NextStartGap(body, jt, k + 1, j);
    }
  }

  lemma {:induction false} NextStartIs(body: Stmts, jt: set<nat>, k: nat, e: nat)
    requires k < e <= |body| && (e == |body| || e in jt)
    requires forall j | k < j < e :: j !in jt
    ensures NextStart(body, jt, k) == e
    decreases |body| - k
  {
    if e > k + 1 {
      NextStartIs(body, jt, k + 1, e);
    }
  }

  /** The start of the block that holds the statement at `i`: the last start at or before it. */
  function LastStart(jt: set<nat>, i: nat): (k: nat)
    requires 0 in jt
    ensures k <= i && k in jt
    ensures forall j | k < j <= i :: j !in jt
  {
    if i in jt then i else LastStart(jt, i - 1)
  }

  /** A block as `construct_ir` leaves it: its statements, followed by a `Goto` to the next index unless the last one ends the block. */
  function Terminated(body: Stmts, k: nat, e: nat): Stmts
    requires k < e <= |body|
  {
    body[k..e] + (if Parse.EndOfBlock(body[e - 1]) then [] else [Parse.Goto(e)])
  }

  /** The blocks start exactly at the jump targets inside the body, and each holds its statements up to the next start. */
  ghost predicate Partitioned(body: Stmts, blocks: map<nat, Stmts>)
  {
    var jt := JumpTargets(body);
    blocks.Keys == (set i | 0 <= i < |body| && i in jt) &&
    forall k {:trigger blocks[k]} | k in blocks :: k < |body| && blocks[k] == Terminated(body, k, NextStart(body, jt, k))
  }

  /** The first loop of `construct_ir`: jump targets and the indices after conditional jumps. */
  method CollectJumpTargets(body: Stmts) returns (jt: set<nat>)
    ensures jt == JumpTargets(body)
  {
    jt := set i | 0 <= i < |body| :: Parse.Target(body[i]);
    var i := 0;
    while i < |body|
      invariant 0 <= i <= |body|
      invariant jt == (set i | 0 <= i < |body| :: Parse.Target(body[i])) +
                      (set j | 0 <= j < i && body[j].ConditionalJump? :: j + 1)
    {
      if body[i].ConditionalJump? {
        jt := jt + {i + 1};
      }
      i := i + 1;
    }
  }

  /**
   * The block-splitting loop of `construct_ir`. The current block is the one
   * started last; a body whose first index is no jump target appends to a
   * block that does not exist yet, which Python reports as an unbound local.
   */
  method SplitBody(body: Stmts, jt: set<nat>) returns (r: Result<map<nat, Stmts>>)
    ensures r.Ok? <==> body == [] || 0 in jt
    ensures r.Ok? ==> r.value.Keys == (set i | 0 <= i < |body| && i in jt)
    ensures r.Ok? ==> forall k {:trigger r.value[k]} | k in r.value :: k < |body| && r.value[k] == body[k..NextStart(body, jt, k)]
  {
    if body != [] && 0 !in jt {
      return Failure("local variable 'block' referenced before assignment");
    }
    var blocks: map<nat, Stmts> := map[];
    var cur: nat := 0;
    var i := 0;
    while i < |body|
      invariant 0 <= i <= |body|
      invariant SplitInv(body, jt, i, cur, blocks)
    {
      ghost var cur0, blocks0 := cur, blocks;
      if i in jt {
        blocks := blocks[i := []];
        cur := i;
      }
      blocks := blocks[cur := blocks[cur] + [body[i]]];
      SplitStep(body, jt, i, cur0, blocks0, cur, blocks);
      i := i + 1;
    }
    SplitEnd(body, jt, cur, blocks);
    return Ok(blocks);
  }

  /** The state of the splitting loop after the first `i` statements: `cur` is the block being filled. */
  ghost predicate SplitInv(body: Stmts, jt: set<nat>, i: nat, cur: nat, blocks: map<nat, Stmts>)
    requires i <= |body|
  {
    blocks.Keys == (set j | 0 <= j < i && j in jt) &&
    (i > 0 ==> 0 in jt && cur == LastStart(jt, i - 1) && blocks[cur] == body[cur..i]) &&
    forall k {:trigger blocks[k]} | k in blocks && (i == 0 || k != cur) :: k < i && NextStart(body, jt, k) <= i &&
      blocks[k] == body[k..NextStart(body, jt, k)]
  }

  lemma SplitStep(body: Stmts, jt: set<nat>, i: nat, cur: nat, blocks: map<nat, Stmts>, cur': nat, blocks': map<nat, Stmts>)
    requires i < |body| && (i == 0 ==> 0 in jt) && SplitInv(body, jt, i, cur, blocks)
    requires cur' == if i in jt then i else cur
    requires blocks' == (if i in jt then blocks[i := []] else blocks)[cur' := (if i in jt then [] else blocks[cur]) + [body[i]]]
    ensures SplitInv(body, jt, i + 1, cur', blocks')
  {
    if i in jt && i > 0 {
      NextStartIs(body, jt, cur, i);
    }
    assert body[cur'..i + 1] == body[cur'..i] + [body[i]];
    assert blocks'.Keys == blocks.Keys + (if i in jt then {i} else {});
  }

  lemma SplitEnd(body: Stmts, jt: set<nat>, cur: nat, blocks: map<nat, Stmts>)
    requires SplitInv(body, jt, |body|, cur, blocks)
    ensures blocks.Keys == (set i | 0 <= i < |body| && i in jt)
    ensures forall k {:trigger blocks[k]} | k in blocks :: k < |body| && blocks[k] == body[k..NextStart(body, jt, k)]
  {
    if |body| > 0 {
      NextStartIs(body, jt, cur, |body|);
    }
  }

  /** One block of the `Goto`-appending loop: closed unless its last statement ends it. */
  function Close(block: Stmts, pc: nat): Stmts
    requires block != []
  {
    if Parse.EndOfBlock(block[|block| - 1]) then block else block + [Parse.Goto(pc + |block|)]
  }

  lemma CloseTerminates(body: Stmts, k: nat, e: nat, block: Stmts)
    requires k < e <= |body| && block == body[k..e]
    ensures block != [] && Close(block, k) == Terminated(body, k, e)
  {
  }

  /** The loop of `construct_ir` over the sorted blocks that appends the missing `Goto`s. */
  method AddGotos(body: Stmts, jt: set<nat>, blocks: map<nat, Stmts>) returns (blocks': map<nat, Stmts>)
    requires forall k {:trigger blocks[k]} | k in blocks :: k < |body| && blocks[k] == body[k..NextStart(body, jt, k)]
    ensures blocks'.Keys == blocks.Keys
    ensures forall k {:trigger blocks[k]} | k in blocks :: blocks'[k] == Terminated(body, k, NextStart(body, jt, k))
  {
    blocks' := blocks;
    var pc := 0;
    while pc < |body|
      invariant 0 <= pc <= |body|
      invariant blocks'.Keys == blocks.Keys
      invariant forall k {:trigger blocks[k]} | k in blocks && k < pc :: blocks'[k] == Terminated(body, k, NextStart(body, jt, k))
      invariant forall k | k in blocks && k >= pc :: blocks'[k] == blocks[k]
    {
      if pc in blocks' {
        CloseTerminates(body, pc, NextStart(body, jt, pc), blocks'[pc]);
        blocks' := blocks'[pc := Close(blocks'[pc], pc)];
      }
      pc := pc + 1;
    }
  }

  /** The block format of `construct_ir`: the body cut at the jump targets, every block closed. */
  method SplitIntoBlocks(body: Stmts) returns (r: Result<map<nat, Stmts>>)
    ensures r.Ok? <==> body == [] || 0 in JumpTargets(body)
    ensures r.Ok? ==> Partitioned(body, r.value)
  {
    var jt := CollectJumpTargets(body);
    var split := SplitBody(body, jt);
    if split.Failure? {
      return Failure(split.msg);
    }
    var blocks := AddGotos(body, jt, split.value);
    return Ok(blocks);
  }

  // ---------------------------------------------------------------------
  // What partitioning guarantees

  /** No block falls through: each one is non-empty and its last statement ends it. */
  lemma NoFallThrough(body: Stmts, blocks: map<nat, Stmts>, k: nat)
    requires Partitioned(body, blocks) && k in blocks
    ensures |blocks[k]| > 0 && Parse.EndOfBlock(blocks[k][|blocks[k]| - 1])
  {
  }

  /** An appended `Goto` leads to the index right after the block's statements. */
  lemma AppendedGoto(body: Stmts, blocks: map<nat, Stmts>, k: nat)
    requires Partitioned(body, blocks) && k in blocks
    ensures var e := NextStart(body, JumpTargets(body), k);
      !Parse.EndOfBlock(body[e - 1]) ==> blocks[k][|blocks[k]| - 1] == Parse.Goto(e)
  {
    var jt := JumpTargets(body);
    var e := NextStart(body, jt, k);
    assert blocks[k] == Terminated(body, k, e);
  }

  /** The index right after a block's statements starts the next block, unless it is the end of the body. */
  lemma FollowerStarts(body: Stmts, blocks: map<nat, Stmts>, k: nat)
    requires Partitioned(body, blocks) && k in blocks
    ensures var e := NextStart(body, JumpTargets(body), k); e < |body| ==> e in blocks
  {
  }

  /**
   * Every statement of the body is kept, at its own offset, in the block of
   * the last start at or before it; that block reaches past it. So the
   * blocks, read in label order without the appended `Goto`s, are the body.
   */
  lemma EveryStatementKept(body: Stmts, blocks: map<nat, Stmts>, i: nat)
    requires Partitioned(body, blocks) && 0 in JumpTargets(body) && i < |body|
    ensures var k := LastStart(JumpTargets(body), i);
      k in blocks && i < NextStart(body, JumpTargets(body), k) && blocks[k][i - k] == body[i]
  {
    var jt := JumpTargets(body);
    var k := LastStart(jt, i);
    var e := NextStart(body, jt, k);
    assert e in jt ==> !(k < e <= i);
  }

  // ---------------------------------------------------------------------
  // Predecessor lists

  predicate IsJump(s: Parse.Statement) { s.Goto? || s.ConditionalJump? }

  /** How many jumps to `t` a list of statements holds. */
  function JumpsTo(ops: Stmts, t: nat): nat
  {
    if ops == [] then 0
    else JumpsTo(ops[..|ops| - 1], t) + (if IsJump(ops[|ops| - 1]) && ops[|ops| - 1].target == t then 1 else 0)
  }

  /** `entryblocks[t]` of the `defaultdict(list)`. */
  function Get(entry: map<nat, seq<nat>>, t: nat): seq<nat>
  {
    if t in entry then entry[t] else []
  }

  predicate Sorted(s: seq<nat>)
  {
    forall i, j | 0 <= i < j < |s| :: s[i] <= s[j]
  }

  /** The predecessor lists: `p` stands in the list of `t` once per jump from block `p` to `t`, in label order. */
  ghost predicate IsEntryblocks(blocks: map<nat, Stmts>, entry: map<nat, seq<nat>>)
  {
    (forall t, p :: multiset(Get(entry, t))[p] == if p in blocks then JumpsTo(blocks[p], t) else 0) &&
    forall t :: Sorted(Get(entry, t))
  }

  /** The state of `compute_entryblocks` once the blocks of `done` are scanned. */
  ghost predicate EntryInv(blocks: map<nat, Stmts>, done: set<nat>, entry: map<nat, seq<nat>>)
  {
    done <= blocks.Keys &&
    (forall t, p :: multiset(Get(entry, t))[p] == if p in done then JumpsTo(blocks[p], t) else 0) &&
    (forall t :: Sorted(Get(entry, t))) &&
    forall t, p | p in Get(entry, t) :: p in done
  }

  /** The least label of a non-empty set. */
  ghost function Least(s: set<nat>): (m: nat)
    requires s != {}
    ensures m in s && forall q | q in s :: m <= q
    decreases s
  {
    var x :| x in s;
    if s == {x} then x
    else
      var m := Least(s - {x});
      assert forall q | q in s && q != x :: q in s - {x};
      if x < m then x else m
  }

  /**
   * `compute_entryblocks`. The blocks are visited in increasing label order,
   * which is how the dictionary of small integer labels iterates; the SSA
   * builder relies on the lists coming out sorted.
   */
  method ComputeEntryblocks(blocks: map<nat, Stmts>) returns (entry: map<nat, seq<nat>>)
    ensures IsEntryblocks(blocks, entry)
  {
    entry := map[];
    var todo := blocks.Keys;
    ghost var done: set<nat> := {};
    EntryStart(blocks, entry);
    while todo != {}
      invariant todo !! done && todo + done == blocks.Keys
      invariant Below(done, todo)
      invariant EntryInv(blocks, done, entry)
      decreases todo
    {
      ghost var least := Least(todo);
      var pc :| pc in todo && forall q | q in todo :: pc <= q;
      BelowPc(done, todo, pc);
      entry := RecordJumps(blocks, done, entry, pc);
      BelowStep(done, todo, pc);
      MoveOne(blocks.Keys, done, todo, pc);
      todo, done := todo - {pc}, done + {pc};
    }
    EntryDone(blocks, done, entry);
  }

  lemma EntryStart(blocks: map<nat, Stmts>, entry: map<nat, seq<nat>>)
    requires entry == map[]
    ensures EntryInv(blocks, {}, entry)
  {
    forall t, p ensures multiset(Get(entry, t))[p] == 0 {
      assert Get(entry, t) == [];
    }
  }

  /** Every label already scanned is below every label still to scan. */
  ghost predicate Below(done: set<nat>, todo: set<nat>)
  {
    forall p, q | p in done && q in todo :: p < q
  }

  lemma MoveOne(keys: set<nat>, done: set<nat>, todo: set<nat>, pc: nat)
    requires todo !! done && todo + done == keys && pc in todo
    ensures todo - {pc} !! done + {pc} && (todo - {pc}) + (done + {pc}) == keys && todo - {pc} < todo
  {
  }

  lemma BelowPc(done: set<nat>, todo: set<nat>, pc: nat)
    requires Below(done, todo) && pc in todo
    ensures forall p | p in done :: p < pc
  {
  }

  lemma BelowStep(done: set<nat>, todo: set<nat>, pc: nat)
    requires Below(done, todo) && pc in todo && forall q | q in todo :: pc <= q
    ensures Below(done + {pc}, todo - {pc})
  {
  }

  lemma EntryDone(blocks: map<nat, Stmts>, done: set<nat>, entry: map<nat, seq<nat>>)
    requires EntryInv(blocks, done, entry) && done == blocks.Keys
    ensures IsEntryblocks(blocks, entry)
  {
  }

  /** `p` occurs in the list of `t` once per jump to `t` in a finished block `p` or in the scanned `prefix` of `pc`. */
  ghost predicate Counted(blocks: map<nat, Stmts>, done: set<nat>, pc: nat, prefix: Stmts, entry: map<nat, seq<nat>>,
                          t: nat, p: nat)
    requires done <= blocks.Keys
  {
    multiset(Get(entry, t))[p] == (if p in done then JumpsTo(blocks[p], t) else 0) + (if p == pc then JumpsTo(prefix, t) else 0)
  }

  /** The state of the inner loop once the first `i` statements of block `pc` are scanned. */
  ghost predicate RecordInv(blocks: map<nat, Stmts>, done: set<nat>, pc: nat, ops: Stmts, i: nat, entry: map<nat, seq<nat>>)
    requires done <= blocks.Keys && i <= |ops|
  {
    (forall t, p :: Counted(blocks, done, pc, ops[..i], entry, t, p)) &&
    (forall t :: Sorted(Get(entry, t))) &&
    forall t, p | p in Get(entry, t) :: p in done || p == pc
  }

  lemma RecordStart(blocks: map<nat, Stmts>, done: set<nat>, pc: nat, ops: Stmts, entry: map<nat, seq<nat>>)
    requires EntryInv(blocks, done, entry) && pc !in done
    ensures RecordInv(blocks, done, pc, ops, 0, entry)
  {
    assert ops[..0] == [];
    forall t, p ensures Counted(blocks, done, pc, ops[..0], entry, t, p) {
    }
  }

  lemma RecordEnd(blocks: map<nat, Stmts>, done: set<nat>, pc: nat, entry: map<nat, seq<nat>>)
    requires pc in blocks && done <= blocks.Keys && pc !in done
    requires RecordInv(blocks, done, pc, blocks[pc], |blocks[pc]|, entry)
    ensures EntryInv(blocks, done + {pc}, entry)
  {
    assert blocks[pc][..|blocks[pc]|] == blocks[pc];
    forall t, p ensures multiset(Get(entry, t))[p] == if p in done + {pc} then JumpsTo(blocks[p], t) else 0 {
      assert Counted(blocks, done, pc, blocks[pc], entry, t, p);
    }
  }

  /** Appending `pc` to the list of the target keeps every list sorted, as every label already listed is smaller. */
  lemma AppendSorted(s: seq<nat>, pc: nat)
    requires Sorted(s) && forall p | p in s :: p <= pc
    ensures Sorted(s + [pc])
  {
    var s' := s + [pc];
    forall i, j | 0 <= i < j < |s'| ensures s'[i] <= s'[j] {
      if j == |s| {
        assert s'[i] in s;
      } else {
        assert s'[i] == s[i] && s'[j] == s[j];
      }
    }
  }

  /** One statement of the inner loop: a jump to `u` appends `pc` to the list of `u` and to no other. */
  ghost predicate StepOf(pc: nat, op: Parse.Statement, entry: map<nat, seq<nat>>, entry': map<nat, seq<nat>>)
  {
    forall t :: Get(entry', t) == if IsJump(op) && t == op.target then Get(entry, t) + [pc] else Get(entry, t)
  }

  lemma StepGet(pc: nat, op: Parse.Statement, entry: map<nat, seq<nat>>, entry': map<nat, seq<nat>>)
    requires entry' == if IsJump(op) then entry[op.target := Get(entry, op.target) + [pc]] else entry
    ensures StepOf(pc, op, entry, entry')
  {
  }

  lemma JumpsToStep(ops: Stmts, i: nat, t: nat)
    requires i < |ops|
    ensures JumpsTo(ops[..i + 1], t) == JumpsTo(ops[..i], t) + if IsJump(ops[i]) && ops[i].target == t then 1 else 0
  {
    assert ops[..i + 1][..i] == ops[..i];
  }

  lemma StepCount(blocks: map<nat, Stmts>, done: set<nat>, pc: nat, ops: Stmts, i: nat,
                  entry: map<nat, seq<nat>>, entry': map<nat, seq<nat>>, t: nat, p: nat)
    requires done <= blocks.Keys && pc !in done && i < |ops|
    requires Counted(blocks, done, pc, ops[..i], entry, t, p) && StepOf(pc, ops[i], entry, entry')
    ensures Counted(blocks, done, pc, ops[..i + 1], entry', t, p)
  {
    JumpsToStep(ops, i, t);
    assert Get(entry', t) == if IsJump(ops[i]) && t == ops[i].target then Get(entry, t) + [pc] else Get(entry, t);
  }

  lemma StepSorted(done: set<nat>, pc: nat, op: Parse.Statement,
                   entry: map<nat, seq<nat>>, entry': map<nat, seq<nat>>, t: nat)
    requires forall p | p in done :: p < pc
    requires Sorted(Get(entry, t)) && forall p | p in Get(entry, t) :: p in done || p == pc
    requires StepOf(pc, op, entry, entry')
    ensures Sorted(Get(entry', t)) && forall p | p in Get(entry', t) :: p in done || p == pc
  {
    assert Get(entry', t) == if IsJump(op) && t == op.target then Get(entry, t) + [pc] else Get(entry, t);
    if IsJump(op) && t == op.target {
      forall p | p in Get(entry, t) ensures p <= pc {
        assert p in done || p == pc;
      }
      AppendSorted(Get(entry, t), pc);
    }
  }

  lemma RecordStep(blocks: map<nat, Stmts>, done: set<nat>, pc: nat, ops: Stmts, i: nat,
                   entry: map<nat, seq<nat>>, entry': map<nat, seq<nat>>)
    requires done <= blocks.Keys && pc !in done && i < |ops| && forall p | p in done :: p < pc
    requires RecordInv(blocks, done, pc, ops, i, entry)
    requires entry' == if IsJump(ops[i]) then entry[ops[i].target := Get(entry, ops[i].target) + [pc]] else entry
    ensures RecordInv(blocks, done, pc, ops, i + 1, entry')
  {
    StepGet(pc, ops[i], entry, entry');
    RecordCounts(blocks, done, pc, ops, i, entry, entry', ops[..i + 1]);
    RecordSorted(blocks, done, pc, ops, i, entry, entry');
  }

  lemma RecordCounts(blocks: map<nat, Stmts>, done: set<nat>, pc: nat, ops: Stmts, i: nat,
                     entry: map<nat, seq<nat>>, entry': map<nat, seq<nat>>, scanned: Stmts)
    requires done <= blocks.Keys && pc !in done && i < |ops| && scanned == ops[..i + 1]
    requires RecordInv(blocks, done, pc, ops, i, entry) && StepOf(pc, ops[i], entry, entry')
    ensures forall t, p :: Counted(blocks, done, pc, scanned, entry', t, p)
  {
    forall t, p ensures Counted(blocks, done, pc, scanned, entry', t, p) {
      StepCount(blocks, done, pc, ops, i, entry, entry', t, p);
    }
  }

  lemma RecordSorted(blocks: map<nat, Stmts>, done: set<nat>, pc: nat, ops: Stmts, i: nat,
                     entry: map<nat, seq<nat>>, entry': map<nat, seq<nat>>)
    requires done <= blocks.Keys && i < |ops| && forall p | p in done :: p < pc
    requires RecordInv(blocks, done, pc, ops, i, entry) && StepOf(pc, ops[i], entry, entry')
    ensures (forall t :: Sorted(Get(entry', t))) && forall t, p | p in Get(entry', t) :: p in done || p == pc
  {
    forall t ensures Sorted(Get(entry', t)) && forall p | p in Get(entry', t) :: p in done || p == pc {
      StepSorted(done, pc, ops[i], entry, entry', t);
    }
  }

  /** The inner loop of `compute_entryblocks`: block `pc` is appended to the list of every jump target it names. */
  method RecordJumps(blocks: map<nat, Stmts>, ghost done: set<nat>, entry: map<nat, seq<nat>>, pc: nat)
    returns (entry': map<nat, seq<nat>>)
    requires pc in blocks && pc !in done && EntryInv(blocks, done, entry)
    requires forall p | p in done :: p < pc
    ensures EntryInv(blocks, done + {pc}, entry')
  {
    var ops := blocks[pc];
    entry' := entry;
    RecordStart(blocks, done, pc, ops, entry);
    var i := 0;
    while i < |ops|
      invariant 0 <= i <= |ops|
      invariant RecordInv(blocks, done, pc, ops, i, entry')
    {
      var op := ops[i];
      ghost var prev := entry';
      if IsJump(op) {
        entry' := entry'[op.target := Get(entry', op.target) + [pc]];
      }
      RecordStep(blocks, done, pc, ops, i, prev, entry');
      i := i + 1;
    }
    RecordEnd(blocks, done, pc, entry');
  }
}
