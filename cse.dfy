/**
 * `cse`, common subexpression elimination: a forward pass over the blocks in
 * the order of `topo_order_best_attempt`. Each block keeps a table of the
 * expressions available at its end. A join block starts from the entries on
 * which all its predecessors agree. An operation whose key is already
 * available is removed, and its uses get the value the table holds.
 */
module Cse {
  import opened Wrappers
  import opened Types
  import opened Ir
  import opened IrGraph
  import opened Topo
  import opened Passes
  import opened Dataflow

  /**
   * The key an expression is available under: the operation's class, its
   * name, the comparison keys of its arguments after replacement, and its
   * result type. Values are compared structurally, which is what
   * `comparison_key` does for constants and identity does for operations.
   */
  datatype Key = Key(kind: OpKind, name: string, args: seq<Value>, typ: Type)

  /** The expressions available in a block, each with the value that computes it. */
  type Table = map<Key, Value>

  /** `replacements`: a removed operation and the value that takes its place. */
  type Repl = map<Value, Value>

  /** `name.lstrip('@')`. */
  function LStrip(s: string): (r: string)
    ensures |r| <= |s| && r == s[|s| - |r|..]
    ensures forall j | 0 <= j < |s| - |r| :: s[j] == '@'
    ensures r == [] || r[0] != '@'
  {
    if s != [] && s[0] == '@' then LStrip(s[1..]) else s
  }

  predicate IsTuplestruct(t: Type) { t.Struct? && t.tuplestruct }

  /**
   * `can_replace`: casts, union casts, field reads of tuple structs, `@not`,
   * and plain calls of a pure support function (after builtin renaming and
   * with leading `@`s dropped). A phi never is.
   */
  predicate CanReplace(defs: map<OpId, Def>, d: Def, pure: set<string>, builtins: map<string, string>)
  {
    d.Op? &&
    (d.kind == Cast || d.kind == UnionCast ||
     (d.kind == FieldAccess && |d.args| >= 1 && IsTuplestruct(ValueType(defs, d.args[0]))) ||
     d.name == "@not" ||
     (d.kind == Operation && LStrip(BuiltinName(builtins, d.name)) in pure))
  }

  /** The key of an operation whose arguments are first looked up in the replacements. */
  function OpKey(d: Def, repl: Repl): Key
    requires d.Op?
  {
    Key(d.kind, d.name, ReplaceArgs(d.args, repl), d.typ)
  }

  /** The key under which reading field `name` of `struct` is available. */
  function FieldKey(name: string, struct: Value, t: Type): Key
  {
    Key(FieldAccess, name, [struct], t)
  }

  /** A field write into a tuple struct. */
  predicate WritesTupleField(defs: map<OpId, Def>, d: Def)
  {
    d.Op? && d.kind == FieldWrite && |d.args| >= 1 && IsTuplestruct(ValueType(defs, d.args[0]))
  }

  /** The value is a `StructConstruction` of the arena. */
  predicate OnConstruction(defs: map<OpId, Def>, v: Value)
  {
    v.OpRef? && v.id in defs && defs[v.id].Op? && defs[v.id].kind == StructConstruction
  }

  function Min(a: nat, b: nat): nat { if a <= b then a else b }

  /** The keys of the first `n` fields of the tuple struct constructed by `o`. */
  ghost function FieldKeys(defs: map<OpId, Def>, o: OpId, names: seq<string>, args: seq<Value>, n: nat): set<Key>
    requires n <= |names| && n <= |args|
  {
    set i | 0 <= i < n :: FieldKey(names[i], OpRef(o), ValueType(defs, args[i]))
  }

  /**
   * The first `n` pairs of `zip(names, args)` become available as reads of
   * the constructed struct; a later pair with the same key wins.
   */
  function FieldsUpTo(defs: map<OpId, Def>, t: Table, o: OpId, names: seq<string>, args: seq<Value>, repl: Repl, n: nat): (r: Table)
    requires n <= |names| && n <= |args|
    ensures r.Keys == t.Keys + FieldKeys(defs, o, names, args, n)
    ensures forall k | k in t && k !in FieldKeys(defs, o, names, args, n) :: r[k] == t[k]
    ensures Distinct(names[..n]) ==>
      forall i | 0 <= i < n :: r[FieldKey(names[i], OpRef(o), ValueType(defs, args[i]))] == Replaced(args[i], repl)
  {
    if n == 0 then t
    else
      var prev := FieldsUpTo(defs, t, o, names, args, repl, n - 1);
      var k := FieldKey(names[n - 1], OpRef(o), ValueType(defs, args[n - 1]));
      FieldKeysNext(defs, o, names, args, n);
      DistinctInit(names, n);
      prev[k := Replaced(args[n - 1], repl)]
  }

  lemma FieldKeysNext(defs: map<OpId, Def>, o: OpId, names: seq<string>, args: seq<Value>, n: nat)
    requires 0 < n <= |names| && n <= |args|
    ensures FieldKeys(defs, o, names, args, n) ==
            FieldKeys(defs, o, names, args, n - 1) + {FieldKey(names[n - 1], OpRef(o), ValueType(defs, args[n - 1]))}
  {
    var k := FieldKey(names[n - 1], OpRef(o), ValueType(defs, args[n - 1]));
    forall x | x in FieldKeys(defs, o, names, args, n)
      ensures x in FieldKeys(defs, o, names, args, n - 1) + {k}
    {
      var i :| 0 <= i < n && x == FieldKey(names[i], OpRef(o), ValueType(defs, args[i]));
      if i < n - 1 {
        assert x in FieldKeys(defs, o, names, args, n - 1);
      }
    }
  }

  lemma DistinctInit<T>(s: seq<T>, n: nat)
    requires 0 < n <= |s|
    ensures Distinct(s[..n]) ==> Distinct(s[..n - 1]) && forall i | 0 <= i < n - 1 :: s[i] != s[n - 1]
  {
    assert s[..n][..n - 1] == s[..n - 1];
    if Distinct(s[..n]) {
      forall i | 0 <= i < n - 1 ensures s[i] != s[n - 1] {
        assert s[..n][i] == s[i] && s[..n][n - 1] == s[n - 1];
      }
    }
  }

  /**
   * One iteration of the loop over a block's operations. A replaceable
   * operation whose key is available is replaced by the table's value and
   * otherwise becomes available itself. A field write into a tuple struct
   * makes the written value available as a read of that field, and a tuple
   * struct construction makes every field available. A field write into a
   * struct construction fails the source's assertion.
   */
  function CseOp(defs: map<OpId, Def>, o: OpId, t: Table, repl: Repl, pure: set<string>, builtins: map<string, string>)
    : (r: Result<(Table, Repl)>)
    requires o in defs
    ensures var d := defs[o];
      r.Failure? <==> !CanReplace(defs, d, pure, builtins) && WritesTupleField(defs, d) && OnConstruction(defs, d.args[0])
    ensures r.Ok? ==> t.Keys <= r.value.0.Keys
    ensures r.Ok? ==> repl.Keys <= r.value.1.Keys <= repl.Keys + {OpRef(o)}
    ensures r.Ok? ==> forall v | v in repl && v != OpRef(o) :: r.value.1[v] == repl[v]
    ensures var d := defs[o];
      r.Ok? && OpRef(o) !in repl ==>
        (OpRef(o) in r.value.1 <==> CanReplace(defs, d, pure, builtins) && OpKey(d, repl) in t)
    ensures var d := defs[o];
      r.Ok? && OpRef(o) !in repl && OpRef(o) in r.value.1 ==> r.value.1[OpRef(o)] == t[OpKey(d, repl)]
    ensures var d := defs[o];
      r.Ok? && CanReplace(defs, d, pure, builtins) && OpKey(d, repl) !in t ==>
        OpKey(d, repl) in r.value.0 && r.value.0[OpKey(d, repl)] == OpRef(o)
    ensures var d := defs[o];
      r.Ok? && !CanReplace(defs, d, pure, builtins) && WritesTupleField(defs, d) && |d.args| >= 2 ==>
        var k := FieldKey(d.name, Replaced(d.args[0], repl), ValueType(defs, d.args[1]));
        k in r.value.0 && r.value.0[k] == Replaced(d.args[1], repl)
  {
    var d := defs[o];
    if !CanReplace(defs, d, pure, builtins) then
      if WritesTupleField(defs, d) then
        if OnConstruction(defs, d.args[0]) then Failure("field write into a struct construction")
        else if |d.args| < 2 then Ok((t, repl))
        else Ok((t[FieldKey(d.name, Replaced(d.args[0], repl), ValueType(defs, d.args[1])) := Replaced(d.args[1], repl)], repl))
      else if d.Op? && d.kind == StructConstruction && IsTuplestruct(d.typ) then
        Ok((FieldsUpTo(defs, t, o, d.typ.names, d.args, repl, Min(|d.typ.names|, |d.args|)), repl))
      else Ok((t, repl))
    else
      var k := OpKey(d, repl);
      if k in t then Ok((t, repl[OpRef(o) := t[k]])) else Ok((t[k := OpRef(o)], repl))
  }

  /** The loop over the operations of one block. */
  function CseOps(defs: map<OpId, Def>, ops: seq<OpId>, t: Table, repl: Repl, pure: set<string>, builtins: map<string, string>)
    : (r: Result<(Table, Repl)>)
    requires forall o | o in ops :: o in defs
    ensures r.Ok? ==> t.Keys <= r.value.0.Keys && repl.Keys <= r.value.1.Keys
    ensures r.Ok? ==> forall v | v in r.value.1 && v !in repl :: v.OpRef? && v.id in ops && CanReplace(defs, defs[v.id], pure, builtins)
    ensures r.Ok? ==> forall v | v in repl && !(v.OpRef? && v.id in ops) :: r.value.1[v] == repl[v]
  {
    if ops == [] then Ok((t, repl))
    else
      var init := ops[..|ops| - 1];
      var o := ops[|ops| - 1];
      assert forall x | x in init :: x in ops;
      match CseOps(defs, init, t, repl, pure, builtins)
      case Failure(e) => Failure(e)
      case Ok((t1, r1)) =>
        var r := CseOp(defs, o, t1, r1, pure, builtins);
        assert r.Ok? ==> forall v | v in r.value.1 && v !in r1 :: v == OpRef(o);
        r
  }

  /** All predecessors hold `key` with the same value `v`. */
  predicate Agree(avail: map<BlockId, Table>, preds: seq<BlockId>, key: Key, v: Value)
  {
    forall p | p in preds :: p in avail && key in avail[p] && avail[p][key] == v
  }

  /**
   * The table a block starts with: empty without predecessors, a copy for a
   * single one, and otherwise the entries of the first on which all
   * predecessors agree. The first predecessor must have been walked already.
   */
  function EntryTable(avail: map<BlockId, Table>, preds: seq<BlockId>): (r: Result<Table>)
    ensures r.Ok? <==> preds == [] || preds[0] in avail
    ensures r.Ok? && preds == [] ==> r.value == map[]
    ensures r.Ok? && preds != [] ==>
      forall k :: k in r.value <==> k in avail[preds[0]] && Agree(avail, preds, k, avail[preds[0]][k])
    ensures r.Ok? ==> forall k, p | k in r.value && p in preds :: p in avail && k in avail[p] && avail[p][k] == r.value[k]
  {
    if preds == [] then Ok(map[])
    else if preds[0] !in avail then Failure("the first predecessor has no table yet")
    else if |preds| == 1 then Ok(avail[preds[0]])
    else
      var first := avail[preds[0]];
      Ok(map k | k in first && Agree(avail, preds, k, first[k]) :: first[k])
  }

  /** The loop over the blocks in `order`: each gets its entry table, then its operations are walked. */
  function CseWalk(blocks: map<BlockId, Block>, defs: map<OpId, Def>, entry: map<BlockId, seq<BlockId>>,
                   order: seq<BlockId>, pure: set<string>, builtins: map<string, string>)
    : (r: Result<(map<BlockId, Table>, Repl)>)
    requires OpsDefined(blocks, defs) && forall b | b in order :: b in blocks
    ensures r.Ok? ==> r.value.0.Keys == SetOf(order)
    ensures r.Ok? ==>
      forall v | v in r.value.1 :: v.OpRef? && v.id in OpsOf(blocks, SetOf(order)) && CanReplace(defs, defs[v.id], pure, builtins)
  {
    if order == [] then Ok((map[], map[]))
    else
      var init := order[..|order| - 1];
      var b := order[|order| - 1];
      assert forall x | x in init :: x in order;
      SetSnoc(order);
      match CseWalk(blocks, defs, entry, init, pure, builtins)
      case Failure(e) => Failure(e)
      case Ok((avail, repl)) =>
        var r := CseBlock(blocks, defs, entry, avail, repl, b, pure, builtins);
        assert r.Ok? ==> forall v | v in r.value.1 ::
            v.OpRef? && v.id in OpsOf(blocks, SetOf(order)) && CanReplace(defs, defs[v.id], pure, builtins) by {
          if r.Ok? {
            WalkStepRepl(blocks, defs, order, repl, r.value.1, pure, builtins);
          }
        }
        r
  }

  /**
   * One iteration of the loop over the blocks: the entry table of `b` from
   * its predecessor list, then the walk over its operations; the final table
   * is recorded as what is available at the end of `b`.
   */
  function CseBlock(blocks: map<BlockId, Block>, defs: map<OpId, Def>, entry: map<BlockId, seq<BlockId>>,
                    avail: map<BlockId, Table>, repl: Repl, b: BlockId, pure: set<string>, builtins: map<string, string>)
    : (r: Result<(map<BlockId, Table>, Repl)>)
    requires OpsDefined(blocks, defs) && b in blocks
    ensures r.Ok? <==> b in entry && EntryTable(avail, entry[b]).Ok? &&
                       CseOps(defs, blocks[b].ops, EntryTable(avail, entry[b]).value, repl, pure, builtins).Ok?
    ensures r.Ok? ==> r.value.0.Keys == avail.Keys + {b} && forall x | x in avail && x != b :: r.value.0[x] == avail[x]
    ensures r.Ok? ==> repl.Keys <= r.value.1.Keys
    ensures r.Ok? ==> forall v | v in r.value.1 && v !in repl ::
      v.OpRef? && v.id in blocks[b].ops && CanReplace(defs, defs[v.id], pure, builtins)
  {
    if b !in entry then Failure("no predecessor list")
    else
      match EntryTable(avail, entry[b])
      case Failure(e) => Failure(e)
      case Ok(t0) =>
        match CseOps(defs, blocks[b].ops, t0, repl, pure, builtins)
        case Failure(e) => Failure(e)
        case Ok((t, repl')) => Ok((avail[b := t], repl'))
  }

  lemma SetSnoc<T>(s: seq<T>)
    requires s != []
    ensures SetOf(s) == SetOf(s[..|s| - 1]) + {s[|s| - 1]}
  {
    assert forall x | x in s :: x in s[..|s| - 1] || x == s[|s| - 1];
  }

  /** The replacements after a block name operations of the blocks walked so far. */
  lemma WalkStepRepl(blocks: map<BlockId, Block>, defs: map<OpId, Def>, order: seq<BlockId>, repl: Repl, repl': Repl,
                     pure: set<string>, builtins: map<string, string>)
    requires order != [] && order[|order| - 1] in blocks && OpsDefined(blocks, defs)
    requires SetOf(order) == SetOf(order[..|order| - 1]) + {order[|order| - 1]}
    requires forall v | v in repl ::
      v.OpRef? && v.id in OpsOf(blocks, SetOf(order[..|order| - 1])) && CanReplace(defs, defs[v.id], pure, builtins)
    requires forall v | v in repl' && v !in repl ::
      v.OpRef? && v.id in blocks[order[|order| - 1]].ops && CanReplace(defs, defs[v.id], pure, builtins)
    ensures forall v | v in repl' ::
      v.OpRef? && v.id in OpsOf(blocks, SetOf(order)) && CanReplace(defs, defs[v.id], pure, builtins)
  {
    var b := order[|order| - 1];
    forall v | v in repl' ensures v.OpRef? && v.id in OpsOf(blocks, SetOf(order)) {
      if v !in repl {
        assert v.id in blocks[b].ops;
      }
    }
  }

  /** The operations of a block that were not replaced, in order. */
  function Kept(ops: seq<OpId>, repl: Repl): (r: seq<OpId>)
    ensures forall o :: o in r <==> o in ops && OpRef(o) !in repl
    ensures Distinct(ops) ==> Distinct(r)
  {
    if ops == [] then []
    else
      var init := ops[..|ops| - 1];
      var o := ops[|ops| - 1];
      assert forall x | x in ops :: x in init || x == o;
      assert forall x | x in init :: x in ops;
      if OpRef(o) in repl then Kept(init, repl) else Kept(init, repl) + [o]
  }

  /** The walked blocks with their replaced operations dropped. */
  function Compacted(blocks: map<BlockId, Block>, order: seq<BlockId>, repl: Repl): (r: map<BlockId, Block>)
    ensures r.Keys == blocks.Keys
    ensures forall b | b in blocks :: r[b].next == blocks[b].next
    ensures forall b | b in blocks && b !in order :: r[b] == blocks[b]
    ensures forall b, o | b in blocks && b in order && o in r[b].ops :: OpRef(o) !in repl
  {
    map b | b in blocks :: if b in order then Block(Kept(blocks[b].ops, repl), blocks[b].next) else blocks[b]
  }

  // ---------------------------------------------------------------------
  // The loops of `cse`

  /** `all(available.get(p, {}).get(key, None) == v for p in preds)`. */
  method AgreeOn(avail: map<BlockId, Table>, preds: seq<BlockId>, key: Key, v: Value) returns (ok: bool)
    ensures ok <==> Agree(avail, preds, key, v)
  {
    for i := 0 to |preds|
      invariant Agree(avail, preds[..i], key, v)
    {
      var p := preds[i];
      if !(p in avail && key in avail[p] && avail[p][key] == v) {
        return false;
      }
      assert forall q | q in preds[..i + 1] :: q in preds[..i] || q == p;
    }
    assert preds[..|preds|] == preds;
    return true;
  }

  /** The computation of `available_in_block` from the predecessors' tables. */
  method EntryTableOn(avail: map<BlockId, Table>, preds: seq<BlockId>) returns (r: Result<Table>)
    ensures r == EntryTable(avail, preds)
  {
    if preds == [] {
      return Ok(map[]);
    }
    if preds[0] !in avail {
      return Failure("the first predecessor has no table yet");
    }
    if |preds| == 1 {
      return Ok(avail[preds[0]]);
    }
    var first := avail[preds[0]];
    var t: Table := map[];
    var todo := first.Keys;
    while todo != {}
      invariant todo <= first.Keys
      invariant forall k :: k in t <==> k in first && k !in todo && Agree(avail, preds, k, first[k])
      invariant forall k | k in t :: t[k] == first[k]
      decreases |todo|
    {
      var k :| k in todo;
      todo := todo - {k};
      var ok := AgreeOn(avail, preds, k, first[k]);
      if ok {
        t := t[k := first[k]];
      }
    }
    ghost var want := map k | k in first && Agree(avail, preds, k, first[k]) :: first[k];
    assert t.Keys == want.Keys;
    assert t == want;
    return Ok(t);
  }

  lemma FieldsNext(defs: map<OpId, Def>, t: Table, o: OpId, names: seq<string>, args: seq<Value>, repl: Repl, i: nat)
    requires i < |names| && i < |args|
    ensures FieldsUpTo(defs, t, o, names, args, repl, i + 1) ==
            FieldsUpTo(defs, t, o, names, args, repl, i)[FieldKey(names[i], OpRef(o), ValueType(defs, args[i])) := Replaced(args[i], repl)]
  {
  }

  /** `for fieldname, val in zip(names, args)`. */
  method FieldsOn(defs: map<OpId, Def>, t: Table, o: OpId, names: seq<string>, args: seq<Value>, repl: Repl)
    returns (r: Table)
    ensures r == FieldsUpTo(defs, t, o, names, args, repl, Min(|names|, |args|))
  {
    r := t;
    for i := 0 to Min(|names|, |args|)
      invariant r == FieldsUpTo(defs, t, o, names, args, repl, i)
    {
      FieldsNext(defs, t, o, names, args, repl, i);
      r := r[FieldKey(names[i], OpRef(o), ValueType(defs, args[i])) := Replaced(args[i], repl)];
    }
  }

  /** The body of the loop over a block's operations. */
  method CseOpOn(defs: map<OpId, Def>, o: OpId, t: Table, repl: Repl, pure: set<string>, builtins: map<string, string>)
    returns (r: Result<(Table, Repl)>)
    requires o in defs
    ensures r == CseOp(defs, o, t, repl, pure, builtins)
  {
    var d := defs[o];
    if !CanReplace(defs, d, pure, builtins) {
      if WritesTupleField(defs, d) {
        if OnConstruction(defs, d.args[0]) {
          return Failure("field write into a struct construction");
        }
        if |d.args| < 2 {
          return Ok((t, repl));
        }
        var res := d.args[1];
        var key := FieldKey(d.name, Replaced(d.args[0], repl), ValueType(defs, res));
        return Ok((t[key := Replaced(res, repl)], repl));
      }
      if d.Op? && d.kind == StructConstruction && IsTuplestruct(d.typ) {
        var t' := FieldsOn(defs, t, o, d.typ.names, d.args, repl);
        return Ok((t', repl));
      }
      return Ok((t, repl));
    }
    var key := OpKey(d, repl);
    if key in t {
      return Ok((t, repl[OpRef(o) := t[key]]));
    }
    return Ok((t[key := OpRef(o)], repl));
  }

  /** `for index, op in enumerate(block.operations)`. */
  method CseOpsOn(defs: map<OpId, Def>, ops: seq<OpId>, t: Table, repl: Repl, pure: set<string>, builtins: map<string, string>)
    returns (r: Result<(Table, Repl)>)
    requires forall o | o in ops :: o in defs
    ensures r == CseOps(defs, ops, t, repl, pure, builtins)
  {
    var cur, curRepl := t, repl;
    for i := 0 to |ops|
      invariant CseOps(defs, ops[..i], t, repl, pure, builtins) == Ok((cur, curRepl))
    {
      var step := CseOpsStep(defs, ops, i, t, repl, cur, curRepl, pure, builtins);
      if step.Failure? {
        return step;
      }
      cur, curRepl := step.value.0, step.value.1;
    }
    CseOpsWhole(defs, ops, t, repl, pure, builtins);
    return Ok((cur, curRepl));
  }

  /** One round of the loop: the table and replacements after operation `i`. */
  method CseOpsStep(defs: map<OpId, Def>, ops: seq<OpId>, i: nat, t: Table, repl: Repl, cur: Table, curRepl: Repl,
                    pure: set<string>, builtins: map<string, string>) returns (step: Result<(Table, Repl)>)
    requires forall o | o in ops :: o in defs
    requires i < |ops| && CseOps(defs, ops[..i], t, repl, pure, builtins) == Ok((cur, curRepl))
    ensures step == CseOps(defs, ops[..i + 1], t, repl, pure, builtins)
    ensures step.Failure? ==> step == CseOps(defs, ops, t, repl, pure, builtins)
  {
    CseOpsNext(defs, ops, i, t, repl, cur, curRepl, pure, builtins);
    step := CseOpOn(defs, ops[i], cur, curRepl, pure, builtins);
    if step.Failure? {
      CseOpsFailed(defs, ops, i + 1, t, repl, pure, builtins);
    }
  }

  lemma CseOpsWhole(defs: map<OpId, Def>, ops: seq<OpId>, t: Table, repl: Repl, pure: set<string>, builtins: map<string, string>)
    requires forall o | o in ops :: o in defs
    ensures CseOps(defs, ops[..|ops|], t, repl, pure, builtins) == CseOps(defs, ops, t, repl, pure, builtins)
  {
    assert ops[..|ops|] == ops;
  }

  lemma CseOpsNext(defs: map<OpId, Def>, ops: seq<OpId>, i: nat, t: Table, repl: Repl, cur: Table, curRepl: Repl,
                   pure: set<string>, builtins: map<string, string>)
    requires forall o | o in ops :: o in defs
    requires i < |ops| && CseOps(defs, ops[..i], t, repl, pure, builtins) == Ok((cur, curRepl))
    ensures CseOps(defs, ops[..i + 1], t, repl, pure, builtins) == CseOp(defs, ops[i], cur, curRepl, pure, builtins)
  {
    assert ops[..i + 1][..i] == ops[..i];
  }

  /** A failure in a prefix of the operations is the failure of the whole block. */
  lemma {:induction false} CseOpsFailed(defs: map<OpId, Def>, ops: seq<OpId>, i: nat, t: Table, repl: Repl,
                                        pure: set<string>, builtins: map<string, string>)
    requires forall o | o in ops :: o in defs
    requires i <= |ops| && CseOps(defs, ops[..i], t, repl, pure, builtins).Failure?
    ensures CseOps(defs, ops, t, repl, pure, builtins) == CseOps(defs, ops[..i], t, repl, pure, builtins)
    decreases |ops| - i
  {
    if i < |ops| {
      assert ops[..i + 1][..i] == ops[..i];
      CseOpsFailed(defs, ops, i + 1, t, repl, pure, builtins);
    } else {
      assert ops[..i] == ops;
    }
  }

  lemma CseWalkNext(blocks: map<BlockId, Block>, defs: map<OpId, Def>, entry: map<BlockId, seq<BlockId>>,
                    order: seq<BlockId>, i: nat, avail: map<BlockId, Table>, repl: Repl, pure: set<string>, builtins: map<string, string>)
    requires OpsDefined(blocks, defs) && (forall b | b in order :: b in blocks) && i < |order|
    requires CseWalk(blocks, defs, entry, order[..i], pure, builtins) == Ok((avail, repl))
    ensures CseWalk(blocks, defs, entry, order[..i + 1], pure, builtins) == CseBlock(blocks, defs, entry, avail, repl, order[i], pure, builtins)
  {
    assert order[..i + 1][..i] == order[..i];
  }

  lemma {:induction false} CseWalkFailed(blocks: map<BlockId, Block>, defs: map<OpId, Def>, entry: map<BlockId, seq<BlockId>>,
                                         order: seq<BlockId>, i: nat, pure: set<string>, builtins: map<string, string>)
    requires OpsDefined(blocks, defs) && (forall b | b in order :: b in blocks) && i <= |order|
    requires CseWalk(blocks, defs, entry, order[..i], pure, builtins).Failure?
    ensures CseWalk(blocks, defs, entry, order, pure, builtins) == CseWalk(blocks, defs, entry, order[..i], pure, builtins)
    decreases |order| - i
  {
    if i < |order| {
      assert order[..i + 1][..i] == order[..i];
      CseWalkFailed(blocks, defs, entry, order, i + 1, pure, builtins);
    } else {
      assert order[..i] == order;
    }
  }

  /** The body of the loop over the blocks. */
  method CseBlockOn(blocks: map<BlockId, Block>, defs: map<OpId, Def>, entry: map<BlockId, seq<BlockId>>,
                    avail: map<BlockId, Table>, repl: Repl, b: BlockId, pure: set<string>, builtins: map<string, string>)
    returns (r: Result<(map<BlockId, Table>, Repl)>)
    requires OpsDefined(blocks, defs) && b in blocks
    ensures r == CseBlock(blocks, defs, entry, avail, repl, b, pure, builtins)
  {
    if b !in entry {
      return Failure("no predecessor list");
    }
    var t0 := EntryTableOn(avail, entry[b]);
    if t0.Failure? {
      return Failure(t0.msg);
    }
    var res := CseOpsOn(defs, blocks[b].ops, t0.value, repl, pure, builtins);
    if res.Failure? {
      return Failure(res.msg);
    }
    return Ok((avail[b := res.value.0], res.value.1));
  }

  /** One iteration of the loop over the blocks, with what it means for the walk so far. */
  method CseWalkStep(blocks: map<BlockId, Block>, defs: map<OpId, Def>, entry: map<BlockId, seq<BlockId>>,
                     order: seq<BlockId>, i: nat, avail: map<BlockId, Table>, repl: Repl, pure: set<string>, builtins: map<string, string>)
    returns (r: Result<(map<BlockId, Table>, Repl)>)
    requires OpsDefined(blocks, defs) && (forall b | b in order :: b in blocks) && i < |order|
    requires CseWalk(blocks, defs, entry, order[..i], pure, builtins) == Ok((avail, repl))
    ensures r.Failure? ==> r == CseWalk(blocks, defs, entry, order, pure, builtins)
    ensures r.Ok? ==> r == CseWalk(blocks, defs, entry, order[..i + 1], pure, builtins)
  {
    CseWalkNext(blocks, defs, entry, order, i, avail, repl, pure, builtins);
    r := CseBlockOn(blocks, defs, entry, avail, repl, order[i], pure, builtins);
    if r.Failure? {
      CseWalkFailed(blocks, defs, entry, order, i + 1, pure, builtins);
    }
  }

  /** `for block in blocks`, in the order given. */
  method CseWalkOn(blocks: map<BlockId, Block>, defs: map<OpId, Def>, entry: map<BlockId, seq<BlockId>>,
                   order: seq<BlockId>, pure: set<string>, builtins: map<string, string>)
    returns (r: Result<(map<BlockId, Table>, Repl)>)
    requires OpsDefined(blocks, defs) && forall b | b in order :: b in blocks
    ensures r == CseWalk(blocks, defs, entry, order, pure, builtins)
  {
    r := Ok((map[], map[]));
    for i := 0 to |order|
      invariant r.Ok? && CseWalk(blocks, defs, entry, order[..i], pure, builtins) == r
    {
      r := CseWalkStep(blocks, defs, entry, order, i, r.value.0, r.value.1, pure, builtins);
      if r.Failure? {
        return;
      }
    }
    assert order[..|order|] == order;
  }

  // ---------------------------------------------------------------------
  // The pass on the graph

  /** Dropping replaced operations keeps the terminators and thins each block. */
  lemma CompactedThinned(blocks: map<BlockId, Block>, order: seq<BlockId>, repl: Repl)
    requires UniqueOps(blocks)
    ensures Thinned(blocks, Compacted(blocks, order, repl)) && SameEdges(Compacted(blocks, order, repl), blocks)
  {
  }

  /** Exactly the replaced operations disappear from the walked blocks. */
  lemma CseDropsReplaced(blocks: map<BlockId, Block>, defs: map<OpId, Def>, entry: map<BlockId, seq<BlockId>>,
                         order: seq<BlockId>, pure: set<string>, builtins: map<string, string>)
    requires OpsDefined(blocks, defs) && (forall b | b in order :: b in blocks)
    requires CseWalk(blocks, defs, entry, order, pure, builtins).Ok?
    ensures var repl := CseWalk(blocks, defs, entry, order, pure, builtins).value.1;
      OpsOf(Compacted(blocks, order, repl), SetOf(order)) ==
        OpsOf(blocks, SetOf(order)) - set v | v in repl && v.OpRef? :: v.id
    ensures var repl := CseWalk(blocks, defs, entry, order, pure, builtins).value.1;
      forall v | v in repl :: v.OpRef? && v.id in OpsOf(blocks, SetOf(order))
  {
    var repl := CseWalk(blocks, defs, entry, order, pure, builtins).value.1;
    var c := Compacted(blocks, order, repl);
    forall o | o in OpsOf(blocks, SetOf(order)) && OpRef(o) !in repl
      ensures o in OpsOf(c, SetOf(order))
    {
      var b :| b in SetOf(order) && b in blocks && o in blocks[b].ops;
      assert o in c[b].ops;
    }
    forall o | o in OpsOf(c, SetOf(order)) ensures o in OpsOf(blocks, SetOf(order)) && OpRef(o) !in repl {
      var b :| b in SetOf(order) && b in c && o in c[b].ops;
      assert o in blocks[b].ops;
    }
  }

  /**
   * `cse` on the graph: walk the blocks in the order of
   * `topo_order_best_attempt` (which fails the source's assertions where it
   * finds none), then, if anything was replaced, drop the replaced operations
   * and run one round of `replace_ops`, which cannot fail here because no
   * remaining operation is a key of the replacements.
   */
  method CommonSubexpressions(g: Graph, pure: set<string>, builtins: map<string, string>)
    returns (r: Result<bool>, ghost entry: map<BlockId, seq<BlockId>>, ghost topo: seq<BlockId>, ghost sorted: bool)
    requires g.Valid()
    modifies g`blocks, g`defs
    ensures g.Valid()
    ensures entry == Entrymap(old(g.blocks), g.start) && IsEntrymap(old(g.blocks), g.start, entry)
    ensures var rs := Reachable(old(g.blocks), g.start);
      (sorted ==> Distinct(topo) && SetOf(topo) == rs && forall b | b in topo :: b in old(g.blocks)) &&
      (Acyclic(old(g.blocks), rs) ==> sorted && TopoSorted(old(g.blocks), g.start, rs, topo))
    ensures !sorted ==> r.Failure?
    ensures sorted ==>
      var w := CseWalk(old(g.blocks), old(g.defs), entry, topo, pure, builtins);
      var rs := Reachable(old(g.blocks), g.start);
      (r.Ok? <==> w.Ok?) &&
      (r.Ok? ==> (r.value <==> w.value.1 != map[])) &&
      (r.Ok? && r.value ==>
        var c := Compacted(old(g.blocks), topo, w.value.1);
        g.blocks == ReplaceNexts(c, rs, w.value.1) && g.defs == ReplaceDefs(old(g.defs), OpsOf(c, rs), w.value.1))
    ensures !(r.Ok? && r.value) ==> g.blocks == old(g.blocks) && g.defs == old(g.defs)
  {
    var e, result, ok := CseOrder(g);
    entry, topo, sorted := e, result, ok;
    if !ok {
      return Failure("no topological order"), entry, topo, sorted;
    }
    var w := CseWalkOn(g.blocks, g.defs, e, result, pure, builtins);
    if w.Failure? {
      return Failure(w.msg), entry, topo, sorted;
    }
    var repl := w.value.1;
    if repl == map[] {
      return Ok(false), entry, topo, sorted;
    }
    ApplyReplacements(g, result, repl);
    r := Ok(true);
  }

  /** `graph.make_entrymap()` and `topo_order_best_attempt(graph)`. */
  method CseOrder(g: Graph) returns (entry: map<BlockId, seq<BlockId>>, topo: seq<BlockId>, sorted: bool)
    requires g.Wf()
    ensures entry == Entrymap(g.blocks, g.start) && IsEntrymap(g.blocks, g.start, entry)
    ensures var rs := Reachable(g.blocks, g.start);
      (sorted ==> Distinct(topo) && SetOf(topo) == rs && forall b | b in topo :: b in g.blocks) &&
      (Acyclic(g.blocks, rs) ==> sorted && TopoSorted(g.blocks, g.start, rs, topo))
  {
    entry := g.MakeEntrymap();
    ghost var picked;
    topo, sorted, picked := TopoOrderBestAttempt(g);
    DfsOrder(g.blocks, g.start);
    assert Reachable(g.blocks, g.start) <= g.blocks.Keys by {
      assert forall x | x in Dfs(g.blocks, [g.start], {}) :: x in g.blocks;
    }
  }

  /** Drop the replaced operations of the walked blocks, then `graph.replace_ops(replacements)`. */
  method ApplyReplacements(g: Graph, order: seq<BlockId>, repl: Repl)
    requires g.Valid() && SetOf(order) == Reachable(g.blocks, g.start)
    modifies g`blocks, g`defs
    ensures g.Valid()
    ensures var c := Compacted(old(g.blocks), order, repl);
      var rs := Reachable(old(g.blocks), g.start);
      g.blocks == ReplaceNexts(c, rs, repl) && g.defs == ReplaceDefs(old(g.defs), OpsOf(c, rs), repl)
  {
    var c := Compacted(g.blocks, order, repl);
    CompactedThinned(g.blocks, order, repl);
    ThinnedReshaped(g.blocks, c);
    DfsShape(c, g.blocks, [g.start], {});
    StoreBlocks(g, c);
    assert Reachable(c, g.start) == SetOf(order);
    assert forall o | o in OpsOf(c, SetOf(order)) :: OpRef(o) !in repl;
    var changed, replaced := g.ReplaceOps(repl);
  }

  // ---------------------------------------------------------------------
  // Examples

  const X: Value := Argument("x", Int)
  const CastKey: Key := Key(Cast, "$cast", [X], SmallFixedBitVector(8))

  /** A join keeps an entry on which both predecessors agree and drops one on which they differ. */
  lemma JoinTables()
    ensures EntryTable(map[1 := map[CastKey := OpRef(5)], 2 := map[CastKey := OpRef(5)]], [1, 2]) == Ok(map[CastKey := OpRef(5)])
    ensures EntryTable(map[1 := map[CastKey := OpRef(5)], 2 := map[CastKey := OpRef(6)]], [1, 2]) == Ok(map[])
    ensures EntryTable(map[2 := map[CastKey := OpRef(5)]], [1, 2]).Failure?
  {
    var agree := map[1 := map[CastKey := OpRef(5)], 2 := map[CastKey := OpRef(5)]];
    assert Agree(agree, [1, 2], CastKey, OpRef(5));
    var a := EntryTable(agree, [1, 2]).value;
    assert a.Keys == {CastKey};
    assert a == map[CastKey := OpRef(5)];
    var differ := map[1 := map[CastKey := OpRef(5)], 2 := map[CastKey := OpRef(6)]];
    assert !Agree(differ, [1, 2], CastKey, OpRef(5)) by {
      assert 2 in [1, 2];
    }
    var r := EntryTable(differ, [1, 2]).value;
    assert forall k | k in r :: k == CastKey;
    assert r.Keys == {};
    assert r == map[];
  }

  const TwoCasts: map<OpId, Def> := map[0 := MakeCast(X, SmallFixedBitVector(8)), 1 := MakeCast(X, SmallFixedBitVector(8))]

  /** The second of two equal casts in a block is replaced by the first. */
  lemma SecondCastReplaced()
    ensures CseOps(TwoCasts, [0, 1], map[], map[], {}, map[]) == Ok((map[CastKey := OpRef(0)], map[OpRef(1) := OpRef(0)]))
  {
    assert ReplaceArgs([X], map[]) == [X];
    assert OpKey(TwoCasts[0], map[]) == CastKey;
    assert CseOps(TwoCasts, [0], map[], map[], {}, map[]) == Ok((map[CastKey := OpRef(0)], map[])) by {
      assert [0][..0] == [];
    }
    assert [0, 1][..1] == [0];
  }

  const PointRef: Value := Argument("s", Struct("point", ["f"], true))
  const V: Value := Argument("v", Int)
  const WriteRead: map<OpId, Def> := map[0 := Op(FieldWrite, "f", [PointRef, V], Unit), 1 := Op(FieldAccess, "f", [PointRef], Int)]

  /** A read of a tuple struct field right after a write of it is replaced by the written value. */
  lemma ReadAfterWrite()
    ensures CseOps(WriteRead, [0, 1], map[], map[], {}, map[]).Ok?
    ensures CseOps(WriteRead, [0, 1], map[], map[], {}, map[]).value.1 == map[OpRef(1) := V]
  {
    var k := FieldKey("f", PointRef, Int);
    assert !CanReplace(WriteRead, WriteRead[0], {}, map[]);
    assert CseOps(WriteRead, [0], map[], map[], {}, map[]) == Ok((map[k := V], map[])) by {
      assert [0][..0] == [];
    }
    assert ReplaceArgs([PointRef], map[]) == [PointRef];
    assert OpKey(WriteRead[1], map[]) == k;
    assert [0, 1][..1] == [0];
  }
}
