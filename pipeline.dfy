/**
 * `construct_ir` and `build_ssa` from end to end: the statements are cut
 * into blocks, the predecessor lists are computed, the SSA builder makes the
 * graph, and `build` finishes it with the repeated
 * `convert_sail_assert_to_exception` and `light_simplify`.
 */
module Pipeline {
  import opened Wrappers
  import opened Types
  import opened Ir
  import opened IrGraph
  import Parse
  import Construct
  import Ssa
  import opened Driver

  /** The statements `construct_ir` cuts: with `singleblock`, a `JustStop` is appended. */
  function Body(body: Construct.Stmts, singleblock: bool): (r: Construct.Stmts)
    ensures singleblock ==> |r| == |body| + 1 && r[..|body|] == body && r[|body|].JustStop?
    ensures !singleblock ==> r == body
  {
    if singleblock then body + [Parse.JustStop] else body
  }

  /**
   * `build_ssa` and `SSABuilder.build`: the builder's graph, with the Sail
   * asserts lowered and `light_simplify` applied. The graph keeps the
   * function's name and start block, and it has a loop exactly when some
   * block is entered from itself or from a later label.
   */
  method BuildSsa(blocks: map<nat, Construct.Stmts>, name: string, startpc: nat, functionArgs: seq<string>,
                  argTypes: seq<Type>, extraArgs: seq<(string, Type)>, restype: Type,
                  letValues: map<string, Constant>, cg: Support)
    returns (r: Result<Graph>, ghost entry: map<nat, seq<nat>>)
    ensures Construct.IsEntryblocks(blocks, entry)
    ensures r.Ok? ==> fresh(r.value) && r.value.Valid() && r.value.name == name && r.value.start == startpc
    ensures r.Ok? ==> (r.value.hasLoop <==>
      exists pc | pc in blocks :: exists i | 0 <= i < |Construct.Get(entry, pc)| :: pc <= Construct.Get(entry, pc)[i])
  {
    var e := Construct.ComputeEntryblocks(blocks);
    entry := e;
    var builder := new Ssa.Builder(blocks, e, name, startpc, functionArgs, argTypes, extraArgs, restype, letValues);
    var built := builder.Build();
    if built.Failure? {
      return Failure(built.msg), entry;
    }
    var g := built.value;
    var s := Finish(g, cg);
    if s.Failure? {
      return Failure(s.msg), entry;
    }
    r := Ok(g);
  }

  /**
   * The end of `build`: `convert_sail_assert_to_exception`, then
   * `light_simplify`, both repeated. The result holds what the two reported.
   */
  method Finish(g: Graph, cg: Support) returns (r: Result<(bool, bool)>)
    requires g.Valid()
    modifies g`blocks, g`defs, g`nextBlock, g`nextOp
    ensures g.Valid()
    ensures r.Ok? && r.value.1 ==> Consistent(g.blocks, g.defs, g.start, g.args, Dfs(g.blocks, [g.start], {}))
  {
    ghost var changes;
    var lowered, simplified;
    lowered, changes := Repeated(g, ConvertSailAssertPass, cg);
    if lowered.Failure? {
      return Failure(lowered.msg);
    }
    simplified, changes := LightSimplify(g, cg);
    if simplified.Failure? {
      return Failure(simplified.msg);
    }
    r := Ok((lowered.value, simplified.value));
  }

  /**
   * `construct_ir(functionast, codegen, singleblock)`: the body is cut into
   * blocks (which fails unless index 0 starts one) and handed to
   * `build_ssa`; a single-block body has no arguments.
   */
  method ConstructIr(body: Construct.Stmts, singleblock: bool, name: string, functionArgs: seq<string>,
                     argTypes: seq<Type>, restype: Type, letValues: map<string, Constant>, cg: Support)
    returns (r: Result<Graph>, ghost blocks: map<nat, Construct.Stmts>, ghost entry: map<nat, seq<nat>>)
    ensures var b := Body(body, singleblock);
      !(b == [] || 0 in Construct.JumpTargets(b)) ==> r.Failure?
    ensures r.Ok? ==> Construct.Partitioned(Body(body, singleblock), blocks) && Construct.IsEntryblocks(blocks, entry)
    ensures r.Ok? ==> fresh(r.value) && r.value.Valid() && r.value.name == name && r.value.start == 0
  {
    var b := Body(body, singleblock);
    var split := Construct.SplitIntoBlocks(b);
    if split.Failure? {
      return Failure(split.msg), map[], map[];
    }
    blocks := split.value;
    var args := if singleblock then [] else functionArgs;
    r, entry := BuildSsa(split.value, name, 0, args, argTypes, [], restype, letValues, cg);
  }
}
