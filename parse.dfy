/**
 * The statement language the SSA builder reads: the output of the Sail
 * front end, one flat list of statements per function, where jumps name
 * statement indices. The `parse` module of the implementation is not part of
 * this model; only the statements and expressions the builder distinguishes
 * are kept, each carrying the static type the front end resolved for it.
 */
module Parse {
  import opened Wrappers
  import opened Types

  datatype Expr =
    | Var(name: string, typ: Type)
    | Number(number: int, typ: Type)
    /** A bitvector literal, with the number it denotes already evaluated. */
    | BitVectorConstant(value: nat, typ: Type)
    /** A string literal, already unquoted. */
    | String(s: string, typ: Type)
    | Unit(typ: Type)
    | FieldAccess(obj: Expr, element: string, typ: Type)
    /** A union-variant cast `expr as variant`. */
    | Cast(expr: Expr, variant: string, typ: Type)
    | RefOf(expr: Expr, typ: Type)

  /** The call on the right of a declaration with an initializer. */
  datatype Call = Call(name: string, args: seq<Expr>, typ: Type)

  datatype Condition =
    | Comparison(operation: string, args: seq<Expr>)
    | ExprCondition(expr: Expr)
    | UnionVariantCheck(variant: string, checked: Expr)

  datatype Statement =
    | LocalVarDeclaration(name: string, typ: Type, init: Option<Call>)
    | Operation(result: string, name: string, args: seq<Expr>, typ: Type)
    | Assignment(result: string, value: Expr, typ: Type)
    | End
    | Goto(target: nat)
    | ConditionalJump(condition: Condition, target: nat)
    | Exit(kind: string)
    | Arbitrary
    | JustStop

  /** The statements after which control never falls through to the next index. */
  predicate EndOfBlock(s: Statement)
  {
    s.End? || s.Goto? || s.Exit? || s.Arbitrary? || s.JustStop?
  }

  /** `getattr(op, 'target', 0)`: a statement without a jump target counts as one to index 0. */
  function Target(s: Statement): nat
  {
    if s.Goto? || s.ConditionalJump? then s.target else 0
  }
}
