/**
 * The optimisation that runs on the front end's statement lists before any
 * SSA graph exists: a temporary that is declared, assigned once and read
 * once, all in the same block, is folded into the statement that reads it,
 * and its declaration and assignment are deleted.
 *
 * The statements here are those of the front end's syntax tree, with the two
 * expression nodes the folding creates (`OperationExpr`, `CastExpr`). A block
 * is a list of statements, and the lists are named by their position in the
 * list of blocks, which stands for Python's object identity of the lists.
 * Types are the front end's type names (`%bv7`).
 */
module PreOpt {
  import opened Wrappers

  datatype Expr =
    | Var(name: string)
    | Number(number: int)
    /** Any leaf that reads no variable: a bitvector or string literal, `()`, `undefined`. */
    | Literal(text: string)
    | FieldAccess(obj: Expr, element: string)
    | Cast(expr: Expr, variant: string)
    | RefOf(expr: Expr)
    | StructConstruction(name: string, fieldnames: seq<string>, fieldvalues: seq<Expr>)
    | OperationExpr(name: string, args: seq<Expr>, typ: string)
    | CastExpr(expr: Expr, typ: string)

  datatype Condition =
    | Comparison(operation: string, args: seq<Expr>)
    | ExprCondition(expr: Expr)
    | UnionVariantCheck(checked: Expr, variant: string)

  datatype Stmt =
    | LocalVarDeclaration(name: string, typ: string, init: Option<Expr>)
    | Assignment(result: string, value: Expr)
    | Operation(result: string, name: string, args: seq<Expr>)
    | StructElementAssignment(obj: Expr, field: string, value: Expr)
    | ConditionalJump(condition: Condition, target: nat)
    /** Any other statement (`Goto`, `End`, `Exit`, ...), with the expressions it reads. */
    | Other(kind: string, exprs: seq<Expr>)

  // ---------------------------------------------------------------------
  // `find_used_vars` and `replace_var`

  function UsedVars(e: Expr): set<string>
  {
    match e
    case Var(n) => {n}
    case Number(_) => {}
    case Literal(_) => {}
    case FieldAccess(obj, _) => UsedVars(obj)
    case Cast(x, _) => UsedVars(x)
    case RefOf(x) => UsedVars(x)
    case StructConstruction(_, _, vs) => UsedVarsAll(vs)
    case OperationExpr(_, args, _) => UsedVarsAll(args)
    case CastExpr(x, _) => UsedVars(x)
  }

  function UsedVarsAll(es: seq<Expr>): set<string>
  {
    if es == [] then {} else UsedVars(es[0]) + UsedVarsAll(es[1..])
  }

  /** Every occurrence of `Var(v)` becomes `x`. */
  function ReplaceVar(e: Expr, v: string, x: Expr): Expr
  {
    match e
    case Var(n) => if n == v then x else e
    case Number(_) => e
    case Literal(_) => e
    case FieldAccess(obj, f) => FieldAccess(ReplaceVar(obj, v, x), f)
    case Cast(y, variant) => Cast(ReplaceVar(y, v, x), variant)
    case RefOf(y) => RefOf(ReplaceVar(y, v, x))
    case StructConstruction(n, fs, vs) => StructConstruction(n, fs, ReplaceVarAll(vs, v, x))
    case OperationExpr(n, args, t) => OperationExpr(n, ReplaceVarAll(args, v, x), t)
    case CastExpr(y, t) => CastExpr(ReplaceVar(y, v, x), t)
  }

  function ReplaceVarAll(es: seq<Expr>, v: string, x: Expr): (r: seq<Expr>)
    ensures |r| == |es|
  {
    if es == [] then [] else [ReplaceVar(es[0], v, x)] + ReplaceVarAll(es[1..], v, x)
  }

  function CondVars(c: Condition): set<string>
  {
    match c
    case Comparison(_, args) => UsedVarsAll(args)
    case ExprCondition(e) => UsedVars(e)
    case UnionVariantCheck(e, _) => UsedVars(e)
  }

  function ReplaceInCond(c: Condition, v: string, x: Expr): Condition
  {
    match c
    case Comparison(o, args) => Comparison(o, ReplaceVarAll(args, v, x))
    case ExprCondition(e) => ExprCondition(ReplaceVar(e, v, x))
    case UnionVariantCheck(e, variant) => UnionVariantCheck(ReplaceVar(e, v, x), variant)
  }

  /** The variables a statement reads; the result of an assignment is not read. */
  function StmtVars(s: Stmt): set<string>
  {
    match s
    case LocalVarDeclaration(_, _, init) => if init.Some? then UsedVars(init.value) else {}
    case Assignment(_, value) => UsedVars(value)
    case Operation(_, _, args) => UsedVarsAll(args)
    case StructElementAssignment(obj, _, value) => UsedVars(obj) + UsedVars(value)
    case ConditionalJump(c, _) => CondVars(c)
    case Other(_, es) => UsedVarsAll(es)
  }

  function ReplaceInStmt(s: Stmt, v: string, x: Expr): Stmt
  {
    match s
    case LocalVarDeclaration(n, t, init) =>
      LocalVarDeclaration(n, t, if init.Some? then Some(ReplaceVar(init.value, v, x)) else None)
    case Assignment(r, value) => Assignment(r, ReplaceVar(value, v, x))
    case Operation(r, n, args) => Operation(r, n, ReplaceVarAll(args, v, x))
    case StructElementAssignment(obj, f, value) => StructElementAssignment(ReplaceVar(obj, v, x), f, ReplaceVar(value, v, x))
    case ConditionalJump(c, t) => ConditionalJump(ReplaceInCond(c, v, x), t)
    case Other(k, es) => Other(k, ReplaceVarAll(es, v, x))
  }

  /**
   * Replacing a variable by an expression other than itself changes an
   * expression exactly when the expression reads the variable; afterwards the
   * expression reads what it read before, without `v`, plus what `x` reads.
   */
  lemma {:induction false} ReplaceVarSpec(e: Expr, v: string, x: Expr)
    requires x != Var(v)
    ensures ReplaceVar(e, v, x) == e <==> v !in UsedVars(e)
    ensures UsedVars(ReplaceVar(e, v, x)) == if v in UsedVars(e) then UsedVars(e) - {v} + UsedVars(x) else UsedVars(e)
    decreases e, 1
  {
    match e
    case Var(n) =>
    case Number(_) =>
    case Literal(_) =>
    case FieldAccess(obj, f) => ReplaceVarSpec(obj, v, x);
    case Cast(y, _) => ReplaceVarSpec(y, v, x);
    case RefOf(y) => ReplaceVarSpec(y, v, x);
    case StructConstruction(_, _, vs) => ReplaceVarAllSpec(vs, v, x);
    case OperationExpr(_, args, _) => ReplaceVarAllSpec(args, v, x);
    case CastExpr(y, _) => ReplaceVarSpec(y, v, x);
  }

  lemma {:induction false} ReplaceVarAllSpec(es: seq<Expr>, v: string, x: Expr)
    requires x != Var(v)
    ensures ReplaceVarAll(es, v, x) == es <==> v !in UsedVarsAll(es)
    ensures UsedVarsAll(ReplaceVarAll(es, v, x)) ==
      if v in UsedVarsAll(es) then UsedVarsAll(es) - {v} + UsedVars(x) else UsedVarsAll(es)
    decreases es, 0
  {
    if es != [] {
      ReplaceVarSpec(es[0], v, x);
      ReplaceVarAllSpec(es[1..], v, x);
      var r := ReplaceVarAll(es, v, x);
      assert r[0] == ReplaceVar(es[0], v, x) && r[1..] == ReplaceVarAll(es[1..], v, x);
      if r == es {
        assert r[0] == es[0] && r[1..] == es[1..];
      }
    }
  }

  /** The same for conditions. */
  lemma CondReplaceSpec(c: Condition, v: string, x: Expr)
    requires x != Var(v)
    ensures ReplaceInCond(c, v, x) == c <==> v !in CondVars(c)
    ensures CondVars(ReplaceInCond(c, v, x)) == if v in CondVars(c) then CondVars(c) - {v} + UsedVars(x) else CondVars(c)
  {
    match c
    case Comparison(_, args) => ReplaceVarAllSpec(args, v, x);
    case ExprCondition(e) => ReplaceVarSpec(e, v, x);
    case UnionVariantCheck(e, _) => ReplaceVarSpec(e, v, x);
  }

  /**
   * `replace_var` on a statement: the statement changes exactly when it reads
   * `v`, keeps its kind and result, and reads `v` no more unless `x` does.
   * This is why `assert newop != useop` holds for the statement that uses `v`.
   */
  lemma ReplaceInStmtSpec(s: Stmt, v: string, x: Expr)
    requires x != Var(v)
    ensures ReplaceInStmt(s, v, x) == s <==> v !in StmtVars(s)
    ensures StmtVars(ReplaceInStmt(s, v, x)) == if v in StmtVars(s) then StmtVars(s) - {v} + UsedVars(x) else StmtVars(s)
    ensures Defines(ReplaceInStmt(s, v, x)) == Defines(s)
  {
    match s
    case LocalVarDeclaration(_, _, init) =>
      if init.Some? {
        ReplaceVarSpec(init.value, v, x);
      }
    case Assignment(_, value) => ReplaceVarSpec(value, v, x);
    case Operation(_, _, args) => ReplaceVarAllSpec(args, v, x);
    case StructElementAssignment(obj, _, value) => ReplacePairSpec(obj, value, v, x);
    case ConditionalJump(c, _) => CondReplaceSpec(c, v, x);
    case Other(_, es) => ReplaceVarAllSpec(es, v, x);
  }

  /** The same for the two expressions of a struct element assignment. */
  lemma ReplacePairSpec(a: Expr, b: Expr, v: string, x: Expr)
    requires x != Var(v)
    ensures (ReplaceVar(a, v, x) == a && ReplaceVar(b, v, x) == b) <==> v !in UsedVars(a) + UsedVars(b)
    ensures UsedVars(ReplaceVar(a, v, x)) + UsedVars(ReplaceVar(b, v, x)) ==
      if v in UsedVars(a) + UsedVars(b) then UsedVars(a) + UsedVars(b) - {v} + UsedVars(x) else UsedVars(a) + UsedVars(b)
  {
    ReplaceVarSpec(a, v, x);
    ReplaceVarSpec(b, v, x);
    ReplacedUnion(UsedVars(a), UsedVars(b), UsedVars(x), v);
  }

  lemma ReplacedUnion(a: set<string>, b: set<string>, x: set<string>, v: string)
    ensures (if v in a then a - {v} + x else a) + (if v in b then b - {v} + x else b) ==
      if v in a + b then a + b - {v} + x else a + b
  {
  }

  // ---------------------------------------------------------------------
  // Positions and the index tables of `find_decl_defs_uses`

  type Blocks = seq<seq<Stmt>>

  /** `(block, i)`: statement `i` of block `block`. */
  datatype Pos = Pos(block: nat, index: nat)

  /** The three tables: a statement reads, defines or declares a name. */
  datatype Role = Use | Def | Decl

  /** The name an `Assignment` or `Operation` defines. */
  function Defines(s: Stmt): Option<string>
  {
    if s.Assignment? || s.Operation? then Some(s.result) else None
  }

  predicate Plays(s: Stmt, r: Role, v: string)
  {
    match r
    case Use => v in StmtVars(s)
    case Def => Defines(s) == Some(v)
    case Decl => s.LocalVarDeclaration? && s.name == v
  }

  predicate ValidPos(blocks: Blocks, p: Pos)
  {
    p.block < |blocks| && p.index < |blocks[p.block]|
  }

  predicate PlaysAt(blocks: Blocks, p: Pos, r: Role, v: string)
  {
    ValidPos(blocks, p) && Plays(blocks[p.block][p.index], r, v)
  }

  /** `p` comes before statement `i` of block `b` in the order of the walk. */
  predicate Before(p: Pos, b: nat, i: nat)
  {
    p.block < b || (p.block == b && p.index < i)
  }

  predicate Less(p: Pos, q: Pos)
  {
    Before(p, q.block, q.index)
  }

  predicate Increasing(ps: seq<Pos>)
  {
    forall j, k | 0 <= j < k < |ps| :: Less(ps[j], ps[k])
  }

  /** A point of the walk: statement `i` of block `b`, or the end. */
  predicate Point(blocks: Blocks, b: nat, i: nat)
  {
    b <= |blocks| && (b < |blocks| ==> i <= |blocks[b]|) && (b == |blocks| ==> i == 0)
  }

  /** The positions before a point where `v` plays role `r`, in walk order. */
  function Occurrences(blocks: Blocks, r: Role, v: string, b: nat, i: nat): seq<Pos>
    requires Point(blocks, b, i)
    decreases b, i
  {
    if i == 0 then
      if b == 0 then [] else Occurrences(blocks, r, v, b - 1, |blocks[b - 1]|)
    else
      Occurrences(blocks, r, v, b, i - 1) + (if Plays(blocks[b][i - 1], r, v) then [Pos(b, i - 1)] else [])
  }

  /** The list `defs[v]` or `uses[v]` ends up with. */
  function Where(blocks: Blocks, r: Role, v: string): seq<Pos>
  {
    Occurrences(blocks, r, v, |blocks|, 0)
  }

  /** The occurrence list holds exactly the positions playing the role, once each, in walk order. */
  lemma {:induction false} OccurrencesSpec(blocks: Blocks, r: Role, v: string, b: nat, i: nat)
    requires Point(blocks, b, i)
    ensures forall p :: p in Occurrences(blocks, r, v, b, i) <==> PlaysAt(blocks, p, r, v) && Before(p, b, i)
    ensures Increasing(Occurrences(blocks, r, v, b, i))
    decreases b, i
  {
    if i == 0 {
      if b > 0 {
        OccurrencesSpec(blocks, r, v, b - 1, |blocks[b - 1]|);
      }
    } else {
      OccurrencesSpec(blocks, r, v, b, i - 1);
    }
  }

  lemma WhereSpec(blocks: Blocks, r: Role, v: string)
    ensures forall p :: p in Where(blocks, r, v) <==> PlaysAt(blocks, p, r, v)
    ensures Increasing(Where(blocks, r, v))
  {
    OccurrencesSpec(blocks, r, v, |blocks|, 0);
  }

  /** A one-element list says that the name plays the role at that position and nowhere else. */
  lemma WhereSingle(blocks: Blocks, r: Role, v: string, p: Pos)
    requires Where(blocks, r, v) == [p]
    ensures forall q :: PlaysAt(blocks, q, r, v) <==> q == p
  {
    WhereSpec(blocks, r, v);
  }

  lemma {:induction false} OccurrencesOnly(blocks: Blocks, r: Role, v: string, p: Pos, b: nat, i: nat)
    requires Point(blocks, b, i) && PlaysAt(blocks, p, r, v)
    requires forall q | PlaysAt(blocks, q, r, v) :: q == p
    ensures Occurrences(blocks, r, v, b, i) == if Before(p, b, i) then [p] else []
    decreases b, i
  {
    if i == 0 {
      if b > 0 {
        OccurrencesOnly(blocks, r, v, p, b - 1, |blocks[b - 1]|);
      }
    } else {
      OccurrencesOnly(blocks, r, v, p, b, i - 1);
      assert PlaysAt(blocks, Pos(b, i - 1), r, v) <==> Pos(b, i - 1) == p;
    }
  }

  lemma {:induction false} OccurrencesNone(blocks: Blocks, r: Role, v: string, b: nat, i: nat)
    requires Point(blocks, b, i) && forall q :: !PlaysAt(blocks, q, r, v)
    ensures Occurrences(blocks, r, v, b, i) == []
    decreases b, i
  {
    if i == 0 {
      if b > 0 {
        OccurrencesNone(blocks, r, v, b - 1, |blocks[b - 1]|);
      }
    } else {
      OccurrencesNone(blocks, r, v, b, i - 1);
      assert !PlaysAt(blocks, Pos(b, i - 1), r, v);
    }
  }

  /** A name that plays the role at one position only has that position as its list. */
  lemma WhereOnly(blocks: Blocks, r: Role, v: string, p: Pos)
    requires PlaysAt(blocks, p, r, v) && forall q | PlaysAt(blocks, q, r, v) :: q == p
    ensures Where(blocks, r, v) == [p]
  {
    OccurrencesOnly(blocks, r, v, p, |blocks|, 0);
  }

  function Get(m: map<string, seq<Pos>>, v: string): seq<Pos>
  {
    if v in m then m[v] else []
  }

  datatype Tables = Tables(decls: map<string, Pos>, defs: map<string, seq<Pos>>, uses: map<string, seq<Pos>>)

  /** No name is declared twice (the `assert op.name not in decls`). */
  ghost predicate UniqueDecls(blocks: Blocks)
  {
    forall p, q, v | PlaysAt(blocks, p, Decl, v) && PlaysAt(blocks, q, Decl, v) :: p == q
  }

  /** The defaultdict tables hold no empty list. */
  ghost predicate NoEmpty(m: map<string, seq<Pos>>)
  {
    forall v | v in m :: m[v] != []
  }

  /** The tables after walking up to a point. */
  ghost predicate TablesUpTo(blocks: Blocks, b: nat, i: nat, t: Tables)
    requires Point(blocks, b, i)
  {
    (forall v :: Get(t.uses, v) == Occurrences(blocks, Use, v, b, i)) && NoEmpty(t.uses) &&
    (forall v :: Get(t.defs, v) == Occurrences(blocks, Def, v, b, i)) && NoEmpty(t.defs) &&
    (forall v, p :: (v in t.decls && t.decls[v] == p) <==> PlaysAt(blocks, p, Decl, v) && Before(p, b, i)) &&
    (forall p, q, v | PlaysAt(blocks, p, Decl, v) && PlaysAt(blocks, q, Decl, v) && Before(p, b, i) && Before(q, b, i) :: p == q)
  }

  /** What `find_decl_defs_uses` returns for the blocks. */
  ghost predicate IsIndex(blocks: Blocks, t: Tables)
  {
    Point(blocks, |blocks|, 0) && TablesUpTo(blocks, |blocks|, 0, t)
  }

  /** `uses[var].append((block, i))` for every variable of a statement. */
  method RecordUses(uses: map<string, seq<Pos>>, vars: set<string>, p: Pos) returns (u: map<string, seq<Pos>>)
    requires NoEmpty(uses)
    ensures NoEmpty(u)
    ensures forall v :: Get(u, v) == Get(uses, v) + (if v in vars then [p] else [])
  {
    u := uses;
    var todo := vars;
    while todo != {}
      invariant todo <= vars && NoEmpty(u)
      invariant forall v :: Get(u, v) == Get(uses, v) + (if v in vars - todo then [p] else [])
      decreases |todo|
    {
      var v :| v in todo;
      u := u[v := Get(u, v) + [p]];
      todo := todo - {v};
    }
  }

  /** After the uses of statement `p`: its definition, or its declaration, which must be the first of the name. */
  function RecordDef(t: Tables, s: Stmt, p: Pos): Result<Tables>
  {
    if s.Assignment? || s.Operation? then Ok(t.(defs := t.defs[s.result := Get(t.defs, s.result) + [p]]))
    else if s.LocalVarDeclaration? then
      if s.name in t.decls then Failure("a variable is declared twice") else Ok(t.(decls := t.decls[s.name := p]))
    else Ok(t)
  }

  lemma StepUpTo(blocks: Blocks, b: nat, i: nat, t: Tables, t': Tables)
    requires Point(blocks, b, i) && b < |blocks| && i < |blocks[b]| && TablesUpTo(blocks, b, i, t)
    requires NoEmpty(t'.uses) &&
      forall v :: Get(t'.uses, v) == Get(t.uses, v) + (if v in StmtVars(blocks[b][i]) then [Pos(b, i)] else [])
    requires RecordDef(t.(uses := t'.uses), blocks[b][i], Pos(b, i)) == Ok(t')
    ensures TablesUpTo(blocks, b, i + 1, t')
  {
    RecordDefFacts(t.(uses := t'.uses), blocks[b][i], Pos(b, i), t');
    RoleStep(blocks, b, i, Use, t.uses, t'.uses);
    RoleStep(blocks, b, i, Def, t.defs, t'.defs);
    DeclStep(blocks, b, i, t.decls, t'.decls);
    var i' := i + 1;
    assert TablesUpTo(blocks, b, i', t');
  }

  /** What `RecordDef` changes: the definition list of the defined name, or the declaration of the declared one. */
  lemma RecordDefFacts(t: Tables, s: Stmt, p: Pos, t': Tables)
    requires NoEmpty(t.defs) && RecordDef(t, s, p) == Ok(t')
    ensures t'.uses == t.uses && NoEmpty(t'.defs)
    ensures forall v :: Get(t'.defs, v) == Get(t.defs, v) + (if Plays(s, Def, v) then [p] else [])
    ensures if s.LocalVarDeclaration? then s.name !in t.decls && t'.decls == t.decls[s.name := p] else t'.decls == t.decls
  {
  }

  /** One statement further, a `uses` or `defs` table gains the statement's position where it plays the role. */
  lemma RoleStep(blocks: Blocks, b: nat, i: nat, r: Role, m: map<string, seq<Pos>>, m': map<string, seq<Pos>>)
    requires Point(blocks, b, i) && b < |blocks| && i < |blocks[b]|
    requires forall v :: Get(m, v) == Occurrences(blocks, r, v, b, i)
    requires forall v :: Get(m', v) == Get(m, v) + (if Plays(blocks[b][i], r, v) then [Pos(b, i)] else [])
    ensures forall v :: Get(m', v) == Occurrences(blocks, r, v, b, i + 1)
  {
  }

  /** One statement further, `decls` gains the statement's declaration, which is the first of its name. */
  lemma DeclStep(blocks: Blocks, b: nat, i: nat, d: map<string, Pos>, d': map<string, Pos>)
    requires Point(blocks, b, i) && b < |blocks| && i < |blocks[b]|
    requires forall v, p :: (v in d && d[v] == p) <==> PlaysAt(blocks, p, Decl, v) && Before(p, b, i)
    requires forall p, q, v | PlaysAt(blocks, p, Decl, v) && PlaysAt(blocks, q, Decl, v) && Before(p, b, i) && Before(q, b, i) :: p == q
    requires var s := blocks[b][i];
      if s.LocalVarDeclaration? then s.name !in d && d' == d[s.name := Pos(b, i)] else d' == d
    ensures forall v, p :: (v in d' && d'[v] == p) <==> PlaysAt(blocks, p, Decl, v) && Before(p, b, i + 1)
    ensures forall p, q, v | PlaysAt(blocks, p, Decl, v) && PlaysAt(blocks, q, Decl, v) && Before(p, b, i + 1) && Before(q, b, i + 1) :: p == q
  {
    forall v, p ensures (v in d' && d'[v] == p) <==> PlaysAt(blocks, p, Decl, v) && Before(p, b, i + 1) {
      assert Before(p, b, i + 1) <==> Before(p, b, i) || p == Pos(b, i);
    }
    forall p, q, v | PlaysAt(blocks, p, Decl, v) && PlaysAt(blocks, q, Decl, v) && Before(p, b, i + 1) && Before(q, b, i + 1)
      ensures p == q
    {
      if p != Pos(b, i) && q != Pos(b, i) {
        assert Before(p, b, i) && Before(q, b, i);
      }
    }
  }

  lemma BlockUpTo(blocks: Blocks, b: nat, t: Tables)
    requires b < |blocks| && Point(blocks, b, |blocks[b]|) && TablesUpTo(blocks, b, |blocks[b]|, t)
    ensures TablesUpTo(blocks, b + 1, 0, t)
  {
    forall v ensures Get(t.uses, v) == Occurrences(blocks, Use, v, b + 1, 0) {
    }
    forall v ensures Get(t.defs, v) == Occurrences(blocks, Def, v, b + 1, 0) {
    }
    forall p, q, v | PlaysAt(blocks, p, Decl, v) && PlaysAt(blocks, q, Decl, v) && Before(p, b + 1, 0) && Before(q, b + 1, 0)
      ensures p == q
    {
      assert Before(p, b, |blocks[b]|) && Before(q, b, |blocks[b]|);
    }
    forall v, p ensures (v in t.decls && t.decls[v] == p) <==> PlaysAt(blocks, p, Decl, v) && Before(p, b + 1, 0) {
      assert (v in t.decls && t.decls[v] == p) <==> PlaysAt(blocks, p, Decl, v) && Before(p, b, |blocks[b]|);
    }
    var b' := b + 1;
    assert TablesUpTo(blocks, b', 0, t);
  }

  /**
   * `find_decl_defs_uses`: walks every statement of every block, recording
   * where each variable is read, where each is defined, and where each is
   * declared; a second declaration of a name fails.
   */
  method FindDeclDefsUses(blocks: Blocks) returns (r: Result<Tables>)
    ensures r.Ok? <==> UniqueDecls(blocks)
    ensures r.Ok? ==> IsIndex(blocks, r.value)
  {
    var t := Tables(map[], map[], map[]);
    var b := 0;
    while b < |blocks|
      invariant b <= |blocks| && TablesUpTo(blocks, b, 0, t)
    {
      var t' := RecordBlock(blocks, b, t);
      if t'.Failure? {
        return Failure(t'.msg);
      }
      t := t'.value;
      BlockUpTo(blocks, b, t);
      b := b + 1;
    }
    r := Ok(t);
  }

  /** The inner loop of `find_decl_defs_uses`, over the statements of block `b`. */
  method RecordBlock(blocks: Blocks, b: nat, t: Tables) returns (r: Result<Tables>)
    requires b < |blocks| && TablesUpTo(blocks, b, 0, t)
    ensures r.Ok? ==> Point(blocks, b, |blocks[b]|) && TablesUpTo(blocks, b, |blocks[b]|, r.value)
    ensures r.Failure? ==> !UniqueDecls(blocks)
  {
    var cur := t;
    for i := 0 to |blocks[b]|
      invariant TablesUpTo(blocks, b, i, cur)
    {
      var t' := RecordStmt(blocks, b, i, cur);
      if t'.Failure? {
        return t';
      }
      cur := t'.value;
    }
    r := Ok(cur);
  }

  /** The body of the inner loop of `find_decl_defs_uses`, for statement `i` of block `b`. */
  method RecordStmt(blocks: Blocks, b: nat, i: nat, t: Tables) returns (r: Result<Tables>)
    requires b < |blocks| && i < |blocks[b]| && TablesUpTo(blocks, b, i, t)
    ensures r.Ok? ==> TablesUpTo(blocks, b, i + 1, r.value)
    ensures r.Failure? ==> !UniqueDecls(blocks)
  {
    var s := blocks[b][i];
    var p := Pos(b, i);
    var uses := RecordUses(t.uses, StmtVars(s), p);
    r := RecordDef(t.(uses := uses), s, p);
    if r.Failure? {
      DeclaredTwice(blocks, b, i, t);
    } else {
      StepUpTo(blocks, b, i, t, r.value);
    }
  }

  /** A declaration of a variable the tables already hold a declaration of. */
  lemma DeclaredTwice(blocks: Blocks, b: nat, i: nat, t: Tables)
    requires b < |blocks| && i < |blocks[b]| && TablesUpTo(blocks, b, i, t)
    requires blocks[b][i].LocalVarDeclaration? && blocks[b][i].name in t.decls
    ensures !UniqueDecls(blocks)
  {
    var v := blocks[b][i].name;
    assert PlaysAt(blocks, t.decls[v], Decl, v) && PlaysAt(blocks, Pos(b, i), Decl, v);
  }

  // ---------------------------------------------------------------------
  // `identify_replacements`

  /** `(block, declindex, defindex, useindex)` of a folded variable. */
  datatype Rep = Rep(block: nat, declindex: nat, defindex: nat, useindex: nat)

  /** A call of an `@` or `$` builtin, which is never folded. */
  predicate IsBuiltinCall(s: Stmt)
  {
    s.Operation? && |s.name| > 0 && (s.name[0] == '@' || s.name[0] == '$')
  }

  /** The body of the loop of `identify_replacements`, for one used variable. */
  function Selection(blocks: Blocks, t: Tables, v: string): Option<Rep>
    requires IsIndex(blocks, t)
  {
    var us := Get(t.uses, v);
    var ds := Get(t.defs, v);
    if |us| != 1 || |ds| != 1 || v !in t.decls then None
    else
      var u, d, c := us[0], ds[0], t.decls[v];
      if !(c.block == d.block && d.block == u.block) then None
      else
        WhereSpec(blocks, Def, v);
        assert d in Where(blocks, Def, v);
        var def := blocks[d.block][d.index];
        if IsBuiltinCall(def) then None
        else if exists a | a in StmtVars(def) :: |Get(t.defs, a)| != 1 then None
        else Some(Rep(u.block, c.index, d.index, u.index))
  }

  /**
   * The rule, in terms of the blocks alone: `v` is read by one statement only,
   * defined by one statement only, and declared, all in one block; its
   * definition is not a builtin call; and every variable that definition reads
   * is defined exactly once.
   */
  ghost predicate Foldable(blocks: Blocks, v: string, rep: Rep)
  {
    Where(blocks, Use, v) == [Pos(rep.block, rep.useindex)] &&
    Where(blocks, Def, v) == [Pos(rep.block, rep.defindex)] &&
    PlaysAt(blocks, Pos(rep.block, rep.declindex), Decl, v) &&
    ValidPos(blocks, Pos(rep.block, rep.defindex)) &&
    !IsBuiltinCall(blocks[rep.block][rep.defindex]) &&
    forall a | a in StmtVars(blocks[rep.block][rep.defindex]) :: |Where(blocks, Def, a)| == 1
  }

  /** The loop's verdict on a variable is exactly the rule. */
  lemma SelectionSpec(blocks: Blocks, t: Tables, v: string, rep: Rep)
    requires IsIndex(blocks, t)
    ensures Selection(blocks, t, v) == Some(rep) <==> Foldable(blocks, v, rep)
  {
    WhereSpec(blocks, Def, v);
    var us, ds := Get(t.uses, v), Get(t.defs, v);
    assert us == Where(blocks, Use, v) && ds == Where(blocks, Def, v);
    if Foldable(blocks, v, rep) {
      assert Pos(rep.block, rep.defindex) in Where(blocks, Def, v);
      assert v in t.decls && t.decls[v] == Pos(rep.block, rep.declindex);
      assert forall a | a in StmtVars(blocks[rep.block][rep.defindex]) :: |Get(t.defs, a)| == 1 by {
        forall a | a in StmtVars(blocks[rep.block][rep.defindex]) ensures |Get(t.defs, a)| == 1 {
          assert Get(t.defs, a) == Where(blocks, Def, a);
        }
      }
    }
    if Selection(blocks, t, v) == Some(rep) {
      assert |us| == 1 && us == [us[0]] && |ds| == 1 && ds == [ds[0]];
      var d := ds[0];
      assert d in Where(blocks, Def, v);
      assert PlaysAt(blocks, t.decls[v], Decl, v);
      forall a | a in StmtVars(blocks[d.block][d.index]) ensures |Where(blocks, Def, a)| == 1 {
        assert Get(t.defs, a) == Where(blocks, Def, a);
      }
    }
  }

  /** Every variable the rule selects is used, so the loop over `uses` meets all of them. */
  lemma FoldableUsed(blocks: Blocks, t: Tables, v: string, rep: Rep)
    requires IsIndex(blocks, t) && Foldable(blocks, v, rep)
    ensures v in t.uses
  {
    assert Get(t.uses, v) == [Pos(rep.block, rep.useindex)];
  }

  /**
   * `identify_replacements`: the selected variables and where their
   * declaration, definition and use sit.
   */
  method IdentifyReplacements(blocks: Blocks) returns (r: Result<map<string, Rep>>)
    ensures r.Ok? <==> UniqueDecls(blocks)
    ensures r.Ok? ==> forall v, rep :: (v in r.value && r.value[v] == rep) <==> Foldable(blocks, v, rep)
  {
    var tr := FindDeclDefsUses(blocks);
    if tr.Failure? {
      return Failure(tr.msg);
    }
    var t := tr.value;
    var repl: map<string, Rep> := map[];
    var todo := t.uses.Keys;
    while todo != {}
      invariant todo <= t.uses.Keys
      invariant forall v | v in t.uses.Keys - todo :: (v in repl <==> Selection(blocks, t, v).Some?)
      invariant forall v | v in repl :: v in t.uses.Keys - todo && Selection(blocks, t, v) == Some(repl[v])
      decreases |todo|
    {
      var v :| v in todo;
      var sel := Selection(blocks, t, v);
      if sel.Some? {
        repl := repl[v := sel.value];
      }
      todo := todo - {v};
    }
    forall v, rep ensures (v in repl && repl[v] == rep) <==> Foldable(blocks, v, rep) {
      SelectionSpec(blocks, t, v, rep);
      if Foldable(blocks, v, rep) {
        FoldableUsed(blocks, t, v, rep);
      }
    }
    r := Ok(repl);
  }

  // ---------------------------------------------------------------------
  // `do_replacements`

  /** The sort key `(block, defindex)`. */
  predicate KeyLe(a: (string, Rep), b: (string, Rep))
  {
    a.1.block < b.1.block || (a.1.block == b.1.block && a.1.defindex <= b.1.defindex)
  }

  predicate SortedByKey(s: seq<(string, Rep)>)
  {
    forall j, k | 0 <= j < k < |s| :: KeyLe(s[j], s[k])
  }

  /** `x` placed before the first entry it does not come after. */
  function Insert(s: seq<(string, Rep)>, x: (string, Rep)): (r: seq<(string, Rep)>)
    ensures multiset(r) == multiset(s) + multiset{x}
  {
    if s == [] || KeyLe(x, s[0]) then [x] + s
    else
      assert s == [s[0]] + s[1..];
      [s[0]] + Insert(s[1..], x)
  }

  lemma {:induction false} InsertSorted(s: seq<(string, Rep)>, x: (string, Rep))
    requires SortedByKey(s)
    ensures SortedByKey(Insert(s, x))
  {
    if s != [] && !KeyLe(x, s[0]) {
      InsertSorted(s[1..], x);
      var rest := Insert(s[1..], x);
      forall y | y in rest ensures KeyLe(s[0], y) {
        assert y in multiset(rest);
        if y != x {
          assert y in s[1..];
        }
      }
    }
  }

  /** `repl_list = list(replacements.items()); repl_list.sort(key=(block, defindex))`. */
  method SortReplacements(repl: map<string, Rep>) returns (s: seq<(string, Rep)>)
    ensures SortedByKey(s)
    ensures forall x :: x in s <==> x.0 in repl && repl[x.0] == x.1
    ensures |s| == |repl|
  {
    s := [];
    var todo := repl.Keys;
    while todo != {}
      invariant todo <= repl.Keys && SortedByKey(s)
      invariant forall x :: x in s <==> x.0 in repl.Keys - todo && repl[x.0] == x.1
      invariant |s| == |repl.Keys - todo|
      decreases |todo|
    {
      var v :| v in todo;
      ghost var s0 := s;
      InsertSorted(s, (v, repl[v]));
      s := Insert(s, (v, repl[v]));
      forall x ensures x in s <==> x in s0 || x == (v, repl[v]) {
        assert x in s <==> x in multiset(s);
        assert x in s0 <==> x in multiset(s0);
      }
      assert repl.Keys - (todo - {v}) == (repl.Keys - todo) + {v};
      todo := todo - {v};
    }
  }

  /**
   * The expression that takes the place of the variable at its use: an
   * operation becomes an `OperationExpr`, an assignment a `CastExpr` of its
   * right-hand side, both with the declared type.
   */
  function Folded(decl: Stmt, def: Stmt): Result<Expr>
  {
    if !decl.LocalVarDeclaration? then Failure("the declaration slot holds no declaration")
    else if def.Operation? then Ok(OperationExpr(def.name, def.args, decl.typ))
    else if def.Assignment? then Ok(CastExpr(def.value, decl.typ))
    else Failure("the definition is neither an operation nor an assignment")
  }

  /** `block.append({defindex, declindex})`, or adding both to the set already appended. */
  function Queue(pending: map<nat, set<nat>>, b: nat, rep: Rep): map<nat, set<nat>>
  {
    pending[b := (if b in pending then pending[b] else {}) + {rep.defindex, rep.declindex}]
  }

  /**
   * One iteration of the first loop of `do_replacements`: the use statement
   * is rewritten (and must change), and the declaration and definition are
   * queued for deletion; an index outside the block fails.
   */
  function RewriteOne(blocks: Blocks, pending: map<nat, set<nat>>, v: string, rep: Rep): Result<(Blocks, map<nat, set<nat>>)>
  {
    if rep.block >= |blocks| then Failure("no such block")
    else
      var blk := blocks[rep.block];
      if rep.declindex >= |blk| || rep.defindex >= |blk| || rep.useindex >= |blk| then Failure("index out of range")
      else
        var x := Folded(blk[rep.declindex], blk[rep.defindex]);
        if x.Failure? then Failure(x.msg)
        else
          var use' := ReplaceInStmt(blk[rep.useindex], v, x.value);
          if use' == blk[rep.useindex] then Failure("the use does not change")
          else Ok((blocks[rep.block := blk[rep.useindex := use']], Queue(pending, rep.block, rep)))
  }

  /**
   * One fold touches one statement only, the use, which read `v` before and
   * reads it no longer (unless the folded expression itself does); every
   * block keeps its length, so all queued indices stay valid.
   */
  lemma RewriteOneSpec(blocks: Blocks, pending: map<nat, set<nat>>, v: string, rep: Rep)
    requires RewriteOne(blocks, pending, v, rep).Ok?
    ensures var out := RewriteOne(blocks, pending, v, rep).value;
      var blk := blocks[rep.block];
      var x := Folded(blk[rep.declindex], blk[rep.defindex]).value;
      |out.0| == |blocks| &&
      (forall b | 0 <= b < |blocks| && b != rep.block :: out.0[b] == blocks[b]) &&
      |out.0[rep.block]| == |blk| &&
      (forall k | 0 <= k < |blk| && k != rep.useindex :: out.0[rep.block][k] == blk[k]) &&
      out.0[rep.block][rep.useindex] == ReplaceInStmt(blk[rep.useindex], v, x) &&
      v in StmtVars(blk[rep.useindex]) &&
      (v !in UsedVars(x) ==> v !in StmtVars(out.0[rep.block][rep.useindex])) &&
      out.1 == Queue(pending, rep.block, rep)
  {
    var blk := blocks[rep.block];
    var x := Folded(blk[rep.declindex], blk[rep.defindex]).value;
    ReplaceInStmtSpec(blk[rep.useindex], v, x);
  }

  /** The first loop of `do_replacements` over the sorted list. */
  function RewriteAll(blocks: Blocks, pending: map<nat, set<nat>>, list: seq<(string, Rep)>): Result<(Blocks, map<nat, set<nat>>)>
    decreases |list|
  {
    if list == [] then Ok((blocks, pending))
    else
      var step := RewriteOne(blocks, pending, list[0].0, list[0].1);
      if step.Failure? then Failure(step.msg) else RewriteAll(step.value.0, step.value.1, list[1..])
  }

  /** The statements of a block whose index is not in `del`, in their order. */
  function Filter(s: seq<Stmt>, del: set<nat>): seq<Stmt>
  {
    if s == [] then [] else Filter(s[..|s| - 1], del) + (if |s| - 1 in del then [] else [s[|s| - 1]])
  }

  /** The indices below `n` that are not in `del`, ascending. */
  function Kept(n: nat, del: set<nat>): seq<nat>
  {
    if n == 0 then [] else Kept(n - 1, del) + (if n - 1 in del then [] else [n - 1])
  }

  lemma {:induction false} KeptSpec(n: nat, del: set<nat>)
    ensures forall i: nat :: i in Kept(n, del) <==> i < n && i !in del
    ensures forall j | 0 <= j < |Kept(n, del)| :: Kept(n, del)[j] < n
    ensures forall j1, j2 | 0 <= j1 < j2 < |Kept(n, del)| :: Kept(n, del)[j1] < Kept(n, del)[j2]
  {
    if n > 0 {
      KeptSpec(n - 1, del);
    }
  }

  lemma {:induction false} FilterKept(s: seq<Stmt>, del: set<nat>)
    ensures |Filter(s, del)| == |Kept(|s|, del)|
    ensures forall j | 0 <= j < |Kept(|s|, del)| :: Kept(|s|, del)[j] < |s| && Filter(s, del)[j] == s[Kept(|s|, del)[j]]
  {
    KeptSpec(|s|, del);
    if s != [] {
      var s' := s[..|s| - 1];
      FilterKept(s', del);
      KeptSpec(|s'|, del);
    }
  }

  /**
   * Deletion removes exactly the indices in `del`: what is left is the
   * statements at the kept indices, in increasing order of index.
   */
  lemma FilterSpec(s: seq<Stmt>, del: set<nat>)
    ensures var k := Kept(|s|, del);
      |Filter(s, del)| == |k| &&
      (forall j | 0 <= j < |k| :: k[j] < |s| && Filter(s, del)[j] == s[k[j]]) &&
      (forall i: nat :: i in k <==> i < |s| && i !in del) &&
      (forall j1, j2 | 0 <= j1 < j2 < |k| :: k[j1] < k[j2])
  {
    KeptSpec(|s|, del);
    FilterKept(s, del);
  }

  /** The second loop's inner loop: `newblock` collects the statements not queued for deletion. */
  method KeepUndeleted(block: seq<Stmt>, del: set<nat>) returns (newblock: seq<Stmt>)
    ensures newblock == Filter(block, del)
  {
    newblock := [];
    var i := 0;
    while i < |block|
      invariant i <= |block| && newblock == Filter(block[..i], del)
    {
      assert block[..i + 1][..i] == block[..i];
      if i !in del {
        newblock := newblock + [block[i]];
      }
      i := i + 1;
    }
    assert block[..i] == block;
  }

  /** The blocks after the deferred deletion: a block with queued indices loses exactly those. */
  function Deleted(blocks: Blocks, pending: map<nat, set<nat>>): (r: Blocks)
    ensures |r| == |blocks|
  {
    seq(|blocks|, b requires 0 <= b < |blocks| => if b in pending then Filter(blocks[b], pending[b]) else blocks[b])
  }

  /** The first loop, which rewrites uses and queues deletions without deleting anything yet. */
  method RewriteUses(blocks: Blocks, list: seq<(string, Rep)>) returns (r: Result<(Blocks, map<nat, set<nat>>)>)
    ensures r == RewriteAll(blocks, map[], list)
  {
    var cur := blocks;
    var pending: map<nat, set<nat>> := map[];
    var i := 0;
    while i < |list|
      invariant i <= |list|
      invariant RewriteAll(blocks, map[], list) == RewriteAll(cur, pending, list[i..])
    {
      var (v, rep) := list[i];
      assert list[i..][0] == (v, rep) && list[i..][1..] == list[i + 1..];
      if rep.block >= |cur| || rep.declindex >= |cur[rep.block]| || rep.defindex >= |cur[rep.block]| ||
         rep.useindex >= |cur[rep.block]| {
        return Failure(RewriteOne(cur, pending, v, rep).msg);
      }
      var block := cur[rep.block];
      var x := Folded(block[rep.declindex], block[rep.defindex]);
      if x.Failure? {
        return Failure(x.msg);
      }
      var newop := ReplaceInStmt(block[rep.useindex], v, x.value);
      if newop == block[rep.useindex] {
        return Failure("the use does not change");
      }
      cur := cur[rep.block := block[rep.useindex := newop]];
      pending := Queue(pending, rep.block, rep);
      i := i + 1;
    }
    r := Ok((cur, pending));
  }

  /** Some entry of the list from `i` on names block `b`. */
  ghost predicate NamedFrom(list: seq<(string, Rep)>, i: nat, b: nat)
  {
    exists j | i <= j < |list| :: list[j].1.block == b
  }

  /** The second loop so far: the blocks no longer left have lost their queued indices. */
  ghost predicate DeletedSoFar(blocks: Blocks, pending: map<nat, set<nat>>, left: map<nat, set<nat>>, r: Blocks)
  {
    |r| == |blocks| && left.Keys <= pending.Keys &&
    (forall b | b in left :: left[b] == pending[b]) &&
    forall b | 0 <= b < |blocks| :: r[b] == if b in pending && b !in left then Filter(blocks[b], pending[b]) else blocks[b]
  }

  lemma DeleteStep(blocks: Blocks, pending: map<nat, set<nat>>, left: map<nat, set<nat>>, r: Blocks, b: nat, nb: seq<Stmt>)
    requires DeletedSoFar(blocks, pending, left, r) && b in left && b < |blocks| && nb == Filter(r[b], left[b])
    ensures DeletedSoFar(blocks, pending, left - {b}, r[b := nb])
  {
  }

  /** The second loop: each block with queued indices is rebuilt once, by its first entry in the list. */
  method DeleteQueued(blocks: Blocks, pending: map<nat, set<nat>>, list: seq<(string, Rep)>) returns (r: Blocks)
    requires forall b | b in pending :: b < |blocks| && NamedFrom(list, 0, b)
    ensures r == Deleted(blocks, pending)
  {
    r := blocks;
    var left: map<nat, set<nat>> := pending;
    var i := 0;
    while i < |list|
      invariant i <= |list| && DeletedSoFar(blocks, pending, left, r)
      invariant forall b | b in left :: b < |blocks| && NamedFrom(list, i, b)
    {
      var b := list[i].1.block;
      if b in left {
        var nb := KeepUndeleted(r[b], left[b]);
        DeleteStep(blocks, pending, left, r, b, nb);
        r := r[b := nb];
        left := left - {b};
      }
      forall c | c in left ensures NamedFrom(list, i + 1, c) {
        var j :| i <= j < |list| && list[j].1.block == c;
        assert j != i;
      }
      i := i + 1;
    }
  }

  /** Every queued block is a block of some entry of the list, and exists. */
  lemma {:induction false} RewriteQueued(blocks: Blocks, pending: map<nat, set<nat>>, list: seq<(string, Rep)>)
    requires RewriteAll(blocks, pending, list).Ok?
    requires forall b | b in pending :: b < |blocks|
    ensures var out := RewriteAll(blocks, pending, list).value;
      |out.0| == |blocks| &&
      (forall b | 0 <= b < |blocks| :: |out.0[b]| == |blocks[b]|) &&
      forall b | b in out.1 :: b < |blocks| && (b in pending || NamedFrom(list, 0, b))
    decreases |list|
  {
    if list != [] {
      var step := RewriteOne(blocks, pending, list[0].0, list[0].1).value;
      RewriteQueued(step.0, step.1, list[1..]);
      var out := RewriteAll(blocks, pending, list).value;
      forall b | b in out.1 ensures b in pending || NamedFrom(list, 0, b) {
        if b !in pending && b != list[0].1.block {
          var j :| 0 <= j < |list[1..]| && list[1..][j].1.block == b;
          assert list[j + 1].1.block == b;
        } else if b !in pending {
          assert list[0].1.block == b;
        }
      }
    }
  }

  /**
   * `do_replacements`: the selected variables are folded in `(block,
   * defindex)` order, each into its use, and only then are the declarations
   * and definitions deleted, so every index refers to the original
   * statement positions throughout. `order` is the order used.
   */
  method DoReplacements(blocks: Blocks, repl: map<string, Rep>) returns (order: seq<(string, Rep)>, r: Result<Blocks>)
    ensures SortedByKey(order) && |order| == |repl|
    ensures forall x :: x in order <==> x.0 in repl && repl[x.0] == x.1
    ensures var mid := RewriteAll(blocks, map[], order);
      (r.Ok? <==> mid.Ok?) && (r.Ok? ==> r.value == Deleted(mid.value.0, mid.value.1))
  {
    order := SortReplacements(repl);
    var mid := RewriteUses(blocks, order);
    if mid.Failure? {
      return order, Failure(mid.msg);
    }
    RewriteQueued(blocks, map[], order);
    var nb := DeleteQueued(mid.value.0, mid.value.1, order);
    r := Ok(nb);
  }
}

module PreOptExample {
  import opened Wrappers
  import opened PreOpt

  /** The `vector_subrange_example` block of the implementation's tests. */
  const Example: seq<Stmt> := [
    LocalVarDeclaration("bv32", "%bv32", None),
    Assignment("bv32", Var("zargz3")),
    LocalVarDeclaration("subrange_result_bv7", "%bv7", None),
    LocalVarDeclaration("num6", "%i", None),
    Operation("num6", "zz5i64zDzKz5i", [Number(6)]),
    LocalVarDeclaration("num0", "%i", None),
    Operation("num0", "zz5i64zDzKz5i", [Number(0)]),
    LocalVarDeclaration("bvusedonce", "%bv", None),
    Assignment("bvusedonce", Var("bv32")),
    LocalVarDeclaration("subrange_result", "%bv", None),
    Operation("subrange_result", "zsubrange_bits", [Var("bvusedonce"), Var("num6"), Var("num0")]),
    Assignment("subrange_result_bv7", Var("subrange_result")),
    LocalVarDeclaration("cond", "%bool", None),
    Operation("cond", "zencdec_uop_backwards_matches", [Var("subrange_result_bv7")]),
    ConditionalJump(Comparison("@not", [Var("cond")]), 17),
    Other("End", [])
  ]

  /** The test's expectation: `bvusedonce` is folded, with its declaration at 7, its definition at 8 and its use at 10. */
  lemma SelectsBvUsedOnce()
    ensures Foldable([Example], "bvusedonce", Rep(0, 7, 8, 10))
  {
    UsedOnceUse();
    UsedOnceDef();
    Bv32Def();
    assert StmtVars(Example[8]) == {"bv32"};
  }

  /** `bvusedonce` is read once, by the `zsubrange_bits` call at 10. */
  lemma UsedOnceUse()
    ensures Where([Example], Use, "bvusedonce") == [Pos(0, 10)]
  {
    assert forall k | 0 <= k < |Example| :: "bvusedonce" in StmtVars(Example[k]) ==> k == 10;
    WhereOnly([Example], Use, "bvusedonce", Pos(0, 10));
  }

  /** `bvusedonce` is assigned once, at 8. */
  lemma UsedOnceDef()
    ensures Where([Example], Def, "bvusedonce") == [Pos(0, 8)]
  {
    assert forall k | 0 <= k < |Example| :: Defines(Example[k]) == Some("bvusedonce") ==> k == 8;
    WhereOnly([Example], Def, "bvusedonce", Pos(0, 8));
  }

  /** `bv32` is assigned once, at 1. */
  lemma Bv32Def()
    ensures Where([Example], Def, "bv32") == [Pos(0, 1)]
  {
    assert forall k | 0 <= k < |Example| :: Defines(Example[k]) == Some("bv32") ==> k == 1;
    WhereOnly([Example], Def, "bv32", Pos(0, 1));
  }

  /** `bv32` stays: its definition reads the argument `zargz3`, which nothing defines. */
  lemma KeepsBv32(rep: Rep)
    ensures !Foldable([Example], "bv32", rep)
  {
    var blocks := [Example];
    Bv32Def();
    assert forall k | 0 <= k < |Example| :: Defines(Example[k]) != Some("zargz3");
    OccurrencesNone(blocks, Def, "zargz3", 1, 0);
    assert StmtVars(Example[1]) == {"zargz3"};
  }
}
