/**
 * Bookkeeping of the code generator: global and local name tables, named
 * types, the indentation level and the list that emitted lines go to, the
 * gensym-backed declaration cache, enum numbering, and the two string-to-type
 * functions of the front end (bitvector literal widths and `%`-type names).
 */
module MakeCode {
  import opened Wrappers
  import opened Text
  import opened Types

  // ---------------------------------------------------------------------
  // Bitvector literals

  predicate IsBinDigit(c: char) { c == '0' || c == '1' }

  predicate IsHexDigit(c: char) { IsDigit(c) || 'a' <= c <= 'f' || 'A' <= c <= 'F' }

  function HexDigitValue(c: char): (d: nat)
    requires IsHexDigit(c)
    ensures d < 16
  {
    if IsDigit(c) then DigitValue(c)
    else if 'a' <= c <= 'f' then (c as int) - ('a' as int) + 10
    else (c as int) - ('A' as int) + 10
  }

  /** The value of a string of binary digits. */
  function BinValue(s: string): nat
    requires forall i | 0 <= i < |s| :: IsBinDigit(s[i])
  {
    if s == [] then 0 else 2 * BinValue(s[..|s| - 1]) + (if s[|s| - 1] == '1' then 1 else 0)
  }

  /** The value of a string of hexadecimal digits. */
  function HexValue(s: string): nat
    requires forall i | 0 <= i < |s| :: IsHexDigit(s[i])
  {
    if s == [] then 0 else 16 * HexValue(s[..|s| - 1]) + HexDigitValue(s[|s| - 1])
  }

  function Pow2(n: nat): (r: nat)
    ensures r >= 1
  {
    if n == 0 then 1 else 2 * Pow2(n - 1)
  }

  /** A literal as the Sail front end writes it: `0b` followed by bits or `0x` followed by hex digits. */
  predicate WellFormedLiteral(c: string)
  {
    |c| >= 2 && c[0] == '0' &&
    ((c[1] == 'b' && forall i | 2 <= i < |c| :: IsBinDigit(c[i])) ||
     (c[1] == 'x' && forall i | 2 <= i < |c| :: IsHexDigit(c[i])))
  }

  /** The number a literal denotes (what evaluating it in Python yields). */
  function LiteralValue(c: string): nat
    requires WellFormedLiteral(c)
  {
    if c[1] == 'b' then BinValue(c[2..]) else HexValue(c[2..])
  }

  /** `BitVectorConstant.gettyp`: the width of a literal follows from its digit count alone. */
  function BitVectorConstantType(constant: string): (r: Result<Type>)
    ensures r.Ok? <==> |constant| >= 2 && constant[0] == '0' && (constant[1] == 'b' || constant[1] == 'x')
    ensures r.Ok? ==> r.value.FixedBitVector?
  {
    if |constant| >= 2 && constant[..2] == "0b" then Ok(FixedBitVector(|constant| - 2))
    else if |constant| >= 2 && constant[..2] == "0x" then Ok(FixedBitVector((|constant| - 2) * 4))
    else Failure("bitvector literal is neither 0b nor 0x")
  }

  lemma {:induction false} BinValueBound(s: string)
    requires forall i | 0 <= i < |s| :: IsBinDigit(s[i])
    ensures BinValue(s) < Pow2(|s|)
    decreases |s|
  {
    if s != [] {
      BinValueBound(s[..|s| - 1]);
    }
  }

  lemma {:induction false} Pow2Add4(n: nat)
    ensures Pow2(n + 4) == 16 * Pow2(n)
  {
    assert Pow2(n + 4) == 2 * Pow2(n + 3) == 4 * Pow2(n + 2) == 8 * Pow2(n + 1) == 16 * Pow2(n);
  }

  lemma {:induction false} HexValueBound(s: string)
    requires forall i | 0 <= i < |s| :: IsHexDigit(s[i])
    ensures HexValue(s) < Pow2(4 * |s|)
    decreases |s|
  {
    if s != [] {
      var init := s[..|s| - 1];
      HexValueBound(init);
      Pow2Add4(4 * |init|);
      assert 4 * |s| == 4 * |init| + 4;
    }
  }

  /**
   * The width `gettyp` assigns to a well-formed literal is always enough to
   * hold the literal's value: one bit per binary digit, four per hex digit.
   */
  lemma LiteralFitsWidth(c: string)
    requires WellFormedLiteral(c)
    ensures BitVectorConstantType(c).Ok?
    ensures LiteralValue(c) < Pow2(BitVectorConstantType(c).value.width)
  {
    assert c[..2] == [c[0], c[1]];
    if c[1] == 'b' {
      BinValueBound(c[2..]);
    } else {
      HexValueBound(c[2..]);
    }
  }

  // ---------------------------------------------------------------------
  // `%`-type names

  predicate StartsWith(s: string, prefix: string)
  {
    |prefix| <= |s| && s[..|prefix|] == prefix
  }

  /** `NamedType.resolve_type`; the final `xxx` of the source (a NameError) is a `Failure`. */
  function ResolveNamedType(name: string): (r: Result<Type>)
    ensures r.Ok? && r.value == GenericBitVector <==> name == "%bv"
  {
    if name == "%bool" then Ok(Bool)
    else if name == "%i" then Ok(Int)
    else if name == "%bv" then Ok(GenericBitVector)
    else if StartsWith(name, "%bv") then
      (match ParseNat(name[3..])
       case Some(n) => Ok(FixedBitVector(n))
       case None => Failure("width of %bv type is not a number"))
    else if name == "%unit" then Ok(Unit)
    else if name == "%i64" then Ok(MachineInt)
    else if name == "%bit" then Ok(Bit)
    else if name == "%string" then Ok(String)
    else if StartsWith(name, "%sbv") then
      (match ParseNat(name[4..])
       case Some(n) => Ok(SmallBitVector(n))
       case None => Failure("width of %sbv type is not a number"))
    else Failure("unknown named type")
  }

  /** The front end's spelling of each primitive type: the inverse of `ResolveNamedType`. */
  function TypeName(t: Type): Option<string>
  {
    match t
    case Bool => Some("%bool")
    case Int => Some("%i")
    case GenericBitVector => Some("%bv")
    case FixedBitVector(n) => Some("%bv" + NatToString(n))
    case Unit => Some("%unit")
    case MachineInt => Some("%i64")
    case Bit => Some("%bit")
    case String => Some("%string")
    case SmallBitVector(n) => Some("%sbv" + NatToString(n))
    case _ => None
  }

  /** Every primitive type's name resolves back to that type. */
  lemma ResolveTypeName(t: Type)
    requires TypeName(t).Some?
    ensures ResolveNamedType(TypeName(t).value) == Ok(t)
  {
    var s := TypeName(t).value;
    match t
    case FixedBitVector(n) => ResolveFixedName(n);
    case SmallBitVector(n) => ResolveSmallName(n);
    case Bool => assert s[2] == 'o';
    case Unit => assert s[1] == 'u';
    case MachineInt => assert s[1] == 'i';
    case Bit => assert s[2] == 'i';
    case String => assert s[1] == 's';
    case _ =>
  }

  lemma ResolveFixedName(n: nat)
    ensures ResolveNamedType("%bv" + NatToString(n)) == Ok(FixedBitVector(n))
  {
    var s := "%bv" + NatToString(n);
    ParseNatToString(n);
    assert s[..3] == "%bv" && s[3..] == NatToString(n);
    assert s[3] != 'o' && s[3] != 'n' && s[3] != 'i';
  }

  lemma ResolveSmallName(n: nat)
    ensures ResolveNamedType("%sbv" + NatToString(n)) == Ok(SmallBitVector(n))
  {
    var s := "%sbv" + NatToString(n);
    ParseNatToString(n);
    assert s[..4] == "%sbv" && s[4..] == NatToString(n);
    assert s[1] == 's';
  }

  /** Only primitive type names resolve at all; everything else is rejected. */
  lemma ResolvedAreNamed(name: string)
    requires ResolveNamedType(name).Ok?
    ensures TypeName(ResolveNamedType(name).value).Some?
  {
  }

  // ---------------------------------------------------------------------
  // Emitted lines

  predicate IsWhitespace(c: char)
  {
    c == ' ' || c == '\t' || c == '\n' || c == '\r' || c == '\U{000B}' || c == '\U{000C}'
  }

  /** `not line.strip()`. */
  predicate IsBlank(line: string) { forall i | 0 <= i < |line| :: IsWhitespace(line[i]) }

  function Indentation(level: int): (r: string)
    decreases level
  {
    if level <= 0 then "" else "    " + Indentation(level - 1)
  }

  lemma {:induction false} IndentationShape(level: int)
    ensures |Indentation(level)| == 4 * (if level < 0 then 0 else level)
    ensures forall i | 0 <= i < |Indentation(level)| :: Indentation(level)[i] == ' '
    decreases level
  {
    if level > 0 {
      IndentationShape(level - 1);
    }
  }

  /** The line `emit` stores. */
  function EmittedLine(level: int, line: string): string
  {
    if IsBlank(line) then "" else Indentation(level) + line
  }

  /**
   * A blank line is stored as the empty string; any other line is kept
   * verbatim behind four spaces per indentation level.
   */
  lemma EmittedLineShape(level: int, line: string)
    ensures EmittedLine(level, line) == "" <==> IsBlank(line)
    ensures !IsBlank(line) ==>
      var r, n := EmittedLine(level, line), 4 * (if level < 0 then 0 else level);
      |r| == n + |line| && r[n..] == line && forall i | 0 <= i < n :: r[i] == ' '
  {
    IndentationShape(level);
    if !IsBlank(line) {
      assert |line| > 0;
    }
  }

  // ---------------------------------------------------------------------
  // Declaration names

  /** `"%s_%s" % (prefix, num)`. */
  function DeclName(prefix: string, num: nat): string
  {
    prefix + "_" + NatToString(num)
  }

  /** Distinct (prefix, number) pairs give distinct declaration names. */
  lemma DeclNameInjective(p: string, n: nat, q: string, m: nat)
    requires DeclName(p, n) == DeclName(q, m)
    ensures p == q && n == m
  {
    SplitAtLastUnderscore(p, NatToString(n), q, NatToString(m));
    NatToStringInjective(n, m);
  }

  /** The class body lines of an enum: member `names[i]` is numbered `start + i`. */
  function EnumMemberLines(level: int, names: seq<string>, start: int): (r: seq<string>)
    decreases |names|
  {
    if names == [] then []
    else EnumMemberLines(level, names[..|names| - 1], start) + [EnumMemberLine(level, names[|names| - 1], start + |names| - 1)]
  }

  function EnumMemberLine(level: int, name: string, number: int): string
  {
    EmittedLine(level, name + " = " + IntToString(number))
  }

  /** Member `names[i]` of an enum starting at `start` is emitted as number `start + i`. */
  lemma {:induction false} EnumMemberLinesAt(level: int, names: seq<string>, start: int, i: nat)
    requires i < |names|
    ensures |EnumMemberLines(level, names, start)| == |names|
    ensures EnumMemberLines(level, names, start)[i] == EnumMemberLine(level, names[i], start + i)
    decreases |names|
  {
    var init := names[..|names| - 1];
    if i < |names| - 1 {
      EnumMemberLinesAt(level, init, start, i);
    } else if init != [] {
      EnumMemberLinesAt(level, init, start, 0);
    }
  }

  // ---------------------------------------------------------------------
  // The code generator's state

  /**
   * The declaration cache agrees with the gensym counters: each cached name is
   * `<prefix>_<n>` for a number `n` between 1 and the prefix's counter, and no
   * two cached pairs with the same prefix were given the same number.
   */
  ghost predicate CacheConsistent(cache: map<(Type, string), string>, gensym: map<string, nat>, serial: map<(Type, string), nat>)
  {
    serial.Keys == cache.Keys &&
    (forall tup | tup in cache ::
      tup.1 in gensym && 1 <= serial[tup] <= gensym[tup.1] && cache[tup] == DeclName(tup.1, serial[tup])) &&
    (forall t1, t2 | t1 in serial && t2 in serial && t1.1 == t2.1 && serial[t1] == serial[t2] :: t1 == t2)
  }

  lemma CacheConsistentInsert(cache: map<(Type, string), string>, gensym: map<string, nat>, serial: map<(Type, string), nat>,
                              tup: (Type, string), num: nat)
    requires CacheConsistent(cache, gensym, serial) && tup !in cache
    requires num == (if tup.1 in gensym then gensym[tup.1] else 0) + 1
    ensures CacheConsistent(cache[tup := DeclName(tup.1, num)], gensym[tup.1 := num], serial[tup := num])
  {
    var cache', gensym', serial' := cache[tup := DeclName(tup.1, num)], gensym[tup.1 := num], serial[tup := num];
    forall t | t in cache'
      ensures t.1 in gensym' && 1 <= serial'[t] <= gensym'[t.1] && cache'[t] == DeclName(t.1, serial'[t])
    {
      if t != tup {
        assert t in cache && serial'[t] == serial[t] && cache'[t] == cache[t];
      }
    }
    forall t1, t2 | t1 in serial' && t2 in serial' && t1.1 == t2.1 && serial'[t1] == serial'[t2]
      ensures t1 == t2
    {
      if t1 != tup && t2 != tup {
        assert serial[t1] == serial'[t1] && serial[t2] == serial'[t2];
      }
    }
  }

  datatype NameInfo = NameInfo(pyname: string, typ: Option<Type>)

  /** The lists `self.code` can be made to alias by `emit_code_type`. */
  datatype CodeTarget = MainCode | Declarations | RuntimeInit | DummyCode

  /** What `emit_code_type` saves on entry and restores on exit. */
  datatype SavedCode = SavedCode(target: CodeTarget, level: int)

  function PredefinedGlobals(): map<string, NameInfo>
  {
    map[
      "false" := NameInfo("False", Some(Bool)),
      "true" := NameInfo("True", Some(Bool)),
      "bitzero" := NameInfo("rarithmetic.r_uint(0)", Some(Bit)),
      "bitone" := NameInfo("rarithmetic.r_uint(1)", Some(Bit)),
      "$zinternal_vector_init" := NameInfo("supportcode.vector_init", None),
      "$zinternal_vector_update" := NameInfo("supportcode.vector_update", None),
      "have_exception" := NameInfo("xxx", None)
    ]
  }

  class Codegen {
    var declarations: seq<string>
    var runtimeinit: seq<string>
    var code: seq<string>
    var dummy: seq<string>
    /** The list that `self.code` currently is. */
    var current: CodeTarget
    var level: int
    var lastEnum: int
    var globalnames: map<string, NameInfo>
    var namedtypes: map<string, NameInfo>
    var declarationcache: map<(Type, string), string>
    var gensym: map<string, nat>
    /** `None` outside any function scope. */
    var localnames: Option<map<string, NameInfo>>
    /** The number each cached declaration was given. */
    ghost var serial: map<(Type, string), nat>

    ghost predicate Valid()
      reads this
    {
      CacheConsistent(declarationcache, gensym, serial)
    }

    /** The lines emitted so far into `t`. */
    function Lines(t: CodeTarget): seq<string>
      reads this
    {
      match t
      case MainCode => code
      case Declarations => declarations
      case RuntimeInit => runtimeinit
      case DummyCode => dummy
    }

    constructor ()
      ensures Valid()
      ensures globalnames == PredefinedGlobals() && namedtypes == map[]
      ensures current == MainCode && level == 0 && lastEnum == 0
      ensures code == [] && declarations == [] && runtimeinit == [] && dummy == []
      ensures declarationcache == map[] && gensym == map[] && localnames == None
    {
      declarations, runtimeinit, code, dummy := [], [], [], [];
      current := MainCode;
      level, lastEnum := 0, 0;
      globalnames := PredefinedGlobals();
      namedtypes := map[];
      declarationcache, gensym, serial := map[], map[], map[];
      localnames := None;
    }

    /** `add_global`: a name already present, predefined or not, is refused (the source's assert). */
    method AddGlobal(name: string, pyname: string, typ: Option<Type>) returns (ok: bool)
      modifies this`globalnames
      ensures ok <==> name !in old(globalnames)
      ensures globalnames == if ok then old(globalnames)[name := NameInfo(pyname, typ)] else old(globalnames)
    {
      ok := name !in globalnames;
      if ok {
        globalnames := globalnames[name := NameInfo(pyname, typ)];
      }
    }

    /** `add_named_type`: a type name already present is refused. */
    method AddNamedType(name: string, pyname: string, typ: Type) returns (ok: bool)
      modifies this`namedtypes
      ensures ok <==> name !in old(namedtypes)
      ensures namedtypes == if ok then old(namedtypes)[name := NameInfo(pyname, Some(typ))] else old(namedtypes)
    {
      ok := name !in namedtypes;
      if ok {
        namedtypes := namedtypes[name := NameInfo(pyname, Some(typ))];
      }
    }

    /**
     * `getname`: a local name is its own Python name, any other name is looked
     * up globally. Outside a scope (where `localnames` is None) and for an
     * unknown global the source raises.
     */
    function GetName(name: string): (r: Result<string>)
      reads this
      ensures r.Ok? <==> localnames.Some? && (name in localnames.value || name in globalnames)
      ensures r.Ok? && name in localnames.value ==> r.value == name
      ensures r.Ok? && name !in localnames.value ==> r.value == globalnames[name].pyname
    {
      if localnames.None? then Failure("no local scope")
      else if name !in localnames.value then
        (if name in globalnames then Ok(globalnames[name].pyname) else Failure("unknown name"))
      else Ok(name)
    }

    /** `getinfo`: a local entry shadows a global one. */
    function GetInfo(name: string): (r: Result<NameInfo>)
      reads this
      ensures r.Ok? <==> localnames.Some? && (name in localnames.value || name in globalnames)
      ensures r.Ok? ==> r.value == (if name in localnames.value then localnames.value[name] else globalnames[name])
    {
      if localnames.None? then Failure("no local scope")
      else if name in localnames.value then Ok(localnames.value[name])
      else if name in globalnames then Ok(globalnames[name])
      else Failure("unknown name")
    }

    /** Entry of `enter_scope`: a fresh, empty local table. */
    method EnterScope() returns (saved: Option<map<string, NameInfo>>)
      modifies this`localnames
      ensures saved == old(localnames) && localnames == Some(map[])
    {
      saved := localnames;
      localnames := Some(map[]);
    }

    /** Exit of `enter_scope`: the scope's table is handed back and the outer one restored. */
    method ExitScope(saved: Option<map<string, NameInfo>>) returns (scope: Option<map<string, NameInfo>>)
      modifies this`localnames
      ensures scope == old(localnames) && localnames == saved
    {
      scope := localnames;
      localnames := saved;
    }

    /** `emit`: append one line, indented by the current level, to the current list. */
    method Emit(line: string)
      modifies this`code, this`declarations, this`runtimeinit, this`dummy
      ensures Lines(current) == old(Lines(current)) + [EmittedLine(level, line)]
      ensures forall t | t != current :: Lines(t) == old(Lines(t))
    {
      var l := EmittedLine(level, line);
      match current
      case MainCode => code := code + [l];
      case Declarations => declarations := declarations + [l];
      case RuntimeInit => runtimeinit := runtimeinit + [l];
      case DummyCode => dummy := dummy + [l];
    }

    /** Entry of `emit_indent`: emit the header line, then indent one level more. */
    method BeginIndent(line: string)
      modifies this`code, this`declarations, this`runtimeinit, this`dummy, this`level
      ensures level == old(level) + 1
      ensures Lines(current) == old(Lines(current)) + [EmittedLine(old(level), line)]
      ensures forall t | t != current :: Lines(t) == old(Lines(t))
    {
      Emit(line);
      level := level + 1;
    }

    /** Exit of `emit_indent`: the level `BeginIndent` raised is lowered again. */
    method EndIndent()
      modifies this`level
      ensures level == old(level) - 1
    {
      level := level - 1;
    }

    /** Entry of `emit_code_type`: lines go to `target`, starting at level 0. */
    method BeginCodeType(target: CodeTarget) returns (saved: SavedCode)
      modifies this`current, this`level
      ensures saved == SavedCode(old(current), old(level))
      ensures current == target && level == 0
    {
      saved := SavedCode(current, level);
      current := target;
      level := 0;
    }

    /**
     * Exit of `emit_code_type`: the saved list and level come back, but only
     * when the body left the level at 0; otherwise the source's assert fails
     * and nothing is restored.
     */
    method EndCodeType(saved: SavedCode) returns (ok: bool)
      modifies this`current, this`level
      ensures ok <==> old(level) == 0
      ensures ok ==> current == saved.target && level == saved.level
      ensures !ok ==> current == old(current) && level == old(level)
    {
      ok := level == 0;
      if ok {
        current := saved.target;
        level := saved.level;
      }
    }

    /**
     * Entry of `cached_declaration`: a `(key, prefix)` pair seen before gets
     * its cached name back and the body's lines are discarded; a new pair gets
     * `<prefix>_<n>` with `n` one more than the last number used for that
     * prefix, and the body's lines go to the declarations.
     */
    method CachedDeclaration(key: Type, prefix: string) returns (name: string, saved: SavedCode)
      requires Valid()
      modifies this`dummy, this`current, this`level, this`gensym, this`declarationcache, this`serial
      ensures Valid()
      ensures saved == SavedCode(old(current), old(level)) && level == 0
      ensures (key, prefix) in old(declarationcache) ==>
        name == old(declarationcache)[(key, prefix)] && declarationcache == old(declarationcache) &&
        gensym == old(gensym) && current == DummyCode && dummy == []
      ensures (key, prefix) !in old(declarationcache) ==>
        var num := (if prefix in old(gensym) then old(gensym)[prefix] else 0) + 1;
        name == DeclName(prefix, num) && gensym == old(gensym)[prefix := num] &&
        declarationcache == old(declarationcache)[(key, prefix) := name] && current == Declarations
      ensures (key, prefix) in declarationcache && declarationcache[(key, prefix)] == name
    {
      var tup := (key, prefix);
      if tup in declarationcache {
        dummy := [];
        saved := BeginCodeType(DummyCode);
        name := declarationcache[tup];
      } else {
        name := Remember(tup);
        saved := BeginCodeType(Declarations);
      }
    }

    /** A new pair takes the next number of its prefix into the cache. */
    method Remember(tup: (Type, string)) returns (name: string)
      requires Valid() && tup !in declarationcache
      modifies this`gensym, this`declarationcache, this`serial
      ensures Valid()
      ensures var num := (if tup.1 in old(gensym) then old(gensym)[tup.1] else 0) + 1;
        name == DeclName(tup.1, num) && gensym == old(gensym)[tup.1 := num] &&
        declarationcache == old(declarationcache)[tup := name]
    {
      var num := (if tup.1 in gensym then gensym[tup.1] else 0) + 1;
      name := DeclName(tup.1, num);
      CacheConsistentInsert(declarationcache, gensym, serial, tup, num);
      gensym := gensym[tup.1 := num];
      declarationcache := declarationcache[tup := name];
      serial := serial[tup := num];
    }

    /** Two different cached pairs never share a declaration name. */
    lemma CachedNamesDistinct(t1: (Type, string), t2: (Type, string))
      requires Valid()
      requires t1 in declarationcache && t2 in declarationcache && t1 != t2
      ensures declarationcache[t1] != declarationcache[t2]
    {
      if declarationcache[t1] == declarationcache[t2] {
        DeclNameInjective(t1.1, serial[t1], t2.1, serial[t2]);
      }
    }

    /**
     * The member loop of `parse.Enum.make_code`: member `names[i]` becomes the
     * global `<pyname>.<names[i]>` and is emitted as numbered `lastEnum + i`.
     * A name that is already taken (predefined, an earlier member, or any
     * other global) makes the source's assert fail part-way.
     */
    method RegisterEnumMembers(pyname: string, typ: Type, names: seq<string>) returns (ok: bool)
      modifies this`globalnames, this`code, this`declarations, this`runtimeinit, this`dummy
      ensures ok <==> FreshNames(names, old(globalnames))
      ensures ok ==>
        globalnames == old(globalnames) + EnumGlobals(pyname, typ, names) &&
        Lines(current) == old(Lines(current)) + EnumMemberLines(level, names, lastEnum)
      ensures forall t | t != current :: Lines(t) == old(Lines(t))
    {
      ghost var before, globals0 := Lines(current), globalnames;
      var i := 0;
      while i < |names|
        invariant 0 <= i <= |names|
        invariant MembersSoFar(pyname, typ, names, i, globals0, before)
        invariant forall t | t != current :: Lines(t) == old(Lines(t))
      {
        ok := MemberStep(pyname, typ, names, i, globals0, before);
        if !ok {
          return;
        }
        i := i + 1;
      }
      assert names[..i] == names;
      ok := true;
    }

    /** The member loop's state after the first `i` members went in. */
    ghost predicate MembersSoFar(pyname: string, typ: Type, names: seq<string>, i: nat,
                                 globals0: map<string, NameInfo>, before: seq<string>)
      reads this
    {
      i <= |names| &&
      FreshNames(names[..i], globals0) &&
      globalnames == globals0 + EnumGlobals(pyname, typ, names[..i]) &&
      Lines(current) == before + EnumMemberLines(level, names[..i], lastEnum)
    }

    /** Member `i` of the loop, with what it means for the loop's state. */
    method MemberStep(pyname: string, typ: Type, names: seq<string>, i: nat,
                      ghost globals0: map<string, NameInfo>, ghost before: seq<string>) returns (ok: bool)
      modifies this`globalnames, this`code, this`declarations, this`runtimeinit, this`dummy
      requires i < |names| && MembersSoFar(pyname, typ, names, i, globals0, before)
      ensures ok ==> MembersSoFar(pyname, typ, names, i + 1, globals0, before)
      ensures !ok ==> !FreshNames(names, globals0)
      ensures forall t | t != current :: Lines(t) == old(Lines(t))
    {
      ok := AddEnumMember(pyname, typ, names[i], lastEnum + i);
      EnumMemberStep(pyname, typ, names, i, globals0, level, lastEnum);
    }

    /** One iteration of the member loop: register the global, then emit its numbered line. */
    method AddEnumMember(pyname: string, typ: Type, name: string, number: int) returns (ok: bool)
      modifies this`globalnames, this`code, this`declarations, this`runtimeinit, this`dummy
      ensures ok <==> name !in old(globalnames)
      ensures ok ==> globalnames == old(globalnames)[name := NameInfo(pyname + "." + name, Some(typ))]
      ensures ok ==> Lines(current) == old(Lines(current)) + [EnumMemberLine(level, name, number)]
      ensures forall t | t != current :: Lines(t) == old(Lines(t))
    {
      ok := AddGlobal(name, pyname + "." + name, Some(typ));
      if ok {
        Emit(name + " = " + IntToString(number));
      }
    }

    /**
     * `parse.Enum.make_code`: the class header, the numbered members, then
     * `lastEnum` advances by `|names| + 1` (leaving a gap of one) and the enum
     * registers as a named type. On a refused name the source's assert fails
     * inside the indented block, so the level stays raised.
     */
    method DeclareEnum(ename: string, names: seq<string>) returns (ok: bool)
      modifies this`globalnames, this`namedtypes, this`code, this`declarations, this`runtimeinit, this`dummy,
               this`level, this`lastEnum
      ensures ok <==> FreshNames(names, old(globalnames)) && ename !in old(namedtypes)
      ensures ok ==>
        lastEnum == old(lastEnum) + |names| + 1 && level == old(level) &&
        globalnames == old(globalnames) + EnumGlobals(EnumPyName(ename), Enum(ename, names), names) &&
        namedtypes == old(namedtypes)[ename := NameInfo(EnumPyName(ename), Some(Enum(ename, names)))] &&
        Lines(current) == old(Lines(current)) + [EmittedLine(old(level), EnumHeader(ename))]
                          + EnumMemberLines(old(level) + 1, names, old(lastEnum)) + [""]
      ensures forall t | t != current :: Lines(t) == old(Lines(t))
    {
      var pyname := EnumPyName(ename);
      var typ := Enum(ename, names);
      BeginIndent(EnumHeader(ename));
      ok := RegisterEnumMembers(pyname, typ, names);
      if !ok {
        return;
      }
      lastEnum := lastEnum + |names| + 1;
      ok := AddNamedType(ename, pyname, typ);
      if !ok {
        return;
      }
      EndIndent();
      Emit("");
      assert EmittedLine(level, "") == "";
    }
  }

  /** The globals an enum's members become, in declaration order. */
  function EnumGlobals(pyname: string, typ: Type, names: seq<string>): map<string, NameInfo>
  {
    if names == [] then map[]
    else EnumGlobals(pyname, typ, names[..|names| - 1])[names[|names| - 1] := NameInfo(pyname + "." + names[|names| - 1], Some(typ))]
  }

  lemma {:induction false} EnumGlobalsHas(pyname: string, typ: Type, names: seq<string>, n: string)
    ensures n in EnumGlobals(pyname, typ, names) <==> n in names
    decreases |names|
  {
    if names != [] {
      var init := names[..|names| - 1];
      EnumGlobalsHas(pyname, typ, init, n);
      assert names == init + [names[|names| - 1]];
    }
  }

  /**
   * Every member of an enum whose names are distinct is registered under its
   * own name as `<pyname>.<member>`, and nothing else is registered.
   */
  lemma {:induction false} EnumGlobalsAt(pyname: string, typ: Type, names: seq<string>, k: nat)
    requires k < |names|
    requires forall a, b | 0 <= a < b < |names| :: names[a] != names[b]
    ensures names[k] in EnumGlobals(pyname, typ, names)
    ensures EnumGlobals(pyname, typ, names)[names[k]] == NameInfo(pyname + "." + names[k], Some(typ))
    decreases |names|
  {
    if k < |names| - 1 {
      EnumGlobalsAt(pyname, typ, names[..|names| - 1], k);
    }
  }

  lemma EnumMemberLinesSnoc(level: int, names: seq<string>, i: nat, start: int)
    requires i < |names|
    ensures EnumMemberLines(level, names[..i + 1], start) ==
            EnumMemberLines(level, names[..i], start) + [EnumMemberLine(level, names[i], start + i)]
  {
    assert names[..i + 1][..i] == names[..i];
  }

  lemma FreshNamesStop(names: seq<string>, i: nat, taken: map<string, NameInfo>)
    requires i < |names| && (names[i] in taken || names[i] in names[..i])
    ensures !FreshNames(names, taken)
  {
    if names[i] !in taken {
      var k :| 0 <= k < i && names[..i][k] == names[i];
      assert names[k] == names[i];
    }
  }

  lemma FreshNamesSnoc(names: seq<string>, i: nat, taken: map<string, NameInfo>)
    requires i < |names| && FreshNames(names[..i], taken)
    requires names[i] !in taken && names[i] !in names[..i]
    ensures FreshNames(names[..i + 1], taken)
  {
    var p, q := names[..i], names[..i + 1];
    assert forall k | 0 <= k < i :: q[k] == p[k];
    forall a, b | 0 <= a < b < |q| ensures q[a] != q[b] {
      if b == i {
        assert p[a] in p;
      }
    }
  }

  lemma EnumGlobalsSnoc(pyname: string, typ: Type, names: seq<string>, i: nat)
    requires i < |names|
    ensures EnumGlobals(pyname, typ, names[..i + 1]) ==
            EnumGlobals(pyname, typ, names[..i])[names[i] := NameInfo(pyname + "." + names[i], Some(typ))]
  {
    assert names[..i + 1][..i] == names[..i];
  }

  /** What one member adds, or why the loop stops at member `i`. */
  lemma EnumMemberStep(pyname: string, typ: Type, names: seq<string>, i: nat, taken: map<string, NameInfo>,
                       level: int, start: int)
    requires i < |names| && FreshNames(names[..i], taken)
    ensures names[i] in taken + EnumGlobals(pyname, typ, names[..i]) ==> !FreshNames(names, taken)
    ensures names[i] !in taken + EnumGlobals(pyname, typ, names[..i]) ==>
      FreshNames(names[..i + 1], taken) &&
      (taken + EnumGlobals(pyname, typ, names[..i]))[names[i] := NameInfo(pyname + "." + names[i], Some(typ))] ==
        taken + EnumGlobals(pyname, typ, names[..i + 1])
    ensures EnumMemberLines(level, names[..i + 1], start) ==
            EnumMemberLines(level, names[..i], start) + [EnumMemberLine(level, names[i], start + i)]
  {
    EnumGlobalsHas(pyname, typ, names[..i], names[i]);
    if names[i] in taken || names[i] in names[..i] {
      FreshNamesStop(names, i, taken);
    } else {
      FreshNamesSnoc(names, i, taken);
      EnumGlobalsSnoc(pyname, typ, names, i);
      MergeUpdate(taken, EnumGlobals(pyname, typ, names[..i]), names[i], NameInfo(pyname + "." + names[i], Some(typ)));
    }
    EnumMemberLinesSnoc(level, names, i, start);
  }

  lemma MergeUpdate<K, V>(a: map<K, V>, b: map<K, V>, k: K, v: V)
    ensures (a + b)[k := v] == a + b[k := v]
  {
  }

  function EnumPyName(ename: string): string { "Enum_" + ename }

  function EnumHeader(ename: string): string { "class " + EnumPyName(ename) + "(object):" }

  /** No name is already taken, and no name occurs twice. */
  predicate FreshNames(names: seq<string>, taken: map<string, NameInfo>)
  {
    (forall k | 0 <= k < |names| :: names[k] !in taken) &&
    (forall a, b | 0 <= a < b < |names| :: names[a] != names[b])
  }

}
