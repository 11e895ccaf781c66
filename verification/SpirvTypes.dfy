/**
 The typing rules of the instructions that the shader compiler emits, as the SPIR-V Specification
 describes them instruction by instruction, and the types of everything the compiler emits.
 */
module SpirvTypes {
  import opened Sm4
  import opened Spirv
  import opened SpirvCode

  datatype Ty = Void | Bool | Float | Vec(of: Ty, n: nat) | Ptr(storage: nat, to: Ty) | Fn(result: Ty) | ExtSet

  /** The types that type IDs name, and the types of all other result IDs. */
  datatype Env = Env(types: map<nat, Ty>, vals: map<nat, Ty>) {
    predicate Has(id: nat, t: Ty)
    {
      id in vals && vals[id] == t
    }

    predicate Names(id: nat, t: Ty)
    {
      id in types && types[id] == t
    }

    function Bind(id: nat, t: Ty): Env
    {
      this.(vals := vals[id := t])
    }

    function Define(id: nat, t: Ty): Env
    {
      this.(types := types[id := t])
    }
  }

  const STORAGE_INPUT := 1
  const STORAGE_OUTPUT := 3
  const STORAGE_FUNCTION := 7

  // ---------------------------------------------------------------- the rules

  /** The type that a type declaration defines. */
  function Declared(i: Inst, e: Env): Option<Ty>
  {
    var a := i.args;
    if i.op == OP_TYPE_VOID && |a| == 1 then Some(Void)
    else if i.op == OP_TYPE_BOOL && |a| == 1 then Some(Bool)
    else if i.op == OP_TYPE_FLOAT && |a| == 2 && a[1] == 32 then Some(Float)
    else if i.op == OP_TYPE_VECTOR && |a| == 3 && a[1] in e.types && (e.types[a[1]].Float? || e.types[a[1]].Bool?) && 2 <= a[2] <= 4 then
      Some(Vec(e.types[a[1]], a[2]))
    else if i.op == OP_TYPE_POINTER && |a| == 3 && a[2] in e.types then Some(Ptr(a[1], e.types[a[2]]))
    else if i.op == OP_TYPE_FUNCTION && |a| == 2 && a[1] in e.types then Some(Fn(e.types[a[1]]))
    else None
  }

  predicate IsType(op: nat)
  {
    op in {OP_TYPE_VOID, OP_TYPE_BOOL, OP_TYPE_FLOAT, OP_TYPE_VECTOR, OP_TYPE_POINTER, OP_TYPE_FUNCTION}
  }

  /** Instructions without a typed operand or result. */
  predicate IsNeutral(op: nat)
  {
    op in {OP_MEMORY_MODEL, OP_ENTRY_POINT, OP_EXECUTION_MODE, OP_CAPABILITY, OP_DECORATE, OP_LABEL, OP_RETURN, OP_FUNCTION_END}
  }

  /** Operands that may stand behind result type `t` and the result ID. */
  predicate Fits(op: nat, t: Ty, a: seq<nat>, e: Env)
  {
    if op == OP_CONSTANT then |a| == 3 && t == Float
    else if op == OP_VARIABLE then |a| == 3 && t.Ptr? && t.storage == a[2]
    else if op == OP_FUNCTION then |a| == 4 && a[3] in e.types && e.types[a[3]] == Fn(t)
    else if op == OP_LOAD then |a| == 3 && a[2] in e.vals && e.vals[a[2]].Ptr? && e.vals[a[2]].to == t
    else if op == OP_COMPOSITE_CONSTRUCT then
      |a| >= 2 && t.Vec? && t.n == |a| - 2 && forall k | 2 <= k < |a| :: e.Has(a[k], t.of)
    else if op == OP_COMPOSITE_EXTRACT then
      |a| == 4 && a[2] in e.vals && e.vals[a[2]].Vec? && e.vals[a[2]].of == t && a[3] < e.vals[a[2]].n
    else if op == OP_VECTOR_SHUFFLE then
      && |a| >= 4 && t.Vec? && t.n == |a| - 4 && a[2] in e.vals && a[3] in e.vals
      && e.vals[a[2]].Vec? && e.vals[a[3]].Vec? && e.vals[a[2]].of == t.of == e.vals[a[3]].of
      && forall k | 4 <= k < |a| :: a[k] < e.vals[a[2]].n + e.vals[a[3]].n
    else if op == OP_FADD || op == OP_FMUL then
      |a| == 4 && t.Vec? && t.of == Float && e.Has(a[2], t) && e.Has(a[3], t)
    else if op == OP_DOT then
      |a| == 4 && a[2] in e.vals && e.vals[a[2]].Vec? && e.vals[a[2]].of == t == Float && e.Has(a[3], e.vals[a[2]])
    else if op in {OP_FORD_EQUAL, OP_FUNORD_NOT_EQUAL, OP_FORD_LESS_THAN, OP_FORD_GREATER_THAN_EQUAL} then
      |a| == 4 && t.Vec? && t.of == Bool && e.Has(a[2], Vec(Float, t.n)) && e.Has(a[3], Vec(Float, t.n))
    else if op == OP_SELECT then
      |a| == 5 && t.Vec? && e.Has(a[2], Vec(Bool, t.n)) && e.Has(a[3], t) && e.Has(a[4], t)
    else if op == OP_EXT_INST then
      && |a| >= 4 && t.Vec? && t.of == Float && e.Has(a[2], ExtSet)
      && |a| == (if a[3] == GLSL_INVERSE_SQRT then 5 else 6)
      && a[3] in {GLSL_INVERSE_SQRT, GLSL_FMIN, GLSL_FMAX}
      && forall k | 4 <= k < |a| :: e.Has(a[k], t)
    else false
  }

  /** One instruction checked against the types known so far; `None` when it breaks a rule. */
  function Check(i: Inst, e: Env): Option<Env>
  {
    var a := i.args;
    if IsNeutral(i.op) then Some(e)
    else if a == [] then None
    else if IsType(i.op) then (match Declared(i, e) case None => None case Some(t) => Some(e.Define(a[0], t)))
    else if i.op == OP_EXT_INST_IMPORT then Some(e.Bind(a[0], ExtSet))
    else if i.op == OP_STORE then
      if |a| == 2 && a[0] in e.vals && a[1] in e.vals && e.vals[a[0]].Ptr? && e.vals[a[0]].to == e.vals[a[1]]
         && e.vals[a[0]].storage != STORAGE_INPUT then Some(e) else None
    else if |a| < 2 || a[0] !in e.types || !Fits(i.op, e.types[a[0]], a, e) then None
    else Some(e.Bind(a[1], if i.op == OP_FUNCTION then e.types[a[3]] else e.types[a[0]]))
  }

  function CheckAll(insts: seq<Inst>, e: Env): Option<Env>
    decreases |insts|
  {
    if insts == [] then Some(e) else
    match Check(insts[0], e)
    case None => None
    case Some(e') => CheckAll(insts[1..], e')
  }

  lemma {:induction false} CheckAppend(a: seq<Inst>, b: seq<Inst>, e: Env)
    ensures CheckAll(a + b, e) == match CheckAll(a, e) case None => None case Some(e') => CheckAll(b, e')
    decreases |a|
  {
    hide Check;
    if a == [] {
      assert a + b == b;
    } else {
      assert (a + b)[1..] == a[1..] + b;
      match Check(a[0], e) {
        case None =>
        case Some(e') => CheckAppend(a[1..], b, e');
      }
    }
  }

  lemma {:induction false} CheckChain(insts: seq<Inst>, envs: seq<Env>)
    requires |envs| == |insts| + 1
    requires forall k | 0 <= k < |insts| :: Check(insts[k], envs[k]) == Some(envs[k + 1])
    ensures CheckAll(insts, envs[0]) == Some(envs[|insts|])
    decreases |insts|
  {
    hide Check;
    if insts != [] {
      CheckChain(insts[1..], envs[1..]);
    }
  }

  lemma CheckFirstFails(insts: seq<Inst>, e: Env)
    requires insts != [] && Check(insts[0], e).None?
    ensures CheckAll(insts, e).None?
  {
  }

  lemma {:induction false} CheckNeutral(insts: seq<Inst>, e: Env)
    requires forall i | i in insts :: IsNeutral(i.op)
    ensures CheckAll(insts, e) == Some(e)
    decreases |insts|
  {
    if insts != [] {
      CheckNeutral(insts[1..], e);
    }
  }

  // ---------------------------------------------------------------- what the prologue declares

  const VEC3 := Vec(Float, 3)
  const VEC4 := Vec(Float, 4)
  const BVEC4 := Vec(Bool, 4)

  const TYPE_NAMES: map<nat, Ty> := map[
    ID_VOID := Void, ID_BOOL := Bool, ID_FUNC := Fn(Void), ID_FLOAT := Float, ID_VEC3 := VEC3, ID_VEC4 := VEC4,
    ID_BVEC4 := BVEC4, ID_PTR_IN4 := Ptr(STORAGE_INPUT, VEC4), ID_PTR_IN3 := Ptr(STORAGE_INPUT, VEC3),
    ID_PTR_OUT4 := Ptr(STORAGE_OUTPUT, VEC4), ID_PTR_FUNC4 := Ptr(STORAGE_FUNCTION, VEC4)]

  function InputTy(sh: Shader, i: nat): Ty
  {
    if sh.Widens(i) then VEC3 else VEC4
  }

  /** All that the translated instructions rely on. */
  ghost predicate Ready(sh: Shader, e: Env)
  {
    && e.types == TYPE_NAMES && 0 !in e.vals
    && e.Has(ID_FLOAT_0, Float) && e.Has(ID_FLOAT_1, Float) && e.Has(GlslId(sh), ExtSet)
    && (forall i: nat | i < |sh.inputs| :: e.Has(InputVar(sh, i), Ptr(STORAGE_INPUT, InputTy(sh, i))))
    && (forall i: nat | i < |sh.outputs| :: e.Has(OutputVar(sh, i), Ptr(STORAGE_OUTPUT, VEC4)))
    && (forall i: nat | i < sh.temps :: e.Has(TempVar(sh, i), Ptr(STORAGE_FUNCTION, VEC4)))
  }

  /** Only IDs from `lo` on have been added. */
  ghost predicate Grown(e: Env, f: Env, lo: nat)
  {
    f.types == e.types && forall id: nat | id < lo :: (id in e.vals <==> id in f.vals) && (id in e.vals ==> f.vals[id] == e.vals[id])
  }

  lemma GrownReady(sh: Shader, e: Env, f: Env, lo: nat)
    requires Ready(sh, e) && Grown(e, f, lo) && lo >= FirstBodyId(sh)
    ensures Ready(sh, f)
  {
  }

  lemma CheckDeclared(op: nat, args: seq<nat>, e: Env, t: Ty)
    requires IsType(op) && args != [] && Declared(Inst(op, args), e) == Some(t)
    ensures Check(Inst(op, args), e) == Some(e.Define(args[0], t))
  {
    hide Declared;
  }

  const VALUE_TYPES: map<nat, Ty> := map[
    ID_VOID := Void, ID_BOOL := Bool, ID_FUNC := Fn(Void), ID_FLOAT := Float, ID_VEC3 := VEC3, ID_VEC4 := VEC4, ID_BVEC4 := BVEC4]

  lemma ValueTypesCheck(e: Env)
    requires e.types == map[]
    ensures CheckAll(TYPES[..7], e) == Some(Env(VALUE_TYPES, e.vals))
  {
    hide Check;
    var e1 := e.Define(ID_VOID, Void);
    var e2 := e1.Define(ID_BOOL, Bool);
    var e3 := e2.Define(ID_FUNC, Fn(Void));
    var e4 := e3.Define(ID_FLOAT, Float);
    var e5 := e4.Define(ID_VEC3, VEC3);
    var e6 := e5.Define(ID_VEC4, VEC4);
    var e7 := e6.Define(ID_BVEC4, BVEC4);
    CheckDeclared(OP_TYPE_VOID, [ID_VOID], e, Void);
    CheckDeclared(OP_TYPE_BOOL, [ID_BOOL], e1, Bool);
    CheckDeclared(OP_TYPE_FUNCTION, [ID_FUNC, ID_VOID], e2, Fn(Void));
    CheckDeclared(OP_TYPE_FLOAT, [ID_FLOAT, 32], e3, Float);
    CheckDeclared(OP_TYPE_VECTOR, [ID_VEC3, ID_FLOAT, 3], e4, VEC3);
    CheckDeclared(OP_TYPE_VECTOR, [ID_VEC4, ID_FLOAT, 4], e5, VEC4);
    CheckDeclared(OP_TYPE_VECTOR, [ID_BVEC4, ID_BOOL, 4], e6, BVEC4);
    CheckChain(TYPES[..7], [e, e1, e2, e3, e4, e5, e6, e7]);
  }

  lemma PointerTypesCheck(e: Env)
    requires e.types == VALUE_TYPES
    ensures CheckAll(TYPES[7..], e) == Some(Env(TYPE_NAMES, e.vals))
  {
    hide Check;
    var e1 := e.Define(ID_PTR_IN4, Ptr(STORAGE_INPUT, VEC4));
    var e2 := e1.Define(ID_PTR_IN3, Ptr(STORAGE_INPUT, VEC3));
    var e3 := e2.Define(ID_PTR_OUT4, Ptr(STORAGE_OUTPUT, VEC4));
    var e4 := e3.Define(ID_PTR_FUNC4, Ptr(STORAGE_FUNCTION, VEC4));
    CheckDeclared(OP_TYPE_POINTER, [ID_PTR_IN4, STORAGE_INPUT, ID_VEC4], e, Ptr(STORAGE_INPUT, VEC4));
    CheckDeclared(OP_TYPE_POINTER, [ID_PTR_IN3, STORAGE_INPUT, ID_VEC3], e1, Ptr(STORAGE_INPUT, VEC3));
    CheckDeclared(OP_TYPE_POINTER, [ID_PTR_OUT4, STORAGE_OUTPUT, ID_VEC4], e2, Ptr(STORAGE_OUTPUT, VEC4));
    CheckDeclared(OP_TYPE_POINTER, [ID_PTR_FUNC4, STORAGE_FUNCTION, ID_VEC4], e3, Ptr(STORAGE_FUNCTION, VEC4));
    assert e4.types == TYPE_NAMES;
    CheckChain(TYPES[7..], [e, e1, e2, e3, e4]);
  }

  /** The declarations build on one another, each on IDs declared before it. */
  lemma TypesCheck(e: Env)
    requires e.types == map[]
    ensures CheckAll(TYPES, e) == Some(Env(TYPE_NAMES, e.vals))
  {
    hide Check, CheckAll;
    ValueTypesCheck(e);
    PointerTypesCheck(Env(VALUE_TYPES, e.vals));
    CheckAppend(TYPES[..7], TYPES[7..], e);
    assert TYPES == TYPES[..7] + TYPES[7..];
  }

  lemma ConstantsCheck(e: Env)
    requires e.types == TYPE_NAMES
    ensures CheckAll(CONSTANTS, e) == Some(Env(TYPE_NAMES, e.vals[ID_FLOAT_0 := Float][ID_FLOAT_1 := Float]))
  {
    CheckChain(CONSTANTS, [e, e.Bind(ID_FLOAT_0, Float), e.Bind(ID_FLOAT_0, Float).Bind(ID_FLOAT_1, Float)]);
  }

  /** Variable declarations with consecutive IDs. */
  lemma {:induction false} VariablesCheck(insts: seq<Inst>, lo: nat, e: Env) returns (f: Env)
    requires forall k | 0 <= k < |insts| ::
      && insts[k].op == OP_VARIABLE && |insts[k].args| == 3 && insts[k].args[1] == lo + k
      && insts[k].args[0] in e.types && e.types[insts[k].args[0]].Ptr? && e.types[insts[k].args[0]].storage == insts[k].args[2]
    ensures CheckAll(insts, e) == Some(f) && f.types == e.types
    ensures forall id: nat :: id in f.vals <==> id in e.vals || lo <= id < lo + |insts|
    ensures forall id: nat | id in f.vals :: f.vals[id] == if lo <= id < lo + |insts| then e.types[insts[id - lo].args[0]] else e.vals[id]
    decreases |insts|
  {
    if insts == [] {
      f := e;
    } else {
      var p := insts[0].args[0];
      assert Check(insts[0], e) == Some(e.Bind(lo, e.types[p]));
      f := VariablesCheck(insts[1..], lo + 1, e.Bind(lo, e.types[p]));
    }
  }

  const EMPTY := Env(map[], map[])

  lemma PreambleChecks(sh: Shader)
    ensures CheckAll(Preamble(sh) + Decorations(sh), EMPTY) == Some(Env(map[], map[GlslId(sh) := ExtSet]))
  {
    hide CheckAll, Check, Preamble, Decorations;
    var p, d := Preamble(sh), Decorations(sh);
    var e := EMPTY.Bind(GlslId(sh), ExtSet);
    PreambleParts(sh);
    CheckNeutral(p[..1], EMPTY);
    ImportChecks(p[1], GlslId(sh));
    CheckNeutral(p[2..], e);
    CheckNeutral(d, e);
    CheckAppend(p[..1], p[1..2], EMPTY);
    CheckAppend(p[..1] + p[1..2], p[2..], EMPTY);
    CheckAppend(p, d, EMPTY);
    assert p == p[..1] + p[1..2] + p[2..] && p[1..2] == [p[1]];
  }

  lemma PreambleParts(sh: Shader)
    ensures var p := Preamble(sh);
      && |p| >= 4 && p[1].op == OP_EXT_INST_IMPORT && p[1].args != [] && p[1].args[0] == GlslId(sh)
      && (forall i | i in p[..1] :: IsNeutral(i.op)) && (forall i | i in p[2..] :: IsNeutral(i.op))
    ensures forall i | i in Decorations(sh) :: IsNeutral(i.op)
  {
  }

  lemma ImportChecks(i: Inst, id: nat)
    requires i.op == OP_EXT_INST_IMPORT && i.args != [] && i.args[0] == id
    ensures CheckAll([i], EMPTY) == Some(EMPTY.Bind(id, ExtSet))
  {
    CheckChain([i], [EMPTY, EMPTY.Bind(id, ExtSet)]);
  }

  lemma GlobalsCheck(sh: Shader, e: Env) returns (f: Env)
    requires e.types == map[]
    ensures CheckAll(TYPES + CONSTANTS + Variables(sh), e) == Some(f) && f.types == TYPE_NAMES
    ensures forall id: nat :: id in f.vals <==> id in e.vals || id == ID_FLOAT_0 || id == ID_FLOAT_1 || FIRST_VAR <= id < TempVar(sh, 0)
    ensures forall id: nat | id in f.vals ::
      f.vals[id] == if FIRST_VAR <= id < TempVar(sh, 0) then VariableTy(sh, id - FIRST_VAR)
                    else if id == ID_FLOAT_0 || id == ID_FLOAT_1 then Float else e.vals[id]
  {
    hide CheckAll, Check;
    TypesCheck(e);
    ConstantsCheck(Env(TYPE_NAMES, e.vals));
    var e1 := Env(TYPE_NAMES, e.vals[ID_FLOAT_0 := Float][ID_FLOAT_1 := Float]);
    f := VariablesCheck(Variables(sh), FIRST_VAR, e1);
    CheckAppend(TYPES, CONSTANTS, e);
    CheckAppend(TYPES + CONSTANTS, Variables(sh), e);
  }

  /** The type of the global variable with number `k`. */
  function VariableTy(sh: Shader, k: nat): Ty
  {
    if k < |sh.inputs| then Ptr(STORAGE_INPUT, InputTy(sh, k)) else Ptr(STORAGE_OUTPUT, VEC4)
  }

  /** The prologue obeys the rules and leaves every variable with its type. */
  lemma PrologueChecks(sh: Shader) returns (e: Env)
    ensures CheckAll(Prologue(sh), EMPTY) == Some(e) && Ready(sh, e)
  {
    hide CheckAll, Check, Preamble, Decorations, TYPES, CONSTANTS, Variables, FunctionHead;
    var e0 := Env(map[], map[GlslId(sh) := ExtSet]);
    PreambleChecks(sh);
    var e1 := GlobalsCheck(sh, e0);
    e := HeadChecks(sh, e1);
    var p, g := Preamble(sh) + Decorations(sh), TYPES + CONSTANTS + Variables(sh);
    CheckAppend(p, g, EMPTY);
    CheckAppend(p + g, FunctionHead(sh), EMPTY);
    assert Prologue(sh) == p + g + FunctionHead(sh);
  }

  lemma HeadChecks(sh: Shader, e: Env) returns (f: Env)
    requires e.types == TYPE_NAMES
    ensures CheckAll(FunctionHead(sh), e) == Some(f) && f.types == e.types
    ensures forall id: nat :: id in f.vals <==> id in e.vals || id == ID_MAIN || TempVar(sh, 0) <= id < GlslId(sh)
    ensures forall id: nat | id in f.vals && id != ID_MAIN ::
      f.vals[id] == if TempVar(sh, 0) <= id < GlslId(sh) then Ptr(STORAGE_FUNCTION, VEC4) else e.vals[id]
  {
    var h := FunctionHead(sh);
    var e1 := e.Bind(ID_MAIN, Fn(Void));
    assert h[2..] == seq(sh.temps, (i: nat) => Inst(OP_VARIABLE, [ID_PTR_FUNC4, FIRST_VAR + |sh.inputs| + |sh.outputs| + i, 7]));
    CheckChain(h[..2], [e, e1, e1]);
    f := VariablesCheck(h[2..], TempVar(sh, 0), e1);
    CheckAppend(h[..2], h[2..], e);
    assert h == h[..2] + h[2..];
  }

  // ---------------------------------------------------------------- each emitted instruction

  /** The result types of the emitted instructions. */
  predicate Standard(e: Env)
  {
    e.Names(ID_FLOAT, Float) && e.Names(ID_VEC3, VEC3) && e.Names(ID_VEC4, VEC4) && e.Names(ID_BVEC4, BVEC4)
  }

  lemma CheckConstant(e: Env, id: nat, bits: nat)
    requires Standard(e)
    ensures Check(Constant(id, bits), e) == Some(e.Bind(id, Float))
  {
  }

  lemma CheckConstruct(e: Env, id: nat, a: nat, b: nat, c: nat, d: nat)
    requires Standard(e) && e.Has(a, Float) && e.Has(b, Float) && e.Has(c, Float) && e.Has(d, Float)
    ensures Check(Construct(id, a, b, c, d), e) == Some(e.Bind(id, VEC4))
  {
    var i := Construct(id, a, b, c, d);
    assert Fits(OP_COMPOSITE_CONSTRUCT, VEC4, i.args, e);
  }

  lemma CheckExtract(e: Env, id: nat, v: nat, k: nat)
    requires Standard(e) && e.Has(v, VEC3) && k < 3
    ensures Check(Extract(id, v, k), e) == Some(e.Bind(id, Float))
  {
  }

  lemma CheckLoad(e: Env, ty: nat, id: nat, v: nat)
    requires ty in e.types && v in e.vals && e.vals[v].Ptr? && e.vals[v].to == e.types[ty]
    ensures Check(Inst(OP_LOAD, [ty, id, v]), e) == Some(e.Bind(id, e.types[ty]))
  {
  }

  lemma CheckTruncate(e: Env, id: nat, v: nat)
    requires Standard(e) && (v in e.vals ==> e.vals[v] == VEC4)
    ensures Check(Truncate3(id, v), e) == if v in e.vals then Some(e.Bind(id, VEC3)) else None
  {
    var i := Truncate3(id, v);
    if v in e.vals {
      assert Fits(OP_VECTOR_SHUFFLE, VEC3, i.args, e);
    }
  }

  lemma CheckDot(e: Env, id: nat, a: nat, b: nat)
    requires Standard(e) && (a in e.vals ==> e.vals[a] == VEC4 || e.vals[a] == VEC3)
    ensures Check(Inst(OP_DOT, [ID_FLOAT, id, a, b]), e) ==
      if a in e.vals && e.Has(b, e.vals[a]) then Some(e.Bind(id, Float)) else None
  {
  }

  lemma CheckArith(e: Env, op: nat, id: nat, a: nat, b: nat)
    requires Standard(e) && (op == OP_FADD || op == OP_FMUL)
    ensures Check(Inst(op, [ID_VEC4, id, a, b]), e) == if e.Has(a, VEC4) && e.Has(b, VEC4) then Some(e.Bind(id, VEC4)) else None
  {
  }

  predicate Compares(op: nat)
  {
    op == OP_FORD_EQUAL || op == OP_FUNORD_NOT_EQUAL || op == OP_FORD_LESS_THAN || op == OP_FORD_GREATER_THAN_EQUAL
  }

  lemma CheckCompare(e: Env, op: nat, id: nat, a: nat, b: nat)
    requires Standard(e) && Compares(op)
    ensures Check(Inst(op, [ID_BVEC4, id, a, b]), e) == if e.Has(a, VEC4) && e.Has(b, VEC4) then Some(e.Bind(id, BVEC4)) else None
  {
  }

  lemma CheckSelect(e: Env, id: nat, c: nat, a: nat, b: nat)
    requires Standard(e)
    ensures Check(Inst(OP_SELECT, [ID_VEC4, id, c, a, b]), e) ==
      if e.Has(c, BVEC4) && e.Has(a, VEC4) && e.Has(b, VEC4) then Some(e.Bind(id, VEC4)) else None
  {
  }

  lemma CheckExt1(e: Env, id: nat, lib: nat, a: nat)
    requires Standard(e) && e.Has(lib, ExtSet)
    ensures Check(Inst(OP_EXT_INST, [ID_VEC4, id, lib, GLSL_INVERSE_SQRT, a]), e) == if e.Has(a, VEC4) then Some(e.Bind(id, VEC4)) else None
  {
    var args := [ID_VEC4, id, lib, GLSL_INVERSE_SQRT, a];
    assert args[4] == a;
    assert Fits(OP_EXT_INST, VEC4, args, e) <==> e.Has(a, VEC4);
  }

  lemma CheckExt2(e: Env, id: nat, lib: nat, op: nat, a: nat, b: nat)
    requires Standard(e) && e.Has(lib, ExtSet) && (op == GLSL_FMIN || op == GLSL_FMAX)
    ensures Check(Inst(OP_EXT_INST, [ID_VEC4, id, lib, op, a, b]), e) ==
      if e.Has(a, VEC4) && e.Has(b, VEC4) then Some(e.Bind(id, VEC4)) else None
  {
    var args := [ID_VEC4, id, lib, op, a, b];
    assert args[4] == a && args[5] == b;
    assert Fits(OP_EXT_INST, VEC4, args, e) <==> e.Has(a, VEC4) && e.Has(b, VEC4);
  }

  // ---------------------------------------------------------------- operands

  /** The operand is an immediate or names a register that the compiler has a variable for. */
  predicate MappedSrc(sh: Shader, s: Src)
  {
    s.kind == KIND_IMM32 || SrcVar(sh, s.kind, s.idx0) != 0
  }

  /** The chunk obeys the rules, and its result, if it has one, is a vec4. */
  ghost predicate Typed(c: Chunk, e: Env, id: nat, f: Env)
  {
    CheckAll(c.insts, e) == Some(f) && Grown(e, f, id) && id <= c.next && c.value < c.next && (c.value != 0 ==> f.Has(c.value, VEC4))
  }

  lemma ReadyFacts(sh: Shader, e: Env)
    requires Ready(sh, e)
    ensures Standard(e) && 0 !in e.vals && e.Has(ID_FLOAT_0, Float) && e.Has(ID_FLOAT_1, Float) && e.Has(GlslId(sh), ExtSet)
    ensures FirstBodyId(sh) > GlslId(sh) >= FIRST_VAR
  {
  }

  lemma ImmediateChecks(sh: Shader, s: Src, id: nat, e: Env) returns (f: Env)
    requires Ready(sh, e) && id >= FirstBodyId(sh) && s.kind == KIND_IMM32
    ensures Typed(CompileSrc(sh, s, id), e, id, f)
  {
    hide Check, CheckAll, Ready;
    ReadyFacts(sh, e);
    var e1 := e.Bind(id, Float);
    var e2 := e1.Bind(id + 1, Float);
    var e3 := e2.Bind(id + 2, Float);
    var e4 := e3.Bind(id + 3, Float);
    f := e4.Bind(id + 4, VEC4);
    CheckConstant(e, id, s.imm.x);
    CheckConstant(e1, id + 1, s.imm.y);
    CheckConstant(e2, id + 2, s.imm.z);
    CheckConstant(e3, id + 3, s.imm.w);
    CheckConstruct(e4, id + 4, id, id + 1, id + 2, id + 3);
    CheckChain(CompileSrc(sh, s, id).insts, [e, e1, e2, e3, e4, f]);
  }

  lemma WideningChecks(v: nat, id: nat, e: Env) returns (f: Env)
    requires Standard(e) && e.Has(ID_FLOAT_1, Float) && e.Has(v, VEC3) && v < id && ID_FLOAT_1 < id
    ensures CheckAll([Extract(id, v, 0), Extract(id + 1, v, 1), Extract(id + 2, v, 2), Construct(id + 3, id, id + 1, id + 2, ID_FLOAT_1)], e) == Some(f)
    ensures Grown(e, f, id) && f.Has(id + 3, VEC4)
  {
    hide Check, CheckAll;
    var e1 := e.Bind(id, Float);
    var e2 := e1.Bind(id + 1, Float);
    var e3 := e2.Bind(id + 2, Float);
    f := e3.Bind(id + 3, VEC4);
    CheckExtract(e, id, v, 0);
    CheckExtract(e1, id + 1, v, 1);
    CheckExtract(e2, id + 2, v, 2);
    CheckConstruct(e3, id + 3, id, id + 1, id + 2, ID_FLOAT_1);
    CheckChain([Extract(id, v, 0), Extract(id + 1, v, 1), Extract(id + 2, v, 2), Construct(id + 3, id, id + 1, id + 2, ID_FLOAT_1)],
               [e, e1, e2, e3, f]);
  }

  lemma WidenedChecks(sh: Shader, s: Src, id: nat, e: Env) returns (f: Env)
    requires Ready(sh, e) && id >= FirstBodyId(sh) && s.kind == KIND_INPUT && 0 <= s.idx0 < |sh.inputs| && sh.Widens(s.idx0)
    ensures Typed(CompileSrc(sh, s, id), e, id, f)
  {
    var v := InputVar(sh, s.idx0);
    assert e.Has(v, Ptr(STORAGE_INPUT, InputTy(sh, s.idx0)));
    hide Check, Ready;
    ReadyFacts(sh, e);
    var insts := CompileSrc(sh, s, id).insts;
    CheckLoad(e, ID_VEC3, id, v);
    f := WideningChecks(id, id + 1, e.Bind(id, VEC3));
    assert insts[1..] == [Extract(id + 1, id, 0), Extract(id + 2, id, 1), Extract(id + 3, id, 2), Construct(id + 4, id + 1, id + 2, id + 3, ID_FLOAT_1)];
  }

  lemma RegisterChecks(sh: Shader, s: Src, id: nat, e: Env) returns (f: Env)
    requires Ready(sh, e) && id >= FirstBodyId(sh) && s.kind != KIND_IMM32 && MappedSrc(sh, s)
    requires !(s.kind == KIND_INPUT && sh.Widens(s.idx0))
    ensures Typed(CompileSrc(sh, s, id), e, id, f)
  {
    var v := SrcVar(sh, s.kind, s.idx0);
    assert v in e.vals && e.vals[v].Ptr? && e.vals[v].to == VEC4;
    hide Check, CheckAll, Ready;
    ReadyFacts(sh, e);
    f := e.Bind(id, VEC4);
    CheckLoad(e, ID_VEC4, id, v);
    CheckChain(CompileSrc(sh, s, id).insts, [e, f]);
  }

  lemma SrcChecks(sh: Shader, s: Src, id: nat, e: Env) returns (f: Env)
    requires Ready(sh, e) && id >= FirstBodyId(sh)
    ensures Typed(CompileSrc(sh, s, id), e, id, f) && Ready(sh, f)
    ensures CompileSrc(sh, s, id).value != 0 <==> MappedSrc(sh, s)
  {
    hide Ready, Check;
    if s.kind == KIND_IMM32 {
      f := ImmediateChecks(sh, s, id, e);
    } else if !MappedSrc(sh, s) {
      f := e;
    } else if s.kind == KIND_INPUT && sh.Widens(s.idx0) {
      f := WidenedChecks(sh, s, id, e);
    } else {
      f := RegisterChecks(sh, s, id, e);
    }
    GrownReady(sh, e, f, id);
  }

  // ---------------------------------------------------------------- operations

  /** The operands that the operation reads are there. */
  predicate Given(op: AluOp, a: nat, b: nat, c: nat)
  {
    a != 0 && (Arity(op) >= 2 ==> b != 0) && (Arity(op) >= 3 ==> c != 0)
  }

  ghost predicate Operand(a: nat, id: nat, e: Env)
  {
    a < id && (a != 0 <==> a in e.vals) && (a != 0 ==> e.vals[a] == VEC4)
  }

  ghost predicate Setting(sh: Shader, a: nat, b: nat, c: nat, id: nat, e: Env)
  {
    Ready(sh, e) && id >= FirstBodyId(sh) && Operand(a, id, e) && Operand(b, id, e) && Operand(c, id, e)
  }

  lemma ArithChecks(sh: Shader, op: AluOp, a: nat, b: nat, c: nat, id: nat, e: Env) returns (f: Env)
    requires Setting(sh, a, b, c, id, e) && Given(op, a, b, c) && (op.Add? || op.Mul? || op.Mad?)
    ensures Typed(CompileAlu(sh, op, a, b, c, id), e, id, f)
  {
    hide Check, CheckAll, Ready;
    ReadyFacts(sh, e);
    var insts := CompileAlu(sh, op, a, b, c, id).insts;
    f := e.Bind(id, VEC4);
    CheckArith(e, if op.Add? then OP_FADD else OP_FMUL, id, a, b);
    if op.Mad? {
      f := f.Bind(id + 1, VEC4);
      CheckArith(e.Bind(id, VEC4), OP_FADD, id + 1, id, c);
      CheckChain(insts, [e, e.Bind(id, VEC4), f]);
    } else {
      CheckChain(insts, [e, f]);
    }
  }

  lemma Dot4Checks(sh: Shader, a: nat, b: nat, c: nat, id: nat, e: Env) returns (f: Env)
    requires Setting(sh, a, b, c, id, e) && Given(Dp4, a, b, c)
    ensures Typed(CompileAlu(sh, Dp4, a, b, c, id), e, id, f)
  {
    hide Check, CheckAll, Ready;
    ReadyFacts(sh, e);
    var e1 := e.Bind(id, Float);
    f := e1.Bind(id + 1, VEC4);
    CheckDot(e, id, a, b);
    CheckConstruct(e1, id + 1, id, id, id, id);
    CheckChain(CompileAlu(sh, Dp4, a, b, c, id).insts, [e, e1, f]);
  }

  lemma Dot3Checks(sh: Shader, a: nat, b: nat, c: nat, id: nat, e: Env) returns (f: Env)
    requires Setting(sh, a, b, c, id, e) && Given(Dp3, a, b, c)
    ensures Typed(CompileAlu(sh, Dp3, a, b, c, id), e, id, f)
  {
    hide Check, CheckAll, Ready;
    ReadyFacts(sh, e);
    var e1 := e.Bind(id, VEC3);
    var e2 := e1.Bind(id + 1, VEC3);
    var e3 := e2.Bind(id + 2, Float);
    f := e3.Bind(id + 3, VEC4);
    CheckTruncate(e, id, a);
    CheckTruncate(e1, id + 1, b);
    CheckDot(e2, id + 2, id, id + 1);
    CheckConstruct(e3, id + 3, id + 2, id + 2, id + 2, id + 2);
    CheckChain(CompileAlu(sh, Dp3, a, b, c, id).insts, [e, e1, e2, e3, f]);
  }

  lemma MaskChecks(id: nat, e: Env) returns (f: Env)
    requires Standard(e) && e.Has(ID_FLOAT_0, Float) && e.Has(id, BVEC4) && id > ID_FLOAT_0
    ensures CheckAll(MaskInsts(id), e) == Some(f) && Grown(e, f, id + 1) && f.Has(id + 4, VEC4)
  {
    hide Check, CheckAll;
    var e1 := e.Bind(id + 1, Float);
    var e2 := e1.Bind(id + 2, VEC4);
    var e3 := e2.Bind(id + 3, VEC4);
    f := e3.Bind(id + 4, VEC4);
    CheckConstant(e, id + 1, CMP_TRUE);
    CheckConstruct(e1, id + 2, id + 1, id + 1, id + 1, id + 1);
    CheckConstruct(e2, id + 3, ID_FLOAT_0, ID_FLOAT_0, ID_FLOAT_0, ID_FLOAT_0);
    CheckSelect(e3, id + 4, id, id + 2, id + 3);
    CheckChain(MaskInsts(id), [e, e1, e2, e3, f]);
  }

  lemma CompareChecks(sh: Shader, op: AluOp, a: nat, b: nat, c: nat, id: nat, e: Env) returns (f: Env)
    requires Setting(sh, a, b, c, id, e) && Given(op, a, b, c) && (op.Lt? || op.Ge? || op.Eq? || op.Ne?)
    ensures Typed(CompileAlu(sh, op, a, b, c, id), e, id, f)
  {
    hide Check, Ready, MaskInsts;
    ReadyFacts(sh, e);
    var insts := CompileAlu(sh, op, a, b, c, id).insts;
    CheckCompare(e, insts[0].op, id, a, b);
    f := MaskChecks(id, e.Bind(id, BVEC4));
    assert insts[1..] == MaskInsts(id);
  }

  lemma MovcChecks(sh: Shader, a: nat, b: nat, c: nat, id: nat, e: Env) returns (f: Env)
    requires Setting(sh, a, b, c, id, e) && Given(Movc, a, b, c)
    ensures Typed(CompileAlu(sh, Movc, a, b, c, id), e, id, f)
  {
    hide Check, CheckAll, Ready;
    ReadyFacts(sh, e);
    var e1 := e.Bind(id, VEC4);
    var e2 := e1.Bind(id + 1, BVEC4);
    f := e2.Bind(id + 2, VEC4);
    CheckConstruct(e, id, ID_FLOAT_0, ID_FLOAT_0, ID_FLOAT_0, ID_FLOAT_0);
    CheckCompare(e1, OP_FUNORD_NOT_EQUAL, id + 1, a, id);
    CheckSelect(e2, id + 2, id + 1, b, c);
    CheckChain(CompileAlu(sh, Movc, a, b, c, id).insts, [e, e1, e2, f]);
  }

  lemma LibraryChecks(sh: Shader, op: AluOp, a: nat, b: nat, c: nat, id: nat, e: Env) returns (f: Env)
    requires Setting(sh, a, b, c, id, e) && Given(op, a, b, c) && (op.Min? || op.Max? || op.Rsq?)
    ensures Typed(CompileAlu(sh, op, a, b, c, id), e, id, f)
  {
    hide Check, CheckAll, Ready;
    ReadyFacts(sh, e);
    f := e.Bind(id, VEC4);
    if op.Rsq? {
      CheckExt1(e, id, GlslId(sh), a);
    } else {
      CheckExt2(e, id, GlslId(sh), if op.Min? then GLSL_FMIN else GLSL_FMAX, a, b);
    }
    CheckChain(CompileAlu(sh, op, a, b, c, id).insts, [e, f]);
  }

  lemma SecondFails(insts: seq<Inst>, e: Env, f: Env)
    requires |insts| > 1 && Check(insts[0], e) == Some(f) && Check(insts[1], f).None?
    ensures CheckAll(insts, e).None?
  {
    hide Check;
    CheckFirstFails(insts[1..], f);
  }

  /** An operand that is not there breaks the rules: ID 0 has no type. */
  lemma MissingMovc(sh: Shader, a: nat, b: nat, c: nat, id: nat, e: Env)
    requires Setting(sh, a, b, c, id, e) && !Given(Movc, a, b, c)
    ensures CheckAll(CompileAlu(sh, Movc, a, b, c, id).insts, e).None?
  {
    hide Check, CheckAll, Ready;
    ReadyFacts(sh, e);
    var insts := CompileAlu(sh, Movc, a, b, c, id).insts;
    var e1 := e.Bind(id, VEC4);
    var e2 := e1.Bind(id + 1, BVEC4);
    CheckConstruct(e, id, ID_FLOAT_0, ID_FLOAT_0, ID_FLOAT_0, ID_FLOAT_0);
    CheckCompare(e1, OP_FUNORD_NOT_EQUAL, id + 1, a, id);
    CheckSelect(e2, id + 2, id + 1, b, c);
    if a == 0 {
      SecondFails(insts, e, e1);
    } else {
      SecondFails(insts[1..], e1, e2);
      CheckChain(insts[..1], [e, e1]);
      CheckAppend(insts[..1], insts[1..], e);
      assert insts == insts[..1] + insts[1..];
    }
  }

  lemma MissingPart(sh: Shader, op: AluOp, a: nat, b: nat, c: nat, id: nat, e: Env)
    requires Setting(sh, a, b, c, id, e) && !Given(op, a, b, c) && (op.Mad? || op.Dp3?)
    ensures CheckAll(CompileAlu(sh, op, a, b, c, id).insts, e).None?
  {
    hide Check, CheckAll, Ready;
    ReadyFacts(sh, e);
    var insts := CompileAlu(sh, op, a, b, c, id).insts;
    if op.Mad? {
      CheckArith(e, OP_FMUL, id, a, b);
      CheckArith(e.Bind(id, VEC4), OP_FADD, id + 1, id, c);
      if a == 0 || b == 0 {
        CheckFirstFails(insts, e);
      } else {
        SecondFails(insts, e, e.Bind(id, VEC4));
      }
    } else {
      CheckTruncate(e, id, a);
      CheckTruncate(e.Bind(id, VEC3), id + 1, b);
      if a == 0 {
        CheckFirstFails(insts, e);
      } else {
        SecondFails(insts, e, e.Bind(id, VEC3));
      }
    }
  }

  lemma MissingFirst(sh: Shader, op: AluOp, a: nat, b: nat, c: nat, id: nat, e: Env)
    requires Setting(sh, a, b, c, id, e) && !Given(op, a, b, c) && !op.Mov? && !op.Movc? && !op.Mad? && !op.Dp3?
    ensures CheckAll(CompileAlu(sh, op, a, b, c, id).insts, e).None?
  {
    hide Check, CheckAll, Ready;
    ReadyFacts(sh, e);
    var insts := CompileAlu(sh, op, a, b, c, id).insts;
    if op.Add? || op.Mul? {
      CheckArith(e, insts[0].op, id, a, b);
    } else if op.Dp4? {
      CheckDot(e, id, a, b);
    } else if op.Rsq? {
      CheckExt1(e, id, GlslId(sh), a);
    } else if op.Min? || op.Max? {
      CheckExt2(e, id, GlslId(sh), if op.Min? then GLSL_FMIN else GLSL_FMAX, a, b);
    } else {
      CheckCompare(e, insts[0].op, id, a, b);
    }
    CheckFirstFails(insts, e);
  }

  lemma AluChecks(sh: Shader, op: AluOp, a: nat, b: nat, c: nat, id: nat, e: Env) returns (f: Env)
    requires Setting(sh, a, b, c, id, e)
    ensures CheckAll(CompileAlu(sh, op, a, b, c, id).insts, e).Some? <==> op.Mov? || Given(op, a, b, c)
    ensures op.Mov? || Given(op, a, b, c) ==> Typed(CompileAlu(sh, op, a, b, c, id), e, id, f)
  {
    hide Check, Setting, Arity;
    f := e;
    if op.Mov? {
      MovChecks(sh, a, b, c, id, e);
    } else if !Given(op, a, b, c) {
      if op.Movc? {
        MissingMovc(sh, a, b, c, id, e);
      } else if op.Mad? || op.Dp3? {
        MissingPart(sh, op, a, b, c, id, e);
      } else {
        MissingFirst(sh, op, a, b, c, id, e);
      }
    } else if op.Add? || op.Mul? || op.Mad? {
      f := ArithChecks(sh, op, a, b, c, id, e);
    } else if op.Dp3? {
      f := Dot3Checks(sh, a, b, c, id, e);
    } else if op.Dp4? {
      f := Dot4Checks(sh, a, b, c, id, e);
    } else if op.Lt? || op.Ge? || op.Eq? || op.Ne? {
      f := CompareChecks(sh, op, a, b, c, id, e);
    } else if op.Movc? {
      f := MovcChecks(sh, a, b, c, id, e);
    } else {
      f := LibraryChecks(sh, op, a, b, c, id, e);
    }
  }

  lemma MovChecks(sh: Shader, a: nat, b: nat, c: nat, id: nat, e: Env)
    requires Setting(sh, a, b, c, id, e)
    ensures Typed(CompileAlu(sh, Mov, a, b, c, id), e, id, e)
  {
  }
}
