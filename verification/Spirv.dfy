/**
 SPIR-V binaries: instructions as words (section 2.3 of the SPIR-V Specification) and the meaning
 of the instructions that the shader compiler emits.
 */
module Spirv {
  import opened Sm4

  // ---------------------------------------------------------------- the word stream

  const WORD_COUNT_UNIT := 0x1_0000

  datatype Inst = Inst(op: nat, args: seq<nat>)

  function Encode(i: Inst): seq<nat>
  {
    [(1 + |i.args|) * WORD_COUNT_UNIT + i.op] + i.args
  }

  function Flatten(insts: seq<Inst>): seq<nat>
  {
    if insts == [] then [] else Encode(insts[0]) + Flatten(insts[1..])
  }

  /** Splits a stream by the word counts it declares; `None` unless they tile it exactly. */
  function Parse(words: seq<nat>): Option<seq<Inst>>
  {
    if words == [] then Some([]) else
    var n := words[0] / WORD_COUNT_UNIT;
    if n == 0 || n > |words| then None else
    match Parse(words[n..])
    case None => None
    case Some(rest) => Some([Inst(words[0] % WORD_COUNT_UNIT, words[1..n])] + rest)
  }

  predicate OpcodesFit(insts: seq<Inst>)
  {
    forall i | i in insts :: i.op < WORD_COUNT_UNIT
  }

  lemma {:induction false} ParseFlatten(insts: seq<Inst>)
    requires OpcodesFit(insts)
    ensures Parse(Flatten(insts)) == Some(insts)
  {
    if insts != [] {
      var i, rest := insts[0], insts[1..];
      ParseFlatten(rest);
      var words := Encode(i) + Flatten(rest);
      assert words[0] == (1 + |i.args|) * WORD_COUNT_UNIT + i.op;
      assert words[0] / WORD_COUNT_UNIT == 1 + |i.args| && words[0] % WORD_COUNT_UNIT == i.op;
      assert words[1..1 + |i.args|] == i.args && words[1 + |i.args|..] == Flatten(rest);
      assert insts == [i] + rest;
    }
  }

  lemma {:induction false} FlattenParse(words: seq<nat>)
    requires Parse(words).Some?
    ensures Flatten(Parse(words).value) == words
  {
    if words != [] {
      var n := words[0] / WORD_COUNT_UNIT;
      var insts := Parse(words).value;
      FlattenParse(words[n..]);
      assert insts[1..] == Parse(words[n..]).value;
      assert Encode(insts[0]) == words[..n];
    }
  }

  lemma {:induction false} FlattenAppend(a: seq<Inst>, b: seq<Inst>)
    ensures Flatten(a + b) == Flatten(a) + Flatten(b)
  {
    if a == [] {
      assert a + b == b;
    } else {
      assert (a + b)[1..] == a[1..] + b;
      FlattenAppend(a[1..], b);
    }
  }

  // ---------------------------------------------------------------- opcodes

  const OP_EXT_INST_IMPORT := 11
  const OP_EXT_INST := 12
  const OP_MEMORY_MODEL := 14
  const OP_ENTRY_POINT := 15
  const OP_EXECUTION_MODE := 16
  const OP_CAPABILITY := 17
  const OP_TYPE_VOID := 19
  const OP_TYPE_BOOL := 20
  const OP_TYPE_FLOAT := 22
  const OP_TYPE_VECTOR := 23
  const OP_TYPE_POINTER := 32
  const OP_TYPE_FUNCTION := 33
  const OP_CONSTANT := 43
  const OP_FUNCTION := 54
  const OP_FUNCTION_END := 56
  const OP_VARIABLE := 59
  const OP_LOAD := 61
  const OP_STORE := 62
  const OP_DECORATE := 71
  const OP_VECTOR_SHUFFLE := 79
  const OP_COMPOSITE_CONSTRUCT := 80
  const OP_COMPOSITE_EXTRACT := 81
  const OP_FADD := 129
  const OP_FMUL := 133
  const OP_DOT := 148
  const OP_SELECT := 169
  const OP_FORD_EQUAL := 180
  const OP_FUNORD_NOT_EQUAL := 182
  const OP_FORD_LESS_THAN := 184
  const OP_FORD_GREATER_THAN_EQUAL := 190
  const OP_LABEL := 248
  const OP_RETURN := 253

  const GLSL_INVERSE_SQRT := 32
  const GLSL_FMIN := 37
  const GLSL_FMAX := 40

  /** Module-level and structural instructions, which compute nothing. */
  predicate Declares(op: nat)
  {
    op in {OP_EXT_INST_IMPORT, OP_MEMORY_MODEL, OP_ENTRY_POINT, OP_EXECUTION_MODE, OP_CAPABILITY, OP_TYPE_VOID,
           OP_TYPE_BOOL, OP_TYPE_FLOAT, OP_TYPE_VECTOR, OP_TYPE_POINTER, OP_TYPE_FUNCTION, OP_FUNCTION,
           OP_FUNCTION_END, OP_VARIABLE, OP_DECORATE, OP_LABEL}
  }

  /** The result ID an instruction defines. */
  function Result(i: Inst): Option<nat>
  {
    if i.op in {OP_EXT_INST_IMPORT, OP_TYPE_VOID, OP_TYPE_BOOL, OP_TYPE_FLOAT, OP_TYPE_VECTOR, OP_TYPE_POINTER,
                OP_TYPE_FUNCTION, OP_LABEL} && |i.args| >= 1 then Some(i.args[0])
    else if i.op in {OP_EXT_INST, OP_CONSTANT, OP_FUNCTION, OP_VARIABLE, OP_LOAD, OP_VECTOR_SHUFFLE,
                     OP_COMPOSITE_CONSTRUCT, OP_COMPOSITE_EXTRACT, OP_FADD, OP_FMUL, OP_DOT, OP_SELECT,
                     OP_FORD_EQUAL, OP_FUNORD_NOT_EQUAL, OP_FORD_LESS_THAN, OP_FORD_GREATER_THAN_EQUAL}
              && |i.args| >= 2 then Some(i.args[1])
    else None
  }

  // ---------------------------------------------------------------- evaluation

  datatype Value = Scalar(s: Word) | V3(x: Word, y: Word, z: Word) | V4(v: Vec4) | B4(b0: bool, b1: bool, b2: bool, b3: bool)

  /** Values of result IDs, contents of variables, and whether OpReturn has been reached. */
  datatype State = State(env: map<nat, Value>, mem: map<nat, Value>, returned: bool) {
    function Bind(id: nat, v: Value): State
    {
      this.(env := env[id := v])
    }

    predicate Is4(id: nat)
    {
      id in env && env[id].V4?
    }

    predicate IsScalar(id: nat)
    {
      id in env && env[id].Scalar?
    }
  }

  /** `None` is undefined behaviour: a missing operand, a load of an unwritten variable, a type error. */
  function EvalInst(fpu: Fpu, i: Inst, s: State): Option<State>
  {
    if s.returned || Declares(i.op) then Some(s)
    else if i.op == OP_RETURN then Some(s.(returned := true))
    else if i.op == OP_STORE then
      if |i.args| == 2 && i.args[1] in s.env then Some(s.(mem := s.mem[i.args[0] := s.env[i.args[1]]])) else None
    else if |i.args| < 3 then None
    else if i.op == OP_LOAD then
      if i.args[2] in s.mem then Some(s.Bind(i.args[1], s.mem[i.args[2]])) else None
    else
      match Compute(fpu, i.op, i.args[2..], s)
      case None => None
      case Some(v) => Some(s.Bind(i.args[1], v))
  }

  /** The value of an instruction from the operands behind its type and result IDs. */
  function Compute(fpu: Fpu, op: nat, a: seq<nat>, s: State): Option<Value>
  {
    if op == OP_CONSTANT then
      if |a| == 1 && a[0] < 0x1_0000_0000 then Some(Scalar(a[0])) else None
    else if op == OP_COMPOSITE_CONSTRUCT then
      if |a| == 4 && s.IsScalar(a[0]) && s.IsScalar(a[1]) && s.IsScalar(a[2]) && s.IsScalar(a[3]) then
        Some(V4(Vec4(s.env[a[0]].s, s.env[a[1]].s, s.env[a[2]].s, s.env[a[3]].s)))
      else None
    else if op == OP_COMPOSITE_EXTRACT then
      if |a| == 2 && a[0] in s.env && s.env[a[0]].V3? && a[1] < 3 then
        var v := s.env[a[0]];
        Some(Scalar(if a[1] == 0 then v.x else if a[1] == 1 then v.y else v.z))
      else if |a| == 2 && s.Is4(a[0]) && a[1] < 4 then
        Some(Scalar(s.env[a[0]].v.Comp(a[1])))
      else None
    else if op == OP_VECTOR_SHUFFLE then
      if |a| == 5 && s.Is4(a[0]) && s.Is4(a[1]) then
        var p, q := s.env[a[0]].v, s.env[a[1]].v;
        Some(V3(ShuffleComp(p, q, a[2]), ShuffleComp(p, q, a[3]), ShuffleComp(p, q, a[4])))
      else None
    else if op == OP_DOT then
      if |a| == 2 && s.Is4(a[0]) && s.Is4(a[1]) then
        Some(Scalar(Dot4(fpu, s.env[a[0]].v, s.env[a[1]].v)))
      else if |a| == 2 && a[0] in s.env && a[1] in s.env && s.env[a[0]].V3? && s.env[a[1]].V3? then
        var p, q := s.env[a[0]], s.env[a[1]];
        Some(Scalar(Dot3(fpu, Vec4(p.x, p.y, p.z, 0), Vec4(q.x, q.y, q.z, 0))))
      else None
    else if op == OP_SELECT then
      if |a| == 3 && a[0] in s.env && s.env[a[0]].B4? && s.Is4(a[1]) && s.Is4(a[2]) then
        var c, t, f := s.env[a[0]], s.env[a[1]].v, s.env[a[2]].v;
        Some(V4(Vec4(if c.b0 then t.x else f.x, if c.b1 then t.y else f.y, if c.b2 then t.z else f.z, if c.b3 then t.w else f.w)))
      else None
    else if op == OP_EXT_INST then
      if |a| == 3 && a[1] == GLSL_INVERSE_SQRT && s.Is4(a[2]) then Some(V4(Map1(fpu.rsq, s.env[a[2]].v)))
      else if |a| == 4 && a[1] == GLSL_FMIN && s.Is4(a[2]) && s.Is4(a[3]) then
        Some(V4(Map2((x: Word, y: Word) => FMin(fpu, x, y), s.env[a[2]].v, s.env[a[3]].v)))
      else if |a| == 4 && a[1] == GLSL_FMAX && s.Is4(a[2]) && s.Is4(a[3]) then
        Some(V4(Map2((x: Word, y: Word) => FMax(fpu, x, y), s.env[a[2]].v, s.env[a[3]].v)))
      else None
    else if |a| == 2 && s.Is4(a[0]) && s.Is4(a[1]) then
      var p, q := s.env[a[0]].v, s.env[a[1]].v;
      if op == OP_FADD then Some(V4(Map2(fpu.add, p, q)))
      else if op == OP_FMUL then Some(V4(Map2(fpu.mul, p, q)))
      else if op == OP_FORD_LESS_THAN then Some(Compare(fpu.lt, p, q))
      else if op == OP_FORD_GREATER_THAN_EQUAL then Some(Compare(fpu.ge, p, q))
      else if op == OP_FORD_EQUAL then Some(Compare(fpu.eq, p, q))
      else if op == OP_FUNORD_NOT_EQUAL then Some(Compare((x: Word, y: Word) => !fpu.eq(x, y), p, q))
      else None
    else None
  }

  function ShuffleComp(p: Vec4, q: Vec4, k: nat): Word
  {
    if k < 4 then p.Comp(k) else q.Comp(k - 4)
  }

  function Compare(f: (Word, Word) -> bool, p: Vec4, q: Vec4): Value
  {
    B4(f(p.x, q.x), f(p.y, q.y), f(p.z, q.z), f(p.w, q.w))
  }

  /** FMin of GLSL.std.450: y if y < x, otherwise x. */
  function FMin(fpu: Fpu, x: Word, y: Word): Word
  {
    if fpu.lt(y, x) then y else x
  }

  /** FMax of GLSL.std.450: y if x < y, otherwise x. */
  function FMax(fpu: Fpu, x: Word, y: Word): Word
  {
    if fpu.lt(x, y) then y else x
  }

  function Eval(fpu: Fpu, insts: seq<Inst>, s: State): Option<State>
    decreases |insts|
  {
    if insts == [] then Some(s) else
    match EvalInst(fpu, insts[0], s)
    case None => None
    case Some(s') => Eval(fpu, insts[1..], s')
  }

  lemma {:induction false} EvalAppend(fpu: Fpu, a: seq<Inst>, b: seq<Inst>, s: State)
    requires Eval(fpu, a, s).Some?
    ensures Eval(fpu, a + b, s) == Eval(fpu, b, Eval(fpu, a, s).value)
    decreases |a|
  {
    hide EvalInst;
    if a == [] {
      assert a + b == b;
    } else {
      assert (a + b)[1..] == a[1..] + b;
      EvalAppend(fpu, a[1..], b, EvalInst(fpu, a[0], s).value);
    }
  }

  /** A run given by all its intermediate states. */
  lemma {:induction false} EvalChain(fpu: Fpu, insts: seq<Inst>, states: seq<State>)
    requires |states| == |insts| + 1
    requires forall k | 0 <= k < |insts| :: EvalInst(fpu, insts[k], states[k]) == Some(states[k + 1])
    ensures Eval(fpu, insts, states[0]) == Some(states[|insts|])
    decreases |insts|
  {
    hide EvalInst;
    if insts != [] {
      EvalChain(fpu, insts[1..], states[1..]);
    }
  }

  predicate AllDeclare(insts: seq<Inst>)
  {
    forall i | i in insts :: Declares(i.op)
  }

  lemma {:induction false} EvalReturned(fpu: Fpu, insts: seq<Inst>, s: State)
    requires s.returned || AllDeclare(insts)
    ensures Eval(fpu, insts, s) == Some(s)
    decreases |insts|
  {
    if insts != [] {
      EvalReturned(fpu, insts[1..], s);
    }
  }
}
