/**
 The SPIR-V that spirv_emit.c produces for a shader, as a function of the shader: the result IDs
 it hands out and the instructions it emits for every SM4 instruction.
 */
module SpirvCode {
  import opened Sm4
  import opened Spirv

  datatype Signature = Signature(register: nat, systemValue: int, mask: int)

  /** The parts of struct dxbc_info that the compiler uses. */
  datatype Shader = Shader(vertex: bool, inputs: seq<Signature>, outputs: seq<Signature>, temps: nat, code: seq<Word>) {
    predicate Valid()
    {
      |inputs| <= MAX_INPUTS && |outputs| <= MAX_OUTPUTS && temps <= MAX_TEMPS
    }

    /** Vertex input 0 declared as a vec3 position. */
    predicate Widens(reg: int)
    {
      vertex && reg == 0 && |inputs| > 0 && inputs[0].mask == 7
    }
  }

  // ---------------------------------------------------------------- result IDs

  const ID_VOID: nat := 1
  const ID_BOOL: nat := 2
  const ID_FUNC: nat := 3
  const ID_FLOAT: nat := 4
  const ID_VEC3: nat := 5
  const ID_VEC4: nat := 6
  const ID_BVEC4: nat := 7
  const ID_PTR_IN4: nat := 8
  const ID_PTR_IN3: nat := 9
  const ID_PTR_OUT4: nat := 10
  const ID_PTR_FUNC4: nat := 11
  const ID_FLOAT_0: nat := 12
  const ID_FLOAT_1: nat := 13
  const ID_MAIN: nat := 14
  const FIRST_VAR: nat := 15

  function InputVar(sh: Shader, i: nat): nat
  {
    FIRST_VAR + i
  }

  function OutputVar(sh: Shader, i: nat): nat
  {
    FIRST_VAR + |sh.inputs| + i
  }

  function TempVar(sh: Shader, i: nat): nat
  {
    FIRST_VAR + |sh.inputs| + |sh.outputs| + i
  }

  function GlslId(sh: Shader): nat
  {
    TempVar(sh, sh.temps)
  }

  function LabelId(sh: Shader): nat
  {
    GlslId(sh) + 1
  }

  function FirstBodyId(sh: Shader): nat
  {
    GlslId(sh) + 2
  }

  /** The variable of a register operand, 0 when there is none. */
  function SrcVar(sh: Shader, kind: int, idx: int): nat
  {
    if kind == KIND_INPUT && 0 <= idx < |sh.inputs| then InputVar(sh, idx) else DstVar(sh, kind, idx)
  }

  function DstVar(sh: Shader, kind: int, idx: int): nat
  {
    if kind == KIND_OUTPUT && 0 <= idx < |sh.outputs| then OutputVar(sh, idx)
    else if kind == KIND_TEMP && 0 <= idx < sh.temps then TempVar(sh, idx)
    else 0
  }

  // ---------------------------------------------------------------- instructions

  /** Emitted instructions, the ID that holds their result (0 for none), and the next free ID. */
  datatype Chunk = Chunk(insts: seq<Inst>, value: nat, next: nat)

  function Construct(id: nat, a: nat, b: nat, c: nat, d: nat): Inst
  {
    Inst(OP_COMPOSITE_CONSTRUCT, [ID_VEC4, id, a, b, c, d])
  }

  function Constant(id: nat, bits: nat): Inst
  {
    Inst(OP_CONSTANT, [ID_FLOAT, id, bits])
  }

  function Extract(id: nat, v: nat, k: nat): Inst
  {
    Inst(OP_COMPOSITE_EXTRACT, [ID_FLOAT, id, v, k])
  }

  function CompileSrc(sh: Shader, s: Src, id: nat): Chunk
  {
    if s.kind == KIND_IMM32 then
      Chunk([Constant(id, s.imm.x), Constant(id + 1, s.imm.y), Constant(id + 2, s.imm.z), Constant(id + 3, s.imm.w),
             Construct(id + 4, id, id + 1, id + 2, id + 3)], id + 4, id + 5)
    else
      var v := SrcVar(sh, s.kind, s.idx0);
      if v == 0 then Chunk([], 0, id)
      else if s.kind == KIND_INPUT && sh.Widens(s.idx0) then
        Chunk([Inst(OP_LOAD, [ID_VEC3, id, v]), Extract(id + 1, id, 0), Extract(id + 2, id, 1), Extract(id + 3, id, 2),
               Construct(id + 4, id + 1, id + 2, id + 3, ID_FLOAT_1)], id + 4, id + 5)
      else
        Chunk([Inst(OP_LOAD, [ID_VEC4, id, v])], id, id + 1)
  }

  function Binary(op: nat, id: nat, a: nat, b: nat): Chunk
  {
    Chunk([Inst(op, [ID_VEC4, id, a, b])], id, id + 1)
  }

  function Truncate3(id: nat, v: nat): Inst
  {
    Inst(OP_VECTOR_SHUFFLE, [ID_VEC3, id, v, v, 0, 1, 2])
  }

  /** Turns the bvec4 at `id` into a mask of all-ones or zero floats at `id + 4`. */
  function MaskInsts(id: nat): seq<Inst>
  {
    [Constant(id + 1, CMP_TRUE),
     Construct(id + 2, id + 1, id + 1, id + 1, id + 1),
     Construct(id + 3, ID_FLOAT_0, ID_FLOAT_0, ID_FLOAT_0, ID_FLOAT_0),
     Inst(OP_SELECT, [ID_VEC4, id + 4, id, id + 2, id + 3])]
  }

  function Comparison(op: nat, id: nat, a: nat, b: nat): Chunk
  {
    Chunk([Inst(op, [ID_BVEC4, id, a, b])] + MaskInsts(id), id + 4, id + 5)
  }

  function CompileAlu(sh: Shader, op: AluOp, a: nat, b: nat, c: nat, id: nat): Chunk
  {
    match op
    case Mov => Chunk([], a, id)
    case Add => Binary(OP_FADD, id, a, b)
    case Mul => Binary(OP_FMUL, id, a, b)
    case Mad =>
      Chunk([Inst(OP_FMUL, [ID_VEC4, id, a, b]), Inst(OP_FADD, [ID_VEC4, id + 1, id, c])], id + 1, id + 2)
    case Dp4 =>
      Chunk([Inst(OP_DOT, [ID_FLOAT, id, a, b]), Construct(id + 1, id, id, id, id)], id + 1, id + 2)
    case Dp3 =>
      Chunk([Truncate3(id, a), Truncate3(id + 1, b), Inst(OP_DOT, [ID_FLOAT, id + 2, id, id + 1]),
             Construct(id + 3, id + 2, id + 2, id + 2, id + 2)], id + 3, id + 4)
    case Lt => Comparison(OP_FORD_LESS_THAN, id, a, b)
    case Ge => Comparison(OP_FORD_GREATER_THAN_EQUAL, id, a, b)
    case Eq => Comparison(OP_FORD_EQUAL, id, a, b)
    case Ne => Comparison(OP_FUNORD_NOT_EQUAL, id, a, b)
    case Min => Chunk([Inst(OP_EXT_INST, [ID_VEC4, id, GlslId(sh), GLSL_FMIN, a, b])], id, id + 1)
    case Max => Chunk([Inst(OP_EXT_INST, [ID_VEC4, id, GlslId(sh), GLSL_FMAX, a, b])], id, id + 1)
    case Movc =>
      Chunk([Construct(id, ID_FLOAT_0, ID_FLOAT_0, ID_FLOAT_0, ID_FLOAT_0),
             Inst(OP_FUNORD_NOT_EQUAL, [ID_BVEC4, id + 1, a, id]),
             Inst(OP_SELECT, [ID_VEC4, id + 2, id + 1, b, c])], id + 2, id + 3)
    case Rsq => Chunk([Inst(OP_EXT_INST, [ID_VEC4, id, GlslId(sh), GLSL_INVERSE_SQRT, a])], id, id + 1)
  }

  /** The source operands that `op` reads. */
  function CompileSrcs(sh: Shader, i: Instr, id: nat): (Chunk, Chunk, Chunk)
    requires i.Alu?
  {
    var a := CompileSrc(sh, i.a, id);
    var b := if Arity(i.op) >= 2 then CompileSrc(sh, i.b, a.next) else Chunk([], 0, a.next);
    var c := if Arity(i.op) >= 3 then CompileSrc(sh, i.c, b.next) else Chunk([], 0, b.next);
    (a, b, c)
  }

  function StoreTo(v: nat, value: nat): seq<Inst>
  {
    if v != 0 && value != 0 then [Inst(OP_STORE, [v, value])] else []
  }

  function CompileInstr(sh: Shader, i: Instr, id: nat): Chunk
  {
    if i.Ret? then Chunk([Inst(OP_RETURN, [])], 0, id)
    else if !i.Alu? then Chunk([], 0, id)
    else
      var (a, b, c) := CompileSrcs(sh, i, id);
      var r := CompileAlu(sh, i.op, a.value, b.value, c.value, c.next);
      Chunk(a.insts + b.insts + c.insts + r.insts + StoreTo(DstVar(sh, i.dst.kind, i.dst.idx), r.value), r.value, r.next)
  }

  /** The token walk stops at the end, at a zero length, and at an instruction without operands. */
  predicate Stops(code: seq<Word>, pos: nat)
  {
    pos >= |code| || LengthOf(code[pos]) == 0 || Decode(code, pos).Cut? || Decode(code, pos).Garbled?
  }

  function CompileFrom(sh: Shader, pos: nat, id: nat): Chunk
    decreases |sh.code| - pos
  {
    if Stops(sh.code, pos) then Chunk([], 0, id) else
    var c := CompileInstr(sh, Decode(sh.code, pos), id);
    var rest := CompileFrom(sh, pos + LengthOf(sh.code[pos]), c.next);
    Chunk(c.insts + rest.insts, 0, rest.next)
  }

  // ---------------------------------------------------------------- the module

  const MAGIC := 0x0723_0203
  const VERSION := 0x0001_0000
  const RETURN_WORD := 0x1_0000 + OP_RETURN

  function Preamble(sh: Shader): seq<Inst>
  {
    [Inst(OP_CAPABILITY, [1]),
     Inst(OP_EXT_INST_IMPORT, [GlslId(sh), 0x4C53_4C47, 0x6474_732E, 0x3035_342E, 0]),
     Inst(OP_MEMORY_MODEL, [0, 1]),
     Inst(OP_ENTRY_POINT, [if sh.vertex then 0 else 4, ID_MAIN, 0x6E69_616D, 0]
                          + seq(|sh.inputs| + |sh.outputs|, k => FIRST_VAR + k))]
    + (if sh.vertex then [] else [Inst(OP_EXECUTION_MODE, [ID_MAIN, 7])])
  }

  function Decorations(sh: Shader): seq<Inst>
  {
    seq(|sh.inputs|, (i: nat) => Inst(OP_DECORATE, [FIRST_VAR + i, 30, i]))
    + seq(|sh.outputs|, (i: nat) requires i < |sh.outputs| =>
            if sh.vertex && sh.outputs[i].systemValue == 1 then Inst(OP_DECORATE, [FIRST_VAR + |sh.inputs| + i, 11, 0])
            else Inst(OP_DECORATE, [FIRST_VAR + |sh.inputs| + i, 30, sh.outputs[i].register]))
  }

  const TYPES: seq<Inst> := [
    Inst(OP_TYPE_VOID, [ID_VOID]),
    Inst(OP_TYPE_BOOL, [ID_BOOL]),
    Inst(OP_TYPE_FUNCTION, [ID_FUNC, ID_VOID]),
    Inst(OP_TYPE_FLOAT, [ID_FLOAT, 32]),
    Inst(OP_TYPE_VECTOR, [ID_VEC3, ID_FLOAT, 3]),
    Inst(OP_TYPE_VECTOR, [ID_VEC4, ID_FLOAT, 4]),
    Inst(OP_TYPE_VECTOR, [ID_BVEC4, ID_BOOL, 4]),
    Inst(OP_TYPE_POINTER, [ID_PTR_IN4, 1, ID_VEC4]),
    Inst(OP_TYPE_POINTER, [ID_PTR_IN3, 1, ID_VEC3]),
    Inst(OP_TYPE_POINTER, [ID_PTR_OUT4, 3, ID_VEC4]),
    Inst(OP_TYPE_POINTER, [ID_PTR_FUNC4, 7, ID_VEC4])]

  const CONSTANTS: seq<Inst> := [Constant(ID_FLOAT_0, 0), Constant(ID_FLOAT_1, ONE)]

  function Variables(sh: Shader): seq<Inst>
  {
    seq(|sh.inputs|, (i: nat) => Inst(OP_VARIABLE, [if sh.Widens(i) then ID_PTR_IN3 else ID_PTR_IN4, FIRST_VAR + i, 1]))
    + seq(|sh.outputs|, (i: nat) => Inst(OP_VARIABLE, [ID_PTR_OUT4, FIRST_VAR + |sh.inputs| + i, 3]))
  }

  function FunctionHead(sh: Shader): seq<Inst>
  {
    [Inst(OP_FUNCTION, [ID_VOID, ID_MAIN, 0, ID_FUNC]), Inst(OP_LABEL, [LabelId(sh)])]
    + seq(sh.temps, (i: nat) => Inst(OP_VARIABLE, [ID_PTR_FUNC4, FIRST_VAR + |sh.inputs| + |sh.outputs| + i, 7]))
  }

  /** Everything before the translated instructions. */
  function Prologue(sh: Shader): seq<Inst>
  {
    Preamble(sh) + Decorations(sh) + TYPES + CONSTANTS + Variables(sh) + FunctionHead(sh)
  }

  function Body(sh: Shader): Chunk
  {
    CompileFrom(sh, 2, FirstBodyId(sh))
  }

  predicate EndsInReturnWord(insts: seq<Inst>)
  {
    var words := Flatten(insts);
    words != [] && words[|words| - 1] == RETURN_WORD
  }

  /** An OpReturn unless the last word already looks like one, and the end of the function. */
  function Ending(insts: seq<Inst>): seq<Inst>
  {
    (if EndsInReturnWord(insts) then [] else [Inst(OP_RETURN, [])]) + [Inst(OP_FUNCTION_END, [])]
  }

  function Module(sh: Shader): seq<Inst>
  {
    var insts := Prologue(sh) + Body(sh).insts;
    insts + Ending(insts)
  }

  function Header(bound: nat): seq<nat>
  {
    [MAGIC, VERSION, 0, bound, 0]
  }

  /** The binary when it fits the buffer. */
  function Words(sh: Shader): seq<nat>
  {
    Header(Body(sh).next) + Flatten(Module(sh))
  }
}
