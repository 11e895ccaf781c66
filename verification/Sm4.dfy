/**
 Shader Model 4 instructions: how dxbc.c decodes tokens into operands and what one
 instruction does to the registers of the software shader VM.

 A float is its 32-bit pattern. Arithmetic on floats is a parameter (`Fpu`), so whatever is
 proved about programs holds for every choice of rounding, NaN and denormal behaviour.
 */
module Sm4 {

  const MAX_INPUTS := 8
  const MAX_OUTPUTS := 8
  const MAX_TEMPS := 32

  type Word = w: int | 0 <= w < 0x1_0000_0000

  const CMP_TRUE: Word := 0xFFFF_FFFF
  const ONE: Word := 0x3F80_0000

  /** The float operations of the host, each on bit patterns. */
  datatype Fpu = Fpu(
    add: (Word, Word) -> Word,
    mul: (Word, Word) -> Word,
    rsq: Word -> Word,
    lt: (Word, Word) -> bool,
    ge: (Word, Word) -> bool,
    eq: (Word, Word) -> bool)

  datatype Vec4 = Vec4(x: Word, y: Word, z: Word, w: Word) {
    function Comp(i: int): Word
    {
      if i == 0 then x else if i == 1 then y else if i == 2 then z else w
    }
  }

  const ZERO4 := Vec4(0, 0, 0, 0)

  function Splat(v: Word): Vec4
  {
    Vec4(v, v, v, v)
  }

  // ---------------------------------------------------------------- opcode tokens

  const OP_ADD := 0
  const OP_BREAK := 2
  const OP_BREAKC := 3
  const OP_DP3 := 16
  const OP_DP4 := 17
  const OP_ELSE := 18
  const OP_ENDIF := 21
  const OP_ENDLOOP := 22
  const OP_EQ := 24
  const OP_GE := 29
  const OP_IF := 31
  const OP_LOOP := 48
  const OP_LT := 49
  const OP_MAD := 50
  const OP_MIN := 51
  const OP_MAX := 52
  const OP_MOV := 54
  const OP_MOVC := 55
  const OP_MUL := 56
  const OP_NE := 57
  const OP_RET := 62
  const OP_RSQ := 68
  const OP_DCL_RESOURCE := 88

  function OpcodeOf(t: Word): int
  {
    t % 2048
  }

  function LengthOf(t: Word): int
  {
    t / 0x100_0000 % 128
  }

  function TestsNonZero(t: Word): bool
  {
    t / 0x4_0000 % 2 == 1
  }

  // ---------------------------------------------------------------- operands

  const KIND_TEMP := 0
  const KIND_INPUT := 1
  const KIND_OUTPUT := 2
  const KIND_IMM32 := 4
  const KIND_CB := 8

  function AsInt32(w: Word): int
  {
    if w < 0x8000_0000 then w else w - 0x1_0000_0000
  }

  /** A decoded source operand. `swizzle` is the byte of selector bits 4 to 11. */
  datatype Src = Src(kind: int, comps: int, sel: int, swizzle: int, idx0: int, idx1: int, imm: Vec4)

  datatype Dst = Dst(kind: int, idx: int, mask: int) {
    /** Whether decode_dest returns a register rather than NULL. */
    predicate Writable()
    {
      || (kind == KIND_TEMP && 0 <= idx < MAX_TEMPS)
      || (kind == KIND_OUTPUT && 0 <= idx < MAX_OUTPUTS)
    }
  }

  /** The result of reading operand words at a cursor that must stay inside the token array. */
  datatype Decoded<T> = Decoded(val: T, next: nat) | Truncated

  function IndexDims(t: Word): int
  {
    t / 0x10_0000 % 4
  }

  /** The cursor behind the operand token and its optional extension token. */
  function IndexStart(t: Word, p: nat): nat
  {
    if t >= 0x8000_0000 then p + 2 else p + 1
  }

  function DecodeSrc(code: seq<Word>, p: nat): Decoded<Src>
  {
    if p >= |code| then Truncated else
    var t := code[p];
    var dims := IndexDims(t);
    var q := IndexStart(t, p);
    if q + dims > |code| then Truncated else
    var idx0 := if dims >= 1 then AsInt32(code[q]) else 0;
    var idx1 := if dims >= 2 then AsInt32(code[q + 1]) else 0;
    var r := q + dims;
    var kind := t / 0x1000 % 256;
    var comps := t % 4;
    var src := Src(kind, comps, t / 4 % 4, t / 16 % 256, idx0, idx1, ZERO4);
    if kind == KIND_IMM32 && comps == 2 then
      if r + 4 > |code| then Truncated
      else Decoded(src.(imm := Vec4(code[r], code[r + 1], code[r + 2], code[r + 3])), r + 4)
    else if kind == KIND_IMM32 && comps == 1 then
      if r >= |code| then Truncated
      else Decoded(src.(imm := Splat(code[r])), r + 1)
    else
      Decoded(src, r)
  }

  function DecodeDst(code: seq<Word>, p: nat): Decoded<Dst>
  {
    if p >= |code| then Truncated else
    var t := code[p];
    var dims := IndexDims(t);
    var q := IndexStart(t, p);
    if q + dims > |code| then Truncated else
    var idx := if dims >= 1 then AsInt32(code[q]) else 0;
    Decoded(Dst(t / 0x1000 % 256, idx, t / 16 % 16), q + dims)
  }

  // ---------------------------------------------------------------- instructions

  datatype Option<+T> = None | Some(value: T)

  datatype AluOp =
    Mov | Add | Mul | Mad | Dp3 | Dp4 | Lt | Ge | Eq | Ne | Min | Max | Movc | Rsq

  function Arity(op: AluOp): nat
  {
    if op.Mad? || op.Movc? then 3 else if op.Mov? || op.Rsq? then 1 else 2
  }

  /**
   One instruction. `Nop` covers declarations and unsupported opcodes. Operands may run past the
   end of the token array: `Cut` has no complete destination, so nothing can be written, and
   `Garbled` has no complete source, so the C code computes with uninitialised memory.
   */
  datatype Instr =
    | Nop
    | Ret
    | Alu(op: AluOp, dst: Dst, a: Src, b: Src, c: Src)
    | If(nonZero: bool, cond: Src)
    | Else
    | Endif
    | Loop
    | Endloop
    | Break
    | Breakc(nonZero: bool, cond: Src)
    | Cut
    | Garbled(writes: bool)

  const NO_SRC := Src(-1, 0, 0, 0, 0, 0, ZERO4)

  function DecodeAlu(op: AluOp, code: seq<Word>, p: nat): Instr
  {
    match DecodeDst(code, p)
    case Truncated => Cut
    case Decoded(dst, p1) =>
      var garbled := Garbled(dst.Writable());
      match DecodeSrc(code, p1)
      case Truncated => garbled
      case Decoded(a, p2) =>
        if Arity(op) == 1 then Alu(op, dst, a, NO_SRC, NO_SRC) else
        match DecodeSrc(code, p2)
        case Truncated => garbled
        case Decoded(b, p3) =>
          if Arity(op) == 2 then Alu(op, dst, a, b, NO_SRC) else
          match DecodeSrc(code, p3)
          case Truncated => garbled
          case Decoded(c, _) => Alu(op, dst, a, b, c)
  }

  function DecodeCondition(isIf: bool, code: seq<Word>, pos: nat): Instr
    requires pos < |code|
  {
    match DecodeSrc(code, pos + 1)
    case Truncated => Garbled(true)
    case Decoded(cond, _) =>
      if isIf then If(TestsNonZero(code[pos]), cond) else Breakc(TestsNonZero(code[pos]), cond)
  }

  function AluOpOf(op: int): Option<AluOp>
  {
    if op == OP_MOV then Some(Mov)
    else if op == OP_ADD then Some(Add)
    else if op == OP_MUL then Some(Mul)
    else if op == OP_MAD then Some(Mad)
    else if op == OP_DP3 then Some(Dp3)
    else if op == OP_DP4 then Some(Dp4)
    else if op == OP_LT then Some(Lt)
    else if op == OP_GE then Some(Ge)
    else if op == OP_EQ then Some(Eq)
    else if op == OP_NE then Some(Ne)
    else if op == OP_MIN then Some(Min)
    else if op == OP_MAX then Some(Max)
    else if op == OP_MOVC then Some(Movc)
    else if op == OP_RSQ then Some(Rsq)
    else None
  }

  /** The instruction at `pos`; its length is `LengthOf(code[pos])`. */
  function Decode(code: seq<Word>, pos: nat): Instr
    requires pos < |code|
  {
    var op := OpcodeOf(code[pos]);
    if op >= OP_DCL_RESOURCE then Nop
    else if AluOpOf(op).Some? then DecodeAlu(AluOpOf(op).value, code, pos + 1)
    else if op == OP_RET then Ret
    else if op == OP_IF then DecodeCondition(true, code, pos)
    else if op == OP_ELSE then Else
    else if op == OP_ENDIF then Endif
    else if op == OP_LOOP then Loop
    else if op == OP_ENDLOOP then Endloop
    else if op == OP_BREAK then Break
    else if op == OP_BREAKC then DecodeCondition(false, code, pos)
    else Nop
  }

  // ---------------------------------------------------------------- registers

  /** struct shader_vm; a constant buffer is its floats, `None` when unbound. */
  datatype Vm = Vm(temps: seq<Vec4>, inputs: seq<Vec4>, outputs: seq<Vec4>, cb: seq<Option<seq<Word>>>) {
    predicate Valid()
    {
      && |temps| == MAX_TEMPS
      && |inputs| == MAX_INPUTS
      && |outputs| == MAX_OUTPUTS
      && |cb| == 4
    }
  }

  type Regs = vm: Vm | vm.Valid()
    witness Vm(seq(MAX_TEMPS, _ => ZERO4), seq(MAX_INPUTS, _ => ZERO4), seq(MAX_OUTPUTS, _ => ZERO4), [None, None, None, None])

  /** The float4 that an operand names, `None` for a null pointer. */
  function Named(s: Src, vm: Regs): Option<Vec4>
  {
    if s.kind == KIND_TEMP then
      if 0 <= s.idx0 < MAX_TEMPS then Some(vm.temps[s.idx0]) else None
    else if s.kind == KIND_INPUT then
      if 0 <= s.idx0 < MAX_INPUTS then Some(vm.inputs[s.idx0]) else None
    else if s.kind == KIND_OUTPUT then
      if 0 <= s.idx0 < MAX_OUTPUTS then Some(vm.outputs[s.idx0]) else None
    else if s.kind == KIND_IMM32 then
      Some(s.imm)
    else if s.kind == KIND_CB then
      if 0 <= s.idx0 < 4 && vm.cb[s.idx0].Some? && 0 <= s.idx1 && 4 * s.idx1 + 4 <= |vm.cb[s.idx0].value| then
        var f := vm.cb[s.idx0].value;
        var k := 4 * s.idx1;
        Some(Vec4(f[k], f[k + 1], f[k + 2], f[k + 3]))
      else None
    else None
  }

  /** Swizzle, select_1, scalar or whole-vector reading of a float4. */
  function Select(s: Src, v: Vec4): Vec4
  {
    if s.comps == 2 && s.sel == 1 then
      Vec4(v.Comp(s.swizzle % 4), v.Comp(s.swizzle / 4 % 4), v.Comp(s.swizzle / 16 % 4), v.Comp(s.swizzle / 64 % 4))
    else if s.comps == 2 && s.sel == 2 then
      Splat(v.Comp(s.swizzle % 4))
    else if s.comps == 1 then
      Vec4(v.x, 0, 0, 0)
    else
      v
  }

  function Read(s: Src, vm: Regs): Vec4
  {
    match Named(s, vm)
    case None => ZERO4
    case Some(v) => Select(s, v)
  }

  function Masked(mask: int, old_: Vec4, v: Vec4): Vec4
  {
    Vec4(
      if mask % 2 == 1 then v.x else old_.x,
      if mask / 2 % 2 == 1 then v.y else old_.y,
      if mask / 4 % 2 == 1 then v.z else old_.z,
      if mask / 8 % 2 == 1 then v.w else old_.w)
  }

  function Write(dst: Dst, v: Vec4, vm: Regs): Regs
  {
    if dst.kind == KIND_TEMP && 0 <= dst.idx < MAX_TEMPS then
      vm.(temps := vm.temps[dst.idx := Masked(dst.mask, vm.temps[dst.idx], v)])
    else if dst.kind == KIND_OUTPUT && 0 <= dst.idx < MAX_OUTPUTS then
      vm.(outputs := vm.outputs[dst.idx := Masked(dst.mask, vm.outputs[dst.idx], v)])
    else vm
  }

  // ---------------------------------------------------------------- arithmetic

  function Map1(f: Word -> Word, a: Vec4): Vec4
  {
    Vec4(f(a.x), f(a.y), f(a.z), f(a.w))
  }

  function Map2(f: (Word, Word) -> Word, a: Vec4, b: Vec4): Vec4
  {
    Vec4(f(a.x, b.x), f(a.y, b.y), f(a.z, b.z), f(a.w, b.w))
  }

  function Mask1(b: bool): Word
  {
    if b then CMP_TRUE else 0
  }

  function Dot3(fpu: Fpu, a: Vec4, b: Vec4): Word
  {
    fpu.add(fpu.add(fpu.mul(a.x, b.x), fpu.mul(a.y, b.y)), fpu.mul(a.z, b.z))
  }

  function Dot4(fpu: Fpu, a: Vec4, b: Vec4): Word
  {
    fpu.add(Dot3(fpu, a, b), fpu.mul(a.w, b.w))
  }

  function Smaller(fpu: Fpu, a: Word, b: Word): Word
  {
    if fpu.lt(a, b) then a else b
  }

  function Larger(fpu: Fpu, a: Word, b: Word): Word
  {
    if fpu.lt(b, a) then a else b
  }

  function Choose(c: Word, t: Word, f: Word): Word
  {
    if c != 0 then t else f
  }

  function InverseRoot(fpu: Fpu, a: Word): Word
  {
    if fpu.lt(0, a) then fpu.rsq(a) else 0
  }

  function AluResult(fpu: Fpu, op: AluOp, a: Vec4, b: Vec4, c: Vec4): Vec4
  {
    match op
    case Mov => a
    case Add => Map2(fpu.add, a, b)
    case Mul => Map2(fpu.mul, a, b)
    case Mad => Map2(fpu.add, Map2(fpu.mul, a, b), c)
    case Dp3 => Splat(Dot3(fpu, a, b))
    case Dp4 => Splat(Dot4(fpu, a, b))
    case Lt => Map2((x: Word, y: Word) => Mask1(fpu.lt(x, y)), a, b)
    case Ge => Map2((x: Word, y: Word) => Mask1(fpu.ge(x, y)), a, b)
    case Eq => Map2((x: Word, y: Word) => Mask1(fpu.eq(x, y)), a, b)
    case Ne => Map2((x: Word, y: Word) => Mask1(!fpu.eq(x, y)), a, b)
    case Min => Map2((x: Word, y: Word) => Smaller(fpu, x, y), a, b)
    case Max => Map2((x: Word, y: Word) => Larger(fpu, x, y), a, b)
    case Movc => Vec4(Choose(a.x, b.x, c.x), Choose(a.y, b.y, c.y), Choose(a.z, b.z, c.z), Choose(a.w, b.w, c.w))
    case Rsq => Map1((x: Word) => InverseRoot(fpu, x), a)
  }

  function ExecAlu(fpu: Fpu, i: Instr, vm: Regs): Regs
    requires i.Alu?
  {
    Write(i.dst, AluResult(fpu, i.op, Read(i.a, vm), Read(i.b, vm), Read(i.c, vm)), vm)
  }

  predicate Taken(nonZero: bool, cond: Src, vm: Regs)
  {
    nonZero == (Read(cond, vm).x != 0)
  }
}
