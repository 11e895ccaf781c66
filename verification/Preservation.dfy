/**
 The compiler preserves meaning: evaluating the SPIR-V emitted for a straight-line shader leaves
 in every written output what the software VM leaves there.
 */
module Preservation {
  import opened Sm4
  import opened ShaderVm
  import opened Spirv
  import opened SpirvCode
  import opened SpirvFormat

  // ---------------------------------------------------------------- what the compiler leaves out

  /** A source operand that names a whole vector: the compiler ignores every other selection. */
  predicate PlainRead(s: Src)
  {
    && s.comps != 1
    && (s.comps == 2 && s.sel == 1 ==> s.swizzle == 0xE4)
    && !(s.comps == 2 && s.sel == 2)
  }

  lemma PlainReadIsExact(s: Src)
    requires 0 <= s.swizzle < 256
    ensures PlainRead(s) <==> forall v: Vec4 :: Select(s, v) == v
  {
    if forall v: Vec4 :: Select(s, v) == v {
      assert Select(s, Vec4(1, 2, 3, 4)) == Vec4(1, 2, 3, 4);
    }
  }

  lemma FullMaskIsExact(mask: int)
    requires 0 <= mask < 16
    ensures mask == 15 <==> forall u: Vec4, v: Vec4 :: Masked(mask, u, v) == v
  {
    if forall u: Vec4, v: Vec4 :: Masked(mask, u, v) == v {
      assert Masked(mask, ZERO4, Splat(1)) == Splat(1);
    }
  }

  /** Comparison tells any two different floats apart, as it does without NaN and signed zero. */
  ghost predicate Separates(fpu: Fpu)
  {
    forall x: Word, y: Word :: x != y ==> fpu.lt(x, y) != fpu.lt(y, x)
  }

  /** The only float equal to zero is the all-zero pattern: false where -0.0 exists. */
  ghost predicate ZeroIsUnique(fpu: Fpu)
  {
    forall x: Word :: fpu.eq(x, 0) <==> x == 0
  }

  ghost predicate RootOfNonPositiveIsZero(fpu: Fpu)
  {
    forall x: Word :: !fpu.lt(0, x) ==> fpu.rsq(x) == 0
  }

  lemma MinMaxAgreement(fpu: Fpu)
    ensures Separates(fpu) <==> forall x: Word, y: Word :: Smaller(fpu, x, y) == FMin(fpu, x, y)
    ensures Separates(fpu) <==> forall x: Word, y: Word :: Larger(fpu, x, y) == FMax(fpu, x, y)
  {
    if forall x: Word, y: Word :: Smaller(fpu, x, y) == FMin(fpu, x, y) {
      forall x: Word, y: Word | x != y
        ensures fpu.lt(x, y) != fpu.lt(y, x)
      {
        assert Smaller(fpu, x, y) == FMin(fpu, x, y);
      }
    }
    if forall x: Word, y: Word :: Larger(fpu, x, y) == FMax(fpu, x, y) {
      forall x: Word, y: Word | x != y
        ensures fpu.lt(x, y) != fpu.lt(y, x)
      {
        assert Larger(fpu, x, y) == FMax(fpu, x, y);
      }
    }
  }

  /** MOVC tests bits in the VM and compares with zero in the compiled code. */
  lemma MovcAgreement(fpu: Fpu)
    ensures ZeroIsUnique(fpu) <==>
      forall c: Word, t: Word, f: Word :: Choose(c, t, f) == if !fpu.eq(c, 0) then t else f
  {
    if forall c: Word, t: Word, f: Word :: Choose(c, t, f) == if !fpu.eq(c, 0) then t else f {
      forall x: Word
        ensures fpu.eq(x, 0) <==> x == 0
      {
        assert Choose(x, 1, 2) == if !fpu.eq(x, 0) then 1 else 2;
      }
    }
  }

  /** RSQ is guarded in the VM and bare in the compiled code. */
  lemma RsqAgreement(fpu: Fpu)
    ensures RootOfNonPositiveIsZero(fpu) <==> forall x: Word :: InverseRoot(fpu, x) == fpu.rsq(x)
  {
    if forall x: Word :: InverseRoot(fpu, x) == fpu.rsq(x) {
      forall x: Word | !fpu.lt(0, x)
        ensures fpu.rsq(x) == 0
      {
        assert InverseRoot(fpu, x) == fpu.rsq(x);
      }
    }
  }

  /** What each operation asks of the float arithmetic; most ask nothing. */
  ghost predicate Sound(fpu: Fpu, op: AluOp)
  {
    && (op.Min? || op.Max? ==> Separates(fpu))
    && (op.Movc? ==> ZeroIsUnique(fpu))
    && (op.Rsq? ==> RootOfNonPositiveIsZero(fpu))
  }

  // ---------------------------------------------------------------- the fragment

  /** Registers written so far. */
  datatype Written = Written(temps: set<int>, outputs: set<int>)

  predicate Readable(sh: Shader, s: Src, w: Written)
  {
    && PlainRead(s)
    && (|| s.kind == KIND_IMM32
        || (s.kind == KIND_INPUT && 0 <= s.idx0 < |sh.inputs|)
        || (s.kind == KIND_TEMP && s.idx0 in w.temps)
        || (s.kind == KIND_OUTPUT && s.idx0 in w.outputs))
  }

  predicate Storable(sh: Shader, d: Dst)
  {
    && d.mask == 15
    && (|| (d.kind == KIND_TEMP && 0 <= d.idx < sh.temps)
        || (d.kind == KIND_OUTPUT && 0 <= d.idx < |sh.outputs|))
  }

  ghost predicate Translatable(fpu: Fpu, sh: Shader, i: Instr, w: Written)
    requires i.Alu?
  {
    && Sound(fpu, i.op)
    && Storable(sh, i.dst)
    && Readable(sh, i.a, w)
    && (Arity(i.op) >= 2 ==> Readable(sh, i.b, w))
    && (Arity(i.op) >= 3 ==> Readable(sh, i.c, w))
  }

  function Writes(w: Written, d: Dst): Written
  {
    if d.kind == KIND_TEMP then w.(temps := w.temps + {d.idx})
    else w.(outputs := w.outputs + {d.idx})
  }

  /** The tokens from `pos` on are straight-line code up to a RET or the end. */
  ghost predicate StraightLine(fpu: Fpu, sh: Shader, pos: nat, w: Written)
    decreases |sh.code| - pos
  {
    pos >= |sh.code| || LengthOf(sh.code[pos]) == 0 ||
    var i := Decode(sh.code, pos);
    var next := pos + LengthOf(sh.code[pos]);
    || i.Ret?
    || (i.Nop? && StraightLine(fpu, sh, next, w))
    || (i.Alu? && Translatable(fpu, sh, i, w) && StraightLine(fpu, sh, next, Writes(w, i.dst)))
  }

  /** The registers that straight-line code has written when it ends. */
  function WrittenBy(sh: Shader, pos: nat, w: Written): Written
    decreases |sh.code| - pos
  {
    if pos >= |sh.code| || LengthOf(sh.code[pos]) == 0 then w else
    var i := Decode(sh.code, pos);
    var next := pos + LengthOf(sh.code[pos]);
    if i.Ret? then w
    else if i.Alu? then WrittenBy(sh, next, Writes(w, i.dst))
    else WrittenBy(sh, next, w)
  }

  // ---------------------------------------------------------------- relating the two machines

  function InputValue(sh: Shader, vm: Regs, i: nat): Value
    requires i < MAX_INPUTS
  {
    var v := vm.inputs[i];
    if sh.Widens(i) then V3(v.x, v.y, v.z) else V4(v)
  }

  predicate InRange(sh: Shader, w: Written)
  {
    && sh.Valid()
    && (forall i | i in w.temps :: 0 <= i < sh.temps)
    && (forall i | i in w.outputs :: 0 <= i < |sh.outputs|)
  }

  ghost predicate RegsAgree(sh: Shader, mem: map<nat, Value>, vm: Regs, w: Written)
    requires InRange(sh, w)
  {
    && (forall i: nat | i < |sh.inputs| :: InputVar(sh, i) in mem && mem[InputVar(sh, i)] == InputValue(sh, vm, i))
    && (forall i: nat | i in w.temps :: TempVar(sh, i) in mem && mem[TempVar(sh, i)] == V4(vm.temps[i]))
    && (forall i: nat | i in w.outputs :: OutputVar(sh, i) in mem && mem[OutputVar(sh, i)] == V4(vm.outputs[i]))
  }

  predicate HasConstants(s: State)
  {
    && ID_FLOAT_0 in s.env && s.env[ID_FLOAT_0] == Scalar(0)
    && ID_FLOAT_1 in s.env && s.env[ID_FLOAT_1] == Scalar(ONE)
  }

  ghost predicate Agree(sh: Shader, s: State, vm: Regs, w: Written)
  {
    && InRange(sh, w)
    && HasConstants(s)
    && RegsAgree(sh, s.mem, vm, w)
    && (sh.Widens(0) ==> vm.inputs[0].w == ONE)
  }

  /** `t` differs from `s` only in IDs that were free at `id`. */
  ghost predicate Extends(s: State, t: State, id: nat)
  {
    && t.mem == s.mem && t.returned == s.returned
    && forall k | k in s.env && k < id :: k in t.env && t.env[k] == s.env[k]
  }

  ghost predicate Computes(fpu: Fpu, c: Chunk, s: State, id: nat, v: Vec4)
  {
    var r := Eval(fpu, c.insts, s);
    && r.Some?
    && Extends(s, r.value, id)
    && 0 < c.value < c.next && id <= c.next
    && r.value.Is4(c.value) && r.value.env[c.value].v == v
  }

  // ---------------------------------------------------------------- single instructions

  lemma EvalConstant(fpu: Fpu, id: nat, bits: Word, s: State)
    requires !s.returned
    ensures EvalInst(fpu, Constant(id, bits), s) == Some(s.Bind(id, Scalar(bits)))
  {
    assert Constant(id, bits).args[2..] == [bits];
  }

  lemma EvalConstruct(fpu: Fpu, id: nat, a: nat, b: nat, c: nat, d: nat, s: State)
    requires !s.returned && s.IsScalar(a) && s.IsScalar(b) && s.IsScalar(c) && s.IsScalar(d)
    ensures EvalInst(fpu, Construct(id, a, b, c, d), s)
         == Some(s.Bind(id, V4(Vec4(s.env[a].s, s.env[b].s, s.env[c].s, s.env[d].s))))
  {
    assert Construct(id, a, b, c, d).args[2..] == [a, b, c, d];
  }

  lemma EvalLoad(fpu: Fpu, ty: nat, id: nat, v: nat, s: State)
    requires !s.returned && v in s.mem
    ensures EvalInst(fpu, Inst(OP_LOAD, [ty, id, v]), s) == Some(s.Bind(id, s.mem[v]))
  {
  }

  lemma EvalExtract(fpu: Fpu, id: nat, v: nat, k: nat, s: State)
    requires !s.returned && v in s.env && s.env[v].V3? && k < 3
    ensures EvalInst(fpu, Extract(id, v, k), s)
         == Some(s.Bind(id, Scalar(if k == 0 then s.env[v].x else if k == 1 then s.env[v].y else s.env[v].z)))
  {
    assert Extract(id, v, k).args[2..] == [v, k];
  }

  lemma EvalTruncate(fpu: Fpu, id: nat, v: nat, s: State)
    requires !s.returned && s.Is4(v)
    ensures EvalInst(fpu, Truncate3(id, v), s) == Some(s.Bind(id, V3(s.env[v].v.x, s.env[v].v.y, s.env[v].v.z)))
  {
    assert Truncate3(id, v).args[2..] == [v, v, 0, 1, 2];
  }

  lemma EvalSelect(fpu: Fpu, id: nat, c: nat, t: nat, f: nat, s: State)
    requires !s.returned && c in s.env && s.env[c].B4? && s.Is4(t) && s.Is4(f)
    ensures
      var b, p, q := s.env[c], s.env[t].v, s.env[f].v;
      EvalInst(fpu, Inst(OP_SELECT, [ID_VEC4, id, c, t, f]), s) == Some(s.Bind(id,
        V4(Vec4(if b.b0 then p.x else q.x, if b.b1 then p.y else q.y, if b.b2 then p.z else q.z, if b.b3 then p.w else q.w))))
  {
    assert Inst(OP_SELECT, [ID_VEC4, id, c, t, f]).args[2..] == [c, t, f];
  }

  /** Opcodes that define a value from values. */
  predicate Computing(op: nat)
  {
    !Declares(op) && op != OP_RETURN && op != OP_STORE && op != OP_LOAD
  }

  /** Two-operand instructions on vectors, given what they compute. */
  lemma EvalBinary(fpu: Fpu, op: nat, ty: nat, id: nat, a: nat, b: nat, s: State, v: Value)
    requires !s.returned && Computing(op)
    requires Compute(fpu, op, [a, b], s) == Some(v)
    ensures EvalInst(fpu, Inst(op, [ty, id, a, b]), s) == Some(s.Bind(id, v))
  {
    hide Compute;
    assert Inst(op, [ty, id, a, b]).args[2..] == [a, b];
  }

  lemma EvalDot3(fpu: Fpu, id: nat, ia: nat, ib: nat, s: State, a: Vec4, b: Vec4)
    requires !s.returned && ia in s.env && s.env[ia] == V3(a.x, a.y, a.z) && ib in s.env && s.env[ib] == V3(b.x, b.y, b.z)
    ensures EvalInst(fpu, Inst(OP_DOT, [ID_FLOAT, id, ia, ib]), s) == Some(s.Bind(id, Scalar(Dot3(fpu, a, b))))
  {
    hide EvalInst;
    EvalBinary(fpu, OP_DOT, ID_FLOAT, id, ia, ib, s, Scalar(Dot3(fpu, a, b)));
  }

  lemma EvalArith(fpu: Fpu, op: nat, id: nat, ia: nat, ib: nat, s: State)
    requires !s.returned && s.Is4(ia) && s.Is4(ib) && (op == OP_FADD || op == OP_FMUL)
    ensures EvalInst(fpu, Inst(op, [ID_VEC4, id, ia, ib]), s)
         == Some(s.Bind(id, V4(Map2(if op == OP_FADD then fpu.add else fpu.mul, s.env[ia].v, s.env[ib].v))))
  {
    hide EvalInst;
    EvalBinary(fpu, op, ID_VEC4, id, ia, ib, s, V4(Map2(if op == OP_FADD then fpu.add else fpu.mul, s.env[ia].v, s.env[ib].v)));
  }

  lemma EvalNotEqual(fpu: Fpu, id: nat, ia: nat, ib: nat, s: State)
    requires !s.returned && s.Is4(ia) && s.Is4(ib)
    ensures
      var p, q := s.env[ia].v, s.env[ib].v;
      EvalInst(fpu, Inst(OP_FUNORD_NOT_EQUAL, [ID_BVEC4, id, ia, ib]), s)
      == Some(s.Bind(id, B4(!fpu.eq(p.x, q.x), !fpu.eq(p.y, q.y), !fpu.eq(p.z, q.z), !fpu.eq(p.w, q.w))))
  {
    hide EvalInst;
    EvalBinary(fpu, OP_FUNORD_NOT_EQUAL, ID_BVEC4, id, ia, ib, s,
               Compare((x: Word, y: Word) => !fpu.eq(x, y), s.env[ia].v, s.env[ib].v));
  }

  lemma EvalExt(fpu: Fpu, id: nat, set_: nat, op: nat, args: seq<nat>, s: State, v: Value)
    requires !s.returned && Compute(fpu, OP_EXT_INST, [set_, op] + args, s) == Some(v)
    ensures EvalInst(fpu, Inst(OP_EXT_INST, [ID_VEC4, id, set_, op] + args), s) == Some(s.Bind(id, v))
  {
    hide Compute;
    assert Inst(OP_EXT_INST, [ID_VEC4, id, set_, op] + args).args[2..] == [set_, op] + args;
  }

  // ---------------------------------------------------------------- source operands

  lemma ImmediateComputes(fpu: Fpu, sh: Shader, src: Src, s: State, id: nat)
    requires src.kind == KIND_IMM32 && !s.returned && id >= FIRST_VAR
    ensures Computes(fpu, CompileSrc(sh, src, id), s, id, src.imm)
  {
    hide EvalInst, Eval, Declares;
    var v := src.imm;
    var s1 := s.Bind(id, Scalar(v.x));
    var s2 := s1.Bind(id + 1, Scalar(v.y));
    var s3 := s2.Bind(id + 2, Scalar(v.z));
    var s4 := s3.Bind(id + 3, Scalar(v.w));
    var s5 := s4.Bind(id + 4, V4(v));
    EvalConstant(fpu, id, v.x, s);
    EvalConstant(fpu, id + 1, v.y, s1);
    EvalConstant(fpu, id + 2, v.z, s2);
    EvalConstant(fpu, id + 3, v.w, s3);
    EvalConstruct(fpu, id + 4, id, id + 1, id + 2, id + 3, s4);
    EvalChain(fpu, CompileSrc(sh, src, id).insts, [s, s1, s2, s3, s4, s5]);
  }

  lemma WidenedComputes(fpu: Fpu, sh: Shader, src: Src, s: State, vm: Regs, id: nat)
    requires src.kind == KIND_INPUT && sh.Widens(src.idx0) && sh.Valid() && !s.returned && id >= FIRST_VAR
    requires HasConstants(s) && vm.inputs[0].w == ONE
    requires FIRST_VAR in s.mem && s.mem[FIRST_VAR] == InputValue(sh, vm, 0)
    ensures Computes(fpu, CompileSrc(sh, src, id), s, id, vm.inputs[0])
  {
    hide EvalInst, Eval, Declares;
    var v := vm.inputs[0];
    var s1 := s.Bind(id, V3(v.x, v.y, v.z));
    var s2 := s1.Bind(id + 1, Scalar(v.x));
    var s3 := s2.Bind(id + 2, Scalar(v.y));
    var s4 := s3.Bind(id + 3, Scalar(v.z));
    var s5 := s4.Bind(id + 4, V4(v));
    EvalLoad(fpu, ID_VEC3, id, FIRST_VAR, s);
    EvalExtract(fpu, id + 1, id, 0, s1);
    EvalExtract(fpu, id + 2, id, 1, s2);
    EvalExtract(fpu, id + 3, id, 2, s3);
    EvalConstruct(fpu, id + 4, id + 1, id + 2, id + 3, ID_FLOAT_1, s4);
    EvalChain(fpu, CompileSrc(sh, src, id).insts, [s, s1, s2, s3, s4, s5]);
  }

  lemma LoadComputes(fpu: Fpu, sh: Shader, src: Src, s: State, id: nat, v: Vec4)
    requires src.kind != KIND_IMM32 && !(src.kind == KIND_INPUT && sh.Widens(src.idx0)) && !s.returned && id >= FIRST_VAR
    requires var x := SrcVar(sh, src.kind, src.idx0); x != 0 && x in s.mem && s.mem[x] == V4(v)
    ensures Computes(fpu, CompileSrc(sh, src, id), s, id, v)
  {
    hide EvalInst, Eval, Declares;
    EvalLoad(fpu, ID_VEC4, id, SrcVar(sh, src.kind, src.idx0), s);
    EvalChain(fpu, CompileSrc(sh, src, id).insts, [s, s.Bind(id, V4(v))]);
  }

  lemma SourceComputes(fpu: Fpu, sh: Shader, src: Src, s: State, vm: Regs, w: Written, id: nat)
    requires Agree(sh, s, vm, w) && Readable(sh, src, w) && !s.returned && id >= FIRST_VAR
    ensures Computes(fpu, CompileSrc(sh, src, id), s, id, Read(src, vm))
  {
    hide Computes, CompileSrc;
    if src.kind == KIND_IMM32 {
      ImmediateComputes(fpu, sh, src, s, id);
    } else if src.kind == KIND_INPUT && sh.Widens(src.idx0) {
      assert InputVar(sh, 0) == FIRST_VAR;
      WidenedComputes(fpu, sh, src, s, vm, id);
    } else if src.kind == KIND_INPUT {
      assert InputVar(sh, src.idx0) in s.mem;
      LoadComputes(fpu, sh, src, s, id, vm.inputs[src.idx0]);
    } else if src.kind == KIND_TEMP {
      assert TempVar(sh, src.idx0) in s.mem;
      LoadComputes(fpu, sh, src, s, id, vm.temps[src.idx0]);
    } else {
      assert OutputVar(sh, src.idx0) in s.mem;
      LoadComputes(fpu, sh, src, s, id, vm.outputs[src.idx0]);
    }
  }

  // ---------------------------------------------------------------- operations

  /** The IDs of the operands that `op` reads hold `a`, `b` and `c`. */
  ghost predicate Operands(s: State, op: AluOp, ia: nat, ib: nat, ic: nat, id: nat, a: Vec4, b: Vec4, c: Vec4)
  {
    && !s.returned && HasConstants(s) && id >= FIRST_VAR
    && 0 < ia < id && s.Is4(ia) && s.env[ia].v == a
    && (Arity(op) >= 2 ==> 0 < ib < id && s.Is4(ib) && s.env[ib].v == b)
    && (Arity(op) >= 3 ==> 0 < ic < id && s.Is4(ic) && s.env[ic].v == c)
  }

  lemma MaskComputes(fpu: Fpu, s: State, id: nat, b: Value)
    requires b.B4? && id in s.env && s.env[id] == b && !s.returned && HasConstants(s) && id >= FIRST_VAR
    ensures Computes(fpu, Chunk(MaskInsts(id), id + 4, id + 5), s, id + 1, Vec4(Mask1(b.b0), Mask1(b.b1), Mask1(b.b2), Mask1(b.b3)))
  {
    hide EvalInst, Eval;
    var r := Vec4(Mask1(b.b0), Mask1(b.b1), Mask1(b.b2), Mask1(b.b3));
    var s2 := s.Bind(id + 1, Scalar(CMP_TRUE));
    var s3 := s2.Bind(id + 2, V4(Splat(CMP_TRUE)));
    var s4 := s3.Bind(id + 3, V4(ZERO4));
    var s5 := s4.Bind(id + 4, V4(r));
    EvalConstant(fpu, id + 1, CMP_TRUE, s);
    EvalConstruct(fpu, id + 2, id + 1, id + 1, id + 1, id + 1, s2);
    EvalConstruct(fpu, id + 3, ID_FLOAT_0, ID_FLOAT_0, ID_FLOAT_0, ID_FLOAT_0, s3);
    EvalSelect(fpu, id + 4, id, id + 2, id + 3, s4);
    EvalChain(fpu, MaskInsts(id), [s, s2, s3, s4, s5]);
  }

  lemma ComparisonComputes(fpu: Fpu, op: nat, f: (Word, Word) -> bool, s: State, ia: nat, ib: nat, id: nat, a: Vec4, b: Vec4)
    requires !s.returned && HasConstants(s) && id >= FIRST_VAR && Computing(op)
    requires Compute(fpu, op, [ia, ib], s) == Some(Compare(f, a, b))
    ensures Computes(fpu, Comparison(op, id, ia, ib), s, id, Map2((x: Word, y: Word) => Mask1(f(x, y)), a, b))
  {
    hide EvalInst, Eval, Compute, Computing, MaskInsts;
    var s1 := s.Bind(id, Compare(f, a, b));
    EvalBinary(fpu, op, ID_BVEC4, id, ia, ib, s, Compare(f, a, b));
    EvalChain(fpu, [Inst(op, [ID_BVEC4, id, ia, ib])], [s, s1]);
    MaskComputes(fpu, s1, id, Compare(f, a, b));
    EvalAppend(fpu, [Inst(op, [ID_BVEC4, id, ia, ib])], MaskInsts(id), s);
  }

  lemma SingleComputes(fpu: Fpu, i: Inst, s: State, id: nat, v: Vec4)
    requires EvalInst(fpu, i, s) == Some(s.Bind(id, V4(v))) && id > 0
    ensures Computes(fpu, Chunk([i], id, id + 1), s, id, v)
  {
    hide EvalInst;
    EvalChain(fpu, [i], [s, s.Bind(id, V4(v))]);
  }

  lemma BinaryComputes(fpu: Fpu, op: nat, s: State, ia: nat, ib: nat, id: nat, v: Vec4)
    requires Computing(op) && !s.returned && id > 0 && Compute(fpu, op, [ia, ib], s) == Some(V4(v))
    ensures Computes(fpu, Binary(op, id, ia, ib), s, id, v)
  {
    hide EvalInst, Compute, Computing, Computes;
    EvalBinary(fpu, op, ID_VEC4, id, ia, ib, s, V4(v));
    SingleComputes(fpu, Inst(op, [ID_VEC4, id, ia, ib]), s, id, v);
  }

  lemma MadComputes(fpu: Fpu, sh: Shader, s: State, ia: nat, ib: nat, ic: nat, id: nat, a: Vec4, b: Vec4, c: Vec4)
    requires Operands(s, Mad, ia, ib, ic, id, a, b, c)
    ensures Computes(fpu, CompileAlu(sh, Mad, ia, ib, ic, id), s, id, AluResult(fpu, Mad, a, b, c))
  {
    hide EvalInst, Eval;
    var p := Map2(fpu.mul, a, b);
    var s1 := s.Bind(id, V4(p));
    var s2 := s1.Bind(id + 1, V4(Map2(fpu.add, p, c)));
    EvalArith(fpu, OP_FMUL, id, ia, ib, s);
    EvalArith(fpu, OP_FADD, id + 1, id, ic, s1);
    EvalChain(fpu, CompileAlu(sh, Mad, ia, ib, ic, id).insts, [s, s1, s2]);
  }

  lemma Dp4Computes(fpu: Fpu, sh: Shader, s: State, ia: nat, ib: nat, id: nat, a: Vec4, b: Vec4)
    requires Operands(s, Dp4, ia, ib, 0, id, a, b, ZERO4)
    ensures Computes(fpu, CompileAlu(sh, Dp4, ia, ib, 0, id), s, id, Splat(Dot4(fpu, a, b)))
  {
    hide EvalInst, Eval;
    var d := Dot4(fpu, a, b);
    var s1 := s.Bind(id, Scalar(d));
    EvalBinary(fpu, OP_DOT, ID_FLOAT, id, ia, ib, s, Scalar(d));
    EvalConstruct(fpu, id + 1, id, id, id, id, s1);
    EvalChain(fpu, CompileAlu(sh, Dp4, ia, ib, 0, id).insts, [s, s1, s1.Bind(id + 1, V4(Splat(d)))]);
  }

  /** The dot product of the vec3s at `ia` and `ib`, spread over a vec4. */
  lemma DotSpreads(fpu: Fpu, s: State, ia: nat, ib: nat, id: nat, a: Vec4, b: Vec4)
    requires !s.returned && ia in s.env && s.env[ia] == V3(a.x, a.y, a.z) && ib in s.env && s.env[ib] == V3(b.x, b.y, b.z)
    ensures
      var insts := [Inst(OP_DOT, [ID_FLOAT, id, ia, ib]), Construct(id + 1, id, id, id, id)];
      Eval(fpu, insts, s) == Some(s.Bind(id, Scalar(Dot3(fpu, a, b))).Bind(id + 1, V4(Splat(Dot3(fpu, a, b)))))
  {
    hide EvalInst, Eval, Dot3;
    var s1 := s.Bind(id, Scalar(Dot3(fpu, a, b)));
    EvalDot3(fpu, id, ia, ib, s, a, b);
    EvalConstruct(fpu, id + 1, id, id, id, id, s1);
    EvalChain(fpu, [Inst(OP_DOT, [ID_FLOAT, id, ia, ib]), Construct(id + 1, id, id, id, id)],
              [s, s1, s1.Bind(id + 1, V4(Splat(Dot3(fpu, a, b))))]);
  }

  lemma Dp3Computes(fpu: Fpu, sh: Shader, s: State, ia: nat, ib: nat, id: nat, a: Vec4, b: Vec4)
    requires Operands(s, Dp3, ia, ib, 0, id, a, b, ZERO4)
    ensures Computes(fpu, CompileAlu(sh, Dp3, ia, ib, 0, id), s, id, Splat(Dot3(fpu, a, b)))
  {
    hide EvalInst, Eval, Dot3;
    var s1 := s.Bind(id, V3(a.x, a.y, a.z));
    var s2 := s1.Bind(id + 1, V3(b.x, b.y, b.z));
    var shuffles := [Truncate3(id, ia), Truncate3(id + 1, ib)];
    var tail := [Inst(OP_DOT, [ID_FLOAT, id + 2, id, id + 1]), Construct(id + 3, id + 2, id + 2, id + 2, id + 2)];
    EvalTruncate(fpu, id, ia, s);
    EvalTruncate(fpu, id + 1, ib, s1);
    EvalChain(fpu, shuffles, [s, s1, s2]);
    DotSpreads(fpu, s2, id, id + 1, id + 2, a, b);
    EvalAppend(fpu, shuffles, tail, s);
    assert CompileAlu(sh, Dp3, ia, ib, 0, id).insts == shuffles + tail;
  }

  lemma MovcByComparison(fpu: Fpu, a: Vec4, b: Vec4, c: Vec4)
    requires ZeroIsUnique(fpu)
    ensures AluResult(fpu, Movc, a, b, c) == Vec4(
      if !fpu.eq(a.x, 0) then b.x else c.x,
      if !fpu.eq(a.y, 0) then b.y else c.y,
      if !fpu.eq(a.z, 0) then b.z else c.z,
      if !fpu.eq(a.w, 0) then b.w else c.w)
  {
  }

  lemma MovcComputes(fpu: Fpu, sh: Shader, s: State, ia: nat, ib: nat, ic: nat, id: nat, a: Vec4, b: Vec4, c: Vec4)
    requires Operands(s, Movc, ia, ib, ic, id, a, b, c) && ZeroIsUnique(fpu)
    ensures Computes(fpu, CompileAlu(sh, Movc, ia, ib, ic, id), s, id, AluResult(fpu, Movc, a, b, c))
  {
    hide EvalInst, Eval, ZeroIsUnique, AluResult;
    MovcByComparison(fpu, a, b, c);
    var nonZero := B4(!fpu.eq(a.x, 0), !fpu.eq(a.y, 0), !fpu.eq(a.z, 0), !fpu.eq(a.w, 0));
    var s1 := s.Bind(id, V4(ZERO4));
    var s2 := s1.Bind(id + 1, nonZero);
    EvalConstruct(fpu, id, ID_FLOAT_0, ID_FLOAT_0, ID_FLOAT_0, ID_FLOAT_0, s);
    EvalNotEqual(fpu, id + 1, ia, id, s1);
    EvalSelect(fpu, id + 2, id + 1, ib, ic, s2);
    EvalChain(fpu, CompileAlu(sh, Movc, ia, ib, ic, id).insts,
              [s, s1, s2, s2.Bind(id + 2, V4(AluResult(fpu, Movc, a, b, c)))]);
  }

  lemma ExtComputes(fpu: Fpu, sh: Shader, op: AluOp, s: State, ia: nat, ib: nat, id: nat, a: Vec4, b: Vec4)
    requires op.Min? || op.Max? || op.Rsq?
    requires Operands(s, op, ia, ib, 0, id, a, b, ZERO4) && Sound(fpu, op)
    ensures Computes(fpu, CompileAlu(sh, op, ia, ib, 0, id), s, id, AluResult(fpu, op, a, b, ZERO4))
  {
    hide Computes, EvalInst;
    MinMaxAgreement(fpu);
    var i := CompileAlu(sh, op, ia, ib, 0, id).insts[0];
    var r := AluResult(fpu, op, a, b, ZERO4);
    EvalExt(fpu, id, i.args[2], i.args[3], i.args[4..], s, V4(r));
    assert i.args == [ID_VEC4, id, i.args[2], i.args[3]] + i.args[4..];
    SingleComputes(fpu, i, s, id, r);
  }

  lemma AluComputes(fpu: Fpu, sh: Shader, op: AluOp, s: State, ia: nat, ib: nat, ic: nat, id: nat, a: Vec4, b: Vec4, c: Vec4)
    requires Operands(s, op, ia, ib, ic, id, a, b, c) && Sound(fpu, op)
    ensures Computes(fpu, CompileAlu(sh, op, ia, ib, ic, id), s, id, AluResult(fpu, op, a, b, c))
  {
    hide Eval, Separates, ZeroIsUnique, RootOfNonPositiveIsZero;
    match op {
      case Mov =>
        EvalNone(fpu, s);
      case Add =>
        BinaryComputes(fpu, OP_FADD, s, ia, ib, id, Map2(fpu.add, a, b));
      case Mul =>
        BinaryComputes(fpu, OP_FMUL, s, ia, ib, id, Map2(fpu.mul, a, b));
      case Mad =>
        MadComputes(fpu, sh, s, ia, ib, ic, id, a, b, c);
      case Dp4 =>
        Dp4Computes(fpu, sh, s, ia, ib, id, a, b);
      case Dp3 =>
        Dp3Computes(fpu, sh, s, ia, ib, id, a, b);
      case Lt =>
        ComparisonComputes(fpu, OP_FORD_LESS_THAN, fpu.lt, s, ia, ib, id, a, b);
      case Ge =>
        ComparisonComputes(fpu, OP_FORD_GREATER_THAN_EQUAL, fpu.ge, s, ia, ib, id, a, b);
      case Eq =>
        ComparisonComputes(fpu, OP_FORD_EQUAL, fpu.eq, s, ia, ib, id, a, b);
      case Ne =>
        ComparisonComputes(fpu, OP_FUNORD_NOT_EQUAL, (x: Word, y: Word) => !fpu.eq(x, y), s, ia, ib, id, a, b);
      case Movc =>
        MovcComputes(fpu, sh, s, ia, ib, ic, id, a, b, c);
      case _ =>
        ExtComputes(fpu, sh, op, s, ia, ib, id, a, b);
    }
  }

  lemma EvalNone(fpu: Fpu, s: State)
    ensures Eval(fpu, [], s) == Some(s)
  {
  }

  // ---------------------------------------------------------------- one instruction

  lemma AgreeExtends(sh: Shader, s: State, t: State, vm: Regs, w: Written, id: nat)
    requires Agree(sh, s, vm, w) && Extends(s, t, id) && id >= FIRST_VAR
    ensures Agree(sh, t, vm, w)
  {
  }

  /** An operand compiled at `id`, or nothing when the operation does not read it. */
  ghost predicate Fetches(fpu: Fpu, used: bool, c: Chunk, s: State, id: nat, v: Vec4)
  {
    if used then Computes(fpu, c, s, id, v) else c == Chunk([], 0, id)
  }

  lemma FetchesEval(fpu: Fpu, used: bool, c: Chunk, s: State, id: nat, v: Vec4)
    requires Fetches(fpu, used, c, s, id, v)
    ensures var r := Eval(fpu, c.insts, s); r.Some? && Extends(s, r.value, id) && id <= c.next
    ensures used ==> 0 < c.value < c.next && Eval(fpu, c.insts, s).value.Is4(c.value) && Eval(fpu, c.insts, s).value.env[c.value].v == v
  {
    EvalNone(fpu, s);
  }

  /** After the three operands, their IDs hold their values. */
  lemma OperandsCompute(fpu: Fpu, sh: Shader, i: Instr, s: State, vm: Regs, w: Written, id: nat) returns (t: State)
    requires i.Alu? && Agree(sh, s, vm, w) && Translatable(fpu, sh, i, w) && !s.returned && id >= FIRST_VAR
    ensures
      var (a, b, c) := CompileSrcs(sh, i, id);
      && Eval(fpu, a.insts + b.insts + c.insts, s) == Some(t)
      && Extends(s, t, id) && id <= c.next
      && Operands(t, i.op, a.value, b.value, c.value, c.next, Read(i.a, vm), Read(i.b, vm), Read(i.c, vm))
  {
    hide Eval, CompileSrc, Read, Readable, RegsAgree, Sound;
    var (a, b, c) := CompileSrcs(sh, i, id);
    SourceComputes(fpu, sh, i.a, s, vm, w, id);
    var s1 := Eval(fpu, a.insts, s).value;
    AgreeExtends(sh, s, s1, vm, w, id);
    if Arity(i.op) >= 2 {
      SourceComputes(fpu, sh, i.b, s1, vm, w, a.next);
    }
    FetchesEval(fpu, Arity(i.op) >= 2, b, s1, a.next, Read(i.b, vm));
    var s2 := Eval(fpu, b.insts, s1).value;
    AgreeExtends(sh, s1, s2, vm, w, a.next);
    if Arity(i.op) >= 3 {
      SourceComputes(fpu, sh, i.c, s2, vm, w, b.next);
    }
    FetchesEval(fpu, Arity(i.op) >= 3, c, s2, b.next, Read(i.c, vm));
    EvalAppend(fpu, a.insts, b.insts, s);
    EvalAppend(fpu, a.insts + b.insts, c.insts, s);
    t := Eval(fpu, c.insts, s2).value;
  }

  lemma StoreAgrees(fpu: Fpu, sh: Shader, d: Dst, s: State, vm: Regs, w: Written, id: nat, v: Vec4)
    requires Agree(sh, s, vm, w) && Storable(sh, d) && !s.returned && id != 0 && s.Is4(id) && s.env[id].v == v
    ensures
      var r := Eval(fpu, StoreTo(DstVar(sh, d.kind, d.idx), id), s);
      r.Some? && !r.value.returned && Agree(sh, r.value, Write(d, v, vm), Writes(w, d))
  {
    var x := DstVar(sh, d.kind, d.idx);
    var t := s.(mem := s.mem[x := V4(v)]);
    var i := Inst(OP_STORE, [x, id]);
    assert EvalInst(fpu, i, s) == Some(t);
    EvalChain(fpu, [i], [s, t]);
    hide EvalInst, Eval;
    assert Masked(15, ZERO4, v) == v;
  }

  lemma InstrPreserves(fpu: Fpu, sh: Shader, i: Instr, s: State, vm: Regs, w: Written, id: nat)
    requires i.Alu? && Agree(sh, s, vm, w) && Translatable(fpu, sh, i, w) && !s.returned && id >= FIRST_VAR
    ensures
      var c := CompileInstr(sh, i, id);
      var r := Eval(fpu, c.insts, s);
      c.next >= id && r.Some? && !r.value.returned && Agree(sh, r.value, ExecAlu(fpu, i, vm), Writes(w, i.dst))
  {
    hide Eval, CompileSrcs, CompileAlu, AluResult, Write, RegsAgree, Readable;
    var (a, b, c) := CompileSrcs(sh, i, id);
    var r := CompileAlu(sh, i.op, a.value, b.value, c.value, c.next);
    var v := AluResult(fpu, i.op, Read(i.a, vm), Read(i.b, vm), Read(i.c, vm));
    var t := OperandsCompute(fpu, sh, i, s, vm, w, id);
    AluComputes(fpu, sh, i.op, t, a.value, b.value, c.value, c.next, Read(i.a, vm), Read(i.b, vm), Read(i.c, vm));
    var u := Eval(fpu, r.insts, t).value;
    AgreeExtends(sh, s, t, vm, w, id);
    AgreeExtends(sh, t, u, vm, w, c.next);
    StoreAgrees(fpu, sh, i.dst, u, vm, w, r.value, v);
    var store := StoreTo(DstVar(sh, i.dst.kind, i.dst.idx), r.value);
    EvalAppend(fpu, a.insts + b.insts + c.insts, r.insts, s);
    EvalAppend(fpu, a.insts + b.insts + c.insts + r.insts, store, s);
  }

  // ---------------------------------------------------------------- whole shaders

  /** Straight-line code from matching states: both machines run to the end and still match. */
  lemma {:induction false} CodePreserves(fpu: Fpu, sh: Shader, m: Machine, s: State, w: Written, id: nat) returns (n: nat)
    requires Agree(sh, s, m.vm, w) && !s.returned && id >= FIRST_VAR
    requires m.status == Running && StraightLine(fpu, sh, m.tok, w)
    ensures
      var r := Eval(fpu, CompileFrom(sh, m.tok, id).insts, s);
      var m' := Run(fpu, sh.code, m, n);
      m'.status == Finished && r.Some? && Agree(sh, r.value, m'.vm, WrittenBy(sh, m.tok, w))
    decreases |sh.code| - m.tok
  {
    hide Eval, Decode, CompileInstr, Agree, Translatable, Writes, ExecAlu;
    var m1 := Step(fpu, sh.code, m);
    assert Run(fpu, sh.code, m, 1) == Run(fpu, sh.code, m1, 0) == m1;
    if m.tok >= |sh.code| || LengthOf(sh.code[m.tok]) == 0 {
      EvalNone(fpu, s);
      return 1;
    }
    var i := Decode(sh.code, m.tok);
    var c := CompileInstr(sh, i, id);
    var rest := CompileFrom(sh, m1.tok, c.next).insts;
    if i.Ret? {
      ReturnEvaluates(fpu, sh, s, id, CompileFrom(sh, m.tok + LengthOf(sh.code[m.tok]), c.next).insts);
      return 1;
    }
    if i.Alu? {
      InstrPreserves(fpu, sh, i, s, m.vm, w, id);
    } else {
      NopEvaluates(fpu, sh, s, id);
    }
    var t := Eval(fpu, c.insts, s).value;
    n := CodePreserves(fpu, sh, m1, t, if i.Alu? then Writes(w, i.dst) else w, c.next);
    EvalAppend(fpu, c.insts, rest, s);
    RunAdds(fpu, sh.code, m, 1, n);
    n := n + 1;
  }

  lemma NopEvaluates(fpu: Fpu, sh: Shader, s: State, id: nat)
    ensures CompileInstr(sh, Nop, id) == Chunk([], 0, id) && Eval(fpu, [], s) == Some(s)
  {
  }

  lemma ReturnEvaluates(fpu: Fpu, sh: Shader, s: State, id: nat, rest: seq<Inst>)
    ensures Eval(fpu, CompileInstr(sh, Ret, id).insts + rest, s) == Some(s.(returned := true))
    ensures forall vm, w :: Agree(sh, s, vm, w) ==> Agree(sh, s.(returned := true), vm, w)
  {
    var t := s.(returned := true);
    EvalChain(fpu, [Inst(OP_RETURN, [])], [s, t]);
    EvalReturned(fpu, rest, t);
    EvalAppend(fpu, [Inst(OP_RETURN, [])], rest, s);
  }

  /** The input variables hold the shader's inputs; any other variable may hold anything. */
  ghost predicate HoldsInputs(sh: Shader, mem: map<nat, Value>, vm: Regs)
    requires sh.Valid()
  {
    && (forall i: nat | i < |sh.inputs| :: InputVar(sh, i) in mem && mem[InputVar(sh, i)] == InputValue(sh, vm, i))
    && (sh.Widens(0) ==> vm.inputs[0].w == ONE)
  }

  lemma DeclaringAppend(a: seq<Inst>, b: seq<Inst>)
    requires AllDeclare(a) && AllDeclare(b)
    ensures AllDeclare(a + b)
  {
    hide Declares;
  }

  lemma GlobalsDeclare(sh: Shader)
    ensures AllDeclare(Preamble(sh) + Decorations(sh) + TYPES)
  {
    DeclaringAppend(Preamble(sh), Decorations(sh));
    DeclaringAppend(Preamble(sh) + Decorations(sh), TYPES);
  }

  lemma VariablesDeclare(sh: Shader)
    ensures AllDeclare(Variables(sh) + FunctionHead(sh))
  {
    DeclaringAppend(Variables(sh), FunctionHead(sh));
  }

  lemma PrologueEvaluates(fpu: Fpu, sh: Shader, s: State)
    requires !s.returned
    ensures
      var r := Eval(fpu, Prologue(sh), s);
      r.Some? && HasConstants(r.value) && r.value.mem == s.mem && !r.value.returned
  {
    hide Eval, EvalInst, AllDeclare, Preamble, Decorations, TYPES, Variables, FunctionHead;
    var before := Preamble(sh) + Decorations(sh) + TYPES;
    var after := Variables(sh) + FunctionHead(sh);
    GlobalsDeclare(sh);
    VariablesDeclare(sh);
    EvalReturned(fpu, before, s);
    var s1 := s.Bind(ID_FLOAT_0, Scalar(0));
    var s2 := s1.Bind(ID_FLOAT_1, Scalar(ONE));
    EvalConstant(fpu, ID_FLOAT_0, 0, s);
    EvalConstant(fpu, ID_FLOAT_1, ONE, s1);
    EvalChain(fpu, CONSTANTS, [s, s1, s2]);
    EvalReturned(fpu, after, s2);
    EvalAppend(fpu, before, CONSTANTS, s);
    EvalAppend(fpu, before + CONSTANTS, after, s);
    assert Prologue(sh) == before + CONSTANTS + after;
  }

  lemma EndingEvaluates(fpu: Fpu, insts: seq<Inst>, s: State)
    ensures var r := Eval(fpu, Ending(insts), s); r.Some? && r.value.mem == s.mem
  {
    var fin := Inst(OP_FUNCTION_END, []);
    if EndsInReturnWord(insts) {
      EvalReturned(fpu, [fin], s);
    } else {
      EvalReturned(fpu, [fin], s.(returned := true));
      EvalChain(fpu, [Inst(OP_RETURN, [])], [s, s.(returned := true)]);
      EvalAppend(fpu, [Inst(OP_RETURN, [])], [fin], s);
    }
  }

  const NOTHING := Written({}, {})

  ghost predicate OutputsAgree(sh: Shader, mem: map<nat, Value>, vm: Regs)
  {
    forall o: nat | o in WrittenBy(sh, 2, NOTHING).outputs ::
      o < MAX_OUTPUTS && OutputVar(sh, o) in mem && mem[OutputVar(sh, o)] == V4(vm.outputs[o])
  }

  lemma ModuleEvaluates(fpu: Fpu, sh: Shader, mem: map<nat, Value>, vm: Regs) returns (n: nat)
    requires sh.Valid() && StraightLine(fpu, sh, 2, NOTHING)
    requires HoldsInputs(sh, mem, vm)
    ensures
      var r := Eval(fpu, Module(sh), State(map[], mem, false));
      var m := Run(fpu, sh.code, Start(vm), n);
      r.Some? && m.status == Finished && OutputsAgree(sh, r.value.mem, m.vm)
  {
    hide Eval, Prologue, CompileFrom, Run, StraightLine, WrittenBy, Step, Ending;
    var s0 := State(map[], mem, false);
    PrologueEvaluates(fpu, sh, s0);
    var s1 := Eval(fpu, Prologue(sh), s0).value;
    assert Agree(sh, s1, vm, NOTHING);
    n := CodePreserves(fpu, sh, Start(vm), s1, NOTHING, FirstBodyId(sh));
    EvalAppend(fpu, Prologue(sh), Body(sh).insts, s0);
    var insts := Prologue(sh) + Body(sh).insts;
    EndingEvaluates(fpu, insts, Eval(fpu, Body(sh).insts, s1).value);
    EvalAppend(fpu, insts, Ending(insts), s0);
  }

  /**
   Compiler preservation. For every straight-line shader whose module fits the buffer, every float
   arithmetic and every input, the emitted words parse, evaluating them is defined, and every
   output register that the VM writes holds the same vector in both.
   */
  lemma CompilerPreservesMeaning(fpu: Fpu, sh: Shader, mem: map<nat, Value>, vm: Regs) returns (n: nat)
    requires sh.Valid() && |Words(sh)| <= MAX_WORDS
    requires StraightLine(fpu, sh, 2, NOTHING)
    requires HoldsInputs(sh, mem, vm)
    ensures Parse(Words(sh)[5..]).Some?
    ensures
      var r := Eval(fpu, Parse(Words(sh)[5..]).value, State(map[], mem, false));
      && r.Some?
      && forall k | k >= n ::
           var m := Run(fpu, sh.code, Start(vm), k);
           m.status == Finished && OutputsAgree(sh, r.value.mem, m.vm)
  {
    hide Eval, Words, Parse, Module, Run, StraightLine, Step, OutputsAgree;
    ModuleIsWellFormed(sh);
    n := ModuleEvaluates(fpu, sh, mem, vm);
    forall k | k >= n
      ensures Run(fpu, sh.code, Start(vm), k) == Run(fpu, sh.code, Start(vm), n)
    {
      RunHalts(fpu, sh.code, Start(vm), n, k);
    }
  }
}
