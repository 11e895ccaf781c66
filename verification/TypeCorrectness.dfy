/** Exactly which shaders give a module that obeys the typing rules, and the interface that every module declares. */
module TypeCorrectness {
  import opened Sm4
  import opened Spirv
  import opened SpirvCode
  import opened SpirvTypes

  /** Every operand that the instruction computes with is an immediate or a register with a variable. */
  predicate MappedInstr(sh: Shader, i: Instr)
  {
    i.Alu? && !i.op.Mov? ==>
      MappedSrc(sh, i.a) && (Arity(i.op) >= 2 ==> MappedSrc(sh, i.b)) && (Arity(i.op) >= 3 ==> MappedSrc(sh, i.c))
  }

  /** The same of every instruction that the compiler reaches from `pos` on. */
  predicate Mapped(sh: Shader, pos: nat)
    decreases |sh.code| - pos
  {
    Stops(sh.code, pos) || (MappedInstr(sh, Decode(sh.code, pos)) && Mapped(sh, pos + LengthOf(sh.code[pos])))
  }

  lemma OperandKept(c: Chunk, e: Env, f: Env, lo: nat, id: nat)
    requires c.value < c.next <= lo <= id && (c.value != 0 ==> e.Has(c.value, VEC4)) && Grown(e, f, lo) && 0 !in f.vals
    ensures Operand(c.value, id, f)
  {
  }

  lemma NoOperand(id: nat, f: Env)
    requires id > 0 && 0 !in f.vals
    ensures Operand(0, id, f)
  {
  }

  lemma GrownTrans(e: Env, f: Env, g: Env, lo: nat, hi: nat)
    requires Grown(e, f, lo) && Grown(f, g, hi) && lo <= hi
    ensures Grown(e, g, lo)
  {
  }

  /** An operand that may not be there at all. */
  lemma OptionalChecks(sh: Shader, s: Src, used: bool, id: nat, e: Env) returns (c: Chunk, f: Env)
    requires Ready(sh, e) && id >= FirstBodyId(sh)
    ensures c == if used then CompileSrc(sh, s, id) else Chunk([], 0, id)
    ensures CheckAll(c.insts, e) == Some(f) && Grown(e, f, id) && Ready(sh, f)
    ensures id <= c.next && c.value < c.next && (c.value != 0 ==> f.Has(c.value, VEC4))
    ensures used ==> (c.value != 0 <==> MappedSrc(sh, s))
  {
    hide Check, CompileSrc, MappedSrc;
    if used {
      c := CompileSrc(sh, s, id);
      f := SrcChecks(sh, s, id, e);
    } else {
      c, f := Chunk([], 0, id), e;
    }
  }

  lemma StoreChecks(sh: Shader, d: Dst, value: nat, e: Env)
    requires Ready(sh, e) && (value != 0 ==> e.Has(value, VEC4))
    ensures CheckAll(StoreTo(DstVar(sh, d.kind, d.idx), value), e) == Some(e)
  {
    var v := DstVar(sh, d.kind, d.idx);
    if v != 0 && value != 0 {
      assert v in e.vals && e.vals[v].Ptr? && e.vals[v].to == VEC4 && e.vals[v].storage != STORAGE_INPUT;
      CheckChain(StoreTo(v, value), [e, e]);
    }
  }

  /** The parts of an instruction's code checked one behind the other. */
  lemma CheckFour(a: seq<Inst>, b: seq<Inst>, c: seq<Inst>, d: seq<Inst>, e: Env, ea: Env, eb: Env, ec: Env)
    requires CheckAll(a, e) == Some(ea) && CheckAll(b, ea) == Some(eb) && CheckAll(c, eb) == Some(ec)
    ensures CheckAll(a + b + c + d, e) == CheckAll(d, ec)
  {
    hide CheckAll;
    CheckAppend(a, b, e);
    CheckAppend(a + b, c, e);
    CheckAppend(a + b + c, d, e);
  }

  lemma AluInstrChecks(sh: Shader, i: Instr, id: nat, e: Env) returns (f: Env)
    requires Ready(sh, e) && id >= FirstBodyId(sh) && i.Alu?
    ensures CheckAll(CompileInstr(sh, i, id).insts, e).Some? <==> MappedInstr(sh, i)
    ensures MappedInstr(sh, i) ==> CheckAll(CompileInstr(sh, i, id).insts, e) == Some(f) && Grown(e, f, id)
    ensures id <= CompileInstr(sh, i, id).next
  {
    hide CheckAll, Ready, CompileSrc, CompileAlu, MappedSrc, DstVar, StoreTo, Grown, Operand, SrcVar;
    var a, ea := OptionalChecks(sh, i.a, true, id, e);
    var b, eb := OptionalChecks(sh, i.b, Arity(i.op) >= 2, a.next, ea);
    var c, ec := OptionalChecks(sh, i.c, Arity(i.op) >= 3, b.next, eb);
    ReadyFacts(sh, ec);
    GrownTrans(ea, eb, ec, a.next, b.next);
    GrownTrans(e, ea, ec, id, a.next);
    SettingHolds(sh, a, b, c, ea, eb, ec);
    f := AluChecks(sh, i.op, a.value, b.value, c.value, c.next, ec);
    var r := CompileAlu(sh, i.op, a.value, b.value, c.value, c.next);
    NextGrows(sh, i.op, a.value, b.value, c.value, c.next);
    var store := StoreTo(DstVar(sh, i.dst.kind, i.dst.idx), r.value);
    CheckFour(a.insts, b.insts, c.insts, r.insts, e, ea, eb, ec);
    CheckAppend(a.insts + b.insts + c.insts + r.insts, store, e);
    if MappedInstr(sh, i) || i.op.Mov? {
      GrownReady(sh, ec, f, c.next);
      GrownTrans(e, ec, f, id, c.next);
      StoreChecks(sh, i.dst, r.value, f);
    }
  }

  lemma SettingHolds(sh: Shader, a: Chunk, b: Chunk, c: Chunk, ea: Env, eb: Env, ec: Env)
    requires Ready(sh, ec) && FirstBodyId(sh) <= a.next <= b.next <= c.next
    requires a.value < a.next && b.value < b.next && c.value < c.next && Grown(ea, ec, a.next) && Grown(eb, ec, b.next)
    requires (a.value != 0 ==> ea.Has(a.value, VEC4)) && (b.value != 0 ==> eb.Has(b.value, VEC4)) && (c.value != 0 ==> ec.Has(c.value, VEC4))
    ensures Setting(sh, a.value, b.value, c.value, c.next, ec)
  {
    ReadyFacts(sh, ec);
    hide Ready;
    OperandKept(a, ea, ec, a.next, c.next);
    OperandKept(b, eb, ec, b.next, c.next);
    OperandKept(c, ec, ec, c.next, c.next);
  }

  lemma NextGrows(sh: Shader, op: AluOp, a: nat, b: nat, c: nat, id: nat)
    ensures id <= CompileAlu(sh, op, a, b, c, id).next
  {
  }

  lemma InstrChecks(sh: Shader, i: Instr, id: nat, e: Env) returns (f: Env)
    requires Ready(sh, e) && id >= FirstBodyId(sh)
    ensures CheckAll(CompileInstr(sh, i, id).insts, e).Some? <==> MappedInstr(sh, i)
    ensures MappedInstr(sh, i) ==> CheckAll(CompileInstr(sh, i, id).insts, e) == Some(f) && Grown(e, f, id)
    ensures id <= CompileInstr(sh, i, id).next
  {
    hide Ready, Check;
    if i.Alu? {
      f := AluInstrChecks(sh, i, id, e);
    } else {
      f := e;
      OthersCheck(sh, i, id, e);
    }
  }

  lemma OthersCheck(sh: Shader, i: Instr, id: nat, e: Env)
    requires !i.Alu?
    ensures CheckAll(CompileInstr(sh, i, id).insts, e) == Some(e)
  {
    CheckNeutral(CompileInstr(sh, i, id).insts, e);
  }

  lemma {:induction false} CodeChecks(sh: Shader, pos: nat, id: nat, e: Env)
    requires Ready(sh, e) && id >= FirstBodyId(sh)
    ensures CheckAll(CompileFrom(sh, pos, id).insts, e).Some? <==> Mapped(sh, pos)
    decreases |sh.code| - pos
  {
    hide Ready, Check, CompileInstr, MappedInstr, Decode, Grown;
    if !Stops(sh.code, pos) {
      var c := CompileInstr(sh, Decode(sh.code, pos), id);
      var next := pos + LengthOf(sh.code[pos]);
      var f := InstrChecks(sh, Decode(sh.code, pos), id, e);
      CheckAppend(c.insts, CompileFrom(sh, next, c.next).insts, e);
      if MappedInstr(sh, Decode(sh.code, pos)) {
        GrownReady(sh, e, f, id);
        CodeChecks(sh, next, c.next, f);
      }
    }
  }

  /**
   The module obeys the typing rules if and only if every instruction that the compiler translates has
   its operands: an operand without a variable, such as a constant buffer, is emitted as ID 0.
   */
  lemma ObeysTypesExactly(sh: Shader)
    ensures CheckAll(Module(sh), EMPTY).Some? <==> Mapped(sh, 2)
  {
    hide CheckAll, Check, Prologue, CompileFrom, EndsInReturnWord, Mapped, Ready;
    var e := PrologueChecks(sh);
    CodeChecks(sh, 2, FirstBodyId(sh), e);
    var insts := Prologue(sh) + Body(sh).insts;
    CheckAppend(Prologue(sh), Body(sh).insts, EMPTY);
    CheckAppend(insts, Ending(insts), EMPTY);
    if CheckAll(insts, EMPTY).Some? {
      EndingChecks(insts, CheckAll(insts, EMPTY).value);
    }
  }

  lemma EndingChecks(insts: seq<Inst>, e: Env)
    ensures CheckAll(Ending(insts), e) == Some(e)
  {
    CheckNeutral(Ending(insts), e);
  }
}
