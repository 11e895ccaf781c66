/**
 The imperative SPIR-V builder of spirv_emit.c: a fixed buffer that drops words once it is full,
 a counter for result IDs, and the single pass that fills it.
 */
module SpirvBuilder {
  import opened Sm4
  import opened Spirv
  import opened SpirvCode
  import opened SpirvFormat

  function Capped(a: nat, b: nat): nat
  {
    if a < b then a else b
  }

  lemma FlattenOne(insts: seq<Inst>, i: Inst)
    ensures Flatten(insts + [i]) == Flatten(insts) + Encode(i)
  {
    FlattenAppend(insts, [i]);
    assert Flatten([i]) == Encode(i) + Flatten([]);
  }

  class Builder {
    const words: array<nat>
    var count: nat
    var nextId: nat
    ghost var header: seq<nat>
    ghost var insts: seq<Inst>
    /** Every word asked for so far, including those the full buffer dropped. */
    ghost var stream: seq<nat>

    ghost predicate Holds()
      reads this`count, this`stream, words
    {
      && words.Length == MAX_WORDS
      && count == Capped(|stream|, MAX_WORDS)
      && words[..count] == stream[..count]
    }

    ghost predicate Valid()
      reads this`count, this`stream, this`header, this`insts, words
    {
      Holds() && stream == header + Flatten(insts)
    }

    constructor (firstId: nat)
      ensures Valid() && fresh(words)
      ensures header == [] && insts == [] && nextId == firstId
    {
      words := new nat[MAX_WORDS];
      count := 0;
      nextId := firstId;
      header, insts, stream := [], [], [];
    }

    method Emit(w: nat)
      requires Holds()
      modifies this`count, this`stream, words
      ensures Holds() && stream == old(stream) + [w]
    {
      if count < MAX_WORDS {
        words[count] := w;
        count := count + 1;
      }
      stream := stream + [w];
    }

    method NewId() returns (id: nat)
      modifies this`nextId
      ensures id == old(nextId) && nextId == old(nextId) + 1
    {
      id := nextId;
      nextId := nextId + 1;
    }

    method EmitAll(ws: seq<nat>)
      requires Holds()
      modifies this`count, this`stream, words
      ensures Holds() && stream == old(stream) + ws
    {
      for k := 0 to |ws|
        invariant Holds() && stream == old(stream) + ws[..k]
      {
        Emit(ws[k]);
        assert ws[..k + 1] == ws[..k] + [ws[k]];
      }
      assert ws[..|ws|] == ws;
    }

    /** emit_op and the operands behind it. */
    method EmitInst(op: nat, args: seq<nat>)
      requires Valid()
      modifies this`count, this`stream, this`insts, words
      ensures Valid() && insts == old(insts) + [Inst(op, args)] && old(stream) <= stream
    {
      hide Holds, Flatten;
      var first := (1 + |args|) * WORD_COUNT_UNIT + op;
      Emit(first);
      EmitAll(args);
      FlattenOne(insts, Inst(op, args));
      insts := insts + [Inst(op, args)];
      assert header + Flatten(insts) == old(header + Flatten(insts)) + ([first] + args);
    }

    /** A source operand turned into a vec4 ID, 0 when it names no variable. */
    method EmitSource(sh: Shader, s: Src) returns (id: nat)
      requires Valid()
      modifies this`count, this`stream, this`insts, this`nextId, words
      ensures Valid()
      ensures
        var c := CompileSrc(sh, s, old(nextId));
        insts == old(insts) + c.insts && id == c.value && nextId == c.next
    {
      hide Holds, Flatten;
      if s.kind == KIND_IMM32 {
        var x := NewId();
        EmitInst(OP_CONSTANT, [ID_FLOAT, x, s.imm.x]);
        var y := NewId();
        EmitInst(OP_CONSTANT, [ID_FLOAT, y, s.imm.y]);
        var z := NewId();
        EmitInst(OP_CONSTANT, [ID_FLOAT, z, s.imm.z]);
        var w := NewId();
        EmitInst(OP_CONSTANT, [ID_FLOAT, w, s.imm.w]);
        id := NewId();
        EmitInst(OP_COMPOSITE_CONSTRUCT, [ID_VEC4, id, x, y, z, w]);
      } else {
        var v := SrcVar(sh, s.kind, s.idx0);
        if v == 0 {
          return 0;
        }
        var loadType := if s.kind == KIND_INPUT && sh.Widens(s.idx0) then ID_VEC3 else ID_VEC4;
        id := NewId();
        EmitInst(OP_LOAD, [loadType, id, v]);
        if loadType == ID_VEC3 {
          var loaded := id;
          var x := NewId();
          var y := NewId();
          var z := NewId();
          EmitInst(OP_COMPOSITE_EXTRACT, [ID_FLOAT, x, loaded, 0]);
          EmitInst(OP_COMPOSITE_EXTRACT, [ID_FLOAT, y, loaded, 1]);
          EmitInst(OP_COMPOSITE_EXTRACT, [ID_FLOAT, z, loaded, 2]);
          id := NewId();
          EmitInst(OP_COMPOSITE_CONSTRUCT, [ID_VEC4, id, x, y, z, ID_FLOAT_1]);
        }
      }
    }

    method EmitComparison(op: nat, a: nat, b: nat) returns (id: nat)
      requires Valid()
      modifies this`count, this`stream, this`insts, this`nextId, words
      ensures Valid()
      ensures
        var c := Comparison(op, old(nextId), a, b);
        insts == old(insts) + c.insts && id == c.value && nextId == c.next
    {
      hide Holds, Flatten;
      var cmp := NewId();
      EmitInst(op, [ID_BVEC4, cmp, a, b]);
      var ones := NewId();
      EmitInst(OP_CONSTANT, [ID_FLOAT, ones, CMP_TRUE]);
      var mask := NewId();
      EmitInst(OP_COMPOSITE_CONSTRUCT, [ID_VEC4, mask, ones, ones, ones, ones]);
      var zero := NewId();
      EmitInst(OP_COMPOSITE_CONSTRUCT, [ID_VEC4, zero, ID_FLOAT_0, ID_FLOAT_0, ID_FLOAT_0, ID_FLOAT_0]);
      id := NewId();
      EmitInst(OP_SELECT, [ID_VEC4, id, cmp, mask, zero]);
    }

    method EmitDot(op: AluOp, a: nat, b: nat, ghost sh: Shader) returns (id: nat)
      requires Valid() && (op.Dp3? || op.Dp4?)
      modifies this`count, this`stream, this`insts, this`nextId, words
      ensures Valid()
      ensures
        var c := CompileAlu(sh, op, a, b, 0, old(nextId));
        insts == old(insts) + c.insts && id == c.value && nextId == c.next
    {
      hide Holds, Flatten;
      var p, q := a, b;
      if op.Dp3? {
        p := NewId();
        EmitInst(OP_VECTOR_SHUFFLE, [ID_VEC3, p, a, a, 0, 1, 2]);
        q := NewId();
        EmitInst(OP_VECTOR_SHUFFLE, [ID_VEC3, q, b, b, 0, 1, 2]);
      }
      var dot := NewId();
      EmitInst(OP_DOT, [ID_FLOAT, dot, p, q]);
      id := NewId();
      EmitInst(OP_COMPOSITE_CONSTRUCT, [ID_VEC4, id, dot, dot, dot, dot]);
    }

    method EmitMovc(a: nat, b: nat, c: nat, ghost sh: Shader) returns (id: nat)
      requires Valid()
      modifies this`count, this`stream, this`insts, this`nextId, words
      ensures Valid()
      ensures
        var k := CompileAlu(sh, Movc, a, b, c, old(nextId));
        insts == old(insts) + k.insts && id == k.value && nextId == k.next
    {
      hide Holds, Flatten;
      var zero := NewId();
      EmitInst(OP_COMPOSITE_CONSTRUCT, [ID_VEC4, zero, ID_FLOAT_0, ID_FLOAT_0, ID_FLOAT_0, ID_FLOAT_0]);
      var cmp := NewId();
      EmitInst(OP_FUNORD_NOT_EQUAL, [ID_BVEC4, cmp, a, zero]);
      id := NewId();
      EmitInst(OP_SELECT, [ID_VEC4, id, cmp, b, c]);
    }

    method EmitAlu(sh: Shader, op: AluOp, a: nat, b: nat, c: nat) returns (id: nat)
      requires Valid()
      modifies this`count, this`stream, this`insts, this`nextId, words
      ensures Valid()
      ensures
        var k := CompileAlu(sh, op, a, b, c, old(nextId));
        insts == old(insts) + k.insts && id == k.value && nextId == k.next
    {
      hide Holds, Flatten;
      match op {
        case Mov =>
          id := a;
        case Add =>
          id := NewId();
          EmitInst(OP_FADD, [ID_VEC4, id, a, b]);
        case Mul =>
          id := NewId();
          EmitInst(OP_FMUL, [ID_VEC4, id, a, b]);
        case Mad =>
          var mul := NewId();
          EmitInst(OP_FMUL, [ID_VEC4, mul, a, b]);
          id := NewId();
          EmitInst(OP_FADD, [ID_VEC4, id, mul, c]);
        case Dp3 =>
          id := EmitDot(op, a, b, sh);
        case Dp4 =>
          id := EmitDot(op, a, b, sh);
        case Lt =>
          id := EmitComparison(OP_FORD_LESS_THAN, a, b);
        case Ge =>
          id := EmitComparison(OP_FORD_GREATER_THAN_EQUAL, a, b);
        case Eq =>
          id := EmitComparison(OP_FORD_EQUAL, a, b);
        case Ne =>
          id := EmitComparison(OP_FUNORD_NOT_EQUAL, a, b);
        case Min =>
          id := NewId();
          EmitInst(OP_EXT_INST, [ID_VEC4, id, GlslId(sh), GLSL_FMIN, a, b]);
        case Max =>
          id := NewId();
          EmitInst(OP_EXT_INST, [ID_VEC4, id, GlslId(sh), GLSL_FMAX, a, b]);
        case Movc =>
          id := EmitMovc(a, b, c, sh);
        case Rsq =>
          id := NewId();
          EmitInst(OP_EXT_INST, [ID_VEC4, id, GlslId(sh), GLSL_INVERSE_SQRT, a]);
      }
    }

    /** The translation of one decoded instruction. */
    method EmitInstr(sh: Shader, i: Instr)
      requires Valid()
      modifies this`count, this`stream, this`insts, this`nextId, words
      ensures Valid()
      ensures var c := CompileInstr(sh, i, old(nextId)); insts == old(insts) + c.insts && nextId == c.next
    {
      hide Holds, Flatten, CompileSrc, CompileAlu;
      if i.Ret? {
        EmitInst(OP_RETURN, []);
      } else if i.Alu? {
        var a := EmitSource(sh, i.a);
        var b, c := 0, 0;
        if Arity(i.op) >= 2 {
          b := EmitSource(sh, i.b);
        }
        if Arity(i.op) >= 3 {
          c := EmitSource(sh, i.c);
        }
        var r := EmitAlu(sh, i.op, a, b, c);
        var v := DstVar(sh, i.dst.kind, i.dst.idx);
        if r != 0 && v != 0 {
          EmitInst(OP_STORE, [v, r]);
        }
      }
    }

    /** The token walk. */
    method EmitCode(sh: Shader)
      requires Valid()
      modifies this`count, this`stream, this`insts, this`nextId, words
      ensures Valid()
      ensures var c := CompileFrom(sh, 2, old(nextId)); insts == old(insts) + c.insts && nextId == c.next
    {
      hide Holds, Flatten, Decode, CompileInstr;
      var tok := 2;
      ghost var done: seq<Inst> := [];
      while tok < |sh.code|
        invariant tok >= 0 && Valid() && insts == old(insts) + done
        invariant
          var all, rest := CompileFrom(sh, 2, old(nextId)), CompileFrom(sh, tok, nextId);
          all.insts == done + rest.insts && all.next == rest.next
      {
        var len := LengthOf(sh.code[tok]);
        if len == 0 {
          break;
        }
        var i := Decode(sh.code, tok);
        if i.Cut? || i.Garbled? {
          break;
        }
        done := done + CompileInstr(sh, i, nextId).insts;
        EmitInstr(sh, i);
        tok := tok + len;
      }
    }

    method EmitTypes()
      requires Valid() && nextId == 1
      modifies this`count, this`stream, this`insts, this`nextId, words
      ensures Valid() && insts == old(insts) + TYPES && nextId == ID_FLOAT_0
    {
      hide Holds, Flatten;
      EmitValueTypes();
      EmitPointerTypes();
      assert TYPES == TYPES[..7] + TYPES[7..];
    }

    method EmitValueTypes()
      requires Valid() && nextId == 1
      modifies this`count, this`stream, this`insts, this`nextId, words
      ensures Valid() && insts == old(insts) + TYPES[..7] && nextId == ID_PTR_IN4
    {
      hide Holds, Flatten;
      var void_ := NewId();
      EmitInst(OP_TYPE_VOID, [void_]);
      var bool_ := NewId();
      EmitInst(OP_TYPE_BOOL, [bool_]);
      var func := NewId();
      EmitInst(OP_TYPE_FUNCTION, [func, void_]);
      var float := NewId();
      EmitInst(OP_TYPE_FLOAT, [float, 32]);
      var vec3 := NewId();
      EmitInst(OP_TYPE_VECTOR, [vec3, float, 3]);
      var vec4 := NewId();
      EmitInst(OP_TYPE_VECTOR, [vec4, float, 4]);
      var bvec4 := NewId();
      EmitInst(OP_TYPE_VECTOR, [bvec4, bool_, 4]);
    }

    method EmitPointerTypes()
      requires Valid() && nextId == ID_PTR_IN4
      modifies this`count, this`stream, this`insts, this`nextId, words
      ensures Valid() && insts == old(insts) + TYPES[7..] && nextId == ID_FLOAT_0
    {
      hide Holds, Flatten;
      var in4 := NewId();
      EmitInst(OP_TYPE_POINTER, [in4, 1, ID_VEC4]);
      var in3 := NewId();
      EmitInst(OP_TYPE_POINTER, [in3, 1, ID_VEC3]);
      var out4 := NewId();
      EmitInst(OP_TYPE_POINTER, [out4, 3, ID_VEC4]);
      var func4 := NewId();
      EmitInst(OP_TYPE_POINTER, [func4, 7, ID_VEC4]);
    }

    method EmitConstants()
      requires Valid() && nextId == ID_FLOAT_0
      modifies this`count, this`stream, this`insts, this`nextId, words
      ensures Valid() && insts == old(insts) + CONSTANTS && nextId == ID_MAIN
    {
      hide Holds, Flatten;
      var zero := NewId();
      EmitInst(OP_CONSTANT, [ID_FLOAT, zero, 0]);
      var one := NewId();
      EmitInst(OP_CONSTANT, [ID_FLOAT, one, ONE]);
    }

    method EmitVariables(sh: Shader)
      requires Valid() && nextId == FIRST_VAR
      modifies this`count, this`stream, this`insts, this`nextId, words
      ensures Valid() && insts == old(insts) + Variables(sh) && nextId == TempVar(sh, 0)
    {
      hide Holds, Flatten;
      var vars := Variables(sh);
      for i := 0 to |sh.inputs|
        invariant Valid() && insts == old(insts) + vars[..i] && nextId == InputVar(sh, i)
      {
        var id := NewId();
        EmitInst(OP_VARIABLE, [if sh.Widens(i) then ID_PTR_IN3 else ID_PTR_IN4, id, 1]);
      }
      for i := 0 to |sh.outputs|
        invariant Valid() && insts == old(insts) + vars[..|sh.inputs| + i] && nextId == OutputVar(sh, i)
      {
        var id := NewId();
        EmitInst(OP_VARIABLE, [ID_PTR_OUT4, id, 3]);
      }
    }

    /** The five header words; the bound is patched at the end. */
    method EmitHeader()
      requires Valid() && header == [] && insts == []
      modifies this`count, this`stream, this`header, words
      ensures Valid() && header == Header(0)
    {
      EmitAll([MAGIC, VERSION, 0, 0, 0]);
      header := Header(0);
    }

    method EmitEntry(sh: Shader)
      requires Valid() && nextId == GlslId(sh)
      modifies this`count, this`stream, this`insts, this`nextId, words
      ensures Valid() && insts == old(insts) + Preamble(sh) && nextId == LabelId(sh)
    {
      hide Holds, Flatten;
      EmitInst(OP_CAPABILITY, [1]);
      var glsl := NewId();
      EmitInst(OP_EXT_INST_IMPORT, [glsl, 0x4C53_4C47, 0x6474_732E, 0x3035_342E, 0]);
      EmitInst(OP_MEMORY_MODEL, [0, 1]);
      var interface := seq(|sh.inputs| + |sh.outputs|, k => FIRST_VAR + k);
      EmitInst(OP_ENTRY_POINT, [if sh.vertex then 0 else 4, ID_MAIN, 0x6E69_616D, 0] + interface);
      if !sh.vertex {
        EmitInst(OP_EXECUTION_MODE, [ID_MAIN, 7]);
      }
    }

    method EmitDecorations(sh: Shader)
      requires Valid()
      modifies this`count, this`stream, this`insts, words
      ensures Valid() && insts == old(insts) + Decorations(sh)
    {
      hide Holds, Flatten;
      var decorations := Decorations(sh);
      for i := 0 to |sh.inputs|
        invariant Valid() && insts == old(insts) + decorations[..i]
      {
        EmitInst(OP_DECORATE, [InputVar(sh, i), 30, i]);
      }
      for i := 0 to |sh.outputs|
        invariant Valid() && insts == old(insts) + decorations[..|sh.inputs| + i]
      {
        if sh.vertex && sh.outputs[i].systemValue == 1 {
          EmitInst(OP_DECORATE, [OutputVar(sh, i), 11, 0]);
        } else {
          EmitInst(OP_DECORATE, [OutputVar(sh, i), 30, sh.outputs[i].register]);
        }
      }
    }

    /** Copies the words of a builder that has not overflowed. */
    method Append(other: Builder)
      requires Valid() && other.Valid() && this != other && words != other.words
      requires other.header == [] && |other.stream| <= MAX_WORDS
      modifies this`count, this`stream, this`insts, words
      ensures Valid() && insts == old(insts) + other.insts
    {
      EmitAll(other.words[..other.count]);
      FlattenAppend(insts, other.insts);
      insts := insts + other.insts;
    }

    method EmitFunctionHead(sh: Shader)
      requires Valid() && nextId == LabelId(sh)
      modifies this`count, this`stream, this`insts, this`nextId, words
      ensures Valid() && insts == old(insts) + FunctionHead(sh) && nextId == FirstBodyId(sh)
    {
      hide Holds, Flatten;
      var head := FunctionHead(sh);
      EmitInst(OP_FUNCTION, [ID_VOID, ID_MAIN, 0, ID_FUNC]);
      var label_ := NewId();
      EmitInst(OP_LABEL, [label_]);
      for i := 0 to sh.temps
        invariant Valid() && insts == old(insts) + head[..2 + i] && nextId == FirstBodyId(sh)
      {
        EmitInst(OP_VARIABLE, [ID_PTR_FUNC4, TempVar(sh, i), 7]);
      }
    }

    /** OpReturn unless the last word is one, OpFunctionEnd, and the bound. */
    method Finish(ghost sh: Shader)
      requires Valid() && header == Header(0)
      requires insts == Prologue(sh) + Body(sh).insts && nextId == Body(sh).next
      modifies this, words
      ensures 3 < count <= words.Length
      ensures words[..count] == Words(sh)[..Capped(|Words(sh)|, MAX_WORDS)]
    {
      hide Prologue, CompileFrom, Flatten, Words, Ending, Module, EndsInReturnWord;
      ghost var pre, s0 := insts, stream;
      PrologueNotEmpty(sh);
      LastOfStream(header, pre);
      if words[count - 1] != RETURN_WORD {
        EmitInst(OP_RETURN, []);
      }
      EmitInst(OP_FUNCTION_END, []);
      Endings(pre);
      FinishedWords(sh, pre, stream, insts, nextId);
      words[3] := nextId;
      assert words[..count] == stream[..count][3 := nextId];
    }
  }

  lemma Endings(insts: seq<Inst>)
    ensures EndsInReturnWord(insts) ==> insts + Ending(insts) == insts + [Inst(OP_FUNCTION_END, [])]
    ensures !EndsInReturnWord(insts) ==> insts + Ending(insts) == insts + [Inst(OP_RETURN, [])] + [Inst(OP_FUNCTION_END, [])]
  {
  }

  /** The emitted stream with its bound patched is the module, as far as the buffer reaches. */
  lemma FinishedWords(sh: Shader, pre: seq<Inst>, stream: seq<nat>, insts: seq<Inst>, id: nat)
    requires pre == Prologue(sh) + Body(sh).insts && id == Body(sh).next
    requires stream == Header(0) + Flatten(insts) && Header(0) + Flatten(pre) <= stream
    requires |Header(0) + Flatten(pre)| < MAX_WORDS ==> insts == pre + Ending(pre)
    ensures |stream| >= 5
    ensures stream[..Capped(|stream|, MAX_WORDS)][3 := id] == Words(sh)[..Capped(|Words(sh)|, MAX_WORDS)]
  {
    hide Prologue, CompileFrom, Flatten, Ending;
    FlattenAppend(pre, Ending(pre));
    var s0, w := Header(0) + Flatten(pre), Words(sh);
    assert w == Header(id) + (Flatten(pre) + Flatten(Ending(pre)));
    if |s0| < MAX_WORDS {
      assert stream[3 := id] == w;
    } else {
      assert stream[..MAX_WORDS] == s0[..MAX_WORDS];
      assert w[..MAX_WORDS] == s0[..MAX_WORDS][3 := id];
    }
  }

  lemma PrologueNotEmpty(sh: Shader)
    ensures |Prologue(sh)| > 0
  {
  }

  lemma LastOfStream(header: seq<nat>, insts: seq<Inst>)
    requires insts != []
    ensures Flatten(insts) != []
    ensures EndsInReturnWord(insts) <==> (header + Flatten(insts))[|header + Flatten(insts)| - 1] == RETURN_WORD
  {
    LastWord(insts);
  }

  lemma {:induction false} ShortStream(insts: seq<Inst>)
    requires forall i | i in insts :: |i.args| <= 3
    ensures |Flatten(insts)| <= 4 * |insts|
  {
    if insts != [] {
      ShortStream(insts[1..]);
    }
  }

  /** Types, constants and variables, in a builder of their own so that their IDs are known early. */
  method BuildGlobals(sh: Shader) returns (body: Builder)
    requires sh.Valid()
    ensures fresh(body) && fresh(body.words) && body.Valid() && body.header == []
    ensures body.insts == TYPES + CONSTANTS + Variables(sh) && body.nextId == GlslId(sh)
  {
    hide Flatten, TYPES, CONSTANTS, Variables, Builder.Holds;
    body := new Builder(1);
    body.EmitTypes();
    body.EmitConstants();
    var main := body.NewId();
    body.EmitVariables(sh);
    for i := 0 to sh.temps
      invariant body.Valid() && body.header == [] && body.insts == TYPES + CONSTANTS + Variables(sh)
      invariant body.nextId == TempVar(sh, i)
    {
      var temp := body.NewId();
    }
  }

  /** dxbc_to_spirv: the words of the module, cut off where the buffer ends. */
  method DxbcToSpirv(sh: Shader) returns (bin: seq<nat>)
    requires sh.Valid()
    ensures bin == Words(sh)[..Capped(|Words(sh)|, MAX_WORDS)]
  {
    hide Flatten, Words, Preamble, Decorations, TYPES, CONSTANTS, Variables, FunctionHead, CompileFrom, Builder.Holds;
    var body := BuildGlobals(sh);
    GlobalsAreShort(sh);
    var b := new Builder(body.nextId);
    b.EmitHeader();
    b.EmitEntry(sh);
    b.EmitDecorations(sh);
    b.Append(body);
    b.EmitFunctionHead(sh);
    assert b.insts == Prologue(sh);
    b.EmitCode(sh);
    b.Finish(sh);
    bin := b.words[..b.count];
  }

  lemma GlobalsAreShort(sh: Shader)
    requires sh.Valid()
    ensures |Flatten(TYPES + CONSTANTS + Variables(sh))| <= MAX_WORDS
  {
    ShortStream(TYPES + CONSTANTS + Variables(sh));
  }
}
