/**
 What an emitted module tells the driver, in the numbers of the SPIR-V Specification: its header, its
 entry point with the variables of its interface, their locations, and the words of each operation.
 */
module SpirvInterface {
  import opened Sm4
  import opened Spirv
  import opened SpirvCode

  // ---------------------------------------------------------------- literal strings

  function Byte(word: nat, k: nat): nat
  {
    (if k == 0 then word else if k == 1 then word / 0x100 else if k == 2 then word / 0x1_0000 else word / 0x100_0000) % 0x100
  }

  /** Section 2.2.1: characters from the low byte of the first word on, ended by a zero byte. */
  ghost predicate Spells(words: seq<nat>, text: string)
  {
    && |words| == |text| / 4 + 1
    && (forall k | 0 <= k < |text| :: Byte(words[k / 4], k % 4) == text[k] as int)
    && (forall k | |text| <= k < 4 * |words| :: Byte(words[k / 4], k % 4) == 0)
  }

  /** The entry point is called "main", and the imported library is GLSL.std.450. */
  lemma NamesAreSpelled(sh: Shader)
    ensures Spells(Preamble(sh)[1].args[1..], "GLSL.std.450") && Spells(Preamble(sh)[3].args[2..4], "main")
  {
    assert Preamble(sh)[1].args[1..] == [0x4C53_4C47, 0x6474_732E, 0x3035_342E, 0];
    assert Preamble(sh)[3].args[2..4] == [0x6E69_616D, 0];
    LibraryIsSpelled();
    MainIsSpelled();
  }

  lemma LibraryIsSpelled()
    ensures Spells([0x4C53_4C47, 0x6474_732E, 0x3035_342E, 0], "GLSL.std.450")
  {
    var w, t := [0x4C53_4C47, 0x6474_732E, 0x3035_342E, 0], "GLSL.std.450";
    forall k | 0 <= k < 12
      ensures Byte(w[k / 4], k % 4) == t[k] as int
    {
      assert k == 0 || k == 1 || k == 2 || k == 3 || k == 4 || k == 5 || k == 6 || k == 7 || k == 8 || k == 9 || k == 10 || k == 11;
    }
  }

  lemma MainIsSpelled()
    ensures Spells([0x6E69_616D, 0], "main")
  {
    var m, u := [0x6E69_616D, 0], "main";
    forall k | 0 <= k < 4
      ensures Byte(m[k / 4], k % 4) == u[k] as int
    {
      assert k == 0 || k == 1 || k == 2 || k == 3;
    }
  }

  // ---------------------------------------------------------------- the interface

  /** OpVariable in a list of instructions. */
  ghost predicate Declares(insts: seq<Inst>, id: nat, storage: nat)
  {
    exists v | v in insts :: v.op == 59 && |v.args| == 3 && v.args[1] == id && v.args[2] == storage
  }

  predicate Without(insts: seq<Inst>, op: nat)
  {
    forall i | i in insts :: i.op != op
  }

  /** Where variables and decorations are not. */
  lemma Elsewhere(sh: Shader)
    ensures Without(Preamble(sh), 59) && Without(Decorations(sh), 59) && Without(TYPES, 59) && Without(CONSTANTS, 59)
    ensures Without(Preamble(sh), 71) && Without(TYPES, 71) && Without(CONSTANTS, 71) && Without(Variables(sh), 71) && Without(FunctionHead(sh), 71)
  {
  }

  lemma VariablesInOne(sh: Shader, id: nat, storage: nat)
    ensures Declares(Variables(sh), id, storage) <==>
      || (storage == 1 && FIRST_VAR <= id < FIRST_VAR + |sh.inputs|)
      || (storage == 3 && FIRST_VAR + |sh.inputs| <= id < TempVar(sh, 0))
    ensures Declares(FunctionHead(sh), id, storage) <==> storage == 7 && TempVar(sh, 0) <= id < GlslId(sh)
  {
    var vs, hs := Variables(sh), FunctionHead(sh);
    if FIRST_VAR <= id < TempVar(sh, 0) {
      assert vs[id - FIRST_VAR] in vs;
    } else if TempVar(sh, 0) <= id < GlslId(sh) {
      assert hs[2 + id - TempVar(sh, 0)] in hs;
    }
  }

  /** The variables of the prologue: input and output registers, and the temporaries of the function. */
  lemma VariablesAre(sh: Shader, id: nat, storage: nat)
    ensures Declares(Prologue(sh), id, storage) <==>
      || (storage == 1 && FIRST_VAR <= id < FIRST_VAR + |sh.inputs|)
      || (storage == 3 && FIRST_VAR + |sh.inputs| <= id < TempVar(sh, 0))
      || (storage == 7 && TempVar(sh, 0) <= id < GlslId(sh))
  {
    hide Preamble, Decorations, TYPES, CONSTANTS, Variables, FunctionHead;
    Elsewhere(sh);
    VariablesInOne(sh, id, storage);
  }

  /** OpEntryPoint lists exactly the input and output variables that the module declares. */
  lemma EntryPointListsInterface(sh: Shader, id: nat)
    ensures var e := Preamble(sh)[3];
      && e.op == 15 && |e.args| >= 4 && e.args[0] == (if sh.vertex then 0 else 4) && e.args[1] == ID_MAIN
      && (id in e.args[4..] <==> Declares(Prologue(sh), id, 1) || Declares(Prologue(sh), id, 3))
  {
    hide Prologue, Declares;
    VariablesAre(sh, id, 1);
    VariablesAre(sh, id, 3);
    var list := Preamble(sh)[3].args[4..];
    assert list == seq(|sh.inputs| + |sh.outputs|, k => FIRST_VAR + k);
    if FIRST_VAR <= id < TempVar(sh, 0) {
      assert list[id - FIRST_VAR] == id;
    }
  }

  /** The decoration of an ID: everything behind the ID in the instructions that decorate it. */
  ghost predicate Decorated(insts: seq<Inst>, id: nat, how: seq<nat>)
  {
    && (exists d | d in insts :: d.op == 71 && d.args == [id] + how)
    && forall d | d in insts && d.op == 71 && d.args != [] && d.args[0] == id :: d.args == [id] + how
  }

  lemma DecoratedInOne(sh: Shader, k: nat)
    requires k < |Decorations(sh)|
    ensures Decorations(sh)[k].op == 71 && Decorations(sh)[k].args != []
    ensures Decorated(Decorations(sh), FIRST_VAR + k, Decorations(sh)[k].args[1..])
  {
    var ds := Decorations(sh);
    assert forall j | 0 <= j < |ds| :: ds[j].op == 71 && |ds[j].args| == 3 && ds[j].args[0] == FIRST_VAR + j;
    assert ds[k].args == [FIRST_VAR + k] + ds[k].args[1..];
  }

  lemma DecoratedInAll(sh: Shader, id: nat, how: seq<nat>)
    requires Decorated(Decorations(sh), id, how)
    ensures Decorated(Prologue(sh), id, how)
  {
    hide Preamble, Decorations, TYPES, CONSTANTS, Variables, FunctionHead;
    Elsewhere(sh);
  }

  /** Input `i` is at location `i`; an output is at its register's location, but the vertex position is built in. */
  lemma LocationsAre(sh: Shader, i: nat)
    ensures i < |sh.inputs| ==> Decorated(Prologue(sh), InputVar(sh, i), [30, i])
    ensures i < |sh.outputs| ==>
      Decorated(Prologue(sh), OutputVar(sh, i), if sh.vertex && sh.outputs[i].systemValue == 1 then [11, 0] else [30, sh.outputs[i].register])
  {
    hide Prologue, Decorated;
    if i < |sh.inputs| {
      DecoratedInOne(sh, i);
      assert Decorations(sh)[i].args[1..] == [30, i];
      DecoratedInAll(sh, InputVar(sh, i), [30, i]);
    }
    if i < |sh.outputs| {
      var how := if sh.vertex && sh.outputs[i].systemValue == 1 then [11, 0] else [30, sh.outputs[i].register];
      DecoratedInOne(sh, |sh.inputs| + i);
      assert Decorations(sh)[|sh.inputs| + i].args[1..] == how;
      DecoratedInAll(sh, OutputVar(sh, i), how);
    }
  }

  // ---------------------------------------------------------------- words

  /** Header, capability Shader, memory model Logical GLSL450, and origin upper left for pixel shaders. */
  lemma HeaderWords(sh: Shader)
    ensures Words(sh)[..5] == [0x0723_0203, 0x0001_0000, 0, Body(sh).next, 0]
    ensures Encode(Preamble(sh)[0]) == [0x2_0011, 1] && Encode(Preamble(sh)[2]) == [0x3_000E, 0, 1]
    ensures !sh.vertex ==> |Preamble(sh)| == 5 && Encode(Preamble(sh)[4]) == [0x3_0010, ID_MAIN, 7]
  {
  }

  /** The words of every arithmetic instruction, for any operands. */
  lemma ArithmeticWords(sh: Shader, a: nat, b: nat, c: nat, id: nat)
    ensures Flatten(CompileAlu(sh, Add, a, b, c, id).insts) == [0x5_0081, 6, id, a, b]
    ensures Flatten(CompileAlu(sh, Mul, a, b, c, id).insts) == [0x5_0085, 6, id, a, b]
    ensures Flatten(CompileAlu(sh, Mad, a, b, c, id).insts) == [0x5_0085, 6, id, a, b, 0x5_0081, 6, id + 1, id, c]
    ensures Flatten(CompileAlu(sh, Dp4, a, b, c, id).insts) == [0x5_0094, 4, id, a, b, 0x7_0050, 6, id + 1, id, id, id, id]
    ensures Flatten(CompileAlu(sh, Min, a, b, c, id).insts) == [0x7_000C, 6, id, GlslId(sh), 37, a, b]
    ensures Flatten(CompileAlu(sh, Max, a, b, c, id).insts) == [0x7_000C, 6, id, GlslId(sh), 40, a, b]
    ensures Flatten(CompileAlu(sh, Rsq, a, b, c, id).insts) == [0x6_000C, 6, id, GlslId(sh), 32, a]
  {
    FlattenOne(CompileAlu(sh, Add, a, b, c, id).insts);
    FlattenOne(CompileAlu(sh, Mul, a, b, c, id).insts);
    FlattenTwo(CompileAlu(sh, Mad, a, b, c, id).insts);
    FlattenTwo(CompileAlu(sh, Dp4, a, b, c, id).insts);
    FlattenOne(CompileAlu(sh, Min, a, b, c, id).insts);
    FlattenOne(CompileAlu(sh, Max, a, b, c, id).insts);
    FlattenOne(CompileAlu(sh, Rsq, a, b, c, id).insts);
  }

  lemma FlattenOne(insts: seq<Inst>)
    requires |insts| == 1
    ensures Flatten(insts) == Encode(insts[0])
  {
    assert insts[1..] == [];
  }

  lemma FlattenTwo(insts: seq<Inst>)
    requires |insts| == 2
    ensures Flatten(insts) == Encode(insts[0]) + Encode(insts[1])
  {
    FlattenOne(insts[1..]);
  }

  /** A three-component dot product shuffles both operands to vec3 first. */
  lemma Dot3Words(sh: Shader, a: nat, b: nat, c: nat, id: nat)
    ensures Flatten(CompileAlu(sh, Dp3, a, b, c, id).insts) ==
      [0x8_004F, 5, id, a, a, 0, 1, 2] + [0x8_004F, 5, id + 1, b, b, 0, 1, 2]
      + [0x5_0094, 4, id + 2, id, id + 1] + [0x7_0050, 6, id + 3, id + 2, id + 2, id + 2, id + 2]
  {
    var insts := CompileAlu(sh, Dp3, a, b, c, id).insts;
    FlattenTwo(insts[..2]);
    FlattenTwo(insts[2..]);
    FlattenAppend(insts[..2], insts[2..]);
    assert insts == insts[..2] + insts[2..];
  }

  /** A bvec4 becomes a mask by OpSelect between all ones and zero. */
  lemma MaskWords(id: nat)
    ensures Flatten(MaskInsts(id)) ==
      [0x4_002B, 4, id + 1, 0xFFFF_FFFF] + [0x7_0050, 6, id + 2, id + 1, id + 1, id + 1, id + 1]
      + [0x7_0050, 6, id + 3, 12, 12, 12, 12] + [0x6_00A9, 6, id + 4, id, id + 2, id + 3]
  {
    var insts := MaskInsts(id);
    FlattenTwo(insts[..2]);
    FlattenTwo(insts[2..]);
    FlattenAppend(insts[..2], insts[2..]);
    assert insts == insts[..2] + insts[2..];
  }

  lemma ComparisonWords(sh: Shader, op: AluOp, a: nat, b: nat, c: nat, id: nat)
    requires op.Lt? || op.Ge? || op.Eq? || op.Ne?
    ensures Flatten(CompileAlu(sh, op, a, b, c, id).insts) ==
      [if op.Lt? then 0x5_00B8 else if op.Ge? then 0x5_00BE else if op.Eq? then 0x5_00B4 else 0x5_00B6, 7, id, a, b]
      + Flatten(MaskInsts(id))
  {
    hide MaskInsts;
    var insts := CompileAlu(sh, op, a, b, c, id).insts;
    assert insts == insts[..1] + MaskInsts(id);
    FlattenOne(insts[..1]);
    FlattenAppend(insts[..1], MaskInsts(id));
  }

  /** A conditional move selects by "not equal to zero". */
  lemma MovcWords(sh: Shader, a: nat, b: nat, c: nat, id: nat)
    ensures Flatten(CompileAlu(sh, Movc, a, b, c, id).insts) ==
      [0x7_0050, 6, id, 12, 12, 12, 12] + [0x5_00B6, 7, id + 1, a, id] + [0x6_00A9, 6, id + 2, id + 1, b, c]
  {
    var insts := CompileAlu(sh, Movc, a, b, c, id).insts;
    FlattenTwo(insts[..2]);
    FlattenOne(insts[2..]);
    FlattenAppend(insts[..2], insts[2..]);
    assert insts == insts[..2] + insts[2..];
  }

  /** Loads, stores, returns, immediates and the widening of a vec3 position with w = 1.0. */
  lemma AccessWords(sh: Shader, s: Src, v: nat, value: nat, id: nat)
    ensures v != 0 && value != 0 ==> Flatten(StoreTo(v, value)) == [0x3_003E, v, value]
    ensures Flatten(CompileInstr(sh, Ret, id).insts) == [0x1_00FD]
    ensures s.kind != KIND_IMM32 && SrcVar(sh, s.kind, s.idx0) != 0 && !(s.kind == KIND_INPUT && sh.Widens(s.idx0)) ==>
      Flatten(CompileSrc(sh, s, id).insts) == [0x4_003D, 6, id, SrcVar(sh, s.kind, s.idx0)]
    ensures Encode(Constant(id, ONE)) == [0x4_002B, 4, id, 0x3F80_0000] && Encode(Extract(id, v, 2)) == [0x5_0051, 4, id, v, 2]
  {
    if v != 0 && value != 0 {
      FlattenOne(StoreTo(v, value));
    }
    FlattenOne(CompileInstr(sh, Ret, id).insts);
    if s.kind != KIND_IMM32 && SrcVar(sh, s.kind, s.idx0) != 0 && !(s.kind == KIND_INPUT && sh.Widens(s.idx0)) {
      FlattenOne(CompileSrc(sh, s, id).insts);
    }
  }
}
