/**
 Every emitted module is a well-formed SPIR-V stream: its word counts tile it, its result IDs are
 exactly 1 to bound - 1, each defined once, and its function body ends in OpReturn, OpFunctionEnd.
 */
module SpirvFormat {
  import opened Sm4
  import opened Spirv
  import opened SpirvCode

  const MAX_WORDS := 4096

  // ---------------------------------------------------------------- result IDs

  /** The result IDs that a list of instructions defines, in order. */
  function Results(insts: seq<Inst>): seq<nat>
  {
    if insts == [] then [] else
    (match Result(insts[0]) case None => [] case Some(id) => [id]) + Results(insts[1..])
  }

  function Range(lo: nat, hi: nat): seq<nat>
    requires lo <= hi
  {
    seq(hi - lo, (k: nat) => lo + k)
  }

  lemma {:induction false} ResultsAppend(a: seq<Inst>, b: seq<Inst>)
    ensures Results(a + b) == Results(a) + Results(b)
  {
    hide Result;
    if a == [] {
      assert a + b == b;
    } else {
      assert (a + b)[1..] == a[1..] + b;
      ResultsAppend(a[1..], b);
    }
  }

  /** Instructions of which each defines the next ID. */
  lemma {:induction false} ResultsOfEach(insts: seq<Inst>, lo: nat)
    requires forall k | 0 <= k < |insts| :: Result(insts[k]) == Some(lo + k)
    ensures Results(insts) == Range(lo, lo + |insts|)
  {
    hide Result;
    if insts != [] {
      forall k | 0 <= k < |insts[1..]|
        ensures Result(insts[1..][k]) == Some(lo + 1 + k)
      {
        assert insts[1..][k] == insts[k + 1];
      }
      ResultsOfEach(insts[1..], lo + 1);
    }
  }

  lemma {:induction false} ResultsOfNone(insts: seq<Inst>)
    requires forall i | i in insts :: Result(i).None?
    ensures Results(insts) == []
  {
    hide Result;
    if insts != [] {
      ResultsOfNone(insts[1..]);
    }
  }

  /** A chunk defines every ID it was given, in order. */
  ghost predicate Consecutive(c: Chunk, id: nat)
  {
    id <= c.next && Results(c.insts) == Range(id, c.next)
  }

  lemma ConsecutiveAppend(a: seq<Inst>, b: seq<Inst>, lo: nat, mid: nat, hi: nat)
    requires lo <= mid <= hi && Results(a) == Range(lo, mid) && Results(b) == Range(mid, hi)
    ensures Results(a + b) == Range(lo, hi)
  {
    hide Results, Range;
    ResultsAppend(a, b);
    RangeAppend(lo, mid, hi);
  }

  lemma RangeAppend(lo: nat, mid: nat, hi: nat)
    requires lo <= mid <= hi
    ensures Range(lo, mid) + Range(mid, hi) == Range(lo, hi)
  {
    var r := Range(lo, mid) + Range(mid, hi);
    assert forall k | 0 <= k < |r| :: r[k] == Range(lo, hi)[k];
  }

  lemma SrcIsConsecutive(sh: Shader, s: Src, id: nat)
    ensures Consecutive(CompileSrc(sh, s, id), id)
  {
    hide Results;
    var c := CompileSrc(sh, s, id);
    if c.insts == [] {
      ResultsOfNone(c.insts);
      assert Range(id, id) == [];
    } else {
      ResultsOfEach(c.insts, id);
    }
  }

  lemma AluIsConsecutive(sh: Shader, op: AluOp, a: nat, b: nat, c: nat, id: nat)
    ensures Consecutive(CompileAlu(sh, op, a, b, c, id), id)
  {
    hide Results;
    var r := CompileAlu(sh, op, a, b, c, id);
    if op.Mov? {
      ResultsOfNone(r.insts);
      assert Range(id, id) == [];
    } else {
      ResultsOfEach(r.insts, id);
    }
  }

  lemma InstrIsConsecutive(sh: Shader, i: Instr, id: nat)
    ensures Consecutive(CompileInstr(sh, i, id), id)
  {
    hide Results, CompileSrc, CompileAlu;
    assert forall k: nat :: Range(k, k) == [];
    if !i.Alu? {
      ResultsOfNone(CompileInstr(sh, i, id).insts);
    } else {
      var (a, b, c) := CompileSrcs(sh, i, id);
      var r := CompileAlu(sh, i.op, a.value, b.value, c.value, c.next);
      ResultsOfNone([]);
      SrcIsConsecutive(sh, i.a, id);
      SrcIsConsecutive(sh, i.b, a.next);
      SrcIsConsecutive(sh, i.c, b.next);
      AluIsConsecutive(sh, i.op, a.value, b.value, c.value, c.next);
      var store := StoreTo(DstVar(sh, i.dst.kind, i.dst.idx), r.value);
      ResultsOfNone(store);
      ConsecutiveAppend(a.insts, b.insts, id, a.next, b.next);
      ConsecutiveAppend(a.insts + b.insts, c.insts, id, b.next, c.next);
      ConsecutiveAppend(a.insts + b.insts + c.insts, r.insts, id, c.next, r.next);
      ConsecutiveAppend(a.insts + b.insts + c.insts + r.insts, store, id, r.next, r.next);
    }
  }

  lemma {:induction false} CodeIsConsecutive(sh: Shader, pos: nat, id: nat)
    ensures Consecutive(CompileFrom(sh, pos, id), id)
    decreases |sh.code| - pos
  {
    hide Results, CompileInstr, Decode;
    if Stops(sh.code, pos) {
      ResultsOfNone([]);
      assert Range(id, id) == [];
    } else {
      var c := CompileInstr(sh, Decode(sh.code, pos), id);
      var next := pos + LengthOf(sh.code[pos]);
      InstrIsConsecutive(sh, Decode(sh.code, pos), id);
      CodeIsConsecutive(sh, next, c.next);
      ConsecutiveAppend(c.insts, CompileFrom(sh, next, c.next).insts, id, c.next, CompileFrom(sh, next, c.next).next);
    }
  }

  // ---------------------------------------------------------------- the whole module

  /** Every ID from 1 to bound - 1 is defined exactly once, and no other. */
  ghost predicate EachOnce(ids: seq<nat>, bound: nat)
  {
    forall id: nat :: multiset(ids)[id] == if 1 <= id < bound then 1 else 0
  }

  lemma {:induction false} RangeCount(lo: nat, hi: nat, id: nat)
    requires lo <= hi
    ensures multiset(Range(lo, hi))[id] == if lo <= id < hi then 1 else 0
    decreases hi
  {
    if lo < hi {
      RangeCount(lo, hi - 1, id);
      assert Range(lo, hi) == Range(lo, hi - 1) + [hi - 1];
    } else {
      assert Range(lo, hi) == [];
    }
  }

  lemma PreambleResults(sh: Shader)
    ensures Results(Preamble(sh)) == [GlslId(sh)]
  {
    var p := Preamble(sh);
    var glsl := p[1..2];
    assert p == p[..1] + glsl + p[2..];
    ResultsOfNone(p[..1]);
    ResultsOfEach(glsl, GlslId(sh));
    ResultsOfNone(p[2..]);
    ResultsAppend(p[..1], glsl);
    ResultsAppend(p[..1] + glsl, p[2..]);
  }

  lemma GlobalResults(sh: Shader)
    ensures Results(Decorations(sh)) == []
    ensures Results(TYPES + CONSTANTS) == Range(1, ID_MAIN)
    ensures Results(Variables(sh)) == Range(FIRST_VAR, TempVar(sh, 0))
  {
    hide Results;
    ResultsOfNone(Decorations(sh));
    ResultsOfEach(TYPES + CONSTANTS, 1);
    ResultsOfEach(Variables(sh), FIRST_VAR);
  }

  lemma HeadResults(sh: Shader)
    ensures Results(FunctionHead(sh)) == [ID_MAIN, LabelId(sh)] + Range(TempVar(sh, 0), GlslId(sh))
  {
    var h := FunctionHead(sh);
    assert h == h[..1] + h[1..2] + h[2..];
    ResultsOfEach(h[..1], ID_MAIN);
    ResultsOfEach(h[1..2], LabelId(sh));
    ResultsOfEach(h[2..], TempVar(sh, 0));
    hide Results, Range;
    ResultsAppend(h[..1], h[1..2]);
    ResultsAppend(h[..1] + h[1..2], h[2..]);
    assert Range(ID_MAIN, ID_MAIN + 1) == [ID_MAIN];
    assert Range(LabelId(sh), LabelId(sh) + 1) == [LabelId(sh)];
  }

  /** The import, IDs 1 to 13, the global variables, `main` and the label, the temps, the body. */
  function AllIds(temps: nat, glsl: nat, bound: nat): seq<nat>
    requires FIRST_VAR <= temps <= glsl && glsl + 2 <= bound
  {
    [glsl] + Range(1, ID_MAIN) + Range(FIRST_VAR, temps) + ([ID_MAIN, glsl + 1] + Range(temps, glsl)) + Range(glsl + 2, bound)
  }

  lemma AllIdsOnce(temps: nat, glsl: nat, bound: nat)
    requires FIRST_VAR <= temps <= glsl && glsl + 2 <= bound
    ensures EachOnce(AllIds(temps, glsl, bound), bound)
  {
    hide Range;
    forall id: nat
      ensures multiset(AllIds(temps, glsl, bound))[id] == if 1 <= id < bound then 1 else 0
    {
      RangeCount(1, ID_MAIN, id);
      RangeCount(FIRST_VAR, temps, id);
      RangeCount(temps, glsl, id);
      RangeCount(glsl + 2, bound, id);
    }
  }

  lemma PrologueResults(sh: Shader)
    ensures Results(Prologue(sh)) ==
      [GlslId(sh)] + Range(1, ID_MAIN) + Range(FIRST_VAR, TempVar(sh, 0)) + ([ID_MAIN, LabelId(sh)] + Range(TempVar(sh, 0), GlslId(sh)))
  {
    hide Results, Range, Preamble, Decorations, Variables, FunctionHead, TYPES, CONSTANTS;
    PreambleResults(sh);
    GlobalResults(sh);
    HeadResults(sh);
    var p1 := Preamble(sh) + Decorations(sh);
    var p2 := p1 + (TYPES + CONSTANTS);
    var p3 := p2 + Variables(sh);
    ResultsAppend(Preamble(sh), Decorations(sh));
    ResultsAppend(p1, TYPES + CONSTANTS);
    ResultsAppend(p2, Variables(sh));
    ResultsAppend(p3, FunctionHead(sh));
    assert Prologue(sh) == p3 + FunctionHead(sh);
  }

  lemma ModuleResults(sh: Shader)
    ensures EachOnce(Results(Module(sh)), Body(sh).next)
  {
    hide Results, Range, Prologue, Body, EndsInReturnWord, EachOnce;
    var body := Body(sh).insts;
    PrologueResults(sh);
    BodyResults(sh);
    ResultsAppend(Prologue(sh), body);
    var tail := Ending(Prologue(sh) + body);
    ResultsOfNone(tail);
    ResultsAppend(Prologue(sh) + body, tail);
    assert Module(sh) == Prologue(sh) + body + tail;
    AllIdsOnce(TempVar(sh, 0), GlslId(sh), Body(sh).next);
    assert Results(Module(sh)) == AllIds(TempVar(sh, 0), GlslId(sh), Body(sh).next);
  }

  lemma BodyResults(sh: Shader)
    ensures FirstBodyId(sh) <= Body(sh).next && Results(Body(sh).insts) == Range(FirstBodyId(sh), Body(sh).next)
  {
    hide CompileFrom, Results, Range;
    CodeIsConsecutive(sh, 2, FirstBodyId(sh));
  }

  // ---------------------------------------------------------------- opcodes and the last word

  /** The last instruction is an OpReturn or ends in an operand below `bound`. */
  predicate EndsSafely(insts: seq<Inst>, bound: nat)
  {
    insts == [] ||
    var i := insts[|insts| - 1];
    i == Inst(OP_RETURN, []) || (|i.args| > 0 && i.args[|i.args| - 1] < bound)
  }

  ghost predicate Safe(c: Chunk, id: nat)
  {
    OpcodesFit(c.insts) && id <= c.next && c.value < c.next && EndsSafely(c.insts, c.next)
  }

  lemma SrcIsSafe(sh: Shader, s: Src, id: nat)
    requires id >= FirstBodyId(sh)
    ensures Safe(CompileSrc(sh, s, id), id)
  {
  }

  lemma AluIsSafe(sh: Shader, op: AluOp, a: nat, b: nat, c: nat, id: nat)
    requires a < id && b < id && c < id
    ensures Safe(CompileAlu(sh, op, a, b, c, id), id)
  {
  }

  lemma InstrIsSafe(sh: Shader, i: Instr, id: nat)
    requires id >= FirstBodyId(sh)
    ensures Safe(CompileInstr(sh, i, id), id)
  {
    hide CompileSrc, CompileAlu, OpcodesFit, EndsSafely, StoreTo, DstVar;
    EmptyFits();
    EmptyEnds(CompileInstr(sh, i, id).next);
    if i.Alu? {
      var (a, b, c) := CompileSrcs(sh, i, id);
      SrcIsSafe(sh, i.a, id);
      SrcIsSafe(sh, i.b, a.next);
      SrcIsSafe(sh, i.c, b.next);
      AluIsSafe(sh, i.op, a.value, b.value, c.value, c.next);
      var r := CompileAlu(sh, i.op, a.value, b.value, c.value, c.next);
      var v := DstVar(sh, i.dst.kind, i.dst.idx);
      StoreIsSafe(v, r.value, r.next);
      EmptyEnds(a.next);
      EmptyEnds(b.next);
      Joined(a.insts, a.next, b.insts, b.next);
      Joined(a.insts + b.insts, b.next, c.insts, c.next);
      Joined(a.insts + b.insts + c.insts, c.next, r.insts, r.next);
      Joined(a.insts + b.insts + c.insts + r.insts, r.next, StoreTo(v, r.value), r.next);
    }
  }

  lemma EmptyEnds(bound: nat)
    ensures EndsSafely([], bound) && EndsSafely([Inst(OP_RETURN, [])], bound)
  {
  }

  lemma StoreIsSafe(v: nat, value: nat, bound: nat)
    requires value < bound
    ensures OpcodesFit(StoreTo(v, value)) && EndsSafely(StoreTo(v, value), bound)
  {
  }

  lemma Joined(a: seq<Inst>, m: nat, b: seq<Inst>, n: nat)
    requires OpcodesFit(a) && EndsSafely(a, m) && OpcodesFit(b) && EndsSafely(b, n) && m <= n
    ensures OpcodesFit(a + b) && EndsSafely(a + b, n)
  {
    if b == [] {
      assert a + b == a;
    } else {
      FitsAppend(a, b);
    }
  }

  /** Opcodes fit 16 bits, and the last word of a translation cannot be taken for an OpReturn. */
  lemma {:induction false} CodeIsSafe(sh: Shader, pos: nat, id: nat)
    requires id >= FirstBodyId(sh)
    ensures var c := CompileFrom(sh, pos, id); OpcodesFit(c.insts) && c.next >= id && EndsSafely(c.insts, c.next)
    decreases |sh.code| - pos
  {
    hide CompileInstr, Decode, OpcodesFit;
    if Stops(sh.code, pos) {
      EmptyFits();
    } else {
      var c := CompileInstr(sh, Decode(sh.code, pos), id);
      var next := pos + LengthOf(sh.code[pos]);
      InstrIsSafe(sh, Decode(sh.code, pos), id);
      CodeIsSafe(sh, next, c.next);
      FitsAppend(c.insts, CompileFrom(sh, next, c.next).insts);
    }
  }

  lemma EmptyFits()
    ensures OpcodesFit([]) && OpcodesFit([Inst(OP_RETURN, [])])
  {
  }

  lemma FitsAppend(a: seq<Inst>, b: seq<Inst>)
    requires OpcodesFit(a) && OpcodesFit(b)
    ensures OpcodesFit(a + b)
  {
  }

  // ---------------------------------------------------------------- the theorem

  lemma {:induction false} ResultsFewerThanWords(insts: seq<Inst>)
    ensures |Results(insts)| <= |Flatten(insts)|
  {
    if insts != [] {
      ResultsFewerThanWords(insts[1..]);
    }
  }

  /** With each of 1 to bound - 1 defined once, the bound is at most the number of words. */
  lemma BoundedByCount(ids: seq<nat>, bound: nat)
    requires EachOnce(ids, bound) && bound > 0
    ensures bound - 1 <= |ids|
  {
    var all: seq<nat> := Range(1, bound);
    forall id: nat
      ensures multiset(all)[id] == multiset(ids)[id]
    {
      RangeCount(1, bound, id);
    }
    assert multiset(all) == multiset(ids);
    assert |multiset(all)| == |all| && |multiset(ids)| == |ids|;
  }

  lemma {:induction false} LastWord(insts: seq<Inst>)
    requires insts != []
    ensures
      var words := Flatten(insts);
      var i := insts[|insts| - 1];
      words != [] && words[|words| - 1] == Encode(i)[|i.args|]
  {
    if |insts| > 1 {
      LastWord(insts[1..]);
    } else {
      assert Flatten(insts[1..]) == [];
    }
  }

  lemma PrologueIsSafe(sh: Shader)
    ensures OpcodesFit(Prologue(sh)) && Prologue(sh) != [] && EndsSafely(Prologue(sh), FirstBodyId(sh))
  {
    assert OpcodesFit(Preamble(sh)) && OpcodesFit(Decorations(sh)) && OpcodesFit(Variables(sh)) && OpcodesFit(FunctionHead(sh));
    assert OpcodesFit(TYPES) && OpcodesFit(CONSTANTS);
  }

  /**
   Whenever the module fits the buffer, the declared word counts tile the stream behind the five
   header words, the IDs below the bound in the header are each defined once, and the function
   ends in OpReturn, OpFunctionEnd.
   */
  lemma ModuleIsWellFormed(sh: Shader)
    requires |Words(sh)| <= MAX_WORDS
    ensures Parse(Words(sh)[5..]) == Some(Module(sh))
    ensures EachOnce(Results(Module(sh)), Words(sh)[3])
    ensures
      var insts := Module(sh);
      |insts| >= 2 && insts[|insts| - 2..] == [Inst(OP_RETURN, []), Inst(OP_FUNCTION_END, [])]
  {
    hide Prologue, CompileFrom, Results, Parse, Flatten;
    var insts := Prologue(sh) + Body(sh).insts;
    PrologueIsSafe(sh);
    CodeIsSafe(sh, 2, FirstBodyId(sh));
    FitsAppend(Prologue(sh), Body(sh).insts);
    assert OpcodesFit(Ending(insts));
    FitsAppend(insts, Ending(insts));
    ParseFlatten(Module(sh));
    assert Words(sh)[5..] == Flatten(Module(sh));
    ModuleResults(sh);
    ResultsFewerThanWords(Module(sh));
    BodyResults(sh);
    BoundedByCount(Results(Module(sh)), Body(sh).next);
    LastWord(insts);
    assert EndsInReturnWord(insts) ==> insts[|insts| - 1] == Inst(OP_RETURN, []);
  }
}
