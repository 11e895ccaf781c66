/**
 Programs on which the interpreter departs from what its author meant: an untaken IF without ELSE,
 and nested loops that share their iteration counter.
 */
module ControlCases {
  import opened Sm4
  import opened ShaderVm
  import opened ControlFlow

  /**
   An untaken IF that has no ELSE: the skip ends behind its own ENDIF if and only if nothing
   follows that ENDIF. Otherwise it runs on to a later ELSE or to the end of the program.
   */
  lemma {:induction false} IfWithoutElse(code: seq<Word>, pos: nat, thn: Block, depth: nat, stray: Stray)
    requires WellFormed(thn, depth, stray) && Spell(code, pos, thn).Some?
    requires Expect(code, Spell(code, pos, thn).value, Endif).Some?
    ensures
      var behind := Expect(code, Spell(code, pos, thn).value, Endif).value;
      Scan(code, pos, OP_ELSE, 0) == behind <==> behind == |code|
  {
    hide Scan, Spell, Expect, WellFormed;
    var p2 := Spell(code, pos, thn).value;
    ExpectedIsInside(code, p2, Endif);
    ScanOver(code, pos, thn, depth, stray, OP_ELSE, 0);
    ScanStep(code, p2, Endif, OP_ELSE, 0);
    ScanAdvances(code, Expect(code, p2, Endif).value, OP_ELSE, 0);
  }

  lemma ExpectedIsInside(code: seq<Word>, pos: nat, i: Instr)
    requires Expect(code, pos, i).Some?
    ensures pos < Expect(code, pos, i).value <= |code|
  {
    hide Decode;
  }

  /** if_nz 0 { } ; mov o0, 1.0 */
  const SKIPPED_MOV: seq<Word> :=
    [0, 11, 0x0304_001F, 0x4001, 0, 0x0100_0015, 0x0500_0036, 0x10_20F2, 0, 0x4001, ONE]

  lemma SkippedIf()
    ensures Expect(SKIPPED_MOV, 2, If(true, Src(KIND_IMM32, 1, 0, 0, 0, 0, ZERO4))) == Some(5)
  {
    hide DecodeAlu;
    assert DecodeSrc(SKIPPED_MOV, 3) == Decoded(Src(KIND_IMM32, 1, 0, 0, 0, 0, ZERO4), 5);
  }

  lemma SkippedEndif()
    ensures Expect(SKIPPED_MOV, 5, Endif) == Some(6)
  {
    hide DecodeAlu, DecodeCondition;
  }

  lemma SkippedMove()
    ensures Expect(SKIPPED_MOV, 6, Alu(Mov, Dst(KIND_OUTPUT, 0, 15), Src(KIND_IMM32, 1, 0, 0, 0, 0, Splat(ONE)), NO_SRC, NO_SRC)) == Some(11)
  {
    hide DecodeCondition;
    assert DecodeDst(SKIPPED_MOV, 7) == Decoded(Dst(KIND_OUTPUT, 0, 15), 9);
    assert DecodeSrc(SKIPPED_MOV, 9) == Decoded(Src(KIND_IMM32, 1, 0, 0, 0, 0, Splat(ONE)), 11);
  }

  /**
   The untaken IF of `SKIPPED_MOV` has no ELSE, so its skip runs past its ENDIF to the end: the
   program halts with the registers it began with, although the move behind the IF sets o0.x to 1.
   */
  lemma UntakenIfSkipsTheRest(fpu: Fpu, vm: Regs)
    ensures forall k | k >= 2 :: Run(fpu, SKIPPED_MOV, Start(vm), k) == Machine(11, [], 0, vm, Finished)
    ensures Decode(SKIPPED_MOV, 6).Alu? && ExecAlu(fpu, Decode(SKIPPED_MOV, 6), vm).outputs[0].x == ONE
  {
    hide Scan, Step, Run, Decode, OpcodeOf, LengthOf;
    var code, m := SKIPPED_MOV, Start(vm);
    SkippedIf();
    SkippedEndif();
    SkippedMove();
    var cond := Src(KIND_IMM32, 1, 0, 0, 0, 0, ZERO4);
    StepAt(fpu, code, m, If(true, cond));
    ScanStep(code, 5, Endif, OP_ELSE, 0);
    ScanStep(code, 6, Decode(code, 6), OP_ELSE, 0);
    ScanAdvances(code, 11, OP_ELSE, 0);
    var m1 := Run(fpu, code, m, 1);
    StepOff(fpu, code, m1);
    RunNext(fpu, code, m, 1);
    forall k | k >= 2
      ensures Run(fpu, code, m, k) == Run(fpu, code, m, 2)
    {
      RunHalts(fpu, code, m, 2, k);
    }
  }

  function Bare(op: int): Word
    requires 0 <= op < 2048
  {
    op + 0x100_0000
  }

  /** loop { loop { break } }: the inner loop resets the counter that should bound the outer one. */
  const NESTED_LOOPS: seq<Word> :=
    [0, 7, Bare(OP_LOOP), Bare(OP_LOOP), Bare(OP_BREAK), Bare(OP_ENDLOOP), Bare(OP_ENDLOOP)]

  ghost predicate InOuterLoop(m: Machine)
  {
    && m.status == Running
    && (|| (m.tok == 2 && m.loops == [])
        || (m.tok == 3 && m.loops == [3])
        || (m.tok == 4 && m.loops == [3, 4])
        || (m.tok == 6 && m.loops == [3] && m.iter == 0))
    && m.iter <= 1
    && (m.tok == 4 ==> m.iter == 0)
  }

  lemma BareToken(code: seq<Word>, pos: nat, op: int)
    requires pos < |code| && 0 <= op < 2048 && code[pos] == Bare(op)
    ensures OpcodeOf(code[pos]) == op && LengthOf(code[pos]) == 1
    ensures op == OP_LOOP ==> Expect(code, pos, Loop) == Some(pos + 1)
    ensures op == OP_BREAK ==> Expect(code, pos, Break) == Some(pos + 1)
    ensures op == OP_ENDLOOP ==> Expect(code, pos, Endloop) == Some(pos + 1)
  {
    hide DecodeAlu, DecodeCondition;
    assert Bare(op) / 0x100_0000 == 1;
    assert Bare(op) % 2048 == op;
  }

  lemma NestedLoopsTokens()
    ensures
      var code := NESTED_LOOPS;
      && Expect(code, 2, Loop) == Some(3)
      && Expect(code, 3, Loop) == Some(4)
      && Expect(code, 4, Break) == Some(5)
      && Expect(code, 6, Endloop) == Some(7)
      && Scan(code, 5, OP_ENDLOOP, 0) == 6
  {
    hide Decode, OpcodeOf, LengthOf;
    var code := NESTED_LOOPS;
    BareToken(code, 2, OP_LOOP);
    BareToken(code, 3, OP_LOOP);
    BareToken(code, 4, OP_BREAK);
    BareToken(code, 5, OP_ENDLOOP);
    BareToken(code, 6, OP_ENDLOOP);
  }

  lemma NestedLoopsStep(fpu: Fpu, m: Machine)
    requires InOuterLoop(m)
    ensures InOuterLoop(Step(fpu, NESTED_LOOPS, m))
  {
    hide Step, Scan, Expect;
    NestedLoopsTokens();
    StepAt(fpu, NESTED_LOOPS, m, if m.tok == 4 then Break else if m.tok == 6 then Endloop else Loop);
  }

  lemma {:induction false} NestedLoopsCycle(fpu: Fpu, m: Machine, n: nat)
    requires InOuterLoop(m)
    ensures InOuterLoop(Run(fpu, NESTED_LOOPS, m, n))
    decreases n
  {
    hide Step;
    if n > 0 {
      NestedLoopsStep(fpu, m);
      NestedLoopsCycle(fpu, Step(fpu, NESTED_LOOPS, m), n - 1);
    }
  }

  /** The inner loop resets the counter of the outer one, so this program never halts. */
  lemma NestedLoopsDiverge(fpu: Fpu, vm: Regs)
    ensures forall n: nat :: Run(fpu, NESTED_LOOPS, Start(vm), n).status == Running
  {
    forall n: nat
      ensures Run(fpu, NESTED_LOOPS, Start(vm), n).status == Running
    {
      NestedLoopsCycle(fpu, Start(vm), n);
    }
  }
}
