/**
 The limits of the shader machine on assembled tokens: how often a loop can spin, what becomes of a
 loop nested too deeply, and what a program that ends inside an instruction does.
 */
module MachineLimits {
  import opened Sm4
  import opened ShaderVm
  import opened ControlFlow
  import opened Assembly

  const LOOP_TOKEN := OpToken(48, false, 1)
  const ENDLOOP_TOKEN := OpToken(22, false, 1)

  // ---------------------------------------------------------------- loops

  lemma EndloopStep(fpu: Fpu, code: seq<Word>, m: Machine)
    requires m.status == Running && m.tok < |code| && code[m.tok] == ENDLOOP_TOKEN && m.loops != []
    ensures Step(fpu, code, m) ==
      if m.iter < 1024 then m.(tok := m.loops[|m.loops| - 1], iter := m.iter + 1)
      else m.(tok := m.tok + 1, iter := m.iter + 1, loops := m.loops[..|m.loops| - 1])
  {
    hide Step, Expect, OpToken;
    FlowDecodes(code, m.tok, 22);
    StepAt(fpu, code, m, Endloop);
  }

  lemma LoopStep(fpu: Fpu, code: seq<Word>, m: Machine)
    requires m.status == Running && m.tok < |code| && code[m.tok] == LOOP_TOKEN
    ensures Step(fpu, code, m) ==
      if |m.loops| < 16 then m.(tok := m.tok + 1, loops := m.loops + [m.tok + 1], iter := 0) else m.(tok := m.tok + 1)
  {
    hide Step, Expect, OpToken;
    FlowDecodes(code, m.tok, 48);
    StepAt(fpu, code, m, Loop);
  }

  /** From the ENDLOOP of an empty body, with `k` rounds left. */
  lemma {:induction false} Spins(fpu: Fpu, code: seq<Word>, m: Machine, k: nat)
    requires m.status == Running && m.tok < |code| && code[m.tok] == ENDLOOP_TOKEN
    requires m.loops != [] && m.loops[|m.loops| - 1] == m.tok && m.iter == 1024 - k
    ensures Run(fpu, code, m, k + 1) == m.(tok := m.tok + 1, iter := 1025, loops := m.loops[..|m.loops| - 1])
    decreases k
  {
    hide Step, ENDLOOP_TOKEN;
    EndloopStep(fpu, code, m);
    var n := Step(fpu, code, m);
    if k == 0 {
      RunNone(fpu, code, n);
    } else {
      Spins(fpu, code, n, k - 1);
    }
  }

  /** A loop with nothing in it passes its ENDLOOP 1025 times and is left behind: registers and stack as they were. */
  lemma EmptyLoopSpins(fpu: Fpu, code: seq<Word>, m: Machine)
    requires m.status == Running && m.tok + 1 < |code| && code[m.tok] == LOOP_TOKEN && code[m.tok + 1] == ENDLOOP_TOKEN
    requires |m.loops| < 16
    ensures Run(fpu, code, m, 1026) == m.(tok := m.tok + 2, iter := 1025)
  {
    hide Step, Run, LOOP_TOKEN, ENDLOOP_TOKEN;
    LoopStep(fpu, code, m);
    var n := Step(fpu, code, m);
    Spins(fpu, code, n, 1024);
    RunFirst(fpu, code, m, 1025);
    assert n.loops[..|n.loops| - 1] == m.loops;
  }

  lemma RunFirst(fpu: Fpu, code: seq<Word>, m: Machine, n: nat)
    ensures Run(fpu, code, m, n + 1) == Run(fpu, code, Step(fpu, code, m), n)
  {
  }

  /** Inside sixteen loops a further LOOP is not entered, so its ENDLOOP sends control to the loop around it. */
  lemma SeventeenthLoopJumpsOut(fpu: Fpu, code: seq<Word>, m: Machine)
    requires m.status == Running && m.tok + 1 < |code| && code[m.tok] == LOOP_TOKEN && code[m.tok + 1] == ENDLOOP_TOKEN
    requires |m.loops| == 16 && m.iter < 1024
    ensures Run(fpu, code, m, 2) == m.(tok := m.loops[15], iter := m.iter + 1)
  {
    hide Step, Run, LOOP_TOKEN, ENDLOOP_TOKEN;
    LoopStep(fpu, code, m);
    var n := Step(fpu, code, m);
    EndloopStep(fpu, code, n);
    RunFirst(fpu, code, m, 1);
    RunFirst(fpu, code, n, 0);
    RunNone(fpu, code, Step(fpu, code, n));
  }

  // ---------------------------------------------------------------- programs cut short

  /** A condition whose operand is missing is evaluated on memory that nothing has written. */
  lemma MissingConditionIsGarbage(fpu: Fpu, code: seq<Word>, m: Machine, isIf: bool, nonZero: bool, len: int)
    requires m.status == Running && m.tok + 1 == |code| && 0 < len < 128
    requires code[m.tok] == OpToken(if isIf then 31 else 3, nonZero, len)
    ensures Step(fpu, code, m) == m.(status := Garbage)
  {
    hide OpToken, DecodeAlu, OpcodeOf, LengthOf, TestsNonZero;
    OpFields(if isIf then 31 else 3, nonZero, len);
  }

  /** An operation without its target does nothing. */
  lemma MissingTargetIsSkipped(fpu: Fpu, code: seq<Word>, m: Machine, op: AluOp, len: int)
    requires m.status == Running && m.tok + 1 == |code| && 0 < len < 128
    requires code[m.tok] == OpToken(Opcode(op), false, len)
    ensures Step(fpu, code, m) == m.(tok := m.tok + len)
  {
    hide OpToken, DecodeCondition, OpcodeOf, LengthOf, Scan;
    OpFields(Opcode(op), false, len);
  }

  /** An operation without its operands stores garbage if its target register exists, and else does nothing. */
  lemma MissingOperandIsGarbage(fpu: Fpu, code: seq<Word>, m: Machine, op: AluOp, t: Target, len: int)
    requires m.status == Running && m.tok + 3 == |code| && 0 < len < 128
    requires code[m.tok] == OpToken(Opcode(op), false, len) && Holds(code, m.tok + 1, TargetWords(t, None))
    ensures Step(fpu, code, m) ==
      if t.index < (if t.output then 8 else 32) then m.(status := Garbage) else m.(tok := m.tok + len)
  {
    hide OpToken, DecodeDst, DecodeCondition, OpcodeOf, LengthOf, Scan, TargetWords, Holds, MaskBits;
    OpFields(Opcode(op), false, len);
    ShortTarget(t);
    TargetDecodes(code, m.tok + 1, t, None);
  }
}
