/**
 The token-level interpreter loop of dxbc.c: a program counter that walks SM4 tokens, a stack of
 loop starts, one shared iteration counter, and forward scans that skip untaken code.
 */
module ShaderVm {
  import opened Sm4

  const MAX_FLOW_DEPTH := 16
  const MAX_LOOP_ITER := 1024

  // ---------------------------------------------------------------- forward scan

  predicate Opens(op: int)
  {
    op == OP_IF || op == OP_LOOP
  }

  predicate Closes(op: int)
  {
    op == OP_ENDIF || op == OP_ENDLOOP
  }

  /** Where scan_to_matching ends when it is at `pos` with `depth` open constructs. */
  function Scan(code: seq<Word>, pos: nat, target: int, depth: nat): nat
    decreases |code| - pos
  {
    if pos >= |code| || LengthOf(code[pos]) == 0 then |code| else
    var op := OpcodeOf(code[pos]);
    var next := pos + LengthOf(code[pos]);
    if Opens(op) then Scan(code, next, target, depth + 1)
    else if depth == 0 && op == target then next
    else if Closes(op) then Scan(code, next, target, if depth > 0 then depth - 1 else 0)
    else Scan(code, next, target, depth)
  }

  method ScanToMatching(code: seq<Word>, start: nat, target: int) returns (r: nat)
    ensures r == Scan(code, start, target, 0)
  {
    var depth: nat := 0;
    var tok := start;
    while tok < |code|
      invariant Scan(code, start, target, 0) == Scan(code, tok, target, depth)
      decreases |code| - tok
    {
      var op := OpcodeOf(code[tok]);
      var len := LengthOf(code[tok]);
      if len == 0 {
        break;
      }
      if op == OP_IF || op == OP_LOOP {
        depth := depth + 1;
      } else if depth == 0 && op == target {
        return tok + len;
      } else if op == OP_ENDIF || op == OP_ENDLOOP {
        if depth > 0 {
          depth := depth - 1;
        }
      } else if depth == 0 && target == OP_ELSE && op == OP_ENDIF {
        assert false; // the case above has taken every ENDIF: this branch of the source is dead
      }
      tok := tok + len;
    }
    return |code|;
  }

  // ---------------------------------------------------------------- the machine

  datatype Status = Running | Finished | Garbage

  datatype Machine = Machine(tok: nat, loops: seq<nat>, iter: int, vm: Regs, status: Status)

  function Start(vm: Regs): Machine
  {
    Machine(2, [], 0, vm, Running)
  }

  function Leave(loops: seq<nat>): seq<nat>
  {
    if |loops| > 0 then loops[..|loops| - 1] else loops
  }

  /** What instruction `i`, whose successor starts at `next`, does to the machine. */
  function Effect(fpu: Fpu, code: seq<Word>, m: Machine, i: Instr, next: nat): Machine
  {
    match i
    case Nop => m.(tok := next)
    case Ret => m.(status := Finished)
    case Cut => m.(tok := next)
    case Garbled(writes) => if writes then m.(status := Garbage) else m.(tok := next)
    case Alu(_, _, _, _, _) => m.(tok := next, vm := ExecAlu(fpu, i, m.vm))
    case If(nz, cond) => m.(tok := if Taken(nz, cond, m.vm) then next else Scan(code, next, OP_ELSE, 0))
    case Else => m.(tok := Scan(code, next, OP_ENDIF, 0))
    case Endif => m.(tok := next)
    case Loop =>
      if |m.loops| < MAX_FLOW_DEPTH then m.(tok := next, loops := m.loops + [next], iter := 0) else m.(tok := next)
    case Endloop =>
      if |m.loops| == 0 then m.(tok := next)
      else if m.iter + 1 > MAX_LOOP_ITER then m.(tok := next, iter := m.iter + 1, loops := Leave(m.loops))
      else m.(tok := m.loops[|m.loops| - 1], iter := m.iter + 1)
    case Break => m.(tok := Scan(code, next, OP_ENDLOOP, 0), loops := Leave(m.loops))
    case Breakc(nz, cond) =>
      if Taken(nz, cond, m.vm) then m.(tok := Scan(code, next, OP_ENDLOOP, 0), loops := Leave(m.loops))
      else m.(tok := next)
  }

  /** One iteration of the loop in shader_vm_execute. */
  function Step(fpu: Fpu, code: seq<Word>, m: Machine): Machine
  {
    if m.status != Running then m
    else if m.tok >= |code| || LengthOf(code[m.tok]) == 0 then m.(status := Finished)
    else Effect(fpu, code, m, Decode(code, m.tok), m.tok + LengthOf(code[m.tok]))
  }

  /** The machine after `n` iterations. */
  function Run(fpu: Fpu, code: seq<Word>, m: Machine, n: nat): Machine
    decreases n
  {
    if n == 0 then m else Run(fpu, code, Step(fpu, code, m), n - 1)
  }

  lemma {:induction false} RunAdds(fpu: Fpu, code: seq<Word>, m: Machine, n: nat, k: nat)
    ensures Run(fpu, code, m, n + k) == Run(fpu, code, Run(fpu, code, m, n), k)
    decreases n
  {
    if n > 0 {
      RunAdds(fpu, code, Step(fpu, code, m), n - 1, k);
    }
  }

  lemma {:induction false} RunStays(fpu: Fpu, code: seq<Word>, m: Machine, n: nat)
    requires m.status != Running
    ensures Run(fpu, code, m, n) == m
    decreases n
  {
    if n > 0 {
      RunStays(fpu, code, m, n - 1);
    }
  }

  /**
   The interpreter loop of shader_vm_execute, stopped after `limit` iterations: some token arrays
   make the loop run forever (see ControlCases.NestedLoopsDiverge).
   */
  method Execute(fpu: Fpu, code: seq<Word>, vm0: Regs, limit: nat) returns (finished: bool, vm: Regs)
    ensures
      var m := Run(fpu, code, Start(vm0), limit);
      vm == m.vm && finished == (m.status != Running)
  {
    hide Decode, ExecAlu, Taken, Scan, Run;
    vm := vm0;
    var tok: nat := 2;
    var loopStack := new nat[MAX_FLOW_DEPTH];
    var loopDepth := 0;
    var loopIter := 0;
    var steps := 0;
    RunNone(fpu, code, Start(vm0));
    assert loopStack[..0] == [];
    while steps < limit
      invariant 0 <= loopDepth <= MAX_FLOW_DEPTH && steps <= limit
      invariant Run(fpu, code, Start(vm0), steps) == Machine(tok, loopStack[..loopDepth], loopIter, vm, Running)
    {
      ghost var m := Machine(tok, loopStack[..loopDepth], loopIter, vm, Running);
      RunNext(fpu, code, Start(vm0), steps);
      if tok >= |code| || LengthOf(code[tok]) == 0 {
        RunHalts(fpu, code, Start(vm0), steps + 1, limit);
        return true, vm;
      }
      var next: nat := tok + LengthOf(code[tok]);
      var i := Decode(code, tok);
      if i.Ret? || i == Garbled(true) {
        RunHalts(fpu, code, Start(vm0), steps + 1, limit);
        return true, vm;
      }
      match i {
        case Alu(_, _, _, _, _) =>
          vm := ExecAlu(fpu, i, vm);
        case If(nz, cond) =>
          if !Taken(nz, cond, vm) {
            next := ScanToMatching(code, next, OP_ELSE);
          }
        case Else =>
          next := ScanToMatching(code, next, OP_ENDIF);
        case Loop =>
          if loopDepth < MAX_FLOW_DEPTH {
            loopStack[loopDepth] := next;
            loopDepth := loopDepth + 1;
            loopIter := 0;
          }
        case Endloop =>
          if loopDepth > 0 {
            loopIter := loopIter + 1;
            if loopIter > MAX_LOOP_ITER {
              loopDepth := loopDepth - 1;
            } else {
              next := loopStack[loopDepth - 1];
            }
          }
        case Break =>
          if loopDepth > 0 {
            loopDepth := loopDepth - 1;
          }
          next := ScanToMatching(code, next, OP_ENDLOOP);
        case Breakc(nz, cond) =>
          if Taken(nz, cond, vm) {
            if loopDepth > 0 {
              loopDepth := loopDepth - 1;
            }
            next := ScanToMatching(code, next, OP_ENDLOOP);
          }
        case _ =>
      }
      tok := next;
      steps := steps + 1;
      assert Machine(tok, loopStack[..loopDepth], loopIter, vm, Running) == Step(fpu, code, m);
    }
    finished := false;
  }

  lemma RunNone(fpu: Fpu, code: seq<Word>, m: Machine)
    ensures Run(fpu, code, m, 0) == m
  {
  }

  lemma RunNext(fpu: Fpu, code: seq<Word>, m: Machine, n: nat)
    ensures Run(fpu, code, m, n + 1) == Step(fpu, code, Run(fpu, code, m, n))
  {
    hide Step;
    RunAdds(fpu, code, m, n, 1);
    assert forall m' :: Run(fpu, code, m', 1) == Run(fpu, code, Step(fpu, code, m'), 0);
  }

  /** A machine that has halted keeps its registers. */
  lemma RunHalts(fpu: Fpu, code: seq<Word>, m: Machine, n: nat, k: nat)
    requires n <= k && Run(fpu, code, m, n).status != Running
    ensures Run(fpu, code, m, k) == Run(fpu, code, m, n)
  {
    RunAdds(fpu, code, m, n, k - n);
    RunStays(fpu, code, Run(fpu, code, m, n), k - n);
  }
}
