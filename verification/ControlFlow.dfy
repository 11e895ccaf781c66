/**
 Structured control flow of SM4 shaders, and the proof that the token-level interpreter with its
 forward scans implements it, for loops nested in any way and for IFs with and without ELSE.
 */
module ControlFlow {
  import opened Sm4
  import opened ShaderVm

  // ---------------------------------------------------------------- syntax trees

  datatype Stmt =
    | Basic(instr: Instr)
    | Return
    | IfElse(nonZero: bool, cond: Src, thn: Block, els: Block)
    | IfOnly(nonZero: bool, cond: Src, thn: Block)
    | Repeat(body: Block)
    | Exit
    | ExitIf(nonZero: bool, cond: Src)

  datatype Block = Empty | Seq(first: Stmt, rest: Block)

  /** Where an untaken IF without ELSE goes from here: see `Strayed`. */
  datatype Stray = ToEnd | ToElse | OutOfLoop

  /**
   Only straight-line instructions are basic, exits occur in loops, and loops nest no deeper than
   the loop stack. An IF without ELSE may not stand where its skip would leave a loop and land in
   an ELSE around it, for then the loop stack no longer fits the code.
   */
  predicate WellFormed(b: Block, depth: nat, stray: Stray)
  {
    b.Seq? ==> WellFormedStmt(b.first, depth, stray) && WellFormed(b.rest, depth, stray)
  }

  predicate WellFormedStmt(s: Stmt, depth: nat, stray: Stray)
  {
    match s
    case Basic(i) => i.Alu? || i.Nop?
    case Return => true
    case IfElse(_, _, thn, els) => WellFormed(thn, depth, ToElse) && WellFormed(els, depth, stray)
    case IfOnly(_, _, thn) => stray != OutOfLoop && WellFormed(thn, depth, stray)
    case Repeat(body) => depth < MAX_FLOW_DEPTH && WellFormed(body, depth + 1, if stray == ToEnd then ToEnd else OutOfLoop)
    case Exit => depth > 0
    case ExitIf(_, _) => depth > 0
  }

  // ---------------------------------------------------------------- big-step semantics

  /**
   How a block ends: normally, at a break, at a return, at an untaken IF without ELSE, at such an
   IF inside a loop of the block, or not within the iterations allowed. Registers come with the
   iteration counter that all loops share.
   */
  datatype Outcome =
    | Normal(vm: Regs, iter: int)
    | Exited(vm: Regs, iter: int)
    | Returned(vm: Regs)
    | Strayed(vm: Regs, iter: int)
    | Lost(vm: Regs)
    | More

  /** `fuel` bounds the iterations on any path of nested loops. */
  function Exec(fpu: Fpu, b: Block, vm: Regs, iter: int, fuel: nat): Outcome
    decreases fuel, b, 0
  {
    match b
    case Empty => Normal(vm, iter)
    case Seq(s, rest) =>
      var o := ExecStmt(fpu, s, vm, iter, fuel);
      if o.Normal? then Exec(fpu, rest, o.vm, o.iter, fuel) else o
  }

  /** An untaken IF without ELSE abandons the then-part around it and enters that IF's else-part. */
  function ExecStmt(fpu: Fpu, s: Stmt, vm: Regs, iter: int, fuel: nat): Outcome
    decreases fuel, s, 0
  {
    match s
    case Basic(i) => Normal(if i.Alu? then ExecAlu(fpu, i, vm) else vm, iter)
    case Return => Returned(vm)
    case IfElse(nz, cond, thn, els) =>
      if !Taken(nz, cond, vm) then Exec(fpu, els, vm, iter, fuel) else
      var o := Exec(fpu, thn, vm, iter, fuel);
      if o.Strayed? then Exec(fpu, els, o.vm, o.iter, fuel) else o
    case IfOnly(nz, cond, thn) => if Taken(nz, cond, vm) then Exec(fpu, thn, vm, iter, fuel) else Strayed(vm, iter)
    case Repeat(body) => Iterate(fpu, body, vm, 0, fuel)
    case Exit => Exited(vm, iter)
    case ExitIf(nz, cond) => if Taken(nz, cond, vm) then Exited(vm, iter) else Normal(vm, iter)
  }

  /** Entries of a loop body until the counter passes its limit; an exit ends this loop and no other. */
  function Iterate(fpu: Fpu, body: Block, vm: Regs, iter: int, fuel: nat): Outcome
    decreases fuel, body, 1
  {
    if fuel == 0 then More else
    var o := Exec(fpu, body, vm, iter, fuel - 1);
    match o
    case Normal(vm', iter') =>
      if iter' + 1 > MAX_LOOP_ITER then Normal(vm', iter' + 1) else Iterate(fpu, body, vm', iter' + 1, fuel - 1)
    case Exited(vm', iter') => Normal(vm', iter')
    case Strayed(vm', _) => Lost(vm')
    case _ => o
  }

  // ---------------------------------------------------------------- how trees are spelled in tokens

  /** The position behind the instruction at `pos`, if there is a complete `i` there. */
  function Expect(code: seq<Word>, pos: nat, i: Instr): Option<nat>
  {
    if pos < |code| && LengthOf(code[pos]) > 0 && pos + LengthOf(code[pos]) <= |code| && Decode(code, pos) == i
    then Some(pos + LengthOf(code[pos])) else None
  }

  /** The position behind block `b` if the tokens from `pos` on spell it. */
  function Spell(code: seq<Word>, pos: nat, b: Block): Option<nat>
    decreases b
  {
    match b
    case Empty => Some(pos)
    case Seq(s, rest) =>
      match SpellStmt(code, pos, s)
      case None => None
      case Some(p) => Spell(code, p, rest)
  }

  function SpellStmt(code: seq<Word>, pos: nat, s: Stmt): Option<nat>
    decreases s
  {
    match s
    case Basic(i) => Expect(code, pos, i)
    case Return => Expect(code, pos, Ret)
    case Exit => Expect(code, pos, Break)
    case ExitIf(nz, cond) => Expect(code, pos, Breakc(nz, cond))
    case Repeat(body) =>
      (match Expect(code, pos, Loop)
       case None => None
       case Some(p1) =>
         match Spell(code, p1, body)
         case None => None
         case Some(p2) => Expect(code, p2, Endloop))
    case IfOnly(nz, cond, thn) =>
      (match Expect(code, pos, If(nz, cond))
       case None => None
       case Some(p1) =>
         match Spell(code, p1, thn)
         case None => None
         case Some(p2) => Expect(code, p2, Endif))
    case IfElse(nz, cond, thn, els) =>
      match Expect(code, pos, If(nz, cond))
      case None => None
      case Some(p1) =>
        match Spell(code, p1, thn)
        case None => None
        case Some(p2) =>
          match Expect(code, p2, Else)
          case None => None
          case Some(p3) =>
            match Spell(code, p3, els)
            case None => None
            case Some(p4) => Expect(code, p4, Endif)
  }

  // ---------------------------------------------------------------- scans step over whole constructs

  predicate ScanTarget(target: int)
  {
    target == OP_ELSE || target == OP_ENDIF || target == OP_ENDLOOP
  }

  predicate Plain(i: Instr)
  {
    i.Alu? || i.Nop? || i.Ret? || i.Break? || i.Breakc?
  }

  /** What a scan does at a complete instruction. */
  lemma ScanStep(code: seq<Word>, pos: nat, i: Instr, target: int, depth: nat)
    requires Expect(code, pos, i).Some? && ScanTarget(target)
    ensures
      var next := Expect(code, pos, i).value;
      && (Plain(i) ==> Scan(code, pos, target, depth) == Scan(code, next, target, depth))
      && (i.If? || i.Loop? ==> Scan(code, pos, target, depth) == Scan(code, next, target, depth + 1))
      && (i.Else? ==> Scan(code, pos, target, depth) == if depth == 0 && target == OP_ELSE then next else Scan(code, next, target, depth))
      && (i.Endif? ==>
            Scan(code, pos, target, depth) == if depth > 0 then Scan(code, next, target, depth - 1) else if target == OP_ENDIF then next else Scan(code, next, target, 0))
      && (i.Endloop? ==>
            Scan(code, pos, target, depth) == if depth > 0 then Scan(code, next, target, depth - 1) else if target == OP_ENDLOOP then next else Scan(code, next, target, 0))
  {
    hide Decode;
    DecodedOpcode(code, pos);
  }

  lemma DecodedOpcode(code: seq<Word>, pos: nat)
    requires pos < |code|
    ensures
      var i := Decode(code, pos);
      var op := OpcodeOf(code[pos]);
      && (i.If? ==> op == OP_IF)
      && (i.Else? ==> op == OP_ELSE)
      && (i.Endif? ==> op == OP_ENDIF)
      && (i.Loop? ==> op == OP_LOOP)
      && (i.Endloop? ==> op == OP_ENDLOOP)
      && (Plain(i) ==> !Opens(op) && !Closes(op) && op != OP_ELSE)
  {
  }

  /** Straight-line instructions are the only basic ones. */
  predicate Structured(b: Block)
  {
    b.Seq? ==> StructuredStmt(b.first) && Structured(b.rest)
  }

  predicate StructuredStmt(s: Stmt)
  {
    match s
    case Basic(i) => i.Alu? || i.Nop?
    case IfElse(_, _, thn, els) => Structured(thn) && Structured(els)
    case IfOnly(_, _, thn) => Structured(thn)
    case Repeat(body) => Structured(body)
    case _ => true
  }

  lemma {:induction false} WellFormedIsStructured(b: Block, depth: nat, stray: Stray)
    requires WellFormed(b, depth, stray)
    ensures Structured(b)
    decreases b
  {
    if b.Seq? {
      WellFormedIsStructured(b.rest, depth, stray);
      match b.first
      case IfElse(_, _, thn, els) =>
        WellFormedIsStructured(thn, depth, ToElse);
        WellFormedIsStructured(els, depth, stray);
      case IfOnly(_, _, thn) =>
        WellFormedIsStructured(thn, depth, stray);
      case Repeat(body) =>
        WellFormedIsStructured(body, depth + 1, if stray == ToEnd then ToEnd else OutOfLoop);
      case _ =>
    }
  }

  /** A scan passes over a whole block as if it were not there. */
  lemma {:induction false} ScanPast(code: seq<Word>, pos: nat, b: Block, target: int, depth: nat)
    requires Spell(code, pos, b).Some? && ScanTarget(target) && Structured(b)
    ensures Scan(code, pos, target, depth) == Scan(code, Spell(code, pos, b).value, target, depth)
    decreases b
  {
    hide Scan, SpellStmt, StructuredStmt;
    if b.Seq? {
      ScanPastStmt(code, pos, b.first, target, depth);
      ScanPast(code, SpellStmt(code, pos, b.first).value, b.rest, target, depth);
    }
  }

  lemma {:induction false} ScanPastStmt(code: seq<Word>, pos: nat, s: Stmt, target: int, depth: nat)
    requires SpellStmt(code, pos, s).Some? && ScanTarget(target) && StructuredStmt(s)
    ensures Scan(code, pos, target, depth) == Scan(code, SpellStmt(code, pos, s).value, target, depth)
    decreases s
  {
    hide Scan, Expect, Spell, Structured;
    match s {
      case Basic(i) =>
        ScanStep(code, pos, i, target, depth);
      case Return =>
        ScanStep(code, pos, Ret, target, depth);
      case Exit =>
        ScanStep(code, pos, Break, target, depth);
      case ExitIf(nz, cond) =>
        ScanStep(code, pos, Breakc(nz, cond), target, depth);
      case Repeat(body) =>
        var p1 := Expect(code, pos, Loop).value;
        ScanStep(code, pos, Loop, target, depth);
        ScanPast(code, p1, body, target, depth + 1);
        ScanStep(code, Spell(code, p1, body).value, Endloop, target, depth + 1);
      case IfOnly(nz, cond, thn) =>
        var p1 := Expect(code, pos, If(nz, cond)).value;
        ScanStep(code, pos, If(nz, cond), target, depth);
        ScanPast(code, p1, thn, target, depth + 1);
        ScanStep(code, Spell(code, p1, thn).value, Endif, target, depth + 1);
      case IfElse(nz, cond, thn, els) =>
        var p1 := Expect(code, pos, If(nz, cond)).value;
        var p2 := Spell(code, p1, thn).value;
        var p3 := Expect(code, p2, Else).value;
        ScanStep(code, pos, If(nz, cond), target, depth);
        ScanPast(code, p1, thn, target, depth + 1);
        ScanStep(code, p2, Else, target, depth + 1);
        ScanPast(code, p3, els, target, depth + 1);
        ScanStep(code, Spell(code, p3, els).value, Endif, target, depth + 1);
    }
  }

  lemma ScanOver(code: seq<Word>, pos: nat, b: Block, d: nat, stray: Stray, target: int, depth: nat)
    requires Spell(code, pos, b).Some? && ScanTarget(target) && WellFormed(b, d, stray)
    ensures Scan(code, pos, target, depth) == Scan(code, Spell(code, pos, b).value, target, depth)
  {
    WellFormedIsStructured(b, d, stray);
    ScanPast(code, pos, b, target, depth);
  }

  /** A scan moves forward or ends at the end of the code. */
  lemma {:induction false} ScanAdvances(code: seq<Word>, pos: nat, target: int, depth: nat)
    ensures if pos >= |code| then Scan(code, pos, target, depth) == |code| else Scan(code, pos, target, depth) > pos
    decreases |code| - pos
  {
    if pos < |code| && LengthOf(code[pos]) != 0 {
      var next := pos + LengthOf(code[pos]);
      ScanAdvances(code, next, target, depth + 1);
      ScanAdvances(code, next, target, if depth > 0 then depth - 1 else 0);
      ScanAdvances(code, next, target, depth);
    }
  }

  // ---------------------------------------------------------------- how well-formed code can end

  ghost predicate EndsWithin(o: Outcome, depth: nat, stray: Stray)
  {
    && (o.Exited? ==> depth > 0)
    && (o.Strayed? ==> stray != OutOfLoop)
    && (o.Lost? ==> stray == ToEnd)
  }

  /** Breaks stay in loops, and no skip leaves a loop towards an ELSE. */
  lemma {:induction false} BlockEndsWithin(fpu: Fpu, b: Block, depth: nat, stray: Stray, vm: Regs, iter: int, fuel: nat)
    requires WellFormed(b, depth, stray)
    ensures EndsWithin(Exec(fpu, b, vm, iter, fuel), depth, stray)
    decreases fuel, b, 0
  {
    hide ExecStmt, WellFormedStmt;
    if b.Seq? {
      StmtEndsWithin(fpu, b.first, depth, stray, vm, iter, fuel);
      var o := ExecStmt(fpu, b.first, vm, iter, fuel);
      if o.Normal? {
        BlockEndsWithin(fpu, b.rest, depth, stray, o.vm, o.iter, fuel);
      }
    }
  }

  lemma {:induction false} StmtEndsWithin(fpu: Fpu, s: Stmt, depth: nat, stray: Stray, vm: Regs, iter: int, fuel: nat)
    requires WellFormedStmt(s, depth, stray)
    ensures EndsWithin(ExecStmt(fpu, s, vm, iter, fuel), depth, stray)
    decreases fuel, s, 0
  {
    hide Exec, Iterate, WellFormed, ExecAlu, Taken;
    match s
    case IfElse(_, _, thn, els) =>
      BlockEndsWithin(fpu, thn, depth, ToElse, vm, iter, fuel);
      BlockEndsWithin(fpu, els, depth, stray, vm, iter, fuel);
      var o := Exec(fpu, thn, vm, iter, fuel);
      if o.Strayed? {
        BlockEndsWithin(fpu, els, depth, stray, o.vm, o.iter, fuel);
      }
    case IfOnly(_, _, thn) =>
      BlockEndsWithin(fpu, thn, depth, stray, vm, iter, fuel);
    case Repeat(body) =>
      LoopEndsWithin(fpu, body, depth, stray, vm, 0, fuel);
    case _ =>
  }

  lemma {:induction false} LoopEndsWithin(fpu: Fpu, body: Block, depth: nat, stray: Stray, vm: Regs, iter: int, fuel: nat)
    requires WellFormed(body, depth + 1, if stray == ToEnd then ToEnd else OutOfLoop)
    ensures var o := Iterate(fpu, body, vm, iter, fuel); !o.Exited? && !o.Strayed? && (o.Lost? ==> stray == ToEnd)
    decreases fuel, body, 1
  {
    hide Exec, WellFormed;
    if fuel > 0 {
      BlockEndsWithin(fpu, body, depth + 1, if stray == ToEnd then ToEnd else OutOfLoop, vm, iter, fuel - 1);
      var o := Exec(fpu, body, vm, iter, fuel - 1);
      if o.Normal? {
        LoopEndsWithin(fpu, body, depth, stray, o.vm, o.iter + 1, fuel - 1);
      }
    }
  }

  // ---------------------------------------------------------------- simulation

  /** The machine state that an outcome of a block ending at `e` corresponds to. */
  ghost predicate Arrives(code: seq<Word>, m: Machine, o: Outcome, e: nat, m': Machine)
  {
    match o
    case Normal(vm, iter) => m' == Machine(e, m.loops, iter, vm, Running)
    case Exited(vm, iter) => m' == Machine(Scan(code, e, OP_ENDLOOP, 0), Leave(m.loops), iter, vm, Running)
    case Returned(vm) => m'.vm == vm && m'.status == Finished
    case Strayed(vm, iter) => m' == Machine(Scan(code, e, OP_ELSE, 0), m.loops, iter, vm, Running)
    case Lost(vm) => m'.vm == vm && m'.tok == Scan(code, e, OP_ELSE, 0) && m'.status == Running
    case More => false
  }

  /** After `n` steps from `m` the machine is `m'`: at the outcome, or still running after `fuel` steps or more. */
  ghost predicate Reaches(code: seq<Word>, m: Machine, o: Outcome, e: nat, m': Machine, n: nat, fuel: int)
  {
    if o.More? then m'.status == Running && n >= fuel else Arrives(code, m, o, e, m')
  }

  ghost predicate Ready(m: Machine, depth: nat)
  {
    m.status == Running && |m.loops| == depth
  }

  lemma StepAt(fpu: Fpu, code: seq<Word>, m: Machine, i: Instr)
    requires m.status == Running && Expect(code, m.tok, i).Some?
    ensures Run(fpu, code, m, 1) == Step(fpu, code, m) == Effect(fpu, code, m, i, Expect(code, m.tok, i).value)
  {
    hide Decode, Effect;
    assert Run(fpu, code, m, 1) == Run(fpu, code, Step(fpu, code, m), 0);
  }

  lemma {:induction false} SimulateBlock(fpu: Fpu, code: seq<Word>, m: Machine, b: Block, depth: nat, stray: Stray, fuel: nat)
    returns (n: nat)
    requires Spell(code, m.tok, b).Some? && WellFormed(b, depth, stray) && Ready(m, depth)
    ensures Reaches(code, m, Exec(fpu, b, m.vm, m.iter, fuel), Spell(code, m.tok, b).value, Run(fpu, code, m, n), n, fuel)
    decreases fuel, b, 0
  {
    hide Scan, SpellStmt, ExecStmt, Run, WellFormedStmt;
    if b.Empty? {
      RunNone(fpu, code, m);
      return 0;
    }
    n := SimulateStmt(fpu, code, m, b.first, depth, stray, fuel);
    var m1, o := Run(fpu, code, m, n), ExecStmt(fpu, b.first, m.vm, m.iter, fuel);
    var e := SpellStmt(code, m.tok, b.first).value;
    if o.Normal? {
      var n2 := SimulateBlock(fpu, code, m1, b.rest, depth, stray, fuel);
      RunAdds(fpu, code, m, n, n2);
      n := n + n2;
    } else if o.Exited? {
      ScanOver(code, e, b.rest, depth, stray, OP_ENDLOOP, 0);
    } else if o.Strayed? || o.Lost? {
      ScanOver(code, e, b.rest, depth, stray, OP_ELSE, 0);
    }
  }

  lemma {:induction false} SimulateStmt(fpu: Fpu, code: seq<Word>, m: Machine, s: Stmt, depth: nat, stray: Stray, fuel: nat)
    returns (n: nat)
    requires SpellStmt(code, m.tok, s).Some? && WellFormedStmt(s, depth, stray) && Ready(m, depth)
    ensures Reaches(code, m, ExecStmt(fpu, s, m.vm, m.iter, fuel), SpellStmt(code, m.tok, s).value, Run(fpu, code, m, n), n, fuel)
    decreases fuel, s, 1
  {
    hide Scan, Run, Expect, Step, Spell, Exec, Iterate, ExecAlu, Taken, WellFormed;
    n := 1;
    match s {
      case Basic(i) =>
        StepAt(fpu, code, m, i);
      case Return =>
        StepAt(fpu, code, m, Ret);
      case Exit =>
        StepAt(fpu, code, m, Break);
      case ExitIf(nz, cond) =>
        StepAt(fpu, code, m, Breakc(nz, cond));
      case Repeat(body) =>
        StepAt(fpu, code, m, Loop);
        var m1 := Step(fpu, code, m);
        var k := SimulateLoop(fpu, code, m1, body, depth, stray, fuel);
        RunAdds(fpu, code, m, 1, k);
        n := 1 + k;
      case IfOnly(nz, cond, thn) =>
        n := SimulateIf(fpu, code, m, s, depth, stray, fuel);
      case IfElse(nz, cond, thn, els) =>
        StepAt(fpu, code, m, If(nz, cond));
        var k := SimulateBranch(fpu, code, m, Step(fpu, code, m), s, depth, stray, fuel);
        RunAdds(fpu, code, m, 1, k);
        n := 1 + k;
    }
  }

  /** An IF without ELSE: taken, it is its body; untaken, its scan looks for the ELSE of someone else. */
  lemma {:induction false} SimulateIf(fpu: Fpu, code: seq<Word>, m: Machine, s: Stmt, depth: nat, stray: Stray, fuel: nat)
    returns (n: nat)
    requires s.IfOnly? && SpellStmt(code, m.tok, s).Some? && WellFormedStmt(s, depth, stray) && Ready(m, depth)
    ensures Reaches(code, m, ExecStmt(fpu, s, m.vm, m.iter, fuel), SpellStmt(code, m.tok, s).value, Run(fpu, code, m, n), n, fuel)
    decreases fuel, s, 0
  {
    hide Scan, Run, Expect, Step, Spell, Exec, Taken, WellFormed;
    var p1 := Expect(code, m.tok, If(s.nonZero, s.cond)).value;
    var p2 := Spell(code, p1, s.thn).value;
    StepAt(fpu, code, m, If(s.nonZero, s.cond));
    ScanStep(code, p2, Endif, OP_ELSE, 0);
    ScanStep(code, p2, Endif, OP_ENDLOOP, 0);
    var m1 := Run(fpu, code, m, 1);
    if Taken(s.nonZero, s.cond, m.vm) {
      var k := SimulateBlock(fpu, code, m1, s.thn, depth, stray, fuel);
      RunAdds(fpu, code, m, 1, k);
      n := 1 + k;
      if Exec(fpu, s.thn, m.vm, m.iter, fuel).Normal? {
        StepAt(fpu, code, Run(fpu, code, m, n), Endif);
        RunAdds(fpu, code, m, n, 1);
        n := n + 1;
      }
    } else {
      ScanOver(code, p1, s.thn, depth, stray, OP_ELSE, 0);
      n := 1;
    }
  }

  /** From `m0` at an IF with an ELSE, `m` has made the IF step. */
  lemma {:induction false} SimulateBranch(fpu: Fpu, code: seq<Word>, m0: Machine, m: Machine, s: Stmt, depth: nat, stray: Stray, fuel: nat)
    returns (n: nat)
    requires s.IfElse? && SpellStmt(code, m0.tok, s).Some? && WellFormedStmt(s, depth, stray) && Ready(m0, depth)
    requires m == Effect(fpu, code, m0, If(s.nonZero, s.cond), Expect(code, m0.tok, If(s.nonZero, s.cond)).value)
    ensures Reaches(code, m0, ExecStmt(fpu, s, m0.vm, m0.iter, fuel), SpellStmt(code, m0.tok, s).value, Run(fpu, code, m, n), n, fuel)
    decreases fuel, s, 0
  {
    hide Scan, Run, Expect, Step, Spell, Exec, Taken, WellFormed;
    var p1 := Expect(code, m0.tok, If(s.nonZero, s.cond)).value;
    var p2 := Spell(code, p1, s.thn).value;
    var p3 := Expect(code, p2, Else).value;
    var p4 := Spell(code, p3, s.els).value;
    if Taken(s.nonZero, s.cond, m0.vm) {
      var o := Exec(fpu, s.thn, m0.vm, m0.iter, fuel);
      n := SimulateBlock(fpu, code, m, s.thn, depth, ToElse, fuel);
      var m1 := Run(fpu, code, m, n);
      BlockEndsWithin(fpu, s.thn, depth, ToElse, m0.vm, m0.iter, fuel);
      if o.Normal? {
        StepAt(fpu, code, m1, Else);
        ScanOver(code, p3, s.els, depth, stray, OP_ENDIF, 0);
        ScanStep(code, p4, Endif, OP_ENDIF, 0);
        RunAdds(fpu, code, m, n, 1);
        n := n + 1;
      } else if o.Exited? {
        ScanStep(code, p2, Else, OP_ENDLOOP, 0);
        ScanOver(code, p3, s.els, depth, stray, OP_ENDLOOP, 0);
        ScanStep(code, p4, Endif, OP_ENDLOOP, 0);
      } else if o.Strayed? {
        ScanStep(code, p2, Else, OP_ELSE, 0);
        var k := SimulateElse(fpu, code, m1, s.els, depth, stray, fuel);
        RunAdds(fpu, code, m, n, k);
        n := n + k;
      }
    } else {
      ScanOver(code, p1, s.thn, depth, ToElse, OP_ELSE, 0);
      ScanStep(code, p2, Else, OP_ELSE, 0);
      n := SimulateElse(fpu, code, m, s.els, depth, stray, fuel);
    }
  }

  /** An else-part and the ENDIF behind it. */
  lemma {:induction false} SimulateElse(fpu: Fpu, code: seq<Word>, m: Machine, els: Block, depth: nat, stray: Stray, fuel: nat)
    returns (n: nat)
    requires Spell(code, m.tok, els).Some? && Expect(code, Spell(code, m.tok, els).value, Endif).Some?
    requires WellFormed(els, depth, stray) && Ready(m, depth)
    ensures
      var e := Expect(code, Spell(code, m.tok, els).value, Endif).value;
      Reaches(code, m, Exec(fpu, els, m.vm, m.iter, fuel), e, Run(fpu, code, m, n), n, fuel)
    decreases fuel, els, 1
  {
    hide Scan, Run, Expect, Step, Spell, Exec, WellFormed;
    var p4 := Spell(code, m.tok, els).value;
    n := SimulateBlock(fpu, code, m, els, depth, stray, fuel);
    ScanStep(code, p4, Endif, OP_ENDLOOP, 0);
    ScanStep(code, p4, Endif, OP_ELSE, 0);
    if Exec(fpu, els, m.vm, m.iter, fuel).Normal? {
      StepAt(fpu, code, Run(fpu, code, m, n), Endif);
      RunAdds(fpu, code, m, n, 1);
      n := n + 1;
    }
  }

  /** The machine is about to enter the body of its innermost loop. */
  lemma {:induction false} SimulateLoop(fpu: Fpu, code: seq<Word>, m: Machine, body: Block, depth: nat, stray: Stray, fuel: nat)
    returns (n: nat)
    requires Ready(m, depth + 1) && m.loops[depth] == m.tok
    requires WellFormed(body, depth + 1, if stray == ToEnd then ToEnd else OutOfLoop)
    requires Spell(code, m.tok, body).Some? && Expect(code, Spell(code, m.tok, body).value, Endloop).Some?
    ensures
      var e := Expect(code, Spell(code, m.tok, body).value, Endloop).value;
      Reaches(code, m.(loops := Leave(m.loops)), Iterate(fpu, body, m.vm, m.iter, fuel), e, Run(fpu, code, m, n), n, fuel - 1)
    decreases fuel, body, 1
  {
    hide Scan, Run, Expect, Step, Spell, Exec, WellFormed;
    if fuel == 0 {
      RunNone(fpu, code, m);
      return 0;
    }
    var p2 := Spell(code, m.tok, body).value;
    n := SimulateBlock(fpu, code, m, body, depth + 1, if stray == ToEnd then ToEnd else OutOfLoop, fuel - 1);
    ScanStep(code, p2, Endloop, OP_ENDLOOP, 0);
    ScanStep(code, p2, Endloop, OP_ELSE, 0);
    var o := Exec(fpu, body, m.vm, m.iter, fuel - 1);
    if o.Normal? {
      StepAt(fpu, code, Run(fpu, code, m, n), Endloop);
      RunAdds(fpu, code, m, n, 1);
      n := n + 1;
      if o.iter + 1 <= MAX_LOOP_ITER {
        var n2 := SimulateLoop(fpu, code, Run(fpu, code, m, n), body, depth, stray, fuel - 1);
        RunAdds(fpu, code, m, n, n2);
        n := n + n2;
      }
    }
  }

  // ---------------------------------------------------------------- whole programs

  /** The instructions behind the two header words spell `b` and nothing else. */
  ghost predicate Program(code: seq<Word>, b: Block)
  {
    WellFormed(b, 0, ToEnd) && Spell(code, 2, b) == Some(|code|)
  }

  /**
   Structured control flow. Whenever the big-step semantics gives an outcome, the token machine
   halts with its registers; whenever it needs more iterations, the machine runs on for at least
   as many steps.
   */
  lemma {:induction false} TokensImplementTree(fpu: Fpu, code: seq<Word>, b: Block, vm: Regs, fuel: nat) returns (n: nat)
    requires Program(code, b)
    ensures
      var o := Exec(fpu, b, vm, 0, fuel);
      if o.More? then n >= fuel && Run(fpu, code, Start(vm), n).status == Running
      else forall k | k >= n :: var m := Run(fpu, code, Start(vm), k); m.status == Finished && m.vm == o.vm
  {
    hide Run, Step, Exec, Spell, WellFormed, Scan;
    var m, o := Start(vm), Exec(fpu, b, vm, 0, fuel);
    n := SimulateBlock(fpu, code, m, b, 0, ToEnd, fuel);
    BlockEndsWithin(fpu, b, 0, ToEnd, vm, 0, fuel);
    if !o.More? {
      if !o.Returned? {
        ScanAdvances(code, |code|, OP_ELSE, 0);
        StepOff(fpu, code, Run(fpu, code, m, n));
        RunNext(fpu, code, m, n);
        n := n + 1;
      }
      forall k | k >= n
        ensures Run(fpu, code, m, k) == Run(fpu, code, m, n)
      {
        RunHalts(fpu, code, m, n, k);
      }
    }
  }

  lemma StepOff(fpu: Fpu, code: seq<Word>, m: Machine)
    requires m.status == Running && m.tok >= |code|
    ensures Step(fpu, code, m) == m.(status := Finished)
  {
  }

  /** The token machine halts exactly on the programs and registers for which the semantics has an outcome. */
  lemma HaltsExactly(fpu: Fpu, code: seq<Word>, b: Block, vm: Regs)
    requires Program(code, b)
    ensures (exists n: nat :: Run(fpu, code, Start(vm), n).status != Running)
       <==> (exists fuel: nat :: !Exec(fpu, b, vm, 0, fuel).More?)
  {
    hide Run, Exec, Program;
    if fuel: nat :| !Exec(fpu, b, vm, 0, fuel).More? {
      var n := TokensImplementTree(fpu, code, b, vm, fuel);
      assert Run(fpu, code, Start(vm), n).status != Running;
    }
    if n: nat :| Run(fpu, code, Start(vm), n).status != Running {
      var k := TokensImplementTree(fpu, code, b, vm, n);
      if Exec(fpu, b, vm, 0, n).More? {
        RunHalts(fpu, code, Start(vm), n, k);
        assert false;
      }
    }
  }

  // ---------------------------------------------------------------- loops that do not nest

  predicate LoopFree(b: Block)
  {
    match b
    case Empty => true
    case Seq(s, rest) =>
      && LoopFree(rest)
      && match s
         case Repeat(_) => false
         case IfElse(_, _, thn, els) => LoopFree(thn) && LoopFree(els)
         case IfOnly(_, _, thn) => LoopFree(thn)
         case _ => true
  }

  /** No loop stands in the body of another. */
  predicate Flat(b: Block)
  {
    match b
    case Empty => true
    case Seq(s, rest) =>
      && Flat(rest)
      && match s
         case Repeat(body) => LoopFree(body)
         case IfElse(_, _, thn, els) => Flat(thn) && Flat(els)
         case IfOnly(_, _, thn) => Flat(thn)
         case _ => true
  }

  /** Without loops nothing iterates and nothing touches the counter. */
  lemma {:induction false} LoopFreeKeepsCounter(fpu: Fpu, b: Block, vm: Regs, iter: int, fuel: nat)
    requires LoopFree(b)
    ensures var o := Exec(fpu, b, vm, iter, fuel); !o.More? && (o.Normal? || o.Exited? || o.Strayed? ==> o.iter == iter)
    decreases b
  {
    hide ExecAlu, Taken;
    if b.Seq? {
      match b.first {
        case IfElse(_, _, thn, els) =>
          LoopFreeKeepsCounter(fpu, thn, vm, iter, fuel);
          LoopFreeKeepsCounter(fpu, els, vm, iter, fuel);
          var o := Exec(fpu, thn, vm, iter, fuel);
          if o.Strayed? {
            LoopFreeKeepsCounter(fpu, els, o.vm, iter, fuel);
          }
        case IfOnly(_, _, thn) =>
          LoopFreeKeepsCounter(fpu, thn, vm, iter, fuel);
        case _ =>
      }
      var o := ExecStmt(fpu, b.first, vm, iter, fuel);
      if o.Normal? {
        LoopFreeKeepsCounter(fpu, b.rest, o.vm, iter, fuel);
      }
    }
  }

  /** A loop around loop-free code enters its body at most 1025 times. */
  lemma {:induction false} LoopIsBounded(fpu: Fpu, body: Block, vm: Regs, iter: int, fuel: nat)
    requires LoopFree(body) && 0 <= iter <= MAX_LOOP_ITER && fuel >= MAX_LOOP_ITER + 1 - iter
    ensures !Iterate(fpu, body, vm, iter, fuel).More?
    decreases fuel
  {
    hide Exec, LoopFree;
    LoopFreeKeepsCounter(fpu, body, vm, iter, fuel - 1);
    var o := Exec(fpu, body, vm, iter, fuel - 1);
    if o.Normal? && iter < MAX_LOOP_ITER {
      LoopIsBounded(fpu, body, o.vm, iter + 1, fuel - 1);
    }
  }

  lemma {:induction false} FlatIsBounded(fpu: Fpu, b: Block, vm: Regs, iter: int, fuel: nat)
    requires Flat(b) && fuel >= MAX_LOOP_ITER + 1
    ensures !Exec(fpu, b, vm, iter, fuel).More?
    decreases b
  {
    hide ExecAlu, Taken, Iterate, LoopFree;
    if b.Seq? {
      match b.first {
        case IfElse(_, _, thn, els) =>
          FlatIsBounded(fpu, thn, vm, iter, fuel);
          FlatIsBounded(fpu, els, vm, iter, fuel);
          var o := Exec(fpu, thn, vm, iter, fuel);
          if o.Strayed? {
            FlatIsBounded(fpu, els, o.vm, o.iter, fuel);
          }
        case IfOnly(_, _, thn) =>
          FlatIsBounded(fpu, thn, vm, iter, fuel);
        case Repeat(body) =>
          LoopIsBounded(fpu, body, vm, 0, fuel);
        case _ =>
      }
      var o := ExecStmt(fpu, b.first, vm, iter, fuel);
      if o.Normal? {
        FlatIsBounded(fpu, b.rest, o.vm, o.iter, fuel);
      }
    }
  }

  /** Every program whose loops do not nest halts, with at most 1025 entries of a body per loop entry. */
  lemma FlatProgramsHalt(fpu: Fpu, code: seq<Word>, b: Block, vm: Regs) returns (n: nat)
    requires Program(code, b) && Flat(b)
    ensures
      var o := Exec(fpu, b, vm, 0, MAX_LOOP_ITER + 1);
      !o.More? && forall k | k >= n :: var m := Run(fpu, code, Start(vm), k); m.status == Finished && m.vm == o.vm
  {
    hide Run, Exec, Program, Flat;
    FlatIsBounded(fpu, b, vm, 0, MAX_LOOP_ITER + 1);
    n := TokensImplementTree(fpu, code, b, vm, MAX_LOOP_ITER + 1);
  }
}
