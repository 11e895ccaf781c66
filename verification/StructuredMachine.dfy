/**
 A machine over syntax trees that takes one step for every step of the token machine, for every
 block-structured program: loops nested beyond the loop stack, breaks outside loops, and skips of
 IFs without ELSE that leave loops behind on the stack are all included.
 */
module StructuredMachine {
  import opened Sm4
  import opened ShaderVm
  import opened ControlFlow

  /** What follows the block being executed: the constructs around it, from the inside out. */
  datatype Cont =
    | Done
    | InThen(els: Block, rest: Block, k: Cont)
    | InElse(rest: Block, k: Cont)
    | InOnly(rest: Block, k: Cont)
    | InLoop(rest: Block, k: Cont)

  /** A place in a program. */
  datatype Point = Point(b: Block, k: Cont)

  const END := Point(Empty, Done)

  datatype Config = Config(at: Point, loops: seq<Point>, iter: int, vm: Regs, status: Status)

  function Begin(b: Block, vm: Regs): Config
  {
    Config(Point(b, Done), [], 0, vm, Running)
  }

  /** Where a skip to an ELSE leads from inside `k`: to the else-part of the nearest then-part around. */
  function NextElse(k: Cont): Point
  {
    match k
    case Done => END
    case InThen(els, rest, k') => Point(els, InElse(rest, k'))
    case InElse(_, k') => NextElse(k')
    case InOnly(_, k') => NextElse(k')
    case InLoop(_, k') => NextElse(k')
  }

  /** Where a break leads from inside `k`: behind the nearest loop around. */
  function BehindLoop(k: Cont): Point
  {
    match k
    case Done => END
    case InLoop(rest, k') => Point(rest, k')
    case InThen(_, _, k') => BehindLoop(k')
    case InElse(_, k') => BehindLoop(k')
    case InOnly(_, k') => BehindLoop(k')
  }

  function LeavePoints(loops: seq<Point>): seq<Point>
  {
    if |loops| > 0 then loops[..|loops| - 1] else loops
  }

  /** The end of the innermost block: back into the construct around it, or once more into the last loop entered. */
  function StepOut(c: Config): Config
  {
    match c.at.k
    case Done => c.(status := Finished)
    case InThen(_, rest, k) => c.(at := Point(rest, k))
    case InElse(rest, k) => c.(at := Point(rest, k))
    case InOnly(rest, k) => c.(at := Point(rest, k))
    case InLoop(rest, k) =>
      if |c.loops| == 0 then c.(at := Point(rest, k))
      else if c.iter + 1 > MAX_LOOP_ITER then c.(at := Point(rest, k), iter := c.iter + 1, loops := LeavePoints(c.loops))
      else c.(at := c.loops[|c.loops| - 1], iter := c.iter + 1)
  }

  function StepIn(fpu: Fpu, s: Stmt, rest: Block, c: Config): Config
  {
    var k := c.at.k;
    match s
    case Basic(i) => c.(at := Point(rest, k), vm := if i.Alu? then ExecAlu(fpu, i, c.vm) else c.vm)
    case Return => c.(status := Finished)
    case IfElse(nz, cond, thn, els) =>
      c.(at := if Taken(nz, cond, c.vm) then Point(thn, InThen(els, rest, k)) else Point(els, InElse(rest, k)))
    case IfOnly(nz, cond, thn) => c.(at := if Taken(nz, cond, c.vm) then Point(thn, InOnly(rest, k)) else NextElse(k))
    case Repeat(body) =>
      var inside := Point(body, InLoop(rest, k));
      if |c.loops| < MAX_FLOW_DEPTH then c.(at := inside, loops := c.loops + [inside], iter := 0) else c.(at := inside)
    case Exit => c.(at := BehindLoop(k), loops := LeavePoints(c.loops))
    case ExitIf(nz, cond) =>
      if Taken(nz, cond, c.vm) then c.(at := BehindLoop(k), loops := LeavePoints(c.loops)) else c.(at := Point(rest, k))
  }

  function StepTree(fpu: Fpu, c: Config): Config
  {
    if c.status != Running then c
    else match c.at.b
         case Empty => StepOut(c)
         case Seq(s, rest) => StepIn(fpu, s, rest, c)
  }

  function RunTree(fpu: Fpu, c: Config, n: nat): Config
  {
    if n == 0 then c else StepTree(fpu, RunTree(fpu, c, n - 1))
  }

  // ---------------------------------------------------------------- where places are in the tokens

  /** The tokens from `pos` on are what follows a block in `k`. */
  predicate Follows(code: seq<Word>, k: Cont, pos: nat)
    decreases k, 0
  {
    match k
    case Done => pos == |code|
    case InThen(els, rest, k') =>
      && Expect(code, pos, Else).Some?
      && var p1 := Expect(code, pos, Else).value;
      && Spell(code, p1, els).Some? && Structured(els)
      && var p2 := Spell(code, p1, els).value;
      && Expect(code, p2, Endif).Some?
      && Lies(code, rest, k', Expect(code, p2, Endif).value)
    case InElse(rest, k') => Expect(code, pos, Endif).Some? && Lies(code, rest, k', Expect(code, pos, Endif).value)
    case InOnly(rest, k') => Expect(code, pos, Endif).Some? && Lies(code, rest, k', Expect(code, pos, Endif).value)
    case InLoop(rest, k') => Expect(code, pos, Endloop).Some? && Lies(code, rest, k', Expect(code, pos, Endloop).value)
  }

  /** The tokens from `pos` on are the rest of the program at this place. */
  predicate Lies(code: seq<Word>, b: Block, k: Cont, pos: nat)
    decreases k, 1
  {
    Structured(b) && Spell(code, pos, b).Some? && Follows(code, k, Spell(code, pos, b).value)
  }

  ghost predicate Matches(code: seq<Word>, c: Config, m: Machine)
  {
    && c.vm == m.vm && c.status == m.status
    && (m.status == Running ==>
          && Lies(code, c.at.b, c.at.k, m.tok)
          && c.iter == m.iter && |c.loops| == |m.loops|
          && forall i | 0 <= i < |m.loops| :: Lies(code, c.loops[i].b, c.loops[i].k, m.loops[i]))
  }

  lemma EndLies(code: seq<Word>)
    ensures Lies(code, END.b, END.k, |code|)
  {
  }

  /** A scan for ELSE from behind a block ends where `NextElse` says. */
  lemma {:induction false} ScanToElse(code: seq<Word>, k: Cont, pos: nat)
    requires Follows(code, k, pos)
    ensures var p := NextElse(k); Lies(code, p.b, p.k, Scan(code, pos, OP_ELSE, 0))
    decreases k, 0
  {
    hide Scan, Expect, Spell, Structured;
    match k
    case Done =>
      ScanAdvances(code, pos, OP_ELSE, 0);
      EndLies(code);
    case InThen(els, rest, k') =>
      ScanStep(code, pos, Else, OP_ELSE, 0);
    case InElse(rest, k') =>
      ScanStep(code, pos, Endif, OP_ELSE, 0);
      ScanToElseBeyond(code, rest, k', Expect(code, pos, Endif).value);
    case InOnly(rest, k') =>
      ScanStep(code, pos, Endif, OP_ELSE, 0);
      ScanToElseBeyond(code, rest, k', Expect(code, pos, Endif).value);
    case InLoop(rest, k') =>
      ScanStep(code, pos, Endloop, OP_ELSE, 0);
      ScanToElseBeyond(code, rest, k', Expect(code, pos, Endloop).value);
  }

  lemma {:induction false} ScanToElseBeyond(code: seq<Word>, b: Block, k: Cont, pos: nat)
    requires Lies(code, b, k, pos)
    ensures var p := NextElse(k); Lies(code, p.b, p.k, Scan(code, pos, OP_ELSE, 0))
    decreases k, 1
  {
    hide Scan, Expect, Spell, Structured, Follows;
    ScanPast(code, pos, b, OP_ELSE, 0);
    ScanToElse(code, k, Spell(code, pos, b).value);
  }

  /** A scan for ENDLOOP from behind a block ends where `BehindLoop` says. */
  lemma {:induction false} ScanBehindLoop(code: seq<Word>, k: Cont, pos: nat)
    requires Follows(code, k, pos)
    ensures var p := BehindLoop(k); Lies(code, p.b, p.k, Scan(code, pos, OP_ENDLOOP, 0))
    decreases k, 0
  {
    hide Scan, Expect, Spell, Structured;
    match k
    case Done =>
      ScanAdvances(code, pos, OP_ENDLOOP, 0);
      EndLies(code);
    case InThen(els, rest, k') =>
      var p1 := Expect(code, pos, Else).value;
      var p2 := Spell(code, p1, els).value;
      ScanStep(code, pos, Else, OP_ENDLOOP, 0);
      ScanPast(code, p1, els, OP_ENDLOOP, 0);
      ScanStep(code, p2, Endif, OP_ENDLOOP, 0);
      ScanBehindLoopBeyond(code, rest, k', Expect(code, p2, Endif).value);
    case InElse(rest, k') =>
      ScanStep(code, pos, Endif, OP_ENDLOOP, 0);
      ScanBehindLoopBeyond(code, rest, k', Expect(code, pos, Endif).value);
    case InOnly(rest, k') =>
      ScanStep(code, pos, Endif, OP_ENDLOOP, 0);
      ScanBehindLoopBeyond(code, rest, k', Expect(code, pos, Endif).value);
    case InLoop(rest, k') =>
      ScanStep(code, pos, Endloop, OP_ENDLOOP, 0);
  }

  lemma {:induction false} ScanBehindLoopBeyond(code: seq<Word>, b: Block, k: Cont, pos: nat)
    requires Lies(code, b, k, pos)
    ensures var p := BehindLoop(k); Lies(code, p.b, p.k, Scan(code, pos, OP_ENDLOOP, 0))
    decreases k, 1
  {
    hide Scan, Expect, Spell, Structured, Follows;
    ScanPast(code, pos, b, OP_ENDLOOP, 0);
    ScanBehindLoop(code, k, Spell(code, pos, b).value);
  }

  // ---------------------------------------------------------------- one step for one step

  lemma StepOutMatches(fpu: Fpu, code: seq<Word>, c: Config, m: Machine)
    requires Matches(code, c, m) && m.status == Running && c.at.b == Empty
    ensures Matches(code, StepOut(c), Step(fpu, code, m))
  {
    hide Scan, Expect, Step, Structured, Lies;
    AtTheEnd(code, c.at.k, m.tok);
    match c.at.k
    case Done =>
      StepOff(fpu, code, m);
    case InThen(els, rest, k) =>
      StepAt(fpu, code, m, Else);
      BehindElse(code, els, rest, k, m.tok);
    case InElse(rest, k) =>
      StepAt(fpu, code, m, Endif);
    case InOnly(rest, k) =>
      StepAt(fpu, code, m, Endif);
    case InLoop(rest, k) =>
      StepAt(fpu, code, m, Endloop);
  }

  lemma AtTheEnd(code: seq<Word>, k: Cont, pos: nat)
    requires Lies(code, Empty, k, pos)
    ensures Follows(code, k, pos)
  {
  }

  /** The jump that an ELSE makes at the end of a then-part. */
  lemma BehindElse(code: seq<Word>, els: Block, rest: Block, k: Cont, pos: nat)
    requires Follows(code, InThen(els, rest, k), pos)
    ensures Expect(code, pos, Else).Some? && Lies(code, rest, k, Scan(code, Expect(code, pos, Else).value, OP_ENDIF, 0))
  {
    hide Scan, Expect, Spell, Structured, Lies;
    var p1 := Expect(code, pos, Else).value;
    ScanPast(code, p1, els, OP_ENDIF, 0);
    ScanStep(code, Spell(code, p1, els).value, Endif, OP_ENDIF, 0);
  }

  /** The token of the statement at a place, and what its parts lie at. */
  lemma StmtLies(code: seq<Word>, s: Stmt, rest: Block, k: Cont, pos: nat)
    requires Lies(code, Seq(s, rest), k, pos)
    ensures StructuredStmt(s) && SpellStmt(code, pos, s).Some? && Lies(code, rest, k, SpellStmt(code, pos, s).value)
  {
    hide SpellStmt, StructuredStmt, Follows;
  }

  lemma StepInMatches(fpu: Fpu, code: seq<Word>, c: Config, m: Machine)
    requires Matches(code, c, m) && m.status == Running && c.at.b.Seq?
    ensures Matches(code, StepIn(fpu, c.at.b.first, c.at.b.rest, c), Step(fpu, code, m))
  {
    hide Scan, Expect, Step, Spell, Structured, Lies, Follows, ExecAlu, Taken;
    var s, rest, k := c.at.b.first, c.at.b.rest, c.at.k;
    StmtLies(code, s, rest, k, m.tok);
    var e := SpellStmt(code, m.tok, s).value;
    match s {
      case Basic(i) =>
        StepAt(fpu, code, m, i);
      case Return =>
        StepAt(fpu, code, m, Ret);
      case Exit =>
        StepAt(fpu, code, m, Break);
        ScanBehindLoopBeyond(code, rest, k, e);
      case ExitIf(nz, cond) =>
        StepAt(fpu, code, m, Breakc(nz, cond));
        ScanBehindLoopBeyond(code, rest, k, e);
      case Repeat(body) =>
        StepAt(fpu, code, m, Loop);
        LoopLies(code, body, rest, k, m.tok);
      case IfOnly(nz, cond, thn) =>
        StepAt(fpu, code, m, If(nz, cond));
        OnlyLies(code, nz, cond, thn, rest, k, m.tok);
      case IfElse(nz, cond, thn, els) =>
        StepAt(fpu, code, m, If(nz, cond));
        ThenLies(code, nz, cond, thn, els, rest, k, m.tok);
    }
  }

  lemma LoopLies(code: seq<Word>, body: Block, rest: Block, k: Cont, pos: nat)
    requires StructuredStmt(Repeat(body)) && SpellStmt(code, pos, Repeat(body)).Some?
    requires Lies(code, rest, k, SpellStmt(code, pos, Repeat(body)).value)
    ensures Lies(code, body, InLoop(rest, k), Expect(code, pos, Loop).value)
  {
    hide Expect, Spell, Structured;
  }

  lemma OnlyLies(code: seq<Word>, nz: bool, cond: Src, thn: Block, rest: Block, k: Cont, pos: nat)
    requires var s := IfOnly(nz, cond, thn); StructuredStmt(s) && SpellStmt(code, pos, s).Some? && Lies(code, rest, k, SpellStmt(code, pos, s).value)
    ensures
      var p1 := Expect(code, pos, If(nz, cond)).value;
      var q := NextElse(k);
      Lies(code, thn, InOnly(rest, k), p1) && Lies(code, q.b, q.k, Scan(code, p1, OP_ELSE, 0))
  {
    hide Scan, Expect, Spell, Structured;
    var p1 := Expect(code, pos, If(nz, cond)).value;
    var p2 := Spell(code, p1, thn).value;
    ScanPast(code, p1, thn, OP_ELSE, 0);
    ScanStep(code, p2, Endif, OP_ELSE, 0);
    ScanToElseBeyond(code, rest, k, Expect(code, p2, Endif).value);
  }

  lemma ThenLies(code: seq<Word>, nz: bool, cond: Src, thn: Block, els: Block, rest: Block, k: Cont, pos: nat)
    requires var s := IfElse(nz, cond, thn, els); StructuredStmt(s) && SpellStmt(code, pos, s).Some? && Lies(code, rest, k, SpellStmt(code, pos, s).value)
    ensures
      var p1 := Expect(code, pos, If(nz, cond)).value;
      Lies(code, thn, InThen(els, rest, k), p1) && Lies(code, els, InElse(rest, k), Scan(code, p1, OP_ELSE, 0))
  {
    hide Scan, Expect, Spell, Structured;
    var p1 := Expect(code, pos, If(nz, cond)).value;
    var p2 := Spell(code, p1, thn).value;
    ScanPast(code, p1, thn, OP_ELSE, 0);
    ScanStep(code, p2, Else, OP_ELSE, 0);
  }

  lemma StepMatches(fpu: Fpu, code: seq<Word>, c: Config, m: Machine)
    requires Matches(code, c, m)
    ensures Matches(code, StepTree(fpu, c), Step(fpu, code, m))
  {
    hide StepIn, StepOut;
    if m.status == Running {
      if c.at.b.Empty? {
        StepOutMatches(fpu, code, c, m);
      } else {
        StepInMatches(fpu, code, c, m);
      }
    }
  }

  /**
   For every block-structured program, with no condition on its nesting, the token machine and the
   tree machine have the same registers, counter and status after every number of steps.
   */
  lemma {:induction false} TokensFollowTree(fpu: Fpu, code: seq<Word>, b: Block, vm: Regs, n: nat)
    requires Structured(b) && Spell(code, 2, b) == Some(|code|)
    ensures Matches(code, RunTree(fpu, Begin(b, vm), n), Run(fpu, code, Start(vm), n))
  {
    hide Step, StepTree, Run, Lies;
    if n == 0 {
      RunNone(fpu, code, Start(vm));
      ProgramLies(code, b);
    } else {
      TokensFollowTree(fpu, code, b, vm, n - 1);
      RunNext(fpu, code, Start(vm), n - 1);
      StepMatches(fpu, code, RunTree(fpu, Begin(b, vm), n - 1), Run(fpu, code, Start(vm), n - 1));
    }
  }

  lemma ProgramLies(code: seq<Word>, b: Block)
    requires Structured(b) && Spell(code, 2, b) == Some(|code|)
    ensures Lies(code, b, Done, 2)
  {
  }
}
