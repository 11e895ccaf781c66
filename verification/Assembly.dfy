/**
 An assembler for SM4 operands and instructions, by the bit fields of their tokens, and what the
 interpreter makes of assembled code: which component of which register every operand reads and
 every instruction writes, and which way a condition goes.
 */
module Assembly {
  import opened Sm4
  import opened ShaderVm
  import opened ControlFlow
  import opened Division

  // ---------------------------------------------------------------- operands as written

  datatype File = TempFile | InputFile | OutputFile

  type Index = n: int | 0 <= n < 0x8000_0000
  type Lane = n: int | 0 <= n < 4

  datatype Swizzle = Swizzle(x: Lane, y: Lane, z: Lane, w: Lane)

  datatype Operand =
    | Swizzled(file: File, index: Index, swizzle: Swizzle)
    | Selected(file: File, index: Index, lane: Lane)
    | Whole(file: File, index: Index)
    | Buffer(slot: Index, index: Index, swizzle: Swizzle)
    | VectorImm(v: Vec4)
    | ScalarImm(s: Word)

  datatype Mask = Mask(x: bool, y: bool, z: bool, w: bool)

  datatype Target = Target(output: bool, index: Index, mask: Mask)

  // ---------------------------------------------------------------- tokens

  /** Components in bits 0-1, selection mode in 2-3, selectors in 4-11, kind in 12-19, index count in 20-21, extension in 31. */
  function OperandToken(comps: int, mode: int, selectors: int, kind: int, dims: int, extended: bool): Word
    requires 0 <= comps < 4 && 0 <= mode < 4 && 0 <= selectors < 256 && 0 <= kind < 256 && 0 <= dims < 4
  {
    comps + 4 * mode + 16 * selectors + 0x1000 * kind + 0x10_0000 * dims + if extended then 0x8000_0000 else 0
  }

  function FileKind(f: File): int
  {
    match f
    case TempFile => 0
    case InputFile => 1
    case OutputFile => 2
  }

  function Selectors(s: Swizzle): int
  {
    s.x + 4 * s.y + 16 * s.z + 64 * s.w
  }

  function Bit(b: bool): int
  {
    if b then 1 else 0
  }

  function MaskBits(m: Mask): int
  {
    Bit(m.x) + 2 * Bit(m.y) + 4 * Bit(m.z) + 8 * Bit(m.w)
  }

  /** An operand token, its extension if it has one, its indices and its immediate words. */
  function SourceWords(o: Operand, ext: Option<Word>): seq<Word>
  {
    var e := ext.Some?;
    var x := if e then [ext.value] else [];
    match o
    case Swizzled(f, i, s) => [OperandToken(2, 1, Selectors(s), FileKind(f), 1, e)] + x + [i]
    case Selected(f, i, c) => [OperandToken(2, 2, c, FileKind(f), 1, e)] + x + [i]
    case Whole(f, i) => [OperandToken(2, 0, 0, FileKind(f), 1, e)] + x + [i]
    case Buffer(b, i, s) => [OperandToken(2, 1, Selectors(s), 8, 2, e)] + x + [b, i]
    case VectorImm(v) => [OperandToken(2, 0, 0, 4, 0, e)] + x + [v.x, v.y, v.z, v.w]
    case ScalarImm(w) => [OperandToken(1, 0, 0, 4, 0, e)] + x + [w]
  }

  function TargetWords(t: Target, ext: Option<Word>): seq<Word>
  {
    [OperandToken(2, 0, MaskBits(t.mask), if t.output then 2 else 0, 1, ext.Some?)]
    + (if ext.Some? then [ext.value] else []) + [t.index]
  }

  /** Opcode in bits 0-10, the test bit of a condition in 18, the length in 24-30. */
  function OpToken(op: int, nonZero: bool, len: int): Word
    requires 0 <= op < 2048 && 0 <= len < 128
  {
    op + 0x4_0000 * Bit(nonZero) + 0x100_0000 * len
  }

  // ---------------------------------------------------------------- what operands mean

  /** The register, all zero when there is no such register. */
  function Register(f: File, i: Index, vm: Regs): Vec4
  {
    match f
    case TempFile => if i < MAX_TEMPS then vm.temps[i] else ZERO4
    case InputFile => if i < MAX_INPUTS then vm.inputs[i] else ZERO4
    case OutputFile => if i < MAX_OUTPUTS then vm.outputs[i] else ZERO4
  }

  /** Vector `i` of a constant buffer, all zero outside it. */
  function BufferVector(b: Index, i: Index, vm: Regs): Vec4
  {
    if b < 4 && vm.cb[b].Some? && 4 * i + 4 <= |vm.cb[b].value| then
      var f := vm.cb[b].value;
      Vec4(f[4 * i], f[4 * i + 1], f[4 * i + 2], f[4 * i + 3])
    else ZERO4
  }

  function Lanes(v: Vec4): seq<Word>
  {
    [v.x, v.y, v.z, v.w]
  }

  function Picked(v: Vec4, s: Swizzle): Vec4
  {
    var l := Lanes(v);
    Vec4(l[s.x], l[s.y], l[s.z], l[s.w])
  }

  function Value(o: Operand, vm: Regs): Vec4
  {
    match o
    case Swizzled(f, i, s) => Picked(Register(f, i, vm), s)
    case Selected(f, i, c) => var w := Lanes(Register(f, i, vm))[c]; Vec4(w, w, w, w)
    case Whole(f, i) => Register(f, i, vm)
    case Buffer(b, i, s) => Picked(BufferVector(b, i, vm), s)
    case VectorImm(v) => v
    case ScalarImm(w) => Vec4(w, 0, 0, 0)
  }

  // ---------------------------------------------------------------- sources

  ghost predicate Holds(code: seq<Word>, p: nat, words: seq<Word>)
  {
    p + |words| <= |code| && code[p..p + |words|] == words
  }

  lemma HoldsAt(code: seq<Word>, p: nat, words: seq<Word>, k: nat)
    requires Holds(code, p, words) && k < |words|
    ensures code[p + k] == words[k]
  {
    assert code[p..p + |words|][k] == code[p + k];
  }

  lemma TokenFields(comps: int, mode: int, selectors: int, kind: int, dims: int, e: bool)
    requires 0 <= comps < 4 && 0 <= mode < 4 && 0 <= selectors < 256 && 0 <= kind < 256 && 0 <= dims < 4
    ensures
      var t := OperandToken(comps, mode, selectors, kind, dims, e);
      && t % 4 == comps && t / 4 % 4 == mode && t / 16 % 256 == selectors && t / 16 % 16 == selectors % 16
      && t / 0x1000 % 256 == kind && IndexDims(t) == dims && (t >= 0x8000_0000 <==> e)
  {
    var t, x := OperandToken(comps, mode, selectors, kind, dims, e), Bit(e);
    FieldOf(t, 0, 1, comps, 4, mode + 4 * selectors + 0x400 * kind + 0x4_0000 * dims + 0x2000_0000 * x);
    FieldOf(t, comps, 4, mode, 4, selectors + 0x100 * kind + 0x1_0000 * dims + 0x800_0000 * x);
    FieldOf(t, comps + 4 * mode, 16, selectors, 256, kind + 0x100 * dims + 0x8_0000 * x);
    FieldOf(t, comps + 4 * mode, 16, selectors % 16, 16, selectors / 16 + 16 * kind + 0x1000 * dims + 0x80_0000 * x);
    FieldOf(t, comps + 4 * mode + 16 * selectors, 0x1000, kind, 256, dims + 0x800 * x);
    FieldOf(t, comps + 4 * mode + 16 * selectors + 0x1000 * kind, 0x10_0000, dims, 4, 0x200 * x);
  }

  lemma SelectorFields(s: Swizzle)
    ensures
      var n := Selectors(s);
      0 <= n < 256 && n % 4 == s.x && n / 4 % 4 == s.y && n / 16 % 4 == s.z && n / 64 % 4 == s.w
  {
    var n := Selectors(s);
    FieldOf(n, 0, 1, s.x, 4, s.y + 4 * s.z + 16 * s.w);
    FieldOf(n, s.x, 4, s.y, 4, s.z + 4 * s.w);
    FieldOf(n, s.x + 4 * s.y, 16, s.z, 4, s.w);
    FieldOf(n, s.x + 4 * s.y + 16 * s.z, 64, s.w, 4, 0);
  }

  lemma LaneOf(v: Vec4, i: Lane)
    ensures v.Comp(i) == Lanes(v)[i]
  {
  }

  /** The decoder's reading of an operand token: its fields, and where its indices start. */
  lemma Header(code: seq<Word>, p: nat, comps: int, mode: int, selectors: int, kind: int, dims: int, ext: Option<Word>, rest: seq<Word>)
    requires 0 <= comps < 4 && 0 <= mode < 4 && 0 <= selectors < 256 && 0 <= kind < 256 && 0 <= dims < 4
    requires Holds(code, p, [OperandToken(comps, mode, selectors, kind, dims, ext.Some?)] + (if ext.Some? then [ext.value] else []) + rest)
    ensures
      var t := OperandToken(comps, mode, selectors, kind, dims, ext.Some?);
      var q := IndexStart(t, p);
      && p < |code| && code[p] == t && q == p + (if ext.Some? then 2 else 1) && q + |rest| <= |code|
      && forall k | 0 <= k < |rest| :: code[q + k] == rest[k]
  {
    hide OperandToken;
    var e := if ext.Some? then [ext.value] else [];
    var words := [OperandToken(comps, mode, selectors, kind, dims, ext.Some?)] + e + rest;
    TokenFields(comps, mode, selectors, kind, dims, ext.Some?);
    HoldsAt(code, p, words, 0);
    forall k | 0 <= k < |rest|
      ensures code[p + 1 + |e| + k] == rest[k]
    {
      HoldsAt(code, p, words, 1 + |e| + k);
    }
  }

  function SrcOf(o: Operand): Src
  {
    match o
    case Swizzled(f, i, s) => Src(FileKind(f), 2, 1, Selectors(s), i, 0, ZERO4)
    case Selected(f, i, c) => Src(FileKind(f), 2, 2, c, i, 0, ZERO4)
    case Whole(f, i) => Src(FileKind(f), 2, 0, 0, i, 0, ZERO4)
    case Buffer(b, i, s) => Src(8, 2, 1, Selectors(s), b, i, ZERO4)
    case VectorImm(v) => Src(4, 2, 0, 0, 0, 0, v)
    case ScalarImm(w) => Src(4, 1, 0, 0, 0, 0, Vec4(w, w, w, w))
  }

  lemma RegisterDecodes(code: seq<Word>, p: nat, mode: int, selectors: int, kind: int, ext: Option<Word>, i: Index)
    requires 0 <= mode < 4 && 0 <= selectors < 256 && 0 <= kind < 3
    requires Holds(code, p, [OperandToken(2, mode, selectors, kind, 1, ext.Some?)] + (if ext.Some? then [ext.value] else []) + [i])
    ensures DecodeSrc(code, p) == Decoded(Src(kind, 2, mode, selectors, i, 0, ZERO4), p + (if ext.Some? then 3 else 2))
  {
    hide OperandToken, IndexStart, IndexDims;
    Header(code, p, 2, mode, selectors, kind, 1, ext, [i]);
    TokenFields(2, mode, selectors, kind, 1, ext.Some?);
  }

  lemma BufferDecodes(code: seq<Word>, p: nat, selectors: int, ext: Option<Word>, b: Index, i: Index)
    requires 0 <= selectors < 256
    requires Holds(code, p, [OperandToken(2, 1, selectors, 8, 2, ext.Some?)] + (if ext.Some? then [ext.value] else []) + [b, i])
    ensures DecodeSrc(code, p) == Decoded(Src(8, 2, 1, selectors, b, i, ZERO4), p + (if ext.Some? then 4 else 3))
  {
    hide OperandToken, IndexStart, IndexDims;
    Header(code, p, 2, 1, selectors, 8, 2, ext, [b, i]);
    TokenFields(2, 1, selectors, 8, 2, ext.Some?);
    assert [b, i][0] == b && [b, i][1] == i;
  }

  lemma ImmediateDecodes(code: seq<Word>, p: nat, ext: Option<Word>, v: Vec4)
    requires Holds(code, p, [OperandToken(2, 0, 0, 4, 0, ext.Some?)] + (if ext.Some? then [ext.value] else []) + [v.x, v.y, v.z, v.w])
    ensures DecodeSrc(code, p) == Decoded(Src(4, 2, 0, 0, 0, 0, v), p + (if ext.Some? then 6 else 5))
  {
    hide OperandToken, IndexStart, IndexDims;
    var imm := [v.x, v.y, v.z, v.w];
    Header(code, p, 2, 0, 0, 4, 0, ext, imm);
    TokenFields(2, 0, 0, 4, 0, ext.Some?);
    assert imm[0] == v.x && imm[1] == v.y && imm[2] == v.z && imm[3] == v.w;
  }

  lemma ScalarDecodes(code: seq<Word>, p: nat, ext: Option<Word>, w: Word)
    requires Holds(code, p, [OperandToken(1, 0, 0, 4, 0, ext.Some?)] + (if ext.Some? then [ext.value] else []) + [w])
    ensures DecodeSrc(code, p) == Decoded(Src(4, 1, 0, 0, 0, 0, Vec4(w, w, w, w)), p + (if ext.Some? then 3 else 2))
  {
    hide OperandToken, IndexStart, IndexDims;
    Header(code, p, 1, 0, 0, 4, 0, ext, [w]);
    TokenFields(1, 0, 0, 4, 0, ext.Some?);
  }

  lemma SourceDecodes(code: seq<Word>, p: nat, o: Operand, ext: Option<Word>)
    requires Holds(code, p, SourceWords(o, ext))
    ensures DecodeSrc(code, p) == Decoded(SrcOf(o), p + |SourceWords(o, ext)|)
  {
    hide OperandToken, DecodeSrc, Holds, Selectors;
    match o
    case Swizzled(f, i, s) =>
      SelectorFields(s);
      RegisterDecodes(code, p, 1, Selectors(s), FileKind(f), ext, i);
    case Selected(f, i, c) => RegisterDecodes(code, p, 2, c, FileKind(f), ext, i);
    case Whole(f, i) => RegisterDecodes(code, p, 0, 0, FileKind(f), ext, i);
    case Buffer(b, i, s) =>
      SelectorFields(s);
      BufferDecodes(code, p, Selectors(s), ext, b, i);
    case VectorImm(v) => ImmediateDecodes(code, p, ext, v);
    case ScalarImm(w) => ScalarDecodes(code, p, ext, w);
  }

  lemma SwizzlePicks(kind: int, idx0: int, idx1: int, s: Swizzle, v: Vec4)
    ensures Select(Src(kind, 2, 1, Selectors(s), idx0, idx1, ZERO4), v) == Picked(v, s)
    ensures Picked(ZERO4, s) == ZERO4
  {
    hide Selectors;
    SelectorFields(s);
    LaneOf(v, s.x);
    LaneOf(v, s.y);
    LaneOf(v, s.z);
    LaneOf(v, s.w);
  }

  /** A register operand reads the register, through its selection, or zero where there is none. */
  lemma NamedRegister(f: File, i: Index, src: Src, vm: Regs)
    requires src.kind == FileKind(f) && src.idx0 == i
    ensures Named(src, vm).Some? ==> Named(src, vm).value == Register(f, i, vm)
    ensures Named(src, vm).None? ==> Register(f, i, vm) == ZERO4
  {
  }

  lemma NamedBuffer(b: Index, i: Index, src: Src, vm: Regs)
    requires src.kind == 8 && src.idx0 == b && src.idx1 == i
    ensures Named(src, vm).Some? ==> Named(src, vm).value == BufferVector(b, i, vm)
    ensures Named(src, vm).None? ==> BufferVector(b, i, vm) == ZERO4
  {
  }

  lemma SourceMeans(o: Operand, vm: Regs)
    ensures Read(SrcOf(o), vm) == Value(o, vm)
  {
    hide Selectors, Register, BufferVector, Picked;
    var src := SrcOf(o);
    match o
    case Swizzled(f, i, s) =>
      hide Select, Named;
      NamedRegister(f, i, src, vm);
      SwizzlePicks(FileKind(f), i, 0, s, Register(f, i, vm));
    case Selected(f, i, c) =>
      hide Named;
      NamedRegister(f, i, src, vm);
      LaneOf(Register(f, i, vm), c);
    case Whole(f, i) =>
      hide Named;
      NamedRegister(f, i, src, vm);
    case Buffer(b, i, s) =>
      hide Select, Named;
      NamedBuffer(b, i, src, vm);
      SwizzlePicks(8, b, i, s, BufferVector(b, i, vm));
    case VectorImm(v) =>
    case ScalarImm(w) =>
  }

  /** Every assembled source reads the components it names, and the decoder ends behind it. */
  lemma SourceReads(code: seq<Word>, p: nat, o: Operand, ext: Option<Word>, vm: Regs)
    requires Holds(code, p, SourceWords(o, ext))
    ensures
      var d := DecodeSrc(code, p);
      d.Decoded? && d.next == p + |SourceWords(o, ext)| && Read(d.val, vm) == Value(o, vm)
  {
    hide DecodeSrc, SourceWords, SrcOf, Read, Value;
    SourceDecodes(code, p, o, ext);
    SourceMeans(o, vm);
  }

  // ---------------------------------------------------------------- targets

  lemma TargetDecodes(code: seq<Word>, p: nat, t: Target, ext: Option<Word>)
    requires Holds(code, p, TargetWords(t, ext))
    ensures DecodeDst(code, p) == Decoded(Dst(if t.output then 2 else 0, t.index, MaskBits(t.mask)), p + |TargetWords(t, ext)|)
  {
    var kind, bits := if t.output then 2 else 0, MaskBits(t.mask);
    assert bits % 16 == bits;
    hide OperandToken, IndexStart, IndexDims, MaskBits;
    Header(code, p, 2, 0, bits, kind, 1, ext, [t.index]);
    TokenFields(2, 0, bits, kind, 1, ext.Some?);
    var q := IndexStart(code[p], p);
    assert code[q + 0] == [t.index][0];
  }

  /** Each lane of `after` is that of `v` where the mask has it, and of `before` elsewhere. */
  predicate Merged(m: Mask, before: Vec4, v: Vec4, after: Vec4)
  {
    && after.x == (if m.x then v.x else before.x) && after.y == (if m.y then v.y else before.y)
    && after.z == (if m.z then v.z else before.z) && after.w == (if m.w then v.w else before.w)
  }

  /** From `vm` to `vm'` the target register took `v` through its mask, and nothing else changed. */
  ghost predicate Stored(t: Target, v: Vec4, vm: Regs, vm': Regs)
  {
    && vm'.inputs == vm.inputs && vm'.cb == vm.cb
    && (forall i | 0 <= i < MAX_TEMPS ::
          if !t.output && i == t.index then Merged(t.mask, vm.temps[i], v, vm'.temps[i]) else vm'.temps[i] == vm.temps[i])
    && (forall i | 0 <= i < MAX_OUTPUTS ::
          if t.output && i == t.index then Merged(t.mask, vm.outputs[i], v, vm'.outputs[i]) else vm'.outputs[i] == vm.outputs[i])
  }

  lemma MaskMerges(m: Mask, before: Vec4, v: Vec4)
    ensures Merged(m, before, v, Masked(MaskBits(m), before, v))
  {
  }

  lemma TargetStores(t: Target, v: Vec4, vm: Regs)
    ensures Stored(t, v, vm, Write(Dst(if t.output then 2 else 0, t.index, MaskBits(t.mask)), v, vm))
  {
    hide MaskBits, Masked, Merged;
    if t.output {
      if t.index < MAX_OUTPUTS {
        MaskMerges(t.mask, vm.outputs[t.index], v);
      }
    } else if t.index < MAX_TEMPS {
      MaskMerges(t.mask, vm.temps[t.index], v);
    }
  }

  // ---------------------------------------------------------------- conditions

  lemma OpFields(op: int, nonZero: bool, len: int)
    requires 0 <= op < 2048 && 0 <= len < 128
    ensures
      var t := OpToken(op, nonZero, len);
      OpcodeOf(t) == op && TestsNonZero(t) == nonZero && LengthOf(t) == len
  {
    var t := OpToken(op, nonZero, len);
    FieldOf(t, 0, 1, op, 2048, 128 * Bit(nonZero) + 0x2000 * len);
    FieldOf(t, op, 0x4_0000, Bit(nonZero), 2, 32 * len);
    FieldOf(t, op + 0x4_0000 * Bit(nonZero), 0x100_0000, len, 128, 0);
  }

  /** IF or BREAKC with its condition. */
  function ConditionWords(isIf: bool, nonZero: bool, cond: Operand, ext: Option<Word>): seq<Word>
  {
    [OpToken(if isIf then 31 else 3, nonZero, 1 + |SourceWords(cond, ext)|)] + SourceWords(cond, ext)
  }

  lemma TailHolds(code: seq<Word>, p: nat, w: Word, rest: seq<Word>)
    requires Holds(code, p, [w] + rest)
    ensures p < |code| && code[p] == w && Holds(code, p + 1, rest)
  {
    HoldsAt(code, p, [w] + rest, 0);
    assert code[p + 1..p + 1 + |rest|] == code[p..p + 1 + |rest|][1..];
  }

  lemma ConditionDecodes(code: seq<Word>, p: nat, isIf: bool, nonZero: bool, cond: Operand, ext: Option<Word>)
    requires Holds(code, p, ConditionWords(isIf, nonZero, cond, ext))
    ensures Expect(code, p, if isIf then If(nonZero, SrcOf(cond)) else Breakc(nonZero, SrcOf(cond)))
         == Some(p + 1 + |SourceWords(cond, ext)|)
  {
    hide OpToken, SourceWords, DecodeSrc, DecodeAlu, OpcodeOf, LengthOf, TestsNonZero;
    var len := 1 + |SourceWords(cond, ext)|;
    ShortSource(cond, ext);
    TailHolds(code, p, OpToken(if isIf then 31 else 3, nonZero, len), SourceWords(cond, ext));
    OpFields(if isIf then 31 else 3, nonZero, len);
    SourceDecodes(code, p + 1, cond, ext);
  }

  lemma ShortSource(o: Operand, ext: Option<Word>)
    ensures |SourceWords(o, ext)| <= 6
  {
  }

  /** The condition word of `if_nz` and `breakc_nz` must be non-zero, that of `if_z` and `breakc_z` zero. */
  predicate Goes(nonZero: bool, cond: Operand, vm: Regs)
  {
    if nonZero then Value(cond, vm).x != 0 else Value(cond, vm).x == 0
  }

  /** An IF falls through when its test holds and scans for an ELSE when not; nothing but the position changes. */
  lemma IfStep(fpu: Fpu, code: seq<Word>, m: Machine, nonZero: bool, cond: Operand, ext: Option<Word>)
    requires m.status == Running && Holds(code, m.tok, ConditionWords(true, nonZero, cond, ext))
    ensures
      var next := m.tok + 1 + |SourceWords(cond, ext)|;
      Step(fpu, code, m) == m.(tok := if Goes(nonZero, cond, m.vm) then next else Scan(code, next, OP_ELSE, 0))
  {
    hide Step, Scan, Expect, SourceWords, Value, SrcOf, Read, Holds;
    ConditionDecodes(code, m.tok, true, nonZero, cond, ext);
    StepAt(fpu, code, m, If(nonZero, SrcOf(cond)));
    SourceMeans(cond, m.vm);
  }

  /** A BREAKC leaves its loop when its test holds and does nothing when not. */
  lemma BreakcStep(fpu: Fpu, code: seq<Word>, m: Machine, nonZero: bool, cond: Operand, ext: Option<Word>)
    requires m.status == Running && Holds(code, m.tok, ConditionWords(false, nonZero, cond, ext))
    ensures
      var next := m.tok + 1 + |SourceWords(cond, ext)|;
      Step(fpu, code, m) ==
        if Goes(nonZero, cond, m.vm) then m.(tok := Scan(code, next, OP_ENDLOOP, 0), loops := Leave(m.loops)) else m.(tok := next)
  {
    hide Step, Scan, Expect, SourceWords, Value, SrcOf, Read, Holds;
    ConditionDecodes(code, m.tok, false, nonZero, cond, ext);
    StepAt(fpu, code, m, Breakc(nonZero, SrcOf(cond)));
    SourceMeans(cond, m.vm);
  }

  // ---------------------------------------------------------------- arithmetic

  function Opcode(op: AluOp): int
  {
    match op
    case Add => 0 case Dp3 => 16 case Dp4 => 17 case Eq => 24 case Ge => 29 case Lt => 49 case Mad => 50
    case Min => 51 case Max => 52 case Mov => 54 case Movc => 55 case Mul => 56 case Ne => 57 case Rsq => 68
  }

  /** The operands behind the target, in order. */
  function OperandWords(os: seq<Operand>): seq<Word>
  {
    if os == [] then [] else SourceWords(os[0], None) + OperandWords(os[1..])
  }

  function AluWords(op: AluOp, t: Target, os: seq<Operand>): seq<Word>
    requires |os| <= 3
  {
    ShortOperands(os);
    var rest := TargetWords(t, None) + OperandWords(os);
    [OpToken(Opcode(op), false, 1 + |rest|)] + rest
  }

  lemma {:induction false} ShortOperands(os: seq<Operand>)
    ensures |OperandWords(os)| <= 6 * |os|
  {
    if os != [] {
      ShortSource(os[0], None);
      ShortOperands(os[1..]);
    }
  }

  lemma SplitHolds(code: seq<Word>, p: nat, a: seq<Word>, b: seq<Word>)
    requires Holds(code, p, a + b)
    ensures Holds(code, p, a) && Holds(code, p + |a|, b)
  {
    assert code[p..p + |a|] == code[p..p + |a + b|][..|a|];
    assert code[p + |a|..p + |a| + |b|] == code[p..p + |a + b|][|a|..];
  }

  function OperandOf(os: seq<Operand>, k: nat): Src
  {
    if k < |os| then SrcOf(os[k]) else NO_SRC
  }

  /** The sources of an instruction are decoded one behind the other. */
  lemma OperandsDecode(code: seq<Word>, p: nat, os: seq<Operand>)
    requires 1 <= |os| <= 3 && Holds(code, p, OperandWords(os))
    ensures
      var n0 := |SourceWords(os[0], None)|;
      && DecodeSrc(code, p) == Decoded(SrcOf(os[0]), p + n0)
      && (|os| >= 2 ==>
            var n1 := |SourceWords(os[1], None)|;
            && DecodeSrc(code, p + n0) == Decoded(SrcOf(os[1]), p + n0 + n1)
            && (|os| >= 3 ==> DecodeSrc(code, p + n0 + n1).Decoded? && DecodeSrc(code, p + n0 + n1).val == SrcOf(os[2])))
  {
    hide SourceWords, SrcOf, DecodeSrc, Holds;
    SplitHolds(code, p, SourceWords(os[0], None), OperandWords(os[1..]));
    SourceDecodes(code, p, os[0], None);
    if |os| >= 2 {
      var q := p + |SourceWords(os[0], None)|;
      assert os[1..][1..] == os[2..];
      SplitHolds(code, q, SourceWords(os[1], None), OperandWords(os[2..]));
      SourceDecodes(code, q, os[1], None);
      if |os| == 3 {
        var r := q + |SourceWords(os[1], None)|;
        SplitHolds(code, r, SourceWords(os[2], None), OperandWords(os[2..][1..]));
        SourceDecodes(code, r, os[2], None);
      }
    }
  }

  lemma AluDecodes(code: seq<Word>, p: nat, op: AluOp, t: Target, os: seq<Operand>)
    requires |os| == Arity(op) && Holds(code, p, AluWords(op, t, os))
    ensures Expect(code, p, Alu(op, Dst(if t.output then 2 else 0, t.index, MaskBits(t.mask)), OperandOf(os, 0), OperandOf(os, 1), OperandOf(os, 2)))
         == Some(p + |AluWords(op, t, os)|)
  {
    hide OpToken, TargetWords, OperandWords, SrcOf, MaskBits, DecodeSrc, DecodeDst, DecodeAlu, DecodeCondition, OpcodeOf, LengthOf, Holds;
    var rest := TargetWords(t, None) + OperandWords(os);
    ShortOperands(os);
    ShortTarget(t);
    OpFields(Opcode(op), false, 1 + |rest|);
    TailHolds(code, p, OpToken(Opcode(op), false, 1 + |rest|), rest);
    OperationDecodes(code, p + 1, op, t, os);
    HoldsLength(code, p, AluWords(op, t, os));
  }

  lemma OperationDecodes(code: seq<Word>, p: nat, op: AluOp, t: Target, os: seq<Operand>)
    requires |os| == Arity(op) && Holds(code, p, TargetWords(t, None) + OperandWords(os))
    ensures DecodeAlu(op, code, p) ==
      Alu(op, Dst(if t.output then 2 else 0, t.index, MaskBits(t.mask)), OperandOf(os, 0), OperandOf(os, 1), OperandOf(os, 2))
  {
    hide TargetWords, OperandWords, SrcOf, MaskBits, DecodeSrc, DecodeDst, Holds, SourceWords;
    SplitHolds(code, p, TargetWords(t, None), OperandWords(os));
    TargetDecodes(code, p, t, None);
    OperandsDecode(code, p + |TargetWords(t, None)|, os);
  }

  lemma HoldsLength(code: seq<Word>, p: nat, words: seq<Word>)
    requires Holds(code, p, words)
    ensures p + |words| <= |code|
  {
  }

  lemma ShortTarget(t: Target)
    ensures |TargetWords(t, None)| == 2
  {
  }

  function Argument(os: seq<Operand>, k: nat, vm: Regs): Vec4
  {
    if k < |os| then Value(os[k], vm) else ZERO4
  }

  /**
   An assembled instruction stores the result of its operation on the values its operands name,
   lane by lane through its mask, changes nothing else, and goes on behind itself.
   */
  lemma AluStep(fpu: Fpu, code: seq<Word>, m: Machine, op: AluOp, t: Target, os: seq<Operand>)
    requires m.status == Running && |os| == Arity(op) && Holds(code, m.tok, AluWords(op, t, os))
    ensures
      var m' := Step(fpu, code, m);
      && m' == m.(tok := m.tok + |AluWords(op, t, os)|, vm := m'.vm)
      && Stored(t, AluResult(fpu, op, Argument(os, 0, m.vm), Argument(os, 1, m.vm), Argument(os, 2, m.vm)), m.vm, m'.vm)
  {
    hide Step, Expect, AluWords, Value, SrcOf, Holds, AluResult, Stored, Write, MaskBits, Named, Select;
    AluDecodes(code, m.tok, op, t, os);
    var dst := Dst(if t.output then 2 else 0, t.index, MaskBits(t.mask));
    var i := Alu(op, dst, OperandOf(os, 0), OperandOf(os, 1), OperandOf(os, 2));
    StepAt(fpu, code, m, i);
    forall k: nat | k < |os|
      ensures Read(OperandOf(os, k), m.vm) == Argument(os, k, m.vm)
    {
      SourceMeans(os[k], m.vm);
    }
    NothingRead(m.vm);
    TargetStores(t, AluResult(fpu, op, Argument(os, 0, m.vm), Argument(os, 1, m.vm), Argument(os, 2, m.vm)), m.vm);
  }

  lemma NothingRead(vm: Regs)
    ensures Read(NO_SRC, vm) == ZERO4
  {
  }

  // ---------------------------------------------------------------- what the operations compute

  function Truth(b: bool): Word
  {
    if b then 0xFFFF_FFFF else 0
  }

  /** One lane of a result from the operand words: lane by lane, or a dot product in every lane. */
  function Lane1(fpu: Fpu, op: AluOp, a: seq<Word>, b: seq<Word>, c: seq<Word>, i: Lane): Word
    requires |a| == |b| == |c| == 4
  {
    match op
    case Mov => a[i]
    case Add => fpu.add(a[i], b[i])
    case Mul => fpu.mul(a[i], b[i])
    case Mad => fpu.add(fpu.mul(a[i], b[i]), c[i])
    case Dp3 => fpu.add(fpu.add(fpu.mul(a[0], b[0]), fpu.mul(a[1], b[1])), fpu.mul(a[2], b[2]))
    case Dp4 => fpu.add(fpu.add(fpu.add(fpu.mul(a[0], b[0]), fpu.mul(a[1], b[1])), fpu.mul(a[2], b[2])), fpu.mul(a[3], b[3]))
    case Lt => Truth(fpu.lt(a[i], b[i]))
    case Ge => Truth(fpu.ge(a[i], b[i]))
    case Eq => Truth(fpu.eq(a[i], b[i]))
    case Ne => Truth(!fpu.eq(a[i], b[i]))
    case Min => if fpu.lt(a[i], b[i]) then a[i] else b[i]
    case Max => if fpu.lt(b[i], a[i]) then a[i] else b[i]
    case Movc => if a[i] != 0 then b[i] else c[i]
    case Rsq => if fpu.lt(0, a[i]) then fpu.rsq(a[i]) else 0
  }

  lemma AluLanes(fpu: Fpu, op: AluOp, a: Vec4, b: Vec4, c: Vec4, i: Lane)
    ensures Lanes(AluResult(fpu, op, a, b, c))[i] == Lane1(fpu, op, Lanes(a), Lanes(b), Lanes(c), i)
  {
  }

  /** The opcodes of control flow. */
  lemma FlowDecodes(code: seq<Word>, p: nat, op: int)
    requires p < |code| && 0 <= op < 2048 && code[p] == OpToken(op, false, 1)
    ensures op == 62 ==> Expect(code, p, Ret) == Some(p + 1)
    ensures op == 18 ==> Expect(code, p, Else) == Some(p + 1)
    ensures op == 21 ==> Expect(code, p, Endif) == Some(p + 1)
    ensures op == 48 ==> Expect(code, p, Loop) == Some(p + 1)
    ensures op == 22 ==> Expect(code, p, Endloop) == Some(p + 1)
    ensures op == 2 ==> Expect(code, p, Break) == Some(p + 1)
    ensures op >= 88 ==> Expect(code, p, Nop) == Some(p + 1)
  {
    hide OpToken, DecodeAlu, DecodeCondition, OpcodeOf, LengthOf;
    OpFields(op, false, 1);
  }
}
