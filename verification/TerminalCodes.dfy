/**
 What the bytes sent to the terminal do, from the bytes themselves: text, the single controls, and
 control sequences with decimal parameters (ECMA-48, sections 5.4 and 8.3).
 */
module TerminalCodes {
  import opened TerminalSpec

  // ---------------------------------------------------------------- writing parameters

  function Digits(n: nat): seq<Byte>
  {
    if n < 10 then [48 + n] else Digits(n / 10) + [48 + n % 10]
  }

  /** Decimal numbers with semicolons between them. */
  function Numbers(ns: seq<nat>): seq<Byte>
  {
    if ns == [] then []
    else if |ns| == 1 then Digits(ns[0])
    else Numbers(ns[..|ns| - 1]) + [59] + Digits(ns[|ns| - 1])
  }

  /** ESC [ parameters command. */
  function Sequence(ns: seq<nat>, cmd: Byte): seq<Byte>
  {
    [27, 91] + Numbers(ns) + [cmd]
  }

  predicate AllDigits(ds: seq<Byte>)
  {
    forall k | 0 <= k < |ds| :: 48 <= ds[k] <= 57
  }

  lemma {:induction false} DigitsAreDigits(n: nat)
    ensures AllDigits(Digits(n)) && Digits(n) != []
  {
    if n >= 10 {
      DigitsAreDigits(n / 10);
    }
  }

  lemma {:induction false} DecimalOfDigits(n: nat)
    ensures Decimal(Digits(n)) == n && HasDigit(Digits(n))
  {
    DigitsAreDigits(n);
    var ds := Digits(n);
    assert IsDigit(ds[0]);
    if n >= 10 {
      DecimalOfDigits(n / 10);
      assert ds[..|ds| - 1] == Digits(n / 10);
    } else {
      assert ds[..0] == [];
    }
  }

  /** Digits belong to the field they follow. */
  lemma {:induction false} SplitDigits(buf: seq<Byte>, ds: seq<Byte>)
    requires AllDigits(ds)
    ensures var fs := Split(buf); Split(buf + ds) == fs[..|fs| - 1] + [fs[|fs| - 1] + ds]
    decreases |ds|
  {
    hide Split;
    var fs := Split(buf);
    if ds == [] {
      assert buf + ds == buf && fs[|fs| - 1] + ds == fs[|fs| - 1];
    } else {
      var init, last := ds[..|ds| - 1], ds[|ds| - 1];
      SplitDigits(buf, init);
      assert buf + init + [last] == buf + ds;
      SplitNext(buf + init, last);
      var gs := Split(buf + init);
      assert gs[..|gs| - 1] == fs[..|fs| - 1];
      assert gs[|gs| - 1] + [last] == fs[|fs| - 1] + ds;
    }
  }

  lemma SplitNext(buf: seq<Byte>, b: Byte)
    ensures Split(buf + [b]) == Extend(Split(buf), b)
  {
    assert (buf + [b])[..|buf|] == buf;
  }

  function Fields(ns: seq<nat>): (r: seq<seq<Byte>>)
    ensures |r| == |ns| && forall k | 0 <= k < |ns| :: r[k] == Digits(ns[k])
  {
    if ns == [] then [] else Fields(ns[..|ns| - 1]) + [Digits(ns[|ns| - 1])]
  }

  lemma {:induction false} SplitNumbers(ns: seq<nat>)
    requires ns != []
    ensures Split(Numbers(ns)) == Fields(ns)
    decreases |ns|
  {
    var n := ns[|ns| - 1];
    DigitsAreDigits(n);
    if |ns| == 1 {
      SplitDigits([], Digits(n));
      assert [] + Digits(n) == Digits(n);
      assert Fields(ns[..0]) == [];
    } else {
      var init := ns[..|ns| - 1];
      SplitNumbers(init);
      var begun := Numbers(init) + [59];
      assert begun[..|begun| - 1] == Numbers(init);
      assert Split(begun) == Fields(init) + [[]];
      SplitDigits(begun, Digits(n));
      assert (Fields(init) + [[]])[..|init|] == Fields(init) && [] + Digits(n) == Digits(n);
      assert begun + Digits(n) == Numbers(ns);
    }
  }

  lemma ParamsOfFields(buf: seq<Byte>, fs: seq<seq<Byte>>)
    requires Split(buf) == fs && HasDigit(fs[0])
    ensures Params(buf) == Decimals(if |fs| <= 8 then fs else fs[..8])
  {
    hide Split, HasDigit, Decimals;
  }

  lemma DecimalsOfFields(fs: seq<seq<Byte>>, ns: seq<nat>)
    requires |fs| == |ns| && forall k | 0 <= k < |ns| :: fs[k] == Digits(ns[k])
    ensures Decimals(fs) == ns
  {
    hide Decimal, Digits, Decimals;
    forall k | 0 <= k < |ns|
      ensures Decimals(fs)[k] == ns[k]
    {
      DecimalOfDigits(ns[k]);
    }
  }

  /** Decimal parameters are read back as written, the first eight of them. */
  lemma ParamsRoundTrip(ns: seq<nat>)
    ensures Params(Numbers(ns)) == if |ns| <= 8 then ns else ns[..8]
  {
    if ns == [] {
      assert Params([]) == [];
    } else {
      ParamsOfNumbers(ns);
    }
  }

  lemma ParamsOfNumbers(ns: seq<nat>)
    requires ns != []
    ensures Params(Numbers(ns)) == if |ns| <= 8 then ns else ns[..8]
  {
    hide Split, Decimal, HasDigit, Digits, Numbers, Params, Decimals, Fields;
    var fs := Fields(ns);
    SplitNumbers(ns);
    DecimalOfDigits(ns[0]);
    ParamsOfFields(Numbers(ns), fs);
    if |ns| <= 8 {
      DecimalsOfFields(fs, ns);
    } else {
      DecimalsOfFields(fs[..8], ns[..8]);
    }
  }

  // ---------------------------------------------------------------- from bytes to commands

  lemma {:induction false} PutAllAppend(d: Doc, a: seq<Byte>, b: seq<Byte>)
    requires d.Valid()
    ensures PutAll(d, a + b) == PutAll(PutAll(d, a), b)
    decreases |a|
  {
    if a == [] {
      assert a + b == b;
    } else {
      assert (a + b)[1..] == a[1..] + b;
      PutAllAppend(Put(d, a[0]), a[1..], b);
    }
  }

  lemma PutOne(d: Doc, c: Byte)
    requires d.Valid()
    ensures PutAll(d, [c]) == Put(d, c)
  {
    assert [c][1..] == [];
  }

  predicate IsParam(b: Byte)
  {
    48 <= b <= 57 || b == 59
  }

  lemma {:induction false} NumbersAreParams(ns: seq<nat>)
    ensures forall k | 0 <= k < |Numbers(ns)| :: IsParam(Numbers(ns)[k])
    decreases |ns|
  {
    if ns != [] {
      DigitsAreDigits(ns[|ns| - 1]);
      NumbersAreParams(ns[..|ns| - 1]);
    }
  }

  /** The buffer keeps 31 bytes. */
  function Kept(bytes: seq<Byte>): seq<Byte>
  {
    if |bytes| <= 31 then bytes else bytes[..31]
  }

  /** Parameter bytes collect in the escape buffer until it is full. */
  lemma {:induction false} Collects(d: Doc, bytes: seq<Byte>)
    requires d.Valid() && d.esc == Csi && forall k | 0 <= k < |bytes| :: IsParam(bytes[k])
    ensures PutAll(d, bytes) == d.(buf := Kept(d.buf + bytes))
    decreases |bytes|
  {
    if bytes == [] {
      assert d.buf + bytes == d.buf;
    } else {
      var d' := d.(buf := Kept(d.buf + [bytes[0]]));
      assert Kept(d.buf + [bytes[0]]) == if |d.buf| < 31 then d.buf + [bytes[0]] else d.buf;
      assert Put(d, bytes[0]) == d';
      Collects(d', bytes[1..]);
      assert Kept(d'.buf + bytes[1..]) == Kept(d.buf + bytes);
    }
  }

  /** A whole control sequence runs its command once, with the parameter bytes that were kept. */
  lemma SequenceRuns(d: Doc, ns: seq<nat>, cmd: Byte)
    requires d.Valid() && d.esc == Normal && 64 <= cmd <= 126
    ensures
      var e := d.(esc := Csi, buf := Kept(Numbers(ns)));
      e.Valid() && PutAll(d, Sequence(ns, cmd)) == Execute(e, cmd).(esc := Normal)
  {
    hide Execute, Numbers;
    var d1 := Put(d, 27);
    var d2 := Put(d1, 91);
    assert d2 == d.(esc := Csi, buf := []);
    NumbersAreParams(ns);
    Collects(d2, Numbers(ns));
    assert [] + Numbers(ns) == Numbers(ns);
    var e := d.(esc := Csi, buf := Kept(Numbers(ns)));
    PutOne(e, cmd);
    PutAllAppend(d2, Numbers(ns), [cmd]);
    assert [27, 91] == [27] + [91];
    PutAllAppend(d, [27], [91]);
    PutOne(d, 27);
    PutOne(d1, 91);
    PutAllAppend(d, [27, 91], Numbers(ns) + [cmd]);
    assert Sequence(ns, cmd) == [27, 91] + (Numbers(ns) + [cmd]);
  }

  // ---------------------------------------------------------------- cursor movement

  /** From `d` to `e` the cursor went to this row of the page and this column, and no cell changed. */
  predicate At(d: Doc, e: Doc, row: int, col: int)
  {
    e.lines == d.lines && e.row == d.Top() + row && e.col == col && e.esc == Normal
  }

  function AtLeast1(n: nat): nat
  {
    if n == 0 then 1 else n
  }

  /** Ordinary text was expected, and the parameters fit the buffer. */
  predicate Ready(d: Doc, ns: seq<nat>)
  {
    d.Valid() && d.esc == Normal && |Numbers(ns)| <= 31
  }

  /** ESC [ r ; c H and ESC [ r ; c f: one-based, clipped to the page. */
  lemma MovesTo(d: Doc, r: nat, c: nat, cmd: Byte)
    requires Ready(d, [r, c]) && (cmd == 72 || cmd == 102)
    ensures
      var row, col := AtLeast1(r) - 1, AtLeast1(c) - 1;
      At(d, PutAll(d, Sequence([r, c], cmd)), if row <= 24 then row else 24, if col <= 79 then col else 79)
  {
    hide Numbers, Params, PutAll;
    SequenceRuns(d, [r, c], cmd);
    ParamsRoundTrip([r, c]);
  }

  /** Without parameters, home; with one, column 1. */
  lemma MovesHome(d: Doc, r: nat, cmd: Byte)
    requires Ready(d, [r]) && Ready(d, []) && (cmd == 72 || cmd == 102)
    ensures At(d, PutAll(d, Sequence([], cmd)), 0, 0)
    ensures var row := AtLeast1(r) - 1; At(d, PutAll(d, Sequence([r], cmd)), if row <= 24 then row else 24, 0)
  {
    hide Numbers, Params, PutAll;
    SequenceRuns(d, [], cmd);
    ParamsRoundTrip([]);
    SequenceRuns(d, [r], cmd);
    ParamsRoundTrip([r]);
  }

  /** ESC [ n A and B: up and down by n, stopping at the border of the page. */
  lemma MovesVertically(d: Doc, n: nat)
    requires Ready(d, [n])
    ensures
      var row, col, k := d.row - d.Top(), d.col, AtLeast1(n);
      && At(d, PutAll(d, Sequence([n], 65)), if row - k >= 0 then row - k else 0, col)
      && At(d, PutAll(d, Sequence([n], 66)), if row + k <= 24 then row + k else 24, col)
  {
    hide Numbers, Params, PutAll, Sequence;
    SequenceRuns(d, [n], 65);
    SequenceRuns(d, [n], 66);
    ParamsRoundTrip([n]);
  }

  /** ESC [ n C and D: right and left by n. */
  lemma MovesHorizontally(d: Doc, n: nat)
    requires Ready(d, [n])
    ensures
      var row, col, k := d.row - d.Top(), d.col, AtLeast1(n);
      && At(d, PutAll(d, Sequence([n], 67)), row, if col + k <= 79 then col + k else 79)
      && At(d, PutAll(d, Sequence([n], 68)), row, if col - k >= 0 then col - k else 0)
  {
    hide Numbers, Params, PutAll, Sequence;
    SequenceRuns(d, [n], 67);
    SequenceRuns(d, [n], 68);
    ParamsRoundTrip([n]);
  }

  /** Without a parameter, by one. */
  lemma MovesByOne(d: Doc, cmd: Byte)
    requires Ready(d, []) && Ready(d, [1]) && 65 <= cmd <= 68
    ensures
      var e, f := PutAll(d, Sequence([], cmd)), PutAll(d, Sequence([1], cmd));
      e.lines == f.lines && e.row == f.row && e.col == f.col && e.esc == f.esc
  {
    hide Numbers, Params, PutAll;
    SequenceRuns(d, [], cmd);
    ParamsRoundTrip([]);
    SequenceRuns(d, [1], cmd);
    ParamsRoundTrip([1]);
  }

  // ---------------------------------------------------------------- erasing

  /** Cells in reading order. */
  function Place(row: int, col: int): int
  {
    80 * row + col
  }

  /** A mode erases from the cursor on, up to the cursor, or everything, in reading order; others nothing. */
  predicate InMode(mode: nat, d: Doc, r: int, c: int)
  {
    if mode == 0 then Place(r, c) >= Place(d.row, d.col)
    else if mode == 1 then Place(r, c) <= Place(d.row, d.col)
    else mode == 2
  }

  /** From `d` to `e` exactly the cells of these lines that the mode names went blank; the cursor stayed. */
  ghost predicate Wiped(d: Doc, e: Doc, mode: nat, lo: int, hi: int)
  {
    && |e.lines| == |d.lines| && e.row == d.row && e.col == d.col && e.esc == Normal
    && forall r, c | 0 <= r < |d.lines| && 0 <= c < 80 ::
         e.lines[r][c] == if lo <= r < hi && InMode(mode, d, r, c) then 0 else d.lines[r][c]
  }

  lemma EraseWipes(d: Doc, buf: seq<Byte>, mode: nat, lo: int, hi: int)
    requires d.Valid() && |buf| <= 31
    ensures Wiped(d, Erase(d.(esc := Csi, buf := buf), mode, lo, hi).(esc := Normal), mode, lo, hi)
  {
    var e := Erase(d.(esc := Csi, buf := buf), mode, lo, hi).(esc := Normal);
    forall r, c | 0 <= r < |d.lines| && 0 <= c < 80
      ensures e.lines[r][c] == if lo <= r < hi && InMode(mode, d, r, c) then 0 else d.lines[r][c]
    {
      OneCell(d.(esc := Csi, buf := buf), mode, lo, hi, r, c);
    }
  }

  lemma OneCell(d: Doc, mode: nat, lo: int, hi: int, r: int, c: int)
    requires d.Valid() && 0 <= r < |d.lines| && 0 <= c < 80
    ensures Erase(d, mode, lo, hi).lines[r][c] == if lo <= r < hi && InMode(mode, d, r, c) then 0 else d.lines[r][c]
  {
  }

  lemma EraseCommands(e: Doc, mode: nat)
    requires e.Valid() && (Params(e.buf) == [mode] || (Params(e.buf) == [] && mode == 0))
    ensures Execute(e, 74) == Erase(e, mode, e.Top(), |e.lines|)
    ensures Execute(e, 75) == Erase(e, mode, e.row, e.row + 1)
  {
    hide Params, Erase;
  }

  lemma CommandsWipe(d: Doc, buf: seq<Byte>, mode: nat)
    requires d.Valid() && |buf| <= 31 && (Params(buf) == [mode] || (Params(buf) == [] && mode == 0))
    ensures
      var e := d.(esc := Csi, buf := buf);
      && Wiped(d, Execute(e, 74).(esc := Normal), mode, d.Top(), |d.lines|)
      && Wiped(d, Execute(e, 75).(esc := Normal), mode, d.row, d.row + 1)
  {
    hide Params, Erase, Execute, Wiped;
    EraseCommands(d.(esc := Csi, buf := buf), mode);
    EraseWipes(d, buf, mode, d.Top(), |d.lines|);
    EraseWipes(d, buf, mode, d.row, d.row + 1);
  }

  /** ESC [ mode J wipes the page and ESC [ mode K the cursor's line; without a mode, from the cursor on. */
  lemma ModeErases(d: Doc, ns: seq<nat>, mode: nat)
    requires Ready(d, ns) && (ns == [mode] || (ns == [] && mode == 0))
    ensures Wiped(d, PutAll(d, Sequence(ns, 74)), mode, d.Top(), |d.lines|)
    ensures Wiped(d, PutAll(d, Sequence(ns, 75)), mode, d.row, d.row + 1)
  {
    hide Numbers, Params, PutAll, Execute, Wiped, Sequence;
    SequenceRuns(d, ns, 74);
    SequenceRuns(d, ns, 75);
    ParamsRoundTrip(ns);
    CommandsWipe(d, Numbers(ns), mode);
  }

  /** Every other command changes neither cells nor cursor. */
  lemma OthersDoNothing(d: Doc, ns: seq<nat>, cmd: Byte)
    requires Ready(d, ns) && 64 <= cmd <= 126
    requires !(65 <= cmd <= 68) && cmd != 72 && cmd != 74 && cmd != 75 && cmd != 102
    ensures At(d, PutAll(d, Sequence(ns, cmd)), d.row - d.Top(), d.col)
  {
    hide Numbers, Params, PutAll;
    SequenceRuns(d, ns, cmd);
  }

  /** An escape that opens no control sequence, and a control sequence broken off by any other byte, change nothing. */
  lemma BrokenSequences(d: Doc, c: Byte)
    requires d.Valid()
    ensures d.esc == Escape && c != 91 ==> Put(d, c) == d.(esc := Normal)
    ensures d.esc == Csi && !IsParam(c) && c != 63 && !(64 <= c <= 126) ==> Put(d, c) == d.(esc := Normal)
    ensures d.esc == Normal && (c < 8 || 10 < c < 13 || 13 < c < 27 || 27 < c < 32 || c >= 127) ==> Put(d, c) == d
  {
  }

  // ---------------------------------------------------------------- single controls

  /** Return, backspace and tab move within the line: to its start, one back, to the next multiple of eight. */
  lemma ControlsMove(d: Doc)
    requires d.Valid() && d.esc == Normal
    ensures At(d, Put(d, 13), d.row - d.Top(), 0)
    ensures At(d, Put(d, 8), d.row - d.Top(), if d.col > 0 then d.col - 1 else 0)
    ensures
      var e := Put(d, 9);
      && At(d, e, d.row - d.Top(), e.col)
      && if d.col < 72 then e.col % 8 == 0 && d.col < e.col <= d.col + 8 else e.col == 79
  {
  }

  /** A line feed goes one line down; on the last line of the page the page moves down with it. */
  lemma LineFeedMoves(d: Doc)
    requires d.Valid() && d.esc == Normal
    ensures
      var e := Put(d, 10);
      && e.row == d.row + 1 && e.col == d.col && e.esc == Normal
      && (d.row - d.Top() < 24 ==> e.lines == d.lines)
      && (d.row - d.Top() == 24 ==> |e.lines| == |d.lines| + 1 && e.lines[..|d.lines|] == d.lines
                                    && forall c | 0 <= c < 80 :: e.lines[|d.lines|][c] == 0)
  {
  }

  predicate Printable(text: seq<Byte>)
  {
    forall k | 0 <= k < |text| :: 32 <= text[k] < 127
  }

  /** Text that fits in front of the last column appears at the cursor, which ends behind it; nothing else changes. */
  lemma {:induction false} TextAppears(d: Doc, text: seq<Byte>)
    requires d.Valid() && d.esc == Normal && Printable(text) && d.col + |text| < 80
    ensures
      var e := PutAll(d, text);
      && |e.lines| == |d.lines| && e.row == d.row && e.col == d.col + |text| && e.esc == Normal
      && (forall r | 0 <= r < |d.lines| && r != d.row :: e.lines[r] == d.lines[r])
      && forall c | 0 <= c < 80 ::
           e.lines[d.row][c] == if d.col <= c < d.col + |text| then text[c - d.col] else d.lines[d.row][c]
    decreases |text|
  {
    if text != [] {
      TextAppears(Put(d, text[0]), text[1..]);
    }
  }

  /** A character in the last column appears there, and the cursor wraps to the start of the next line. */
  lemma LastColumnWraps(d: Doc, c: Byte)
    requires d.Valid() && d.esc == Normal && 32 <= c < 127 && d.col == 79
    ensures
      var e := Put(d, c);
      && e.col == 0 && e.row == d.row + 1 && |e.lines| >= |d.lines|
      && e.lines[d.row] == d.lines[d.row][79 := c as int]
      && forall r | 0 <= r < |d.lines| && r != d.row :: e.lines[r] == d.lines[r]
  {
  }
}
