/**
 An unbounded terminal: a grid that grows downwards and never scrolls, of which the last 25 lines
 are the page that bytes act on. Controls are those of section 8.3 of ECMA-48.
 */
module TerminalSpec {

  const COLS := 80
  const ROWS := 25
  const ESC_MAX := 31
  const PARAM_MAX := 8

  type Byte = b: int | 0 <= b < 256

  type Line = l: seq<int> | |l| == COLS witness seq(COLS, _ => 0)

  function Blank(): Line
  {
    seq(COLS, _ => 0)
  }

  datatype Esc = Normal | Escape | Csi

  datatype Doc = Doc(lines: seq<Line>, row: int, col: int, esc: Esc, buf: seq<Byte>) {
    function Top(): int
    {
      |lines| - ROWS
    }

    predicate Valid()
    {
      && |lines| >= ROWS
      && Top() <= row < |lines|
      && 0 <= col < COLS
      && |buf| <= ESC_MAX
    }
  }

  function Fresh(): Doc
  {
    Doc(seq(ROWS, _ => Blank()), 0, 0, Normal, [])
  }

  // ---------------------------------------------------------------- control sequence parameters

  const SEMICOLON := 59
  const QUESTION := 63

  predicate IsDigit(b: Byte)
  {
    48 <= b <= 57
  }

  /** One more character: a semicolon opens a field, anything else belongs to the last one. */
  function Extend(fs: seq<seq<Byte>>, b: Byte): (r: seq<seq<Byte>>)
    requires fs != []
    ensures r != []
  {
    if b == SEMICOLON then fs + [[]] else fs[..|fs| - 1] + [fs[|fs| - 1] + [b]]
  }

  /** The fields between semicolons. */
  function Split(buf: seq<Byte>): (r: seq<seq<Byte>>)
    ensures r != []
  {
    if buf == [] then [[]] else Extend(Split(buf[..|buf| - 1]), buf[|buf| - 1])
  }

  /** The digits of a field read as a decimal number; other characters are ignored. */
  function Decimal(f: seq<Byte>): nat
  {
    if f == [] then 0 else
    var n := |f| - 1;
    if IsDigit(f[n]) then 10 * Decimal(f[..n]) + (f[n] - 48) else Decimal(f[..n])
  }

  predicate HasDigit(f: seq<Byte>)
  {
    exists k | 0 <= k < |f| :: IsDigit(f[k])
  }

  function Decimals(fs: seq<seq<Byte>>): (r: seq<nat>)
    ensures |r| == |fs| && forall k | 0 <= k < |fs| :: r[k] == Decimal(fs[k])
  {
    if fs == [] then [] else [Decimal(fs[0])] + Decimals(fs[1..])
  }

  /** At most eight parameters; a buffer without digits and semicolons has none. */
  function Params(buf: seq<Byte>): (r: seq<nat>)
    ensures |r| <= PARAM_MAX
  {
    var fs := Split(buf);
    if |fs| == 1 && !HasDigit(fs[0]) then [] else
    Decimals(if |fs| <= PARAM_MAX then fs else fs[..PARAM_MAX])
  }

  /** Parameter `k` with `default` for a missing or zero one. */
  function Param(ps: seq<nat>, k: nat, default: nat): nat
  {
    if k < |ps| && ps[k] > 0 then ps[k] else default
  }

  // ---------------------------------------------------------------- effects

  function Min(a: int, b: int): int
  {
    if a < b then a else b
  }

  function Max(a: int, b: int): int
  {
    if a > b then a else b
  }

  /** The cursor moves down one line; below the last line there is always one more. */
  function LineFeed(d: Doc): (r: Doc)
    requires d.Valid()
    ensures r.Valid()
  {
    if d.row + 1 < |d.lines| then d.(row := d.row + 1)
    else d.(lines := d.lines + [Blank()], row := d.row + 1)
  }

  function Print(d: Doc, c: Byte): (r: Doc)
    requires d.Valid()
    ensures r.Valid()
  {
    var d' := d.(lines := d.lines[d.row := d.lines[d.row][d.col := c as int]]);
    if d.col + 1 < COLS then d'.(col := d.col + 1) else LineFeed(d'.(col := 0))
  }

  /** Positions in reading order. */
  predicate NotBefore(r: int, c: int, r': int, c': int)
  {
    r > r' || (r == r' && c >= c')
  }

  /** Which cells an erase clears: from the cursor on, up to the cursor, or all. */
  predicate Erases(d: Doc, mode: nat, r: int, c: int)
  {
    || (mode == 0 && NotBefore(r, c, d.row, d.col))
    || (mode == 1 && NotBefore(d.row, d.col, r, c))
    || mode == 2
  }

  /** Lines from `lo` up to `hi` lose the cells that the mode erases. */
  function Erase(d: Doc, mode: nat, lo: int, hi: int): Doc
  {
    Doc(seq(|d.lines|, (r: int) requires 0 <= r < |d.lines| => EraseLine(d, mode, lo, hi, r)), d.row, d.col, d.esc, d.buf)
  }

  function EraseLine(d: Doc, mode: nat, lo: int, hi: int, r: int): Line
    requires 0 <= r < |d.lines|
  {
    seq(COLS, (c: int) requires 0 <= c < COLS => if lo <= r < hi && Erases(d, mode, r, c) then 0 else d.lines[r][c])
  }

  const CUU := 65
  const CUD := 66
  const CUF := 67
  const CUB := 68
  const CUP := 72
  const ED := 74
  const EL := 75
  const HVP := 102

  function Execute(d: Doc, cmd: Byte): (r: Doc)
    requires d.Valid()
    ensures r.Valid()
  {
    var ps := Params(d.buf);
    var n := Param(ps, 0, 1);
    var mode := if |ps| > 0 then ps[0] else 0;
    if cmd == CUU then d.(row := Max(d.row - n, d.Top()))
    else if cmd == CUD then d.(row := Min(d.row + n, |d.lines| - 1))
    else if cmd == CUF then d.(col := Min(d.col + n, COLS - 1))
    else if cmd == CUB then d.(col := Max(d.col - n, 0))
    else if cmd == CUP || cmd == HVP then
      d.(row := d.Top() + Min(n - 1, ROWS - 1), col := Min(Param(ps, 1, 1) - 1, COLS - 1))
    else if cmd == ED then Erase(d, mode, d.Top(), |d.lines|)
    else if cmd == EL then Erase(d, mode, d.row, d.row + 1)
    else d
  }

  /** One byte of output. */
  function Put(d: Doc, c: Byte): (r: Doc)
    requires d.Valid()
    ensures r.Valid()
  {
    match d.esc
    case Normal =>
      if c == 27 then d.(esc := Escape, buf := [])
      else if c == 13 then d.(col := 0)
      else if c == 10 then LineFeed(d)
      else if c == 9 then d.(col := Min((d.col + 8) / 8 * 8, COLS - 1))
      else if c == 8 then d.(col := Max(d.col - 1, 0))
      else if 32 <= c < 127 then Print(d, c)
      else d
    case Escape =>
      if c == 91 then d.(esc := Csi, buf := []) else d.(esc := Normal)
    case Csi =>
      if IsDigit(c) || c == SEMICOLON || c == QUESTION then
        if |d.buf| < ESC_MAX then d.(buf := d.buf + [c]) else d
      else if 64 <= c <= 126 then Execute(d, c).(esc := Normal)
      else d.(esc := Normal)
  }

  function PutAll(d: Doc, bytes: seq<Byte>): (r: Doc)
    requires d.Valid()
    ensures r.Valid()
    decreases |bytes|
  {
    if bytes == [] then d else PutAll(Put(d, bytes[0]), bytes[1..])
  }

  // ---------------------------------------------------------------- history

  /** One byte adds at most one line, and no line above the page changes. */
  lemma PutKeepsHistory(d: Doc, c: Byte)
    requires d.Valid()
    ensures
      var d' := Put(d, c);
      |d.lines| <= |d'.lines| <= |d.lines| + 1 && forall r | 0 <= r < d.Top() :: d'.lines[r] == d.lines[r]
  {
    hide Params;
    if d.esc == Csi && (c == ED || c == EL) {
      var d' := Put(d, c);
      forall r | 0 <= r < d.Top()
        ensures d'.lines[r] == d.lines[r]
      {
        assert forall k | 0 <= k < COLS :: d'.lines[r][k] == d.lines[r][k];
      }
    }
  }

  /** Lines that have left the page never change again, whatever follows. */
  lemma {:induction false} HistoryIsFinal(d: Doc, bytes: seq<Byte>)
    requires d.Valid()
    ensures
      var d' := PutAll(d, bytes);
      |d.lines| <= |d'.lines| && forall r | 0 <= r < d.Top() :: d'.lines[r] == d.lines[r]
    decreases |bytes|
  {
    hide Put;
    if bytes != [] {
      PutKeepsHistory(d, bytes[0]);
      HistoryIsFinal(Put(d, bytes[0]), bytes[1..]);
    }
  }
}
