/**
 The terminal emulator of citcterm: a 25x80 cell buffer that scrolls, a cursor, and an escape
 sequence buffer, changed in place byte by byte.
 */
module Terminal {
  import opened TerminalSpec

  // ---------------------------------------------------------------- parameters

  /** The completed fields of a prefix are the first fields of the whole buffer. */
  lemma {:induction false} SplitGrows(buf: seq<Byte>, i: nat)
    requires i <= |buf|
    ensures
      var a, b := Split(buf[..i]), Split(buf);
      |a| <= |b| && a[..|a| - 1] == b[..|a| - 1]
    decreases |buf| - i
  {
    if i == |buf| {
      assert buf[..i] == buf;
    } else {
      SplitGrows(buf, i + 1);
      assert buf[..i + 1][..i] == buf[..i];
    }
  }

  /** After `prefix`: the values of the completed fields, and the value of the current one. */
  ghost predicate Parsed(prefix: seq<Byte>, ps: seq<nat>, val: nat, hasDigit: bool)
  {
    var fs := Split(prefix);
    && |fs| == |ps| + 1
    && ps == Decimals(fs[..|ps|])
    && val == Decimal(fs[|ps|]) && hasDigit == HasDigit(fs[|ps|])
  }

  lemma ParsedStep(prefix: seq<Byte>, b: Byte, ps: seq<nat>, val: nat, hasDigit: bool)
    requires Parsed(prefix, ps, val, hasDigit)
    ensures
      if IsDigit(b) then Parsed(prefix + [b], ps, val * 10 + (b - 48), true)
      else if b == SEMICOLON then Parsed(prefix + [b], ps + [if hasDigit then val else 0], 0, false)
      else Parsed(prefix + [b], ps, val, hasDigit)
  {
    var fs := Split(prefix);
    assert (prefix + [b])[..|prefix|] == prefix;
    NoDigits(fs[|ps|]);
    if b == SEMICOLON {
      var gs := Extend(fs, b);
      assert gs[..|ps| + 1] == fs;
      assert forall k | 0 <= k < |ps| :: fs[..|ps|][k] == fs[k];
    } else {
      LastFieldGrows(fs, b);
    }
  }

  lemma ParsedEnd(buf: seq<Byte>, i: nat, ps: seq<nat>, val: nat, hasDigit: bool)
    requires i <= |buf| && |ps| <= PARAM_MAX && Parsed(buf[..i], ps, val, hasDigit)
    requires i == |buf| || |ps| == PARAM_MAX
    ensures Params(buf) == if (hasDigit || |ps| > 0) && |ps| < PARAM_MAX then ps + [if hasDigit then val else 0] else ps
  {
    if |ps| == PARAM_MAX {
      ParsedFull(buf, i, ps, val, hasDigit);
    } else {
      assert buf[..i] == buf;
      ParsedAll(buf, ps, val, hasDigit);
    }
  }

  lemma ParsedFull(buf: seq<Byte>, i: nat, ps: seq<nat>, val: nat, hasDigit: bool)
    requires i <= |buf| && |ps| == PARAM_MAX && Parsed(buf[..i], ps, val, hasDigit)
    ensures Params(buf) == ps
  {
    hide Split, Decimal, HasDigit;
    SplitGrows(buf, i);
    assert Split(buf)[..PARAM_MAX] == Split(buf[..i])[..PARAM_MAX];
  }

  lemma ParsedAll(buf: seq<Byte>, ps: seq<nat>, val: nat, hasDigit: bool)
    requires |ps| < PARAM_MAX && Parsed(buf, ps, val, hasDigit)
    ensures Params(buf) == if hasDigit || |ps| > 0 then ps + [if hasDigit then val else 0] else ps
  {
    hide Split, Decimal, HasDigit;
    var fs := Split(buf);
    NoDigits(fs[|ps|]);
    assert forall k | 0 <= k < |ps| :: fs[..|ps|][k] == fs[k];
  }

  /** parse_csi_params: the loop that fills `params` and returns how many there are. */
  method ParseParams(buf: array<Byte>, len: nat, params: array<nat>) returns (count: nat)
    requires len <= buf.Length && params.Length == PARAM_MAX
    modifies params
    ensures count <= PARAM_MAX && params[..count] == Params(buf[..len])
  {
    hide Parsed, Params;
    count := 0;
    var val: nat := 0;
    var hasDigit := false;
    var i := 0;
    assert buf[..0] == [] && params[..0] == [];
    NothingParsed();
    while i < len && count < PARAM_MAX
      invariant 0 <= i <= len && count <= PARAM_MAX
      invariant Parsed(buf[..i], params[..count], val, hasDigit)
    {
      ParsedStep(buf[..i], buf[i], params[..count], val, hasDigit);
      assert buf[..i + 1] == buf[..i] + [buf[i]];
      if IsDigit(buf[i]) {
        val := val * 10 + (buf[i] - 48);
        hasDigit := true;
      } else if buf[i] == SEMICOLON {
        params[count] := if hasDigit then val else 0;
        assert params[..count + 1] == params[..count] + [params[count]];
        count := count + 1;
        val := 0;
        hasDigit := false;
      }
      i := i + 1;
    }
    assert buf[..len][..i] == buf[..i];
    ParsedEnd(buf[..len], i, params[..count], val, hasDigit);
    if (hasDigit || count > 0) && count < PARAM_MAX {
      params[count] := if hasDigit then val else 0;
      assert params[..count + 1] == params[..count] + [params[count]];
      count := count + 1;
    }
  }

  lemma NothingParsed()
    ensures Parsed([], [], 0, false)
  {
  }

  lemma LastFieldGrows(fs: seq<seq<Byte>>, b: Byte)
    requires fs != [] && b != SEMICOLON
    ensures
      var n := |fs| - 1;
      var gs := Extend(fs, b);
      && |gs| == |fs| && gs[..n] == fs[..n] && gs[n] == fs[n] + [b]
      && Decimal(gs[n]) == (if IsDigit(b) then 10 * Decimal(fs[n]) + (b - 48) else Decimal(fs[n]))
      && HasDigit(gs[n]) == (HasDigit(fs[n]) || IsDigit(b))
  {
    var n := |fs| - 1;
    var g := fs[n] + [b];
    assert g[..|fs[n]|] == fs[n];
    assert IsDigit(b) ==> IsDigit(g[|fs[n]|]);
    assert forall k | 0 <= k < |fs[n]| :: g[k] == fs[n][k];
  }

  lemma {:induction false} NoDigits(f: seq<Byte>)
    ensures !HasDigit(f) ==> Decimal(f) == 0
  {
    if f != [] {
      NoDigits(f[..|f| - 1]);
      assert forall k | 0 <= k < |f| - 1 :: f[..|f| - 1][k] == f[k];
    }
  }

  lemma ErasedCell(d: Doc, mode: nat, lo: int, hi: int, r: int, c: int)
    requires 0 <= r < |d.lines| && 0 <= c < COLS
    ensures |Erase(d, mode, lo, hi).lines| == |d.lines|
    ensures Erase(d, mode, lo, hi).lines[r][c] == if lo <= r < hi && Erases(d, mode, r, c) then 0 else d.lines[r][c]
  {
  }

  lemma ErasedKeeps(d: Doc, mode: nat, lo: int, hi: int)
    ensures var e := Erase(d, mode, lo, hi);
      |e.lines| == |d.lines| && e.row == d.row && e.col == d.col && e.esc == d.esc && e.buf == d.buf
  {
  }

  // ---------------------------------------------------------------- the emulator

  class Emulator {
    const cells: array2<int>
    const escBuf: array<Byte>
    const params: array<nat>
    var row: int
    var col: int
    var esc: Esc
    var escLen: nat
    /** The unbounded terminal that has received the same bytes. */
    ghost var doc: Doc

    /** The buffer shows the last 25 lines of `d`, and cursor and parser state are those of `d`. */
    ghost predicate Shows(d: Doc)
      reads this, cells, escBuf
    {
      && cells.Length0 == ROWS && cells.Length1 == COLS && escBuf.Length == ESC_MAX + 1 && params.Length == PARAM_MAX
      && d.Valid()
      && row == d.row - d.Top() && col == d.col
      && esc == d.esc && escLen == |d.buf| && escBuf[..escLen] == d.buf
      && Page(d.lines)
    }

    ghost predicate Page(lines: seq<Line>)
      reads cells
      requires cells.Length0 == ROWS && cells.Length1 == COLS && |lines| >= ROWS
    {
      forall r, c | 0 <= r < ROWS && 0 <= c < COLS :: cells[r, c] == lines[|lines| - ROWS + r][c]
    }

    ghost predicate Valid()
      reads this, cells, escBuf
    {
      Shows(doc)
    }

    constructor ()
      ensures Valid() && doc == Fresh() && fresh(cells) && fresh(escBuf) && fresh(params)
    {
      cells := new int[ROWS, COLS]((r, c) => 0);
      escBuf := new Byte[ESC_MAX + 1](_ => 0);
      params := new nat[PARAM_MAX](_ => 0);
      row, col := 0, 0;
      esc, escLen := Normal, 0;
      doc := Fresh();
    }

    /** memmove of all lines but the first, memset of the last. */
    method ScrollUp(ghost lines: seq<Line>)
      requires cells.Length0 == ROWS && cells.Length1 == COLS && |lines| >= ROWS && Page(lines)
      modifies cells
      ensures Page(lines + [Blank()])
    {
      forall r, c | 0 <= r < ROWS - 1 && 0 <= c < COLS {
        cells[r, c] := cells[r + 1, c];
      }
      ClearRows(ROWS - 1, ROWS);
    }

    method NewLine(ghost d: Doc)
      requires Shows(d)
      modifies this`row, cells
      ensures Shows(LineFeed(d))
    {
      row := row + 1;
      if row >= ROWS {
        row := ROWS - 1;
        ScrollUp(d.lines);
      }
    }

    method PrintChar(c: Byte)
      requires Valid()
      modifies this`row, this`col, cells
      ensures Shows(Print(doc, c))
    {
      ghost var d := doc.(lines := doc.lines[doc.row := doc.lines[doc.row][doc.col := c as int]]);
      cells[row, col] := c;
      col := col + 1;
      if col >= COLS {
        col := 0;
        NewLine(d.(col := 0));
      }
    }

    /** Clears columns `from` to `to` of one row. */
    method ClearSpan(r: int, from: int, to: int)
      requires cells.Length0 == ROWS && cells.Length1 == COLS && 0 <= r < ROWS && 0 <= from <= to <= COLS
      modifies cells
      ensures forall k, c | 0 <= k < ROWS && 0 <= c < COLS ::
        cells[k, c] == if k == r && from <= c < to then 0 else old(cells[k, c])
    {
      for i := from to to
        invariant forall k, c | 0 <= k < ROWS && 0 <= c < COLS ::
          cells[k, c] == if k == r && from <= c < i then 0 else old(cells[k, c])
      {
        cells[r, i] := 0;
      }
    }

    /** memset of whole rows. */
    method ClearRows(from: int, to: int)
      requires cells.Length0 == ROWS && cells.Length1 == COLS && 0 <= from <= to <= ROWS
      modifies cells
      ensures forall k, c | 0 <= k < ROWS && 0 <= c < COLS ::
        cells[k, c] == if from <= k < to then 0 else old(cells[k, c])
    {
      forall k, c | from <= k < to && 0 <= c < COLS {
        cells[k, c] := 0;
      }
    }

    method EraseDisplay(mode: nat)
      requires Valid()
      modifies cells
      ensures Shows(Erase(doc, mode, doc.Top(), |doc.lines|))
    {
      hide Erase;
      if mode == 0 {
        ClearSpan(row, col, COLS);
        ClearRows(row + 1, ROWS);
      } else if mode == 1 {
        ClearRows(0, row);
        ClearSpan(row, 0, col + 1);
      } else if mode == 2 {
        ClearRows(0, ROWS);
      }
      ghost var d, top := doc, doc.Top();
      ErasedKeeps(d, mode, top, |d.lines|);
      forall r, c | 0 <= r < ROWS && 0 <= c < COLS
        ensures cells[r, c] == Erase(d, mode, top, |d.lines|).lines[top + r][c]
      {
        ErasedCell(d, mode, top, |d.lines|, top + r, c);
      }
    }

    method EraseInLine(mode: nat)
      requires Valid()
      modifies cells
      ensures Shows(Erase(doc, mode, doc.row, doc.row + 1))
    {
      hide Erase;
      if mode == 0 {
        ClearSpan(row, col, COLS);
      } else if mode == 1 {
        ClearSpan(row, 0, col + 1);
      } else if mode == 2 {
        ClearRows(row, row + 1);
      }
      ghost var d, top := doc, doc.Top();
      ErasedKeeps(d, mode, d.row, d.row + 1);
      forall r, c | 0 <= r < ROWS && 0 <= c < COLS
        ensures cells[r, c] == Erase(d, mode, d.row, d.row + 1).lines[top + r][c]
      {
        ErasedCell(d, mode, d.row, d.row + 1, top + r, c);
      }
    }

    method ExecuteCsi(cmd: Byte)
      requires Valid()
      modifies this`row, this`col, cells, params
      ensures Shows(Execute(doc, cmd))
    {
      hide Params, Erase;
      var np := ParseParams(escBuf, escLen, params);
      ghost var ps := Params(doc.buf);
      assert forall k | 0 <= k < np :: params[k] == params[..np][k];
      var n := if np > 0 && params[0] > 0 then params[0] else 1;
      var mode := if np > 0 then params[0] else 0;
      if cmd == CUU {
        row := row - n;
        if row < 0 {
          row := 0;
        }
      } else if cmd == CUD {
        row := row + n;
        if row >= ROWS {
          row := ROWS - 1;
        }
      } else if cmd == CUF {
        col := col + n;
        if col >= COLS {
          col := COLS - 1;
        }
      } else if cmd == CUB {
        col := col - n;
        if col < 0 {
          col := 0;
        }
      } else if cmd == CUP || cmd == HVP {
        row := if np > 0 && params[0] > 0 then params[0] - 1 else 0;
        col := if np > 1 && params[1] > 0 then params[1] - 1 else 0;
        if row >= ROWS {
          row := ROWS - 1;
        }
        if col >= COLS {
          col := COLS - 1;
        }
      } else if cmd == ED {
        EraseDisplay(mode);
      } else if cmd == EL {
        EraseInLine(mode);
      }
    }

    /** term_putchar refines the unbounded terminal. */
    method PutChar(c: Byte)
      requires Valid()
      modifies this, cells, escBuf, params
      ensures Valid() && doc == Put(old(doc), c)
    {
      hide Execute, Print, LineFeed;
      match esc {
        case Normal =>
          if c == 27 {
            esc := Escape;
            escLen := 0;
          } else if c == 13 {
            col := 0;
          } else if c == 10 {
            NewLine(doc);
          } else if c == 9 {
            col := (col + 8) / 8 * 8;
            if col >= COLS {
              col := COLS - 1;
            }
          } else if c == 8 {
            if col > 0 {
              col := col - 1;
            }
          } else if 32 <= c < 127 {
            PrintChar(c);
          }
        case Escape =>
          if c == 91 {
            esc := Csi;
            escLen := 0;
          } else {
            esc := Normal;
          }
        case Csi =>
          if IsDigit(c) || c == SEMICOLON || c == QUESTION {
            if escLen < ESC_MAX {
              escBuf[escLen] := c;
              escLen := escLen + 1;
            }
          } else if 64 <= c <= 126 {
            escBuf[escLen] := 0;
            ExecuteCsi(c);
            esc := Normal;
          } else {
            esc := Normal;
          }
      }
      doc := Put(doc, c);
    }

    /** Any byte sequence. */
    method PutBytes(bytes: seq<Byte>)
      requires Valid()
      modifies this, cells, escBuf, params
      ensures Valid() && doc == PutAll(old(doc), bytes)
    {
      hide Put;
      for i := 0 to |bytes|
        invariant Valid() && PutAll(old(doc), bytes) == PutAll(doc, bytes[i..])
      {
        PutChar(bytes[i]);
        assert bytes[i..][1..] == bytes[i + 1..];
      }
    }
  }
}
