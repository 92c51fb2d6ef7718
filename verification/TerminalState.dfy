/** The terminal state as the agent keeps it: a flat cell buffer, cursor fields and parser flags. */
module TerminalState {
  import opened Bytes
  import opened Display
  import opened FlatGrid
  import Vt

  const UINT64: nat := 0x1_0000_0000_0000_0000

  method MemSet(a: array<Byte>, start: nat, count: nat, b: Byte)
    requires start + count <= a.Length
    modifies a
    ensures forall i :: 0 <= i < a.Length ==>
      a[i] == if start <= i < start + count then b else old(a[i])
  {
    for k := 0 to count
      invariant forall i :: 0 <= i < a.Length ==>
        a[i] == if start <= i < start + k then b else old(a[i])
    {
      a[start + k] := b;
    }
  }

  /** memmove towards the front of the same buffer. */
  method MoveToFront(a: array<Byte>, source: nat, count: nat)
    requires source + count <= a.Length
    modifies a
    ensures forall i :: 0 <= i < a.Length ==>
      a[i] == if i < count then old(a[source + i]) else old(a[i])
  {
    for k := 0 to count
      invariant forall i :: 0 <= i < k ==> a[i] == old(a[source + i])
      invariant forall i :: k <= i < a.Length ==> a[i] == old(a[i])
    {
      a[k] := a[source + k];
    }
  }

  /** get_param: walk over the ';' separators up to the requested token. */
  method GetParam(params: Text, index: nat, default: int) returns (value: int)
    ensures value == Vt.Param(params, index, default)
  {
    if params == [] {
      return default;
    }
    var rest, current := Vt.Body(params), 0;
    while true
      invariant current <= index
      invariant Vt.TokenValue(Vt.Split(rest), index - current, default) == Vt.Param(params, index, default)
      decreases |rest|
    {
      var len := Vt.SepAt(rest);
      if current == index {
        value := ReadToken(rest, len, default);
        return;
      }
      NextValue(rest, index - current, default, len);
      if len == |rest| {
        return default;
      }
      rest := rest[len + 1..];
      current := current + 1;
    }
  }

  /** parse_int_token on the first token of the text. */
  method ReadToken(t: Text, len: nat, default: int) returns (value: int)
    requires len == Vt.SepAt(t)
    ensures value == Vt.TokenValue(Vt.Split(t), 0, default)
  {
    assert Vt.Split(t)[0] == t[..len];
    return Vt.IntToken(t[..len], default);
  }

  lemma NextValue(t: Text, index: nat, default: int, len: nat)
    requires len == Vt.SepAt(t) && index > 0
    ensures Vt.TokenValue(Vt.Split(t), index, default) ==
      if len < |t| then Vt.TokenValue(Vt.Split(t[len + 1..]), index - 1, default) else default
  {
    if len == |t| {
      assert Vt.Split(t) == [t] && [t][1..] == [] && t[..len] == t;
    } else {
      var rest := Vt.Split(t[len + 1..]);
      assert Vt.Split(t) == [t[..len]] + rest && ([t[..len]] + rest)[1..] == rest;
    }
  }

  method HasPrivateMode(params: Text, mode: nat) returns (found: bool)
    ensures found == Vt.HasMode(params, mode)
  {
    if params == [] || params[0] != Vt.QUESTION {
      return false;
    }
    var rest := params[1..];
    while rest != []
      invariant Vt.AnyToken(Vt.Split(rest), mode) == Vt.HasMode(params, mode)
      decreases |rest|
    {
      var len := Vt.SepAt(rest);
      NextMode(rest, mode, len);
      var value := ReadToken(rest, len, -1);
      if value == mode {
        return true;
      }
      if len == |rest| {
        return false;
      }
      rest := rest[len + 1..];
    }
    NoModeInEmpty(mode);
    return false;
  }

  lemma NoModeInEmpty(mode: nat)
    ensures !Vt.AnyToken(Vt.Split([]), mode)
  {
    assert Vt.Split([])[1..] == [];
    assert Vt.IntToken([], -1) == -1;
  }

  lemma NextMode(t: Text, mode: nat, len: nat)
    requires len == Vt.SepAt(t)
    ensures Vt.AnyToken(Vt.Split(t), mode) ==
      (Vt.TokenValue(Vt.Split(t), 0, -1) == mode || (len < |t| && Vt.AnyToken(Vt.Split(t[len + 1..]), mode)))
  {
    if len == |t| {
      assert Vt.Split(t) == [t] && [t][1..] == [] && t[..len] == t;
    } else {
      var rest := Vt.Split(t[len + 1..]);
      assert Vt.Split(t) == [t[..len]] + rest && ([t[..len]] + rest)[1..] == rest;
    }
  }

  /** A, B, C, D, G, d, H, f, s and u. */
  predicate IsCursorFinal(final: Byte) {
    65 <= final <= 68 || final == 71 || final == 100 || final == 72 || final == 102 ||
    final == 115 || final == 117
  }

  class TerminalState {
    var sequence: nat
    var rows: int
    var cols: int
    var cursorRow: int
    var cursorCol: int
    var savedRow: int
    var savedCol: int
    var altScreen: bool
    var cells: array<Byte>
    var inEscape: bool
    var inEscapeCharset: bool
    var inCsi: bool
    const csiBuf: array<Byte>
    var csiLen: nat

    ghost predicate Allocated()
      reads this
    {
      1 <= rows && 1 <= cols && cells.Length == rows * cols && cells != csiBuf && csiBuf.Length == 128
    }

    ghost predicate Shape()
      reads this
    {
      && Allocated()
      && 0 <= cursorRow < rows && 0 <= cursorCol < cols
      && 0 <= savedRow < rows && 0 <= savedCol < cols
      && csiLen <= Vt.CSI_MAX
      && !(inEscape && inEscapeCharset) && !(inEscape && inCsi) && !(inEscapeCharset && inCsi)
    }

    /** What the buffer and the cursor fields mean. */
    ghost function Scr(): Screen
      requires Shape()
      reads this, cells
    {
      Screen(rows, cols, cursorRow, cursorCol, savedRow, savedCol, altScreen,
             Grid(cells[..], rows, cols))
    }

    ghost function Mode(): Vt.Mode
      requires Shape()
      reads this, csiBuf
    {
      if inEscapeCharset then Vt.Charset
      else if inCsi then Vt.Csi(csiBuf[..csiLen])
      else if inEscape then Vt.Escape
      else Vt.Ground
    }

    ghost function View(): Vt.Machine
      requires Shape()
      reads this, cells, csiBuf
    {
      Vt.Machine(Scr(), Mode())
    }

    /** At most one flag is set, the cursors are on the grid, no cell holds a control byte. */
    ghost predicate Valid()
      reads this, cells, csiBuf
    {
      Shape() && Vt.Valid(View())
    }

    constructor (rows: int, cols: int)
      ensures Valid() && fresh(cells) && fresh(csiBuf)
      ensures View() == Vt.Machine(InitialScreen(rows, cols), Vt.Ground)
      ensures sequence == 0
    {
      var r := if rows > 0 then rows else DEFAULT_ROWS;
      var c := if cols > 0 then cols else DEFAULT_COLS;
      RowBound(0, r, c);
      this.rows, this.cols := r, c;
      cursorRow, cursorCol, savedRow, savedCol := 0, 0, 0, 0;
      sequence, altScreen := 0, false;
      inEscape, inEscapeCharset, inCsi, csiLen := false, false, false, 0;
      cells := new Byte[r * c](_ => BLANK);
      csiBuf := new Byte[128](_ => NUL);
      new;
      GridBlank(cells[..], r, c);
    }

    method ClearScreen()
      requires Allocated()
      modifies cells
      ensures Grid(cells[..], rows, cols) == BlankGrid(rows, cols)
    {
      MemSet(cells, 0, rows * cols, BLANK);
      GridBlank(cells[..], rows, cols);
    }

    method ClearLineRange(row: int, colStart: int, colEnd: int)
      requires Allocated()
      modifies cells
      ensures
        var g := old(Grid(cells[..], rows, cols));
        Grid(cells[..], rows, cols) ==
          if 0 <= row < rows && Clamp(colStart, 0, cols - 1) <= Clamp(colEnd, 0, cols - 1)
          then g[row := EraseColumns(g[row], Clamp(colStart, 0, cols - 1), Clamp(colEnd, 0, cols - 1))]
          else g
    {
      if row < 0 || row >= rows {
        return;
      }
      var from, to := Clamp(colStart, 0, cols - 1), Clamp(colEnd, 0, cols - 1);
      if to < from {
        return;
      }
      RowBound(row, rows, cols);
      ghost var before := cells[..];
      MemSet(cells, row * cols + from, to - from + 1, BLANK);
      GridErase(before, cells[..], rows, cols, row, from, to);
    }

    method ScrollUp()
      requires Allocated()
      modifies cells
      ensures
        var g := old(Grid(cells[..], rows, cols));
        Grid(cells[..], rows, cols) == if rows <= 1 then g else g[1..] + [Blanks(cols)]
    {
      if rows <= 1 {
        return;
      }
      RowBound(rows - 1, rows, cols);
      assert (rows - 1) * cols + cols == rows * cols;
      ghost var before := cells[..];
      ShiftUp(cols, cols * (rows - 1));
      GridScroll(before, cells[..], rows, cols);
    }

    /** memmove and memset: the first `width` cells drop out, as many blanks follow. */
    method ShiftUp(width: nat, kept: nat)
      requires kept + width == cells.Length
      modifies cells
      ensures cells[..] == old(cells[..])[width..] + Blanks(width)
    {
      MoveToFront(cells, width, kept);
      MemSet(cells, kept, width, BLANK);
    }

    method AdvanceLine()
      requires Shape() && Fits(Scr())
      modifies this`cursorRow, this`cursorCol, cells
      ensures Shape() && Scr() == Display.AdvanceLine(old(Scr()))
    {
      cursorCol := 0;
      cursorRow := cursorRow + 1;
      if cursorRow >= rows {
        ScrollUp();
        cursorRow := rows - 1;
      }
    }

    method PutChar(b: Byte)
      requires Shape() && Fits(Scr()) && Displayable(b)
      modifies this`cursorRow, this`cursorCol, cells
      ensures Shape() && Scr() == Display.PutChar(old(Scr()), b)
    {
      cursorRow := Clamp(cursorRow, 0, rows - 1);
      cursorCol := Clamp(cursorCol, 0, cols - 1);
      RowBound(cursorRow, rows, cols);
      ghost var before := cells[..];
      cells[cursorRow * cols + cursorCol] := b;
      GridSet(before, cells[..], rows, cols, cursorRow, cursorCol, b);
      ghost var written := SetCell(old(Scr()), cursorRow, cursorCol, b);
      assert Scr() == written;
      if cursorCol + 1 >= cols {
        AdvanceLine();
      } else {
        cursorCol := cursorCol + 1;
      }
    }

    method EraseBelow()
      requires Shape() && Fits(Scr())
      modifies cells
      ensures Scr() == Display.EraseBelow(old(Scr()))
    {
      ClearLineRange(cursorRow, cursorCol, cols - 1);
      ClearRows(cursorRow + 1);
      BelowErased(old(Scr()), Grid(cells[..], rows, cols));
    }

    /** Every row from `first` on. */
    method ClearRows(first: nat)
      requires Allocated() && first <= rows
      modifies cells
      ensures
        var g, was := Grid(cells[..], rows, cols), old(Grid(cells[..], rows, cols));
        forall q :: 0 <= q < rows ==> g[q] == if first <= q then Blanks(cols) else was[q]
    {
      ghost var was := Grid(cells[..], rows, cols);
      for row := first to rows
        invariant forall q :: 0 <= q < rows ==>
          Grid(cells[..], rows, cols)[q] == if first <= q < row then Blanks(cols) else was[q]
      {
        ghost var g := Grid(cells[..], rows, cols);
        ClearLineRange(row, 0, cols - 1);
        assert EraseColumns(g[row], 0, cols - 1) == Blanks(cols);
      }
    }

    /** J: erase in display. */
    method EraseDisplay(mode: int)
      requires Shape() && Fits(Scr())
      modifies this`cursorRow, this`cursorCol, cells
      ensures Shape() && Scr() == Vt.EraseDisplay(old(Scr()), mode)
    {
      if mode == 2 || mode == 3 {
        ClearScreen();
        cursorRow, cursorCol := 0, 0;
      } else if mode == 0 {
        EraseBelow();
      }
    }

    /** K: erase in line. */
    method EraseLine(mode: int)
      requires Shape() && Fits(Scr())
      modifies cells
      ensures Scr() == Vt.EraseLine(old(Scr()), mode)
    {
      if mode == 0 {
        ClearLineRange(cursorRow, cursorCol, cols - 1);
      } else if mode == 1 {
        ClearLineRange(cursorRow, 0, cursorCol);
      } else if mode == 2 {
        ClearLineRange(cursorRow, 0, cols - 1);
      }
    }

    /** X: erase n characters from the cursor on. */
    method EraseCharacters(count: int)
      requires Shape() && Fits(Scr())
      modifies cells
      ensures
        var n := if count <= 0 then 1 else count;
        Scr() == EraseInLine(old(Scr()), cursorCol, cursorCol + n - 1)
    {
      var n := if count <= 0 then 1 else count;
      var endCol := Clamp(cursorCol + n - 1, 0, cols - 1);
      ghost var line := Grid(cells[..], rows, cols)[cursorRow];
      ClearLineRange(cursorRow, cursorCol, endCol);
      assert EraseColumns(line, cursorCol, endCol) == EraseColumns(line, cursorCol, cursorCol + n - 1);
    }

    /** h and l: the alternate-screen private modes. */
    method SwitchScreen(params: Text, alt: bool)
      requires Shape() && Fits(Scr())
      modifies this`cursorRow, this`cursorCol, this`altScreen, cells
      ensures Shape()
      ensures Scr() == if Vt.SwitchesScreen(params) then ClearHome(old(Scr()).(alt := alt)) else old(Scr())
    {
      var a := HasPrivateMode(params, 1049);
      var b := HasPrivateMode(params, 1047);
      var c := HasPrivateMode(params, 47);
      if a || b || c {
        altScreen := alt;
        ClearScreen();
        cursorRow, cursorCol := 0, 0;
      }
    }

    method MoveCursor(row: int, col: int)
      requires Shape() && Fits(Scr())
      modifies this`cursorRow, this`cursorCol
      ensures Shape() && Scr() == MoveTo(old(Scr()), row, col)
    {
      cursorRow := Clamp(row, 0, rows - 1);
      cursorCol := Clamp(col, 0, cols - 1);
    }

    method SaveCursor()
      requires Shape()
      modifies this`savedRow, this`savedCol
      ensures Shape()
      ensures Scr() == old(Scr()).(savedRow := old(cursorRow), savedCol := old(cursorCol))
    {
      savedRow, savedCol := cursorRow, cursorCol;
    }

    /** The control functions that move, save or restore the cursor. */
    method CursorCsi(params: Text, final: Byte)
      requires Shape() && Fits(Scr()) && IsCursorFinal(final)
      modifies this`cursorRow, this`cursorCol, this`savedRow, this`savedCol
      ensures Shape() && Scr() == Vt.ProcessCsi(old(Scr()), params, final)
    {
      var n := GetParam(params, 0, 1);
      if final == 65 {
        MoveCursor(cursorRow - n, cursorCol);
      } else if final == 66 {
        MoveCursor(cursorRow + n, cursorCol);
      } else if final == 67 {
        MoveCursor(cursorRow, cursorCol + n);
      } else if final == 68 {
        MoveCursor(cursorRow, cursorCol - n);
      } else if final == 71 {
        MoveCursor(cursorRow, n - 1);
      } else if final == 100 {
        MoveCursor(n - 1, cursorCol);
      } else if final == 72 || final == 102 {
        var col := GetParam(params, 1, 1);
        MoveCursor(n - 1, col - 1);
      } else if final == 115 {
        SaveCursor();
      } else {
        MoveCursor(savedRow, savedCol);
      }
    }

    method ProcessCsi(params: Text, final: Byte)
      requires Shape() && Fits(Scr())
      modifies this`cursorRow, this`cursorCol, this`savedRow, this`savedCol, this`altScreen, cells
      ensures Shape() && Scr() == Vt.ProcessCsi(old(Scr()), params, final)
    {
      if IsCursorFinal(final) {
        CursorCsi(params, final);
      } else if final == 74 {
        var mode := GetParam(params, 0, 0);
        EraseDisplay(mode);
      } else if final == 75 {
        var mode := GetParam(params, 0, 0);
        EraseLine(mode);
      } else if final == 88 {
        var n := GetParam(params, 0, 1);
        EraseCharacters(n);
      } else if final == 104 {
        SwitchScreen(params, true);
      } else if final == 108 {
        SwitchScreen(params, false);
      }
    }

    /** A byte outside escape sequences. */
    method TextByte(b: Byte)
      requires Valid() && b != Vt.ESC
      modifies this`cursorRow, this`cursorCol, cells
      ensures Valid() && View() == old(View()).(screen := Vt.TextByte(old(Scr()), b))
    {
      if b == Vt.CR {
        cursorCol := 0;
      } else if b == LF {
        AdvanceLine();
      } else if b == Vt.BS {
        cursorCol := Clamp(cursorCol - 1, 0, cols - 1);
      } else if b == TAB {
        var nextTab := (cursorCol / 8 + 1) * 8;
        if nextTab >= cols {
          AdvanceLine();
        } else {
          cursorCol := nextTab;
        }
      } else if Displayable(b) {
        PutChar(b);
      }
    }

    /** A byte inside a control sequence: buffered, dropped when the buffer is full, or final. */
    method CsiByte(b: Byte)
      requires Valid() && inCsi
      modifies this, cells, csiBuf
      ensures Valid() && View() == Vt.Step(old(View()), b)
      ensures cells == old(cells) && rows == old(rows) && cols == old(cols) && sequence == old(sequence)
    {
      if Vt.IsFinal(b) {
        EndCsi(b);
      } else {
        CollectCsi(b);
      }
    }

    /** The final byte: terminate the parameters and execute. */
    method EndCsi(b: Byte)
      requires Valid() && inCsi && Vt.IsFinal(b)
      modifies this, cells, csiBuf
      ensures Valid() && View() == Vt.Step(old(View()), b)
      ensures cells == old(cells) && rows == old(rows) && cols == old(cols) && sequence == old(sequence)
    {
      csiBuf[csiLen] := NUL;
      assert csiBuf[..csiLen] == old(csiBuf[..csiLen]);
      var params := CString(csiBuf[..csiLen]);
      assert Scr() == old(Scr());
      ProcessCsi(params, b);
      inCsi, csiLen := false, 0;
    }

    /** A parameter byte, dropped when the buffer is full. */
    method CollectCsi(b: Byte)
      requires Valid() && inCsi && !Vt.IsFinal(b)
      modifies this`csiLen, csiBuf
      ensures Valid() && View() == Vt.Step(old(View()), b)
    {
      if csiLen + 1 < csiBuf.Length {
        csiBuf[csiLen] := b;
        csiLen := csiLen + 1;
        assert csiBuf[..csiLen] == old(csiBuf[..csiLen]) + [b];
      }
      assert Scr() == old(Scr());
    }

    method FeedByte(b: Byte)
      requires Valid()
      modifies this, cells, csiBuf
      ensures Valid() && View() == Vt.Step(old(View()), b)
      ensures cells == old(cells) && rows == old(rows) && cols == old(cols) && sequence == old(sequence)
    {
      if inEscapeCharset {
        inEscapeCharset := false;
      } else if inCsi {
        CsiByte(b);
      } else if inEscape {
        inEscape := false;
        if b == Vt.BRACKET {
          inCsi, csiLen := true, 0;
          assert csiBuf[..0] == [];
        } else if Vt.IsCharsetIntro(b) {
          inEscapeCharset := true;
        }
      } else if b == Vt.ESC {
        inEscape := true;
      } else {
        TextByte(b);
      }
    }

    method Feed(data: Text)
      requires Valid()
      modifies this, cells, csiBuf
      ensures Valid() && View() == Vt.Feed(old(View()), data)
      ensures sequence == if data == [] then old(sequence) else (old(sequence) + 1) % UINT64
      ensures cells == old(cells) && rows == old(rows) && cols == old(cols)
    {
      if data == [] {
        return;
      }
      FeedBytes(data);
      sequence := (sequence + 1) % UINT64;
    }

    method FeedBytes(data: Text)
      requires Valid()
      modifies this, cells, csiBuf
      ensures Valid() && View() == Vt.Feed(old(View()), data)
      ensures cells == old(cells) && rows == old(rows) && cols == old(cols) && sequence == old(sequence)
    {
      ghost var start := View();
      for i := 0 to |data|
        invariant Valid() && View() == Vt.Feed(start, data[..i])
        invariant cells == old(cells) && rows == old(rows) && cols == old(cols) && sequence == old(sequence)
      {
        Vt.FeedNext(start, data, i);
        FeedByte(data[i]);
      }
      assert data[..|data|] == data;
    }

    method Resize(newRows: int, newCols: int)
      requires Valid()
      modifies this
      ensures Valid() && (cells == old(cells) || fresh(cells))
      ensures View() == old(View()).(screen := Resized(old(Scr()), newRows, newCols))
      ensures sequence ==
        if rows == old(rows) && cols == old(cols) then old(sequence) else (old(sequence) + 1) % UINT64
    {
      var r := if newRows > 0 then newRows else DEFAULT_ROWS;
      var c := if newCols > 0 then newCols else DEFAULT_COLS;
      ghost var g := Grid(cells[..], rows, cols);
      if r == rows && c == cols {
        SameSize(g, c);
        return;
      }
      Reallocate(r, c);
      sequence := (sequence + 1) % UINT64;
    }

    method Reallocate(r: nat, c: nat)
      requires Valid() && 1 <= r && 1 <= c
      modifies this
      ensures Valid() && fresh(cells) && sequence == old(sequence) && rows == r && cols == c
      ensures View() == old(View()).(screen := Resized(old(Scr()), r, c))
    {
      ghost var before := Scr();
      RowBound(0, r, c);
      var newCells := new Byte[r * c](_ => BLANK);
      CopyRows(newCells, r, c);
      ghost var grid := Grid(newCells[..], r, c);
      assert grid == Resized(before, r, c).grid;
      AdoptCells(newCells, r, c);
    }

    /** Switch to a buffer of another size and pull both cursors onto it. */
    method AdoptCells(newCells: array<Byte>, r: nat, c: nat)
      requires Shape() && 1 <= r && 1 <= c && newCells.Length == r * c && newCells != csiBuf
      modifies this`cells, this`rows, this`cols, this`cursorRow, this`cursorCol, this`savedRow, this`savedCol
      ensures Shape() && Mode() == old(Mode()) && cells == newCells
      ensures Scr() == Screen(r, c, Min(old(cursorRow), r - 1), Min(old(cursorCol), c - 1),
                              Min(old(savedRow), r - 1), Min(old(savedCol), c - 1),
                              altScreen, Grid(newCells[..], r, c))
    {
      cells := newCells;
      rows, cols := r, c;
      cursorRow := Clamp(cursorRow, 0, rows - 1);
      cursorCol := Clamp(cursorCol, 0, cols - 1);
      savedRow := Clamp(savedRow, 0, rows - 1);
      savedCol := Clamp(savedCol, 0, cols - 1);
    }

    /** Copy the common top-left rectangle into a blank buffer of r rows and c columns. */
    method CopyRows(target: array<Byte>, r: nat, c: nat)
      requires Valid() && 1 <= r && 1 <= c && target.Length == r * c && target != cells && target != csiBuf
      requires forall i :: 0 <= i < target.Length ==> target[i] == BLANK
      modifies target
      ensures Grid(target[..], r, c) == FitGrid(Grid(cells[..], rows, cols), r, c)
    {
      var copyRows := if rows < r then rows else r;
      var copyCols := if cols < c then cols else c;
      ghost var g := Grid(cells[..], rows, cols);
      GridBlank(target[..], r, c);
      assert FitGrid(g[..0], r, c) == BlankGrid(r, c);
      for row := 0 to copyRows
        invariant Grid(target[..], r, c) == FitGrid(g[..row], r, c)
      {
        RowBound(row, rows, cols);
        RowBound(row, r, c);
        CopyRow(target, r, c, row, copyCols);
      }
      assert FitGrid(g[..copyRows], r, c) == FitGrid(g, r, c);
    }

    method CopyRow(target: array<Byte>, r: nat, c: nat, row: nat, n: nat)
      requires Valid() && target.Length == r * c && target != cells && target != csiBuf
      requires row < r && row < rows && n == Min(cols, c)
      requires Grid(target[..], r, c) == FitGrid(Grid(cells[..], rows, cols)[..row], r, c)
      modifies target
      ensures Grid(target[..], r, c) == FitGrid(Grid(cells[..], rows, cols)[..row + 1], r, c)
    {
      RowBound(row, rows, cols);
      RowBound(row, r, c);
      ghost var before := target[..];
      for k := 0 to n
        invariant forall i :: 0 <= i < target.Length ==>
          target[i] == if row * c <= i < row * c + k then cells[row * cols + (i - row * c)] else before[i]
      {
        target[row * c + k] := cells[row * cols + k];
      }
      ghost var g := Grid(cells[..], rows, cols);
      RowCopied(before, target[..], r, c, row, g, n, cells[..], rows, cols);
    }

    /** trim_row_copy */
    method TrimRowCopy(row: nat) returns (line: Text)
      requires Valid() && row < rows
      ensures line == Scr().grid[row][..TrimmedLength(Scr().grid[row])]
    {
      var length := 0;
      ghost var full := Scr().grid[row];
      for col := 0 to cols
        invariant 0 <= length <= col
        invariant forall c :: length <= c < col ==> full[c] == BLANK || full[c] == NUL
        invariant 0 < length ==> full[length - 1] != BLANK && full[length - 1] != NUL
      {
        GridCell(cells[..], rows, cols, row, col);
        var b := cells[row * cols + col];
        if b != BLANK && b != NUL {
          length := col + 1;
        }
      }
      RowBound(row, rows, cols);
      line := cells[row * cols..row * cols + length];
      assert line == full[..length];
    }

    /** tmuxremote_terminal_state_snapshot, its sequence number beside it */
    method TakeSnapshot() returns (snapshot: Snapshot, number: nat)
      requires Valid()
      ensures snapshot == SnapshotOf(Scr()) && number == sequence
    {
      var lines: seq<Text> := [];
      for row := 0 to rows
        invariant lines == SnapshotLines(Scr())[..row]
      {
        var line := TrimRowCopy(row);
        lines := lines + [line];
      }
      snapshot := Snapshot(rows, cols, cursorRow, cursorCol, altScreen, lines);
      number := sequence;
    }
  }

  lemma BelowErased(s: Screen, g: seq<seq<Byte>>)
    requires Fits(s) && |g| == s.rows
    requires forall q :: 0 <= q < s.row ==> g[q] == s.grid[q]
    requires g[s.row] == EraseColumns(s.grid[s.row], s.col, s.cols - 1)
    requires forall q :: s.row < q < s.rows ==> g[q] == Blanks(s.cols)
    ensures g == Display.EraseBelow(s).grid
  {
  }

  lemma SameSize(g: seq<seq<Byte>>, cols: nat)
    requires forall r :: 0 <= r < |g| ==> |g[r]| == cols && RowFits(g[r], |g[r]|)
    ensures FitGrid(g, |g|, cols) == g
  {
    forall r | 0 <= r < |g|
      ensures FitGrid(g, |g|, cols)[r] == g[r]
    {
      assert RowFits(g[r], cols) && FitColumns(g[r], cols) == g[r];
    }
  }

  /** Cells changed inside one row leave the cells of the other rows alone. */
  lemma OtherRow(before: seq<Byte>, after: seq<Byte>, r: nat, c: nat, row: nat, n: nat, q: nat, k: nat)
    requires |before| == |after| == r * c && row < r && q < r && q != row && k < c && n <= c
    requires forall i :: 0 <= i < |after| && !(row * c <= i < row * c + n) ==> after[i] == before[i]
    ensures At(after, r, c, q, k) == At(before, r, c, q, k)
  {
    RowBound(q, r, c);
    if q < row {
      RowBound(q, row, c);
    } else {
      RowBound(row, q, c);
    }
  }

  lemma RowCopied(before: seq<Byte>, after: seq<Byte>, r: nat, c: nat, row: nat,
                  g: seq<seq<Byte>>, n: nat, cells: seq<Byte>, rows: nat, cols: nat)
    requires |before| == |after| == r * c && row < r && row < rows
    requires |cells| == rows * cols && g == Grid(cells, rows, cols) && n == Min(cols, c)
    requires forall q :: 0 <= q < rows ==> RowFits(g[q], cols)
    requires Grid(before, r, c) == FitGrid(g[..row], r, c)
    requires 0 <= row * c && row * c + c <= r * c && 0 <= row * cols && row * cols + cols <= rows * cols
    requires forall i :: 0 <= i < |after| ==>
      after[i] == if row * c <= i < row * c + n then cells[row * cols + (i - row * c)] else before[i]
    ensures Grid(after, r, c) == FitGrid(g[..row + 1], r, c)
  {
    var expected := FitGrid(g[..row + 1], r, c);
    forall q, k | 0 <= q < r && 0 <= k < c
      ensures expected[q][k] == At(after, r, c, q, k)
    {
      GridCell(before, r, c, q, k);
      if q != row {
        OtherRow(before, after, r, c, row, n, q, k);
      } else if k < n {
        GridCell(cells, rows, cols, row, k);
      }
    }
    GridIs(after, r, c, expected);
  }
}
