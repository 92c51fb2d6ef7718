/**
 A teletype that prints on an unbounded tape: it never scrolls, it only moves
 down. The terminal screen is a window onto that tape.
 */
module Teletype {
  import opened Bytes
  import opened Display
  import opened Vt
  import opened Tokens

  type Tape = map<(nat, nat), Byte>

  datatype Teletype = Teletype(tape: Tape, row: nat, col: nat)

  function Cell(tape: Tape, row: nat, col: nat): Byte {
    if (row, col) in tape then tape[(row, col)] else BLANK
  }

  function NewLine(t: Teletype): Teletype { t.(row := t.row + 1, col := 0) }

  /** One byte of text on paper of the given width. */
  function Type(t: Teletype, b: Byte, cols: nat): Teletype {
    if b == CR then t.(col := 0)
    else if b == LF then NewLine(t)
    else if b == BS then if t.col == 0 then t else t.(col := t.col - 1)
    else if b == TAB then
      if NextTab(t.col) < cols then t.(col := NextTab(t.col)) else NewLine(t)
    else if Displayable(b) then
      var u := t.(tape := t.tape[(t.row, t.col) := b]);
      if t.col + 1 < cols then u.(col := t.col + 1) else NewLine(u)
    else t
  }

  function TypeAll(t: Teletype, bytes: Text, cols: nat): Teletype {
    if bytes == [] then t
    else Type(TypeAll(t, bytes[..|bytes| - 1], cols), bytes[|bytes| - 1], cols)
  }

  /** The paper as it is when the screen's contents have been typed at its top. */
  ghost function PaperOf(s: Screen): Teletype
    requires Fits(s)
  {
    Teletype(map r: nat, c: nat | r < s.rows && c < s.cols :: (r, c) := s.grid[r][c], s.row, s.col)
  }

  /** Whether the byte makes the terminal scroll. */
  predicate ScrollsOn(s: Screen, b: Byte) {
    && s.row + 1 == s.rows
    && (|| b == LF
        || (b == TAB && NextTab(s.col) >= s.cols)
        || (Displayable(b) && s.col + 1 >= s.cols))
  }

  function Scrolls(s: Screen, bytes: Text): nat
    requires Fits(s)
  {
    if bytes == [] then 0
    else
      var n := |bytes| - 1;
      Scrolls(s, bytes[..n]) + (if ScrollsOn(RunText(s, bytes[..n]), bytes[n]) then 1 else 0)
  }

  /** The screen shows the rows of the tape from `top` on; the tape is blank below it. */
  ghost predicate Shows(s: Screen, t: Teletype, top: nat)
    requires Fits(s)
  {
    && t.row == top + s.row && t.col == s.col
    && (forall r, c :: 0 <= r < s.rows && 0 <= c < s.cols ==> s.grid[r][c] == Cell(t.tape, top + r, c))
    && (forall r: nat, c: nat :: r >= top + s.rows ==> Cell(t.tape, r, c) == BLANK)
  }

  lemma NewLineShows(s: Screen, t: Teletype, top: nat)
    requires Fits(s) && 2 <= s.rows && Shows(s, t, top)
    ensures Shows(AdvanceLine(s), NewLine(t), if s.row + 1 == s.rows then top + 1 else top)
  {
    if s.row + 1 == s.rows {
      var u := AdvanceLine(s);
      forall r, c | 0 <= r < s.rows && 0 <= c < s.cols
        ensures u.grid[r][c] == Cell(t.tape, top + 1 + r, c)
      {
        if r + 1 < s.rows {
          assert u.grid[r] == s.grid[r + 1];
          assert s.grid[r + 1][c] == Cell(t.tape, top + (r + 1), c);
        } else {
          assert u.grid[r] == Blanks(s.cols);
        }
      }
    }
  }

  lemma WriteShows(s: Screen, t: Teletype, top: nat, b: Byte)
    requires Fits(s) && Shows(s, t, top) && Displayable(b)
    ensures Shows(SetCell(s, s.row, s.col, b), t.(tape := t.tape[(t.row, t.col) := b]), top)
  {
    var u, v := SetCell(s, s.row, s.col, b), t.(tape := t.tape[(t.row, t.col) := b]);
    forall r, c | 0 <= r < s.rows && 0 <= c < s.cols
      ensures u.grid[r][c] == Cell(v.tape, top + r, c)
    {
      assert s.grid[r][c] == Cell(t.tape, top + r, c);
    }
    forall r: nat, c: nat | r >= top + s.rows
      ensures Cell(v.tape, r, c) == BLANK
    {
      assert Cell(t.tape, r, c) == BLANK;
    }
  }

  lemma TypeShows(s: Screen, t: Teletype, top: nat, b: Byte)
    requires Fits(s) && 2 <= s.rows && Shows(s, t, top)
    ensures Shows(TextByte(s, b), Type(t, b, s.cols), if ScrollsOn(s, b) then top + 1 else top)
  {
    if b == LF || (b == TAB && NextTab(s.col) >= s.cols) {
      NewLineShows(s, t, top);
    } else if b != CR && b != BS && b != TAB && Displayable(b) {
      WriteShows(s, t, top, b);
      var u, v := SetCell(s, s.row, s.col, b), t.(tape := t.tape[(t.row, t.col) := b]);
      if s.col + 1 >= s.cols {
        NewLineShows(u, v, top);
      }
    }
  }

  lemma PaperShows(s: Screen)
    requires Fits(s)
    ensures Shows(s, PaperOf(s), 0)
  {
    var t := PaperOf(s);
    forall r: nat, c: nat | s.rows <= r
      ensures Cell(t.tape, r, c) == BLANK
    {
      assert (r, c) !in t.tape;
    }
    forall r, c | 0 <= r < s.rows && 0 <= c < s.cols
      ensures s.grid[r][c] == Cell(t.tape, r, c)
    {
      assert (r, c) in t.tape;
    }
  }

  /**
   For text of any length, from any cursor, on a grid of at least two rows: the
   screen is exactly the window of the tape at the number of rows scrolled, and
   that number is fixed by the teletype's row alone.
   */
  lemma {:induction false} ScreenIsTapeWindow(s: Screen, bytes: Text)
    requires Fits(s) && 2 <= s.rows && ESC !in bytes
    ensures Feed(Machine(s, Ground), bytes).mode == Ground
    ensures
      var m := Feed(Machine(s, Ground), bytes);
      var t := TypeAll(PaperOf(s), bytes, s.cols);
      && Shows(m.screen, t, Scrolls(s, bytes))
      && Scrolls(s, bytes) == (if t.row < s.rows then 0 else t.row - (s.rows - 1))
  {
    FeedText(s, bytes);
    WindowInvariant(s, bytes);
  }

  lemma WindowStep(u: Screen, t: Teletype, top: nat, b: Byte)
    requires Fits(u) && 2 <= u.rows && Shows(u, t, top) && (top > 0 ==> u.row + 1 == u.rows)
    ensures
      var v, top' := TextByte(u, b), if ScrollsOn(u, b) then top + 1 else top;
      && v.rows == u.rows && v.cols == u.cols
      && Shows(v, Type(t, b, u.cols), top')
      && (top' > 0 ==> v.row + 1 == v.rows)
  {
    TypeShows(u, t, top, b);
  }

  lemma {:induction false} WindowInvariant(s: Screen, bytes: Text)
    requires Fits(s) && 2 <= s.rows
    ensures
      var u, t := RunText(s, bytes), TypeAll(PaperOf(s), bytes, s.cols);
      && u.rows == s.rows && u.cols == s.cols
      && Shows(u, t, Scrolls(s, bytes))
      && (Scrolls(s, bytes) > 0 ==> u.row + 1 == s.rows)
  {
    if bytes == [] {
      PaperShows(s);
    } else {
      var n := |bytes| - 1;
      WindowInvariant(s, bytes[..n]);
      var u, t := RunText(s, bytes[..n]), TypeAll(PaperOf(s), bytes[..n], s.cols);
      WindowStep(u, t, Scrolls(s, bytes[..n]), bytes[n]);
    }
  }

  // ----- one row

  /** A byte string that no one-row terminal shows as the teletype does: CR, 'A', LF. */
  const ONE_ROW_WITNESS: Text := [13, 65, 10]

  lemma WitnessOnScreen(s: Screen)
    requires Fits(s) && s.rows == 1
    ensures
      var u := RunText(s, ONE_ROW_WITNESS);
      u.rows == 1 && u.row == 0 && u.cols == s.cols && u.grid[0][0] == 65
  {
    assert ONE_ROW_WITNESS[..2][..1] == [13] && [13][..0] == [] && ONE_ROW_WITNESS[..2] == [13, 65];
    assert RunText(s, []) == s;
    var a := s.(col := 0);
    assert RunText(s, [13]) == a;
    assert RunText(s, [13, 65]) == PutChar(a, 65);
    assert SetCell(a, a.row, 0, 65).grid[0][0] == 65;
  }

  /** Nothing has been printed below the first row. */
  ghost predicate BlankBelow(t: Teletype) {
    forall r: nat, c: nat :: 1 <= r ==> Cell(t.tape, r, c) == BLANK
  }

  lemma WitnessOnTape(p: Teletype, cols: nat)
    requires p.row == 0 && BlankBelow(p)
    ensures
      var t := TypeAll(p, ONE_ROW_WITNESS, cols);
      t.row >= 1 && BlankBelow(t)
  {
    assert ONE_ROW_WITNESS[..2][..1] == [13] && [13][..0] == [] && ONE_ROW_WITNESS[..2] == [13, 65];
    assert TypeAll(p, [], cols) == p;
    assert TypeAll(p, [13], cols) == p.(col := 0);
    PrintedOnFirstRow(p.(col := 0), cols);
    assert TypeAll(p, [13, 65], cols) == Type(p.(col := 0), 65, cols);
  }

  lemma PrintedOnFirstRow(p: Teletype, cols: nat)
    requires p.row == 0 && BlankBelow(p)
    ensures BlankBelow(Type(p, 65, cols))
  {
    var q := Type(p, 65, cols);
    forall r: nat, c: nat | 1 <= r
      ensures Cell(q.tape, r, c) == BLANK
    {
      assert Cell(p.tape, r, c) == BLANK;
    }
  }

  lemma OneRowFails(s: Screen, top: nat)
    requires Fits(s) && s.rows == 1
    ensures !Shows(Feed(Machine(s, Ground), ONE_ROW_WITNESS).screen, TypeAll(PaperOf(s), ONE_ROW_WITNESS, s.cols), top)
  {
    FeedText(s, ONE_ROW_WITNESS);
    WitnessOnScreen(s);
    PaperShows(s);
    WitnessOnTape(PaperOf(s), s.cols);
    var t := TypeAll(PaperOf(s), ONE_ROW_WITNESS, s.cols);
    assert Cell(t.tape, t.row + 0, 0) == BLANK;
  }

  /** Some window of the tape shows the screen after these bytes. */
  ghost predicate IsWindow(s: Screen, bytes: Text)
    requires Fits(s)
  {
    exists top :: Shows(Feed(Machine(s, Ground), bytes).screen, TypeAll(PaperOf(s), bytes, s.cols), top)
  }

  /** The teletype law holds for all texts exactly on terminals of at least two rows. */
  lemma TapeLawIffTwoRows(s: Screen)
    requires Fits(s)
    ensures (forall bytes :: ESC !in bytes ==> IsWindow(s, bytes)) <==> 2 <= s.rows
  {
    if 2 <= s.rows {
      forall bytes | ESC !in bytes
        ensures IsWindow(s, bytes)
      {
        ScreenIsTapeWindow(s, bytes);
      }
    } else {
      assert ESC !in ONE_ROW_WITNESS;
      if IsWindow(s, ONE_ROW_WITNESS) {
        var top :| Shows(Feed(Machine(s, Ground), ONE_ROW_WITNESS).screen, TypeAll(PaperOf(s), ONE_ROW_WITNESS, s.cols), top);
        OneRowFails(s, top);
      }
    }
  }
}
