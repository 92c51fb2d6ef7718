/**
 The two-dimensional meaning of the terminal: a grid of rows, a cursor, a saved
 cursor, and what every control function does to them.
 */
module Display {
  import opened Bytes

  const BLANK: Byte := SPACE

  /** Bytes that a cell may hold: isprint in the C locale, or above ASCII. */
  predicate Displayable(b: Byte) { 32 <= b <= 126 || 128 <= b }

  datatype Screen = Screen(
    rows: nat, cols: nat,
    row: nat, col: nat,
    savedRow: nat, savedCol: nat,
    alt: bool,
    grid: seq<seq<Byte>>)

  predicate RowFits(line: seq<Byte>, cols: nat) {
    |line| == cols && forall c :: 0 <= c < cols ==> Displayable(line[c])
  }

  /** The cursors are on the grid, the grid has its shape, no cell is a control byte. */
  predicate Fits(s: Screen) {
    && 1 <= s.rows && 1 <= s.cols
    && s.row < s.rows && s.col < s.cols
    && s.savedRow < s.rows && s.savedCol < s.cols
    && |s.grid| == s.rows
    && forall r :: 0 <= r < s.rows ==> RowFits(s.grid[r], s.cols)
  }

  function Blanks(n: nat): (line: seq<Byte>)
    ensures RowFits(line, n)
    ensures forall c :: 0 <= c < n ==> line[c] == BLANK
  {
    seq(n, _ => BLANK)
  }

  function BlankGrid(rows: nat, cols: nat): (g: seq<seq<Byte>>)
    ensures |g| == rows && forall r :: 0 <= r < rows ==> g[r] == Blanks(cols)
  {
    seq(rows, _ => Blanks(cols))
  }

  /** A line with columns from..to (inclusive) blanked. */
  function EraseColumns(line: seq<Byte>, from: int, to: int): (r: seq<Byte>)
    ensures |r| == |line|
    ensures forall c :: 0 <= c < |line| ==> r[c] == if from <= c <= to then BLANK else line[c]
    ensures RowFits(line, |line|) ==> RowFits(r, |line|)
  {
    seq(|line|, c requires 0 <= c < |line| => if from <= c <= to then BLANK else line[c])
  }

  function ScrollUp(s: Screen): (r: Screen)
    requires Fits(s)
    ensures Fits(r)
  {
    if s.rows <= 1 then s
    else s.(grid := s.grid[1..] + [Blanks(s.cols)])
  }

  function AdvanceLine(s: Screen): (r: Screen)
    requires Fits(s)
    ensures Fits(r)
  {
    if s.row + 1 < s.rows then s.(row := s.row + 1, col := 0)
    else ScrollUp(s).(row := s.rows - 1, col := 0)
  }

  function SetCell(s: Screen, row: nat, col: nat, b: Byte): (r: Screen)
    requires Fits(s) && row < s.rows && col < s.cols && Displayable(b)
    ensures Fits(r)
  {
    var line: seq<Byte> := s.grid[row][col := b];
    s.(grid := s.grid[row := line])
  }

  /** Write at the cursor; the wrap is eager, on the write into the last column. */
  function PutChar(s: Screen, b: Byte): (r: Screen)
    requires Fits(s) && Displayable(b)
    ensures Fits(r)
  {
    var t := SetCell(s, s.row, s.col, b);
    if s.col + 1 < s.cols then t.(col := s.col + 1) else AdvanceLine(t)
  }

  /** EL and ECH: blank part of the cursor line. */
  function EraseInLine(s: Screen, from: int, to: int): (r: Screen)
    requires Fits(s)
    ensures Fits(r)
  {
    s.(grid := s.grid[s.row := EraseColumns(s.grid[s.row], from, to)])
  }

  /** ED 0: blank the rest of the cursor line and every line below it. */
  function EraseBelow(s: Screen): (r: Screen)
    requires Fits(s)
    ensures Fits(r)
  {
    s.(grid := s.grid[..s.row]
              + [EraseColumns(s.grid[s.row], s.col, s.cols - 1)]
              + BlankGrid(s.rows - s.row - 1, s.cols))
  }

  /** ED 2, ED 3 and the alternate-screen switches: blank everything, cursor home. */
  function ClearHome(s: Screen): (r: Screen)
    requires Fits(s)
    ensures Fits(r)
  {
    s.(grid := BlankGrid(s.rows, s.cols), row := 0, col := 0)
  }

  function MoveTo(s: Screen, row: int, col: int): (r: Screen)
    requires Fits(s)
    ensures Fits(r)
  {
    s.(row := Clamp(row, 0, s.rows - 1), col := Clamp(col, 0, s.cols - 1))
  }

  const DEFAULT_ROWS: nat := 48
  const DEFAULT_COLS: nat := 160

  function InitialScreen(rows: int, cols: int): (s: Screen)
    ensures Fits(s)
  {
    var r := if rows > 0 then rows else DEFAULT_ROWS;
    var c := if cols > 0 then cols else DEFAULT_COLS;
    Screen(r, c, 0, 0, 0, 0, false, BlankGrid(r, c))
  }

  /** The top-left corner survives, everything else of the new grid is blank. */
  function Resized(s: Screen, rows: int, cols: int): (r: Screen)
    requires Fits(s)
    ensures Fits(r)
  {
    var newRows := if rows > 0 then rows else DEFAULT_ROWS;
    var newCols := if cols > 0 then cols else DEFAULT_COLS;
    s.(rows := newRows, cols := newCols,
       row := Min(s.row, newRows - 1), col := Min(s.col, newCols - 1),
       savedRow := Min(s.savedRow, newRows - 1), savedCol := Min(s.savedCol, newCols - 1),
       grid := FitGrid(s.grid, newRows, newCols))
  }

  function FitGrid(grid: seq<seq<Byte>>, rows: nat, cols: nat): (g: seq<seq<Byte>>)
    requires forall r :: 0 <= r < |grid| ==> RowFits(grid[r], |grid[r]|)
    ensures |g| == rows
    ensures forall r :: 0 <= r < rows ==>
      g[r] == if r < |grid| then FitColumns(grid[r], cols) else Blanks(cols)
    ensures forall r :: 0 <= r < rows ==> RowFits(g[r], cols)
  {
    seq(rows, r requires 0 <= r < rows =>
      if r < |grid| then FitColumns(grid[r], cols) else Blanks(cols))
  }

  function FitColumns(line: seq<Byte>, cols: nat): (r: seq<Byte>)
    requires RowFits(line, |line|)
    ensures RowFits(r, cols)
  {
    if |line| <= cols then line + Blanks(cols - |line|) else line[..cols]
  }

  // ----- snapshots

  /** A snapshot; its sequence number is taken beside it. */
  datatype Snapshot = Snapshot(
    rows: nat, cols: nat, cursorRow: nat, cursorCol: nat, altScreen: bool, lines: seq<Text>)

  /** Index one past the last cell that is neither a blank nor NUL. */
  function TrimmedLength(line: seq<Byte>): (n: nat)
    ensures n <= |line|
    ensures forall c :: n <= c < |line| ==> line[c] == BLANK || line[c] == NUL
    ensures 0 < n ==> line[n - 1] != BLANK && line[n - 1] != NUL
  {
    if line == [] then 0
    else if line[|line| - 1] == BLANK || line[|line| - 1] == NUL then TrimmedLength(line[..|line| - 1])
    else |line|
  }

  function SnapshotLines(s: Screen): (lines: seq<Text>)
    ensures |lines| == |s.grid|
    ensures forall r :: 0 <= r < |lines| ==> lines[r] == s.grid[r][..TrimmedLength(s.grid[r])]
  {
    seq(|s.grid|, r requires 0 <= r < |s.grid| => s.grid[r][..TrimmedLength(s.grid[r])])
  }

  function SnapshotOf(s: Screen): Snapshot {
    Snapshot(s.rows, s.cols, s.row, s.col, s.alt, SnapshotLines(s))
  }

  function Padded(line: Text, cols: nat): seq<Byte> {
    if |line| <= cols then line + seq(cols - |line|, _ => BLANK) else line
  }

  /** Padding every snapshot line with blanks recovers the grid exactly. */
  lemma SnapshotRecoversGrid(s: Screen)
    requires Fits(s)
    ensures |SnapshotLines(s)| == s.rows
    ensures forall r :: 0 <= r < s.rows ==> Padded(SnapshotLines(s)[r], s.cols) == s.grid[r]
    ensures forall r :: 0 <= r < s.rows ==> NUL !in SnapshotLines(s)[r]
  {
    forall r | 0 <= r < s.rows
      ensures Padded(SnapshotLines(s)[r], s.cols) == s.grid[r] && NUL !in SnapshotLines(s)[r]
    {
      assert RowFits(s.grid[r], s.cols);
    }
  }

  /** The screen that a snapshot and a saved cursor describe. */
  function ScreenFrom(snap: Snapshot, savedRow: nat, savedCol: nat): Screen {
    Screen(snap.rows, snap.cols, snap.cursorRow, snap.cursorCol, savedRow, savedCol, snap.altScreen,
           seq(|snap.lines|, r requires 0 <= r < |snap.lines| => Padded(snap.lines[r], snap.cols)))
  }

  /** A snapshot loses nothing but the saved cursor: size, cursor, screen flag and every cell come back. */
  lemma SnapshotLosesNothing(s: Screen)
    requires Fits(s)
    ensures ScreenFrom(SnapshotOf(s), s.savedRow, s.savedCol) == s
  {
    SnapshotRecoversGrid(s);
    assert ScreenFrom(SnapshotOf(s), s.savedRow, s.savedCol).grid == s.grid;
  }
}
