/** The row-major cell buffer as a grid: cell (r, c) lives at index r * cols + c. */
module FlatGrid {
  import opened Bytes
  import opened Display

  lemma RowBound(r: int, rows: int, cols: int)
    requires 0 <= r < rows && 0 <= cols
    ensures 0 <= r * cols
    ensures r * cols + cols <= rows * cols
  {
    assert (rows - r - 1) * cols >= 0;
    assert rows * cols == r * cols + cols + (rows - r - 1) * cols;
  }

  function RowAt(flat: seq<Byte>, rows: nat, cols: nat, r: nat): (line: seq<Byte>)
    requires |flat| == rows * cols && r < rows
    ensures |line| == cols
  {
    RowBound(r, rows, cols);
    flat[r * cols..r * cols + cols]
  }

  function Grid(flat: seq<Byte>, rows: nat, cols: nat): (g: seq<seq<Byte>>)
    requires |flat| == rows * cols
    ensures |g| == rows
    ensures forall r :: 0 <= r < rows ==> |g[r]| == cols
  {
    seq(rows, r requires 0 <= r < rows && |flat| == rows * cols => RowAt(flat, rows, cols, r))
  }

  /** The cell that cell_ptr addresses. */
  function At(flat: seq<Byte>, rows: nat, cols: nat, r: nat, c: nat): Byte
    requires |flat| == rows * cols && r < rows && c < cols
  {
    RowBound(r, rows, cols);
    flat[r * cols + c]
  }

  lemma GridCell(flat: seq<Byte>, rows: nat, cols: nat, r: nat, c: nat)
    requires |flat| == rows * cols && r < rows && c < cols
    ensures 0 <= r * cols + c < rows * cols
    ensures Grid(flat, rows, cols)[r][c] == flat[r * cols + c]
  {
    RowBound(r, rows, cols);
  }

  /** A grid is determined by its cells. */
  lemma GridIs(flat: seq<Byte>, rows: nat, cols: nat, g: seq<seq<Byte>>)
    requires |flat| == rows * cols && |g| == rows
    requires forall r :: 0 <= r < rows ==> |g[r]| == cols
    requires forall r, c | 0 <= r < rows && 0 <= c < cols ::
      g[r][c] == At(flat, rows, cols, r, c)
    ensures Grid(flat, rows, cols) == g
  {
    forall r | 0 <= r < rows
      ensures Grid(flat, rows, cols)[r] == g[r]
    {
      RowBound(r, rows, cols);
      forall c | 0 <= c < cols
        ensures Grid(flat, rows, cols)[r][c] == g[r][c]
      {
        assert g[r][c] == At(flat, rows, cols, r, c);
      }
    }
  }

  /** Blanking the cells from..to of one row leaves every other row alone. */
  lemma GridErase(flat: seq<Byte>, flat': seq<Byte>, rows: nat, cols: nat, row: nat, from: nat, to: nat)
    requires |flat| == |flat'| == rows * cols && row < rows && from <= to < cols
    requires forall i :: 0 <= i < |flat| ==>
      flat'[i] == if row * cols + from <= i <= row * cols + to then BLANK else flat[i]
    ensures
      var g := Grid(flat, rows, cols);
      Grid(flat', rows, cols) == g[row := EraseColumns(g[row], from, to)]
  {
    var g := Grid(flat, rows, cols);
    forall r, c | 0 <= r < rows && 0 <= c < cols
      ensures g[row := EraseColumns(g[row], from, to)][r][c] == At(flat', rows, cols, r, c)
    {
      GridCell(flat, rows, cols, r, c);
      if r < row {
        RowBound(r, row, cols);
      } else if row < r {
        RowBound(row, r, cols);
      }
    }
    GridIs(flat', rows, cols, g[row := EraseColumns(g[row], from, to)]);
  }

  lemma GridSet(flat: seq<Byte>, flat': seq<Byte>, rows: nat, cols: nat, row: nat, col: nat, b: Byte)
    requires |flat| == rows * cols && row < rows && col < cols
    requires 0 <= row * cols + col < |flat| && flat' == flat[row * cols + col := b]
    ensures
      var g := Grid(flat, rows, cols);
      var line: seq<Byte> := g[row][col := b];
      Grid(flat', rows, cols) == g[row := line]
  {
    var g := Grid(flat, rows, cols);
    var line: seq<Byte> := g[row][col := b];
    forall r, c | 0 <= r < rows && 0 <= c < cols
      ensures g[row := line][r][c] == At(flat', rows, cols, r, c)
    {
      GridCell(flat, rows, cols, r, c);
      if r < row {
        RowBound(r, row, cols);
      } else if row < r {
        RowBound(row, r, cols);
      }
    }
    GridIs(flat', rows, cols, g[row := line]);
  }

  /** Moving the buffer down by one row length and blanking its end is a scroll. */
  lemma GridScroll(flat: seq<Byte>, flat': seq<Byte>, rows: nat, cols: nat)
    requires 1 <= rows && |flat| == rows * cols && cols <= |flat|
    requires flat' == flat[cols..] + Blanks(cols)
    ensures Grid(flat', rows, cols) == Grid(flat, rows, cols)[1..] + [Blanks(cols)]
  {
    var g := Grid(flat, rows, cols)[1..] + [Blanks(cols)];
    forall r, c | 0 <= r < rows && 0 <= c < cols
      ensures g[r][c] == At(flat', rows, cols, r, c)
    {
      RowBound(r, rows, cols);
      assert (r + 1) * cols == r * cols + cols;
      if r + 1 < rows {
        GridCell(flat, rows, cols, r + 1, c);
      } else {
        assert r * cols + cols == rows * cols;
      }
    }
    GridIs(flat', rows, cols, g);
  }

  lemma GridBlank(flat: seq<Byte>, rows: nat, cols: nat)
    requires |flat| == rows * cols
    requires forall i :: 0 <= i < |flat| ==> flat[i] == BLANK
    ensures Grid(flat, rows, cols) == BlankGrid(rows, cols)
  {
    forall r, c | 0 <= r < rows && 0 <= c < cols
      ensures BlankGrid(rows, cols)[r][c] == At(flat, rows, cols, r, c)
    {
      GridCell(flat, rows, cols, r, c);
    }
    GridIs(flat, rows, cols, BlankGrid(rows, cols));
  }
}
