/**
 * The edge-transition term of main.py's score: how many horizontally and
 * vertically adjacent pairs of cells of the 8x8 board differ.
 */
module EdgeTransitions {
  import Components
  import BoardSymmetry

  /** 1 when the two cells differ, 0 when they agree. */
  function Differs(a: char, b: char): nat
  {
    if a != b then 1 else 0
  }

  /** f(r, 0) + ... + f(r, cols - 1). */
  function RowSum(f: (int, int) -> nat, r: int, cols: nat): nat
  {
    if cols == 0 then 0 else RowSum(f, r, cols - 1) + f(r, cols - 1)
  }

  /** f(0, c) + ... + f(rows - 1, c). */
  function ColSum(f: (int, int) -> nat, c: int, rows: nat): nat
  {
    if rows == 0 then 0 else ColSum(f, c, rows - 1) + f(rows - 1, c)
  }

  /** The sum of f over rows 0..rows-1 and columns 0..cols-1, row by row. */
  function GridSum(f: (int, int) -> nat, rows: nat, cols: nat): nat
  {
    if rows == 0 then 0 else GridSum(f, rows - 1, cols) + RowSum(f, rows - 1, cols)
  }

  /** The same sum, column by column. */
  function GridSumByCols(f: (int, int) -> nat, rows: nat, cols: nat): nat
  {
    if cols == 0 then 0 else GridSumByCols(f, rows, cols - 1) + ColSum(f, cols - 1, rows)
  }

  /** Adding a row to a column-by-column sum adds that row's sum. */
  lemma {:induction false} ByColsAddRow(f: (int, int) -> nat, rows: nat, cols: nat)
    ensures GridSumByCols(f, rows + 1, cols) == GridSumByCols(f, rows, cols) + RowSum(f, rows, cols)
  {
    if cols > 0 {
      ByColsAddRow(f, rows, cols - 1);
    }
  }

  /** Summing by rows or by columns gives the same total. */
  lemma {:induction false} SumOrderIrrelevant(f: (int, int) -> nat, rows: nat, cols: nat)
    ensures GridSum(f, rows, cols) == GridSumByCols(f, rows, cols)
  {
    if rows == 0 {
      ByColsZeroRows(f, cols);
    } else {
      SumOrderIrrelevant(f, rows - 1, cols);
      ByColsAddRow(f, rows - 1, cols);
    }
  }

  lemma {:induction false} ByColsZeroRows(f: (int, int) -> nat, cols: nat)
    ensures GridSumByCols(f, 0, cols) == 0
  {
    if cols > 0 {
      ByColsZeroRows(f, cols - 1);
    }
  }

  /** A column sum of f is the row sum of f with its arguments swapped. */
  lemma {:induction false} ColSumIsFlippedRowSum(f: (int, int) -> nat, g: (int, int) -> nat, c: int, rows: nat)
    requires forall r :: 0 <= r < rows ==> g(c, r) == f(r, c)
    ensures ColSum(f, c, rows) == RowSum(g, c, rows)
  {
    if rows > 0 {
      ColSumIsFlippedRowSum(f, g, c, rows - 1);
    }
  }

  /** g is f with its two arguments swapped, on the rectangle rows x cols. */
  ghost predicate FlipOf(f: (int, int) -> nat, g: (int, int) -> nat, rows: nat, cols: nat)
  {
    forall r, c :: 0 <= r < rows && 0 <= c < cols ==> g(c, r) == f(r, c)
  }

  /** Summing f over rows x cols by columns is summing its flip over cols x rows by rows. */
  lemma {:induction false} ByColsIsFlippedSum(f: (int, int) -> nat, g: (int, int) -> nat, rows: nat, cols: nat)
    requires FlipOf(f, g, rows, cols)
    ensures GridSumByCols(f, rows, cols) == GridSum(g, cols, rows)
  {
    if cols > 0 {
      assert FlipOf(f, g, rows, cols - 1);
      ByColsIsFlippedSum(f, g, rows, cols - 1);
      ColSumIsFlippedRowSum(f, g, cols - 1, rows);
    }
  }

  /** The total of f over rows x cols is the total of its flip over cols x rows. */
  lemma FlippedSum(f: (int, int) -> nat, g: (int, int) -> nat, rows: nat, cols: nat)
    requires FlipOf(f, g, rows, cols)
    ensures GridSum(f, rows, cols) == GridSum(g, cols, rows)
  {
    SumOrderIrrelevant(f, rows, cols);
    ByColsIsFlippedSum(f, g, rows, cols);
  }

  /** Row sums of functions that agree on the row agree. */
  lemma {:induction false} RowSumAgree(f: (int, int) -> nat, g: (int, int) -> nat, r: int, cols: nat)
    requires forall c :: 0 <= c < cols ==> f(r, c) == g(r, c)
    ensures RowSum(f, r, cols) == RowSum(g, r, cols)
  {
    if cols > 0 {
      RowSumAgree(f, g, r, cols - 1);
    }
  }

  /** f and g agree on the rectangle rows x cols. */
  ghost predicate AgreeOn(f: (int, int) -> nat, g: (int, int) -> nat, rows: nat, cols: nat)
  {
    forall r, c :: 0 <= r < rows && 0 <= c < cols ==> f(r, c) == g(r, c)
  }

  /** Sums of functions that agree on the rectangle agree. */
  lemma {:induction false} GridSumAgree(f: (int, int) -> nat, g: (int, int) -> nat, rows: nat, cols: nat)
    requires AgreeOn(f, g, rows, cols)
    ensures GridSum(f, rows, cols) == GridSum(g, rows, cols)
  {
    if rows > 0 {
      assert AgreeOn(f, g, rows - 1, cols);
      GridSumAgree(f, g, rows - 1, cols);
      RowSumAgree(f, g, rows - 1, cols);
    }
  }

  /** A sum of 0/1 terms over rows x cols is at most rows * cols. */
  lemma {:induction false} GridSumBound(f: (int, int) -> nat, rows: nat, cols: nat)
    requires forall r, c :: f(r, c) <= 1
    ensures GridSum(f, rows, cols) <= rows * cols
  {
    if rows > 0 {
      GridSumBound(f, rows - 1, cols);
      RowSumBound(f, rows - 1, cols);
      assert rows * cols == (rows - 1) * cols + cols;
    }
  }

  lemma {:induction false} RowSumBound(f: (int, int) -> nat, r: int, cols: nat)
    requires forall r, c :: f(r, c) <= 1
    ensures RowSum(f, r, cols) <= cols
  {
    if cols > 0 {
      RowSumBound(f, r, cols - 1);
    }
  }

  /** Whether cell (r, c) differs from its right-hand neighbour. */
  function HorizontalEdge(grid: seq<string>): (int, int) -> nat
    requires Components.CoversBoard(grid)
  {
    (r, c) => if 0 <= r < 8 && 0 <= c < 7 then Differs(grid[r][c], grid[r][c + 1]) else 0
  }

  /** Whether cell (r, c) differs from the cell below it. */
  function VerticalEdge(grid: seq<string>): (int, int) -> nat
    requires Components.CoversBoard(grid)
  {
    (r, c) => if 0 <= r < 7 && 0 <= c < 8 then Differs(grid[r][c], grid[r + 1][c]) else 0
  }

  /** The number of cells among columns 0..6 that differ from the cell to their right. */
  function Horizontal(grid: seq<string>): (n: nat)
    requires Components.CoversBoard(grid)
    ensures n <= 8 * 7
  {
    GridSumBound(HorizontalEdge(grid), 8, 7);
    GridSum(HorizontalEdge(grid), 8, 7)
  }

  /** The number of cells among rows 0..6 that differ from the cell below them. */
  function Vertical(grid: seq<string>): (n: nat)
    requires Components.CoversBoard(grid)
    ensures n <= 7 * 8
  {
    GridSumBound(VerticalEdge(grid), 7, 8);
    GridSum(VerticalEdge(grid), 7, 8)
  }

  /** The 8x8 board reflected in its main diagonal: row c holds column c. */
  function Transposed(grid: seq<string>): (t: seq<string>)
    requires Components.CoversBoard(grid)
    ensures BoardSymmetry.IsBoard(t) && Components.CoversBoard(t)
    ensures forall r, c :: 0 <= r < 8 && 0 <= c < 8 ==> t[r][c] == grid[c][r]
  {
    seq(8, r requires 0 <= r < 8 => seq(8, c requires 0 <= c < 8 => grid[c][r]))
  }

  /** The edges of the transposed board are the other kind of edges of the board, flipped. */
  lemma TransposedEdges(grid: seq<string>)
    requires Components.CoversBoard(grid)
    ensures FlipOf(VerticalEdge(grid), HorizontalEdge(Transposed(grid)), 7, 8)
    ensures FlipOf(HorizontalEdge(grid), VerticalEdge(Transposed(grid)), 8, 7)
  {
    var t := Transposed(grid);
    forall r, c | 0 <= r < 7 && 0 <= c < 8 ensures HorizontalEdge(t)(c, r) == VerticalEdge(grid)(r, c) {
      assert t[c][r] == grid[r][c] && t[c][r + 1] == grid[r + 1][c];
    }
    forall r, c | 0 <= r < 8 && 0 <= c < 7 ensures VerticalEdge(t)(c, r) == HorizontalEdge(grid)(r, c) {
      assert t[c][r] == grid[r][c] && t[c + 1][r] == grid[r][c + 1];
    }
  }

  /** Transposing the board turns its vertical transitions into horizontal ones and back. */
  lemma TransposeSwapsTransitions(grid: seq<string>)
    requires Components.CoversBoard(grid)
    ensures Horizontal(Transposed(grid)) == Vertical(grid)
    ensures Vertical(Transposed(grid)) == Horizontal(grid)
  {
    TransposedEdges(grid);
    FlippedSum(VerticalEdge(grid), HorizontalEdge(Transposed(grid)), 7, 8);
    FlippedSum(HorizontalEdge(grid), VerticalEdge(Transposed(grid)), 8, 7);
  }

  /** '#' and '.' exchanged, every other character kept. */
  function Swap(ch: char): char
  {
    if ch == '#' then '.' else if ch == '.' then '#' else ch
  }

  lemma SwapInjective(a: char, b: char)
    ensures Swap(a) == Swap(b) <==> a == b
  {
  }

  /** The board with filled and empty cells exchanged. */
  function Inverted(grid: seq<string>): (inv: seq<string>)
    ensures |inv| == |grid|
    ensures forall r :: 0 <= r < |grid| ==> |inv[r]| == |grid[r]|
    ensures forall r, c :: 0 <= r < |grid| && 0 <= c < |grid[r]| ==> inv[r][c] == Swap(grid[r][c])
  {
    seq(|grid|, r requires 0 <= r < |grid| => seq(|grid[r]|, c requires 0 <= c < |grid[r]| => Swap(grid[r][c])))
  }

  /** Each edge of the inverted board is present exactly when it is on the board. */
  lemma InvertedEdges(grid: seq<string>)
    requires Components.CoversBoard(grid)
    ensures Components.CoversBoard(Inverted(grid))
    ensures AgreeOn(HorizontalEdge(Inverted(grid)), HorizontalEdge(grid), 8, 7)
    ensures AgreeOn(VerticalEdge(Inverted(grid)), VerticalEdge(grid), 7, 8)
  {
    var inv := Inverted(grid);
    forall r, c | 0 <= r < 8 && 0 <= c < 7 ensures HorizontalEdge(inv)(r, c) == HorizontalEdge(grid)(r, c) {
      SwapInjective(grid[r][c], grid[r][c + 1]);
    }
    forall r, c | 0 <= r < 7 && 0 <= c < 8 ensures VerticalEdge(inv)(r, c) == VerticalEdge(grid)(r, c) {
      SwapInjective(grid[r][c], grid[r + 1][c]);
    }
  }

  /** A board and its inverse have the same transitions, since Swap is one-to-one. */
  lemma InvertKeepsTransitions(grid: seq<string>)
    requires Components.CoversBoard(grid)
    ensures Components.CoversBoard(Inverted(grid))
    ensures Horizontal(Inverted(grid)) == Horizontal(grid)
    ensures Vertical(Inverted(grid)) == Vertical(grid)
  {
    InvertedEdges(grid);
    GridSumAgree(HorizontalEdge(Inverted(grid)), HorizontalEdge(grid), 8, 7);
    GridSumAgree(VerticalEdge(Inverted(grid)), VerticalEdge(grid), 7, 8);
  }

  /**
   * The board drawn for any choice of triangle cells is its own mirror image
   * in the main diagonal, so its horizontal and vertical transitions agree.
   */
  lemma BuiltGridTransitionsAgree(indices: seq<int>, grid: seq<string>)
    requires BoardSymmetry.ValidIndices(indices) && BoardSymmetry.IsBoard(grid)
    requires forall y, x :: 0 <= y < 8 && 0 <= x < 8 ==>
      grid[y][x] == BoardSymmetry.Mark(BoardSymmetry.MarkedCells(indices), x, y)
    ensures Transposed(grid) == grid
    ensures Horizontal(grid) == Vertical(grid)
  {
    BoardSymmetry.MarkedCellsDiagonal(indices);
    var t := Transposed(grid);
    forall r | 0 <= r < 8 ensures t[r] == grid[r] {
    }
    TransposeSwapsTransitions(grid);
  }
}
