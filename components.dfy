/**
 * The cohesion term of main.py's score: the number of 4-connected groups of
 * '#' cells in the 8x8 board, found by a flood fill with an explicit stack
 * over a matrix of visited flags.
 */
module Components {
  import opened SetFacts

  /** A board position as (row, column). */
  type Pos = (int, int)

  /** The four neighbour offsets, in the order the flood fill tries them. */
  const Dirs: seq<(int, int)> := [(1, 0), (-1, 0), (0, 1), (0, -1)]

  predicate OnBoard(p: Pos)
  {
    0 <= p.0 < 8 && 0 <= p.1 < 8
  }

  /** The grid covers the 8x8 board the count looks at. */
  predicate CoversBoard(grid: seq<string>)
  {
    |grid| >= 8 && forall r :: 0 <= r < 8 ==> |grid[r]| >= 8
  }

  /** The '#' cells of the 8x8 board. */
  ghost function FilledCells(grid: seq<string>): set<Pos>
    requires CoversBoard(grid)
  {
    set r, c | 0 <= r < 8 && 0 <= c < 8 && grid[r][c] == '#' :: (r, c)
  }

  /** An 8x8 matrix of visited flags. */
  predicate IsFlags(seen: seq<seq<bool>>)
  {
    |seen| == 8 && forall r :: 0 <= r < 8 ==> |seen[r]| == 8
  }

  /** The cells whose flag is set. */
  ghost function Visited(seen: seq<seq<bool>>): set<Pos>
    requires IsFlags(seen)
  {
    set r, c | 0 <= r < 8 && 0 <= c < 8 && seen[r][c] :: (r, c)
  }

  /** Setting one flag adds its cell to the visited cells. */
  lemma MarkVisited(seen: seq<seq<bool>>, p: Pos)
    requires IsFlags(seen) && OnBoard(p)
    ensures IsFlags(seen[p.0 := seen[p.0][p.1 := true]])
    ensures Visited(seen[p.0 := seen[p.0][p.1 := true]]) == Visited(seen) + {p}
  {
    var marked := seen[p.0 := seen[p.0][p.1 := true]];
    forall q | q in Visited(marked) ensures q in Visited(seen) + {p} {
      assert OnBoard(q);
    }
  }

  /**
   * The flood fill from a '#' cell not yet visited: pop a cell, flag each
   * on-board '#' neighbour not yet flagged and push it, until the stack is
   * empty. It flags the start cell and flags only '#' cells.
   */
  method FloodFrom(grid: seq<string>, seen: seq<seq<bool>>, start: Pos) returns (flags: seq<seq<bool>>)
    requires CoversBoard(grid) && IsFlags(seen) && Visited(seen) <= FilledCells(grid)
    requires OnBoard(start) && grid[start.0][start.1] == '#' && !seen[start.0][start.1]
    ensures IsFlags(flags) && Visited(seen) + {start} <= Visited(flags) <= FilledCells(grid)
  {
    MarkVisited(seen, start);
    flags := seen[start.0 := seen[start.0][start.1 := true]];
    var stack := [start];
    while |stack| > 0
      invariant IsFlags(flags) && Visited(seen) + {start} <= Visited(flags) <= FilledCells(grid)
      invariant forall k :: 0 <= k < |stack| ==> OnBoard(stack[k])
      decreases FilledCells(grid) - Visited(flags), |stack|
    {
      var top := stack[|stack| - 1];
      stack := stack[..|stack| - 1];
      ghost var before := Visited(flags);
      ghost var rest := stack;
      var d := 0;
      while d < 4
        invariant 0 <= d <= 4
        invariant IsFlags(flags) && before <= Visited(flags) <= FilledCells(grid)
        invariant forall k :: 0 <= k < |stack| ==> OnBoard(stack[k])
        invariant Visited(flags) == before ==> stack == rest
      {
        var nr, nc := top.0 + Dirs[d].0, top.1 + Dirs[d].1;
        if 0 <= nr < 8 && 0 <= nc < 8 && !flags[nr][nc] && grid[nr][nc] == '#' {
          MarkVisited(flags, (nr, nc));
          flags := flags[nr := flags[nr][nc := true]];
          stack := stack + [(nr, nc)];
        }
        d := d + 1;
      }
    }
  }

  /**
   * One row of the scan: every '#' cell of row r not yet flagged starts a
   * new group, flooded from it; afterwards every '#' cell of the row is flagged.
   */
  method ScanRow(grid: seq<string>, seen: seq<seq<bool>>, count: nat, r: int) returns (flags: seq<seq<bool>>, total: nat)
    requires CoversBoard(grid) && 0 <= r < 8
    requires IsFlags(seen) && Visited(seen) <= FilledCells(grid)
    requires count <= |Visited(seen)| && (count == 0 <==> Visited(seen) == {})
    ensures IsFlags(flags) && Visited(seen) <= Visited(flags) <= FilledCells(grid)
    ensures total <= |Visited(flags)| && (total == 0 <==> Visited(flags) == {})
    ensures forall j :: 0 <= j < 8 && grid[r][j] == '#' ==> (r, j) in Visited(flags)
  {
    flags, total := seen, count;
    var c := 0;
    while c < 8
      invariant 0 <= c <= 8
      invariant IsFlags(flags) && Visited(seen) <= Visited(flags) <= FilledCells(grid)
      invariant total <= |Visited(flags)| && (total == 0 <==> Visited(flags) == {})
      invariant forall j :: 0 <= j < c && grid[r][j] == '#' ==> (r, j) in Visited(flags)
    {
      if grid[r][c] == '#' && !flags[r][c] {
        ghost var before := Visited(flags);
        assert (r, c) !in before;
        total := total + 1;
        flags := FloodFrom(grid, flags, (r, c));
        SubsetNotLarger(before + {(r, c)}, Visited(flags));
      }
      c := c + 1;
    }
  }

  /**
   * The number of groups the flood fill starts: it is 0 exactly when the
   * board has no '#' cell, and never more than the number of '#' cells,
   * since each group started flags a cell no earlier group reached.
   */
  method ComponentCount(grid: seq<string>) returns (count: nat)
    requires CoversBoard(grid)
    ensures count == 0 <==> FilledCells(grid) == {}
    ensures count <= |FilledCells(grid)|
  {
    var seen := seq(8, _ => seq(8, _ => false));
    assert Visited(seen) == {};
    count := 0;
    var r := 0;
    while r < 8
      invariant 0 <= r <= 8
      invariant IsFlags(seen) && Visited(seen) <= FilledCells(grid)
      invariant count <= |Visited(seen)| && (count == 0 <==> Visited(seen) == {})
      invariant forall i, j :: 0 <= i < r && 0 <= j < 8 && grid[i][j] == '#' ==> (i, j) in Visited(seen)
    {
      seen, count := ScanRow(grid, seen, count, r);
      r := r + 1;
    }
    assert Visited(seen) == FilledCells(grid);
  }
}
