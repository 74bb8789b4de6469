/**
 * The symmetric 8x8 board of main.py: four reflections of the board, the
 * orbit of a cell under them computed by a worklist, and the board that
 * marks with '#' the orbits of the chosen triangle cells.
 */
module BoardSymmetry {

  /** A board cell as (x, y): column x, row y. */
  type Cell = (int, int)

  const Size: int := 8

  predicate OnBoard(p: Cell)
  {
    0 <= p.0 < Size && 0 <= p.1 < Size
  }

  /**
   * The four generators, in order: the reflections in the vertical centre
   * line, the horizontal centre line, the main diagonal and the secondary
   * diagonal.
   */
  function Transforms(p: Cell): (ts: seq<Cell>)
    ensures |ts| == 4
    ensures OnBoard(p) ==> forall k :: 0 <= k < 4 ==> OnBoard(ts[k])
  {
    [(7 - p.0, p.1), (p.0, 7 - p.1), (p.1, p.0), (7 - p.1, 7 - p.0)]
  }

  /** Each reflection undoes itself. */
  lemma TransformsAreInvolutions(p: Cell)
    ensures forall k :: 0 <= k < 4 ==> Transforms(Transforms(p)[k])[k] == p
  {
  }

  /** The eight images of a cell under the symmetries of the square. */
  function Images(p: Cell): set<Cell>
  {
    var (x, y) := p;
    {(x, y), (7 - x, y), (x, 7 - y), (7 - x, 7 - y),
     (y, x), (7 - y, x), (y, 7 - x), (7 - y, 7 - x)}
  }

  /** A set closed under the four generators. */
  predicate Closed(s: set<Cell>)
  {
    forall q :: q in s ==> forall k :: 0 <= k < 4 ==> Transforms(q)[k] in s
  }

  /** The images of a cell contain it, stay on the board with it and are closed under the generators. */
  lemma ImagesClosed(p: Cell)
    ensures p in Images(p)
    ensures Closed(Images(p))
    ensures OnBoard(p) ==> forall q :: q in Images(p) ==> OnBoard(q)
  {
  }

  /** Any closed set containing a cell contains all its images. */
  lemma ClosedContainsImages(s: set<Cell>, p: Cell)
    requires p in s && Closed(s)
    ensures Images(p) <= s
  {
    var (x, y) := p;
    var t0 := Transforms(p)[0];
    var t2 := Transforms(p)[2];
    assert (7 - x, y) == t0 && t0 in s;
    assert (x, 7 - y) == Transforms(p)[1] && Transforms(p)[1] in s;
    assert (y, x) == t2 && t2 in s;
    assert (7 - y, 7 - x) == Transforms(p)[3] && Transforms(p)[3] in s;
    assert (7 - x, 7 - y) == Transforms(t0)[1] && Transforms(t0)[1] in s;
    assert (7 - y, x) == Transforms(t2)[0] && Transforms(t2)[0] in s;
    assert (y, 7 - x) == Transforms(t2)[1] && Transforms(t2)[1] in s;
  }

  /** The cell reached from p by applying the generators numbered in path, first to last. */
  function Apply(p: Cell, path: seq<nat>): Cell
    requires forall k :: 0 <= k < |path| ==> path[k] < 4
    decreases |path|
  {
    if |path| == 0 then p else Apply(Transforms(p)[path[0]], path[1..])
  }

  predicate IsPath(path: seq<nat>)
  {
    forall k :: 0 <= k < |path| ==> path[k] < 4
  }

  /** Whatever the generators reach from a member of a closed set stays in it. */
  lemma {:induction false} ApplyStaysInClosed(s: set<Cell>, p: Cell, path: seq<nat>)
    requires IsPath(path) && p in s && Closed(s)
    ensures Apply(p, path) in s
    decreases |path|
  {
    if |path| > 0 {
      ApplyStaysInClosed(s, Transforms(p)[path[0]], path[1..]);
    }
  }

  /** The cells reachable from p by the generators are exactly its eight images. */
  lemma ReachableIsImages(p: Cell)
    ensures forall path :: IsPath(path) ==> Apply(p, path) in Images(p)
    ensures forall q :: q in Images(p) ==> exists path :: IsPath(path) && Apply(p, path) == q
  {
    ImagesClosed(p);
    forall path | IsPath(path) ensures Apply(p, path) in Images(p) {
      ApplyStaysInClosed(Images(p), p, path);
    }
    var (x, y) := p;
    assert Apply(p, [0]) == (7 - x, y);
    assert Apply(p, [1]) == (x, 7 - y);
    assert Apply(p, [2]) == (y, x);
    assert Apply(p, [3]) == (7 - y, 7 - x);
    assert Apply(p, [0, 1]) == (7 - x, 7 - y) by {
      assert [0, 1][1..] == [1];
    }
    assert Apply(p, [2, 0]) == (7 - y, x) by {
      assert [2, 0][1..] == [0];
    }
    assert Apply(p, [2, 1]) == (y, 7 - x) by {
      assert [2, 1][1..] == [1];
    }
    forall q | q in Images(p) ensures exists path :: IsPath(path) && Apply(p, path) == q {
      if q == p {
        assert IsPath([]) && Apply(p, []) == q;
      } else if q == (7 - x, y) {
        assert IsPath([0]);
      } else if q == (x, 7 - y) {
        assert IsPath([1]);
      } else if q == (y, x) {
        assert IsPath([2]);
      } else if q == (7 - y, 7 - x) {
        assert IsPath([3]);
      } else if q == (7 - x, 7 - y) {
        assert IsPath([0, 1]);
      } else if q == (7 - y, x) {
        assert IsPath([2, 0]);
      } else {
        assert q == (y, 7 - x);
        assert IsPath([2, 1]);
      }
    }
  }

  /** Cells from index i on of a worklist, each occurring once. */
  predicate Distinct(s: seq<Cell>)
  {
    forall i, j :: 0 <= i < j < |s| ==> s[i] != s[j]
  }

  /**
   * The orbit of a cell: start from it, pop a cell from the worklist, push
   * each of its four images not yet seen, until the worklist is empty.
   */
  method ComputeOrbit(cell: Cell) returns (seen: set<Cell>)
    ensures seen == Images(cell)
  {
    ImagesClosed(cell);
    seen := {cell};
    var stack := [cell];
    while |stack| > 0
      invariant cell in seen && seen <= Images(cell)
      invariant Distinct(stack) && forall q :: q in stack ==> q in seen
      invariant forall q :: q in seen && q !in stack ==> forall k :: 0 <= k < 4 ==> Transforms(q)[k] in seen
      decreases Images(cell) - seen, |stack|
    {
      ghost var seen0 := seen;
      var q := stack[|stack| - 1];
      stack := stack[..|stack| - 1];
      ghost var rest := stack;
      assert q !in rest;
      var ts := Transforms(q);
      var k := 0;
      while k < 4
        invariant 0 <= k <= 4
        invariant seen0 <= seen <= Images(cell) && q in seen
        invariant Distinct(stack) && forall p :: p in stack ==> p in seen
        invariant q !in stack && rest <= stack
        invariant forall j :: 0 <= j < k ==> ts[j] in seen
        invariant seen == seen0 ==> stack == rest
        invariant |stack| >= |rest|
        invariant forall p :: p in seen && p !in seen0 ==> p in stack
      {
        if ts[k] !in seen {
          seen := seen + {ts[k]};
          stack := stack + [ts[k]];
        }
        k := k + 1;
      }
    }
    ClosedContainsImages(seen, cell);
  }

  /** The ten cells of the upper-left triangle the solutions choose from, numbered 0 to 9. */
  const Triangle: seq<Cell> := [(0, 0), (0, 1), (1, 1), (0, 2), (1, 2), (2, 2), (0, 3), (1, 3), (2, 3), (3, 3)]

  predicate ValidIndices(indices: seq<int>)
  {
    forall k :: 0 <= k < |indices| ==> -|Triangle| <= indices[k] < |Triangle|
  }

  /** List indexing as Python does it: a negative index counts from the end. */
  function TriangleAt(i: int): (p: Cell)
    requires -|Triangle| <= i < |Triangle|
    ensures OnBoard(p) && p.0 <= p.1 < 4
  {
    if i < 0 then Triangle[i + |Triangle|] else Triangle[i]
  }

  /** A negative index counts from the end: it names the cell ten places further on. */
  lemma TriangleAtNegative(i: int)
    requires -|Triangle| <= i < 0
    ensures TriangleAt(i) == TriangleAt(i + |Triangle|)
  {
  }

  /** The ten positions are distinct and are exactly the cells (x, y) with x <= y of the 4 x 4 corner. */
  lemma TriangleIsUpperCorner()
    ensures |Triangle| == 10
    ensures forall i, j :: 0 <= i < j < |Triangle| ==> Triangle[i] != Triangle[j]
    ensures forall p: Cell :: p in Triangle <==> 0 <= p.0 <= p.1 < 4
  {
  }

  /** The union of a list of sets. */
  function UnionAll(sets: seq<set<Cell>>): set<Cell>
  {
    if |sets| == 0 then {}
    else UnionAll(sets[..|sets| - 1]) + sets[|sets| - 1]
  }

  /** A cell is in the union exactly when it is in one of the sets. */
  lemma {:induction false} UnionAllMembers(sets: seq<set<Cell>>)
    ensures forall q :: q in UnionAll(sets) <==> exists k :: 0 <= k < |sets| && q in sets[k]
  {
    if |sets| > 0 {
      var n := |sets| - 1;
      var init := sets[..n];
      UnionAllMembers(init);
      forall q ensures q in UnionAll(sets) <==> exists k :: 0 <= k < |sets| && q in sets[k] {
        if q in UnionAll(init) {
          var k :| 0 <= k < n && q in init[k];
          assert init[k] == sets[k];
        } else if q !in sets[n] {
          forall k | 0 <= k < |sets| ensures q !in sets[k] {
            if k < n {
              assert init[k] == sets[k];
            }
          }
        }
      }
    }
  }

  /** The orbits of the triangle cells the indices name, in their order. */
  function Orbits(indices: seq<int>): (orbits: seq<set<Cell>>)
    requires ValidIndices(indices)
    ensures |orbits| == |indices|
    ensures forall k :: 0 <= k < |indices| ==> orbits[k] == Images(TriangleAt(indices[k]))
  {
    seq(|indices|, k requires 0 <= k < |indices| => Images(TriangleAt(indices[k])))
  }

  /** The cells a list of indices marks: the union of the orbits of their triangle cells. */
  function MarkedCells(indices: seq<int>): set<Cell>
    requires ValidIndices(indices)
  {
    UnionAll(Orbits(indices))
  }

  /** A cell is marked exactly when it is an image of the triangle cell of one of the indices. */
  lemma MarkedCellsMembers(indices: seq<int>)
    requires ValidIndices(indices)
    ensures forall q :: q in MarkedCells(indices) <==>
      exists k :: 0 <= k < |indices| && q in Images(TriangleAt(indices[k]))
  {
    UnionAllMembers(Orbits(indices));
  }

  /** Marking one more index adds the orbit of its triangle cell. */
  lemma MarkedCellsSnoc(indices: seq<int>, n: nat)
    requires ValidIndices(indices) && n < |indices|
    ensures MarkedCells(indices[..n + 1]) == MarkedCells(indices[..n]) + Images(TriangleAt(indices[n]))
  {
    assert Orbits(indices[..n + 1])[..n] == Orbits(indices[..n]);
  }

  /** The marked cells depend only on which indices occur, not on their order or repetitions. */
  lemma MarkedCellsIgnoreOrder(a: seq<int>, b: seq<int>)
    requires ValidIndices(a) && ValidIndices(b)
    requires forall i :: i in a <==> i in b
    ensures MarkedCells(a) == MarkedCells(b)
  {
    MarkedCellsMembers(a);
    MarkedCellsMembers(b);
    forall q | q in MarkedCells(a) ensures q in MarkedCells(b) {
      var k :| 0 <= k < |a| && q in Images(TriangleAt(a[k]));
      assert a[k] in b;
      var j :| 0 <= j < |b| && b[j] == a[k];
    }
    forall q | q in MarkedCells(b) ensures q in MarkedCells(a) {
      var k :| 0 <= k < |b| && q in Images(TriangleAt(b[k]));
      assert b[k] in a;
      var j :| 0 <= j < |a| && a[j] == b[k];
    }
  }

  /** Every marked cell lies on the board. */
  lemma MarkedCellsOnBoard(indices: seq<int>)
    requires ValidIndices(indices)
    ensures forall q :: q in MarkedCells(indices) ==> OnBoard(q)
  {
    MarkedCellsMembers(indices);
    forall q | q in MarkedCells(indices) ensures OnBoard(q) {
      var k :| 0 <= k < |indices| && q in Images(TriangleAt(indices[k]));
      ImagesClosed(TriangleAt(indices[k]));
    }
  }

  /** The marked cells are symmetric in the main diagonal, one of the four generators. */
  lemma MarkedCellsDiagonal(indices: seq<int>)
    requires ValidIndices(indices)
    ensures forall x, y :: (x, y) in MarkedCells(indices) <==> (y, x) in MarkedCells(indices)
  {
    MarkedCellsMembers(indices);
    forall x, y | (x, y) in MarkedCells(indices) ensures (y, x) in MarkedCells(indices) {
      var k :| 0 <= k < |indices| && (x, y) in Images(TriangleAt(indices[k]));
      ImagesClosed(TriangleAt(indices[k]));
      assert Transforms((x, y))[2] == (y, x);
    }
  }

  predicate IsBoard(grid: seq<seq<char>>)
  {
    |grid| == Size && forall r :: 0 <= r < Size ==> |grid[r]| == Size
  }

  /** The character of cell (x, y): '#' when it is in s, '.' otherwise. */
  function Mark(s: set<Cell>, x: int, y: int): char
  {
    if (x, y) in s then '#' else '.'
  }

  /** Puts '#' on every cell of the set, leaving the rest of the board as it was. */
  method MarkCells(board: seq<string>, cells: set<Cell>) returns (grid: seq<string>)
    requires IsBoard(board) && forall q :: q in cells ==> OnBoard(q)
    ensures IsBoard(grid)
    ensures forall y, x :: 0 <= y < Size && 0 <= x < Size ==>
      grid[y][x] == if (x, y) in cells then '#' else board[y][x]
  {
    grid := board;
    var todo := cells;
    while todo != {}
      invariant todo <= cells && IsBoard(grid)
      invariant forall y, x :: 0 <= y < Size && 0 <= x < Size ==>
        grid[y][x] == if (x, y) in cells - todo then '#' else board[y][x]
      decreases |todo|
    {
      var q :| q in todo;
      grid := grid[q.1 := grid[q.1][q.0 := '#']];
      todo := todo - {q};
    }
  }

  /**
   * The 8x8 board, row y holding cell (x, y) at column x, with '#' on the
   * orbits of the triangle cells of the indices and '.' everywhere else.
   */
  method BuildGrid(indices: seq<int>) returns (grid: seq<string>)
    requires ValidIndices(indices)
    ensures IsBoard(grid)
    ensures forall y, x :: 0 <= y < Size && 0 <= x < Size ==> grid[y][x] == Mark(MarkedCells(indices), x, y)
  {
    grid := seq(Size, _ => seq(Size, _ => '.'));
    var i := 0;
    while i < |indices|
      invariant 0 <= i <= |indices| && IsBoard(grid)
      invariant forall y, x :: 0 <= y < Size && 0 <= x < Size ==> grid[y][x] == Mark(MarkedCells(indices[..i]), x, y)
    {
      var cell := TriangleAt(indices[i]);
      var orbit := ComputeOrbit(cell);
      ImagesClosed(cell);
      grid := MarkCells(grid, orbit);
      MarkedCellsSnoc(indices, i);
      i := i + 1;
    }
    assert indices[..|indices|] == indices;
  }
}
