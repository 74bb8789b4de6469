/**
 * The partial Latin square builder: the '#' cells of a grid receive digits
 * 1 to 6 so that no digit repeats among the filled cells of a row or of a
 * column, by a depth-first search that tries the free digits of each cell in
 * an arbitrary order and resets a cell to '#' when it backtracks over it.
 */
module PartialLatin {
  import opened Results

  type Grid = seq<seq<char>>
  type Coord = (int, int)

  /** The digits a cell may receive, in the order the candidates are listed. */
  const Digits: seq<char> := "123456"

  /** The marker of a cell to be filled, and of a cell the search has given up. */
  const Sharp: char := '#'

  /** The width of a grid: the length of its first row, or 0 when it has no rows. */
  function Width(grid: Grid): nat
  {
    if |grid| == 0 then 0 else |grid[0]|
  }

  /** No row is shorter than the first, so every column below the width can be read. */
  predicate NoShortRows(grid: Grid)
  {
    forall r :: 0 <= r < |grid| ==> Width(grid) <= |grid[r]|
  }

  /** Row-major order of coordinates. */
  predicate Before(p: Coord, q: Coord)
  {
    p.0 < q.0 || (p.0 == q.0 && p.1 < q.1)
  }

  /** The '#' cells of row r from column c on, left to right. */
  function SharpInRow(grid: Grid, r: nat, c: nat): (cells: seq<Coord>)
    requires NoShortRows(grid) && r < |grid| && c <= Width(grid)
    ensures forall k :: 0 <= k < |cells| ==>
      cells[k].0 == r && c <= cells[k].1 < Width(grid) && grid[r][cells[k].1] == Sharp
    ensures forall j :: c <= j < Width(grid) && grid[r][j] == Sharp ==> (r, j) in cells
    ensures forall k, l :: 0 <= k < l < |cells| ==> cells[k].1 < cells[l].1
    decreases Width(grid) - c
  {
    if c == Width(grid) then []
    else if grid[r][c] == Sharp then [(r, c)] + SharpInRow(grid, r, c + 1)
    else SharpInRow(grid, r, c + 1)
  }

  /** The '#' cells of rows r onwards, in row-major order. */
  function SharpFromRow(grid: Grid, r: nat): (cells: seq<Coord>)
    requires NoShortRows(grid) && r <= |grid|
    ensures forall k :: 0 <= k < |cells| ==>
      r <= cells[k].0 < |grid| && 0 <= cells[k].1 < Width(grid) && grid[cells[k].0][cells[k].1] == Sharp
    ensures forall i, j :: r <= i < |grid| && 0 <= j < Width(grid) && grid[i][j] == Sharp ==> (i, j) in cells
    ensures forall k, l :: 0 <= k < l < |cells| ==> Before(cells[k], cells[l])
    decreases |grid| - r
  {
    if r == |grid| then []
    else SharpInRow(grid, r, 0) + SharpFromRow(grid, r + 1)
  }

  /**
   * Every '#' cell of the grid within the width of its first row, each once,
   * in row-major order.
   */
  function FindSharpCells(grid: Grid): (cells: seq<Coord>)
    requires NoShortRows(grid)
    ensures forall k :: 0 <= k < |cells| ==>
      0 <= cells[k].0 < |grid| && 0 <= cells[k].1 < Width(grid) && grid[cells[k].0][cells[k].1] == Sharp
    ensures forall i, j :: 0 <= i < |grid| && 0 <= j < Width(grid) && grid[i][j] == Sharp ==> (i, j) in cells
    ensures forall k, l :: 0 <= k < l < |cells| ==> Before(cells[k], cells[l])
  {
    SharpFromRow(grid, 0)
  }

  /** Row-major order is strict, so a list sorted by it repeats no cell. */
  lemma SortedCellsAreDistinct(cells: seq<Coord>)
    requires forall k, l :: 0 <= k < l < |cells| ==> Before(cells[k], cells[l])
    ensures forall k, l :: 0 <= k < l < |cells| ==> cells[k] != cells[l]
  {
  }

  /** The digits of ds, in their order, that are in neither set: a cell's candidates. */
  function Candidates(ds: seq<char>, rowSet: set<char>, colSet: set<char>): (opts: seq<char>)
    ensures forall d :: d in opts <==> d in ds && d !in rowSet && d !in colSet
    ensures |opts| <= |ds|
  {
    if |ds| == 0 then []
    else (if ds[0] !in rowSet && ds[0] !in colSet then [ds[0]] else []) + Candidates(ds[1..], rowSet, colSet)
  }

  /** s without the first occurrence of x. */
  function RemoveFirst(s: seq<char>, x: char): (r: seq<char>)
    ensures x in s ==> |r| == |s| - 1
    ensures x in s ==> forall d :: d in s <==> d == x || d in r
    ensures x !in s ==> r == s
  {
    if |s| == 0 then s
    else if s[0] == x then s[1..]
    else [s[0]] + RemoveFirst(s[1..], x)
  }

  /** a lists the same characters as b, each as often, in some order: what a shuffle of b may produce. */
  predicate IsPermutation(a: seq<char>, b: seq<char>)
    decreases |a|
  {
    if |a| == 0 then |b| == 0
    else a[0] in b && IsPermutation(a[1..], RemoveFirst(b, a[0]))
  }

  lemma PermutationOfItself(a: seq<char>)
    ensures IsPermutation(a, a)
  {
  }

  /** A permutation has the length and the members of the list it reorders. */
  lemma {:induction false} PermutationMembers(a: seq<char>, b: seq<char>)
    requires IsPermutation(a, b)
    ensures |a| == |b|
    ensures forall d :: d in a <==> d in b
    decreases |a|
  {
    if |a| > 0 {
      PermutationMembers(a[1..], RemoveFirst(b, a[0]));
      assert forall d :: d in a <==> d == a[0] || d in a[1..];
    }
  }

  predicate InGrid(g: Grid, p: Coord)
  {
    0 <= p.0 < |g| && 0 <= p.1 < |g[p.0]|
  }

  function At(g: Grid, p: Coord): char
    requires InGrid(g, p)
  {
    g[p.0][p.1]
  }

  /**
   * What the builder needs of its positions: a grid with a first row, every
   * position inside the grid and inside the first row's column range (which
   * sizes the column sets), and no position listed twice.
   */
  predicate ValidPositions(g: Grid, ps: seq<Coord>)
  {
    |g| > 0
    && (forall k :: 0 <= k < |ps| ==> InGrid(g, ps[k]) && ps[k].1 < |g[0]|)
    && (forall i, j :: 0 <= i < j < |ps| ==> ps[i] != ps[j])
  }

  predicate SameShape(g: Grid, h: Grid)
  {
    |g| == |h| && forall r :: 0 <= r < |g| ==> |g[r]| == |h[r]|
  }

  /** Two cells in the same row or the same column may not hold the same digit. */
  predicate Conflict(p: Coord, q: Coord)
  {
    p.0 == q.0 || p.1 == q.1
  }

  /** vals[k] is the digit of ps[k]; every one is a digit and conflicting cells differ. */
  predicate LatinAssignment(ps: seq<Coord>, vals: seq<char>)
  {
    |vals| <= |ps|
    && (forall k :: 0 <= k < |vals| ==> vals[k] in Digits)
    && (forall i, j :: 0 <= i < j < |vals| && Conflict(ps[i], ps[j]) ==> vals[i] != vals[j])
  }

  /** The digits chosen for a prefix of the positions can be completed to all of them. */
  ghost predicate Extendable(ps: seq<Coord>, vals: seq<char>)
  {
    exists ext: seq<char> :: |vals| + |ext| == |ps| && LatinAssignment(ps, vals + ext)
  }

  /** Some choice of digits for all the positions keeps rows and columns free of repeats. */
  ghost predicate Solvable(ps: seq<Coord>)
  {
    exists vals: seq<char> :: |vals| == |ps| && LatinAssignment(ps, vals)
  }

  predicate PositionsInGrid(g: Grid, ps: seq<Coord>)
  {
    forall k :: 0 <= k < |ps| ==> InGrid(g, ps[k])
  }

  /** The characters held at the first n positions. */
  function Values(g: Grid, ps: seq<Coord>, n: nat): (vals: seq<char>)
    requires n <= |ps| && PositionsInGrid(g, ps)
    ensures |vals| == n
    ensures forall k :: 0 <= k < n ==> vals[k] == At(g, ps[k])
  {
    seq(n, k requires 0 <= k < n => At(g, ps[k]))
  }

  /** The characters held at those of the first n positions that lie in row r. */
  ghost function RowDigits(g: Grid, ps: seq<Coord>, n: nat, r: int): set<char>
    requires n <= |ps| && PositionsInGrid(g, ps)
  {
    set k | 0 <= k < n && ps[k].0 == r :: At(g, ps[k])
  }

  /** The characters held at those of the first n positions that lie in column c. */
  ghost function ColDigits(g: Grid, ps: seq<Coord>, n: nat, c: int): set<char>
    requires n <= |ps| && PositionsInGrid(g, ps)
  {
    set k | 0 <= k < n && ps[k].1 == c :: At(g, ps[k])
  }

  /**
   * The search state after the first n positions are filled: they hold a
   * Latin assignment, and each row set and column set records exactly the
   * digits placed in that row or column.
   */
  ghost predicate SearchState(g: Grid, rowUsed: seq<set<char>>, colUsed: seq<set<char>>, ps: seq<Coord>, n: nat)
  {
    ValidPositions(g, ps) && n <= |ps|
    && |rowUsed| == |g| && |colUsed| == |g[0]|
    && LatinAssignment(ps, Values(g, ps, n))
    && (forall r :: 0 <= r < |g| ==> rowUsed[r] == RowDigits(g, ps, n, r))
    && (forall c :: 0 <= c < |g[0]| ==> colUsed[c] == ColDigits(g, ps, n, c))
  }

  /** A grid of the same shape that agrees on the first n positions carries the same search state. */
  lemma StateFrame(g: Grid, h: Grid, rowUsed: seq<set<char>>, colUsed: seq<set<char>>, ps: seq<Coord>, n: nat)
    requires SearchState(g, rowUsed, colUsed, ps, n)
    requires SameShape(g, h)
    requires forall k :: 0 <= k < n ==> At(h, ps[k]) == At(g, ps[k])
    ensures SearchState(h, rowUsed, colUsed, ps, n)
  {
    assert PositionsInGrid(h, ps);
    assert Values(h, ps, n) == Values(g, ps, n);
    forall r | 0 <= r < |h| ensures rowUsed[r] == RowDigits(h, ps, n, r) {
      assert RowDigits(h, ps, n, r) == RowDigits(g, ps, n, r);
    }
    forall c | 0 <= c < |h[0]| ensures colUsed[c] == ColDigits(h, ps, n, c) {
      assert ColDigits(h, ps, n, c) == ColDigits(g, ps, n, c);
    }
  }

  /** The grid with one cell replaced. */
  function Put(g: Grid, p: Coord, d: char): (h: Grid)
    requires InGrid(g, p)
    ensures SameShape(h, g) && At(h, p) == d
    ensures forall r, c :: 0 <= r < |g| && 0 <= c < |g[r]| && (r, c) != p ==> h[r][c] == g[r][c]
  {
    g[p.0 := g[p.0][p.1 := d]]
  }

  /** Placing a free digit at the next position extends the search state by one. */
  lemma PlaceDigit(g: Grid, rowUsed: seq<set<char>>, colUsed: seq<set<char>>, ps: seq<Coord>, n: nat, d: char)
    requires SearchState(g, rowUsed, colUsed, ps, n) && n < |ps|
    requires d in Digits && d !in rowUsed[ps[n].0] && d !in colUsed[ps[n].1]
    ensures SearchState(Put(g, ps[n], d),
                        rowUsed[ps[n].0 := rowUsed[ps[n].0] + {d}],
                        colUsed[ps[n].1 := colUsed[ps[n].1] + {d}], ps, n + 1)
  {
    var p := ps[n];
    var h := Put(g, p, d);
    var ru := rowUsed[p.0 := rowUsed[p.0] + {d}];
    var cu := colUsed[p.1 := colUsed[p.1] + {d}];
    assert PositionsInGrid(h, ps);
    assert ValidPositions(h, ps);
    forall k | 0 <= k < n ensures At(h, ps[k]) == At(g, ps[k]) {
      assert ps[k] != p;
    }
    var vals := Values(g, ps, n);
    assert Values(h, ps, n + 1) == vals + [d];
    forall i | 0 <= i < n && Conflict(ps[i], p) ensures vals[i] != d {
      if ps[i].0 == p.0 {
        assert vals[i] in RowDigits(g, ps, n, p.0);
      } else {
        assert vals[i] in ColDigits(g, ps, n, p.1);
      }
    }
    assert LatinAssignment(ps, vals + [d]);
    forall r | 0 <= r < |h| ensures ru[r] == RowDigits(h, ps, n + 1, r) {
      assert RowDigits(h, ps, n + 1, r) == RowDigits(g, ps, n, r) + (if r == p.0 then {d} else {});
    }
    forall c | 0 <= c < |h[0]| ensures cu[c] == ColDigits(h, ps, n + 1, c) {
      assert ColDigits(h, ps, n + 1, c) == ColDigits(g, ps, n, c) + (if c == p.1 then {d} else {});
    }
  }

  /**
   * A completion of the digits already placed gives the next position a
   * digit that is free in its row and column, and that digit is completable.
   */
  lemma CompletionStartsWithCandidate(g: Grid, rowUsed: seq<set<char>>, colUsed: seq<set<char>>, ps: seq<Coord>, n: nat, options: seq<char>)
    returns (j: nat)
    requires SearchState(g, rowUsed, colUsed, ps, n) && n < |ps|
    requires forall d :: d in options <==> d in Digits && d !in rowUsed[ps[n].0] && d !in colUsed[ps[n].1]
    requires Extendable(ps, Values(g, ps, n))
    ensures j < |options| && Extendable(ps, Values(g, ps, n) + [options[j]])
  {
    var vals := Values(g, ps, n);
    var ext :| |vals| + |ext| == |ps| && LatinAssignment(ps, vals + ext);
    var d := ext[0];
    var full := vals + ext;
    assert full[n] == d;
    forall k | 0 <= k < n && Conflict(ps[k], ps[n]) ensures At(g, ps[k]) != d {
      assert full[k] == At(g, ps[k]);
    }
    assert d !in rowUsed[ps[n].0];
    assert d !in colUsed[ps[n].1];
    assert d in options;
    j :| 0 <= j < |options| && options[j] == d;
    assert (vals + [d]) + ext[1..] == full;
  }

  /**
   * When none of the free digits of the next position can be completed,
   * the digits already placed cannot be completed either.
   */
  lemma NoDigitLeft(g: Grid, rowUsed: seq<set<char>>, colUsed: seq<set<char>>, ps: seq<Coord>, n: nat, options: seq<char>)
    requires SearchState(g, rowUsed, colUsed, ps, n) && n < |ps|
    requires forall d :: d in options <==> d in Digits && d !in rowUsed[ps[n].0] && d !in colUsed[ps[n].1]
    requires forall j :: 0 <= j < |options| ==> !Extendable(ps, Values(g, ps, n) + [options[j]])
    ensures !Extendable(ps, Values(g, ps, n))
  {
    if Extendable(ps, Values(g, ps, n)) {
      var j := CompletionStartsWithCandidate(g, rowUsed, colUsed, ps, n, options);
      assert false;
    }
  }

  /** Adding a digit a set lacks and removing it again gives back the same list of sets. */
  lemma AddThenRemove(sets: seq<set<char>>, i: int, d: char)
    requires 0 <= i < |sets| && d !in sets[i]
    ensures var added := sets[i := sets[i] + {d}]; added[i := added[i] - {d}] == sets
  {
    var added := sets[i := sets[i] + {d}];
    assert added[i] - {d} == sets[i];
  }

  /** One more digit that cannot be completed joins the list of those already ruled out. */
  lemma RuleOut(ps: seq<Coord>, prefix: seq<char>, options: seq<char>, i: nat)
    requires i < |options|
    requires forall j :: 0 <= j < i ==> !Extendable(ps, prefix + [options[j]])
    requires !Extendable(ps, prefix + [options[i]])
    ensures forall j :: 0 <= j < i + 1 ==> !Extendable(ps, prefix + [options[j]])
  {
  }

  /** A full solution is exactly a completion of the empty prefix. */
  lemma SolvableFromEmpty(ps: seq<Coord>)
    ensures Solvable(ps) <==> Extendable(ps, [])
  {
    if Solvable(ps) {
      var vals :| |vals| == |ps| && LatinAssignment(ps, vals);
      assert [] + vals == vals;
    }
    if Extendable(ps, []) {
      var ext :| |ext| == |ps| && LatinAssignment(ps, [] + ext);
      assert [] + ext == ext;
    }
  }

  /** h has g's shape and differs from it only at positions from index `from` on. */
  ghost predicate SameOutside(h: Grid, g: Grid, ps: seq<Coord>, from: nat)
    requires from <= |ps|
  {
    SameShape(h, g)
    && forall r, c :: 0 <= r < |h| && 0 <= c < |h[r]| && (r, c) !in ps[from..] ==> h[r][c] == g[r][c]
  }

  /** Every position after index `from` holds '#' in h or what it held in g. */
  ghost predicate ResetOrKept(h: Grid, g: Grid, ps: seq<Coord>, from: nat)
    requires PositionsInGrid(h, ps) && PositionsInGrid(g, ps)
  {
    forall k :: from < k < |ps| ==> At(h, ps[k]) == Sharp || At(h, ps[k]) == At(g, ps[k])
  }

  lemma SameOutsideTrans(a: Grid, b: Grid, c: Grid, ps: seq<Coord>, from: nat)
    requires from <= |ps| && SameOutside(c, b, ps, from) && SameOutside(b, a, ps, from)
    ensures SameOutside(c, a, ps, from)
  {
  }

  /** Writing position n and then changing only positions after n changes only positions from n on. */
  lemma SameOutsidePut(a: Grid, c: Grid, ps: seq<Coord>, n: nat, d: char)
    requires n < |ps| && InGrid(a, ps[n])
    requires SameOutside(c, Put(a, ps[n], d), ps, n + 1)
    ensures SameOutside(c, a, ps, n)
  {
    assert ps[n..] == [ps[n]] + ps[n + 1..];
  }

  /** Cells fixed outside positions[n..] include the first n positions, which are distinct from the rest. */
  lemma SameOutsideKeepsPrefix(h: Grid, g: Grid, ps: seq<Coord>, n: nat)
    requires ValidPositions(g, ps) && n <= |ps| && SameOutside(h, g, ps, n)
    ensures PositionsInGrid(h, ps)
    ensures forall k :: 0 <= k < n ==> At(h, ps[k]) == At(g, ps[k])
  {
    forall k | 0 <= k < n ensures At(h, ps[k]) == At(g, ps[k]) {
      assert ps[k] !in ps[n..];
    }
  }

  /**
   * After the search below a placed digit fails, the grid differs from the
   * one before the placement only from position n on, and every position
   * after n holds '#' or its value from before.
   */
  lemma ChildFailed(start: Grid, before: Grid, after: Grid, ps: seq<Coord>, n: nat, d: char)
    requires ValidPositions(start, ps) && n < |ps|
    requires SameOutside(before, start, ps, n) && PositionsInGrid(before, ps) && ResetOrKept(before, start, ps, n)
    requires SameOutside(after, Put(before, ps[n], d), ps, n + 1)
    requires n + 1 < |ps| && PositionsInGrid(after, ps) && At(after, ps[n + 1]) == Sharp
    requires ResetOrKept(after, Put(before, ps[n], d), ps, n + 1)
    ensures SameOutside(after, start, ps, n) && ResetOrKept(after, start, ps, n)
  {
    SameOutsidePut(before, after, ps, n, d);
    var placed := Put(before, ps[n], d);
    forall k | n + 1 < k < |ps| ensures At(placed, ps[k]) == At(before, ps[k]) {
      assert ps[k] != ps[n];
    }
  }

  /** Writing d at position n appends d to the values of the first n positions. */
  lemma ValuesAfterPut(g: Grid, ps: seq<Coord>, n: nat, d: char)
    requires ValidPositions(g, ps) && n < |ps|
    ensures PositionsInGrid(Put(g, ps[n], d), ps)
    ensures Values(Put(g, ps[n], d), ps, n + 1) == Values(g, ps, n) + [d]
  {
    var placed := Put(g, ps[n], d);
    forall k | 0 <= k < n ensures At(placed, ps[k]) == At(g, ps[k]) {
      assert ps[k] != ps[n];
    }
  }

  /**
   * After the search below digit d at position n failed, the grid `after` it
   * left behind carries the search state of `before`, differs from it only
   * from position n on, and d is ruled out for position n.
   */
  lemma ChildFailedStep(before: Grid, after: Grid, rowUsed: seq<set<char>>, colUsed: seq<set<char>>,
                        ps: seq<Coord>, n: nat, d: char)
    requires SearchState(before, rowUsed, colUsed, ps, n) && n < |ps|
    requires SameOutside(after, Put(before, ps[n], d), ps, n + 1)
    requires n + 1 < |ps| && PositionsInGrid(after, ps) && At(after, ps[n + 1]) == Sharp
    requires ResetOrKept(after, Put(before, ps[n], d), ps, n + 1)
    requires !Extendable(ps, Values(Put(before, ps[n], d), ps, n + 1))
    ensures SearchState(after, rowUsed, colUsed, ps, n)
    ensures SameOutside(after, before, ps, n) && ResetOrKept(after, before, ps, n)
    ensures !Extendable(ps, Values(before, ps, n) + [d])
  {
    ValuesAfterPut(before, ps, n, d);
    ChildFailed(before, before, after, ps, n, d);
    SameOutsideKeepsPrefix(after, before, ps, n);
    StateFrame(before, after, rowUsed, colUsed, ps, n);
  }

  /**
   * One turn of the loop over the candidates of position n: the grid
   * stays within the frame of the grid the loop started from, and the digit
   * just tried joins those ruled out.
   */
  lemma LoopStep(start: Grid, before: Grid, after: Grid, ps: seq<Coord>, n: nat, options: seq<char>, i: nat)
    requires ValidPositions(start, ps) && n < |ps| && i < |options|
    requires PositionsInGrid(before, ps) && PositionsInGrid(after, ps)
    requires SameOutside(before, start, ps, n) && ResetOrKept(before, start, ps, n)
    requires SameOutside(after, before, ps, n) && ResetOrKept(after, before, ps, n)
    requires !Extendable(ps, Values(before, ps, n) + [options[i]])
    requires forall j :: 0 <= j < i ==> !Extendable(ps, Values(start, ps, n) + [options[j]])
    ensures SameOutside(after, start, ps, n) && ResetOrKept(after, start, ps, n)
    ensures forall j :: 0 <= j < i + 1 ==> !Extendable(ps, Values(start, ps, n) + [options[j]])
  {
    SameOutsideTrans(start, before, after, ps, n);
    SameOutsideKeepsPrefix(before, start, ps, n);
    assert Values(before, ps, n) == Values(start, ps, n);
    RuleOut(ps, Values(start, ps, n), options, i);
  }

  /** The loop's exit: position n is reset to '#' once every free digit has failed. */
  lemma NoDigitLeftStep(start: Grid, before: Grid, rowUsed: seq<set<char>>, colUsed: seq<set<char>>,
                        ps: seq<Coord>, n: nat, options: seq<char>)
    requires SearchState(before, rowUsed, colUsed, ps, n) && n < |ps|
    requires SameOutside(before, start, ps, n) && ResetOrKept(before, start, ps, n)
    requires forall d :: d in options <==> d in Digits && d !in rowUsed[ps[n].0] && d !in colUsed[ps[n].1]
    requires forall j :: 0 <= j < |options| ==> !Extendable(ps, Values(start, ps, n) + [options[j]])
    ensures SearchState(Put(before, ps[n], Sharp), rowUsed, colUsed, ps, n)
    ensures SameOutside(Put(before, ps[n], Sharp), start, ps, n)
    ensures ResetOrKept(Put(before, ps[n], Sharp), start, ps, n)
    ensures !Extendable(ps, Values(start, ps, n))
  {
    var after := Put(before, ps[n], Sharp);
    SameOutsideKeepsPrefix(before, start, ps, n);
    assert Values(before, ps, n) == Values(start, ps, n);
    NoDigitLeft(before, rowUsed, colUsed, ps, n, options);
    SameOutsidePut(before, after, ps, n, Sharp);
    SameOutsideTrans(start, before, after, ps, n);
    SameOutsideKeepsPrefix(after, before, ps, n);
    StateFrame(before, after, rowUsed, colUsed, ps, n);
    forall k | n < k < |ps| ensures At(after, ps[k]) == At(before, ps[k]) {
      assert ps[k] != ps[n];
    }
  }

  /** The search that fills the positions, over a copy of the grid and the per-row and per-column digit sets. */
  class Builder {
    var filled: Grid
    var rowUsed: seq<set<char>>
    var colUsed: seq<set<char>>
    const positions: seq<Coord>

    ghost predicate Valid(index: nat)
      reads this
    {
      SearchState(filled, rowUsed, colUsed, positions, index)
    }

    /** A copy of the grid, one empty set per row and one per column of the first row. */
    constructor (grid: Grid, ps: seq<Coord>)
      requires ValidPositions(grid, ps)
      ensures filled == grid && positions == ps
      ensures rowUsed == seq(|grid|, _ => {}) && colUsed == seq(|grid[0]|, _ => {})
      ensures Valid(0)
    {
      filled := grid;
      rowUsed := seq(|grid|, _ => {});
      colUsed := seq(|grid[0]|, _ => {});
      positions := ps;
      new;
      assert forall r :: 0 <= r < |grid| ==> RowDigits(grid, ps, 0, r) == {};
      assert forall c :: 0 <= c < |grid[0]| ==> ColDigits(grid, ps, 0, c) == {};
    }

    /**
     * Fills positions[index..]. On success every position holds a digit and
     * the whole assignment is Latin. On failure no completion of the digits
     * already placed exists, the sets are as they were, positions[index]
     * holds '#' and later positions hold '#' or what they held before.
     * Cells outside positions[index..] are never changed.
     */
    method Solve(index: nat) returns (ok: bool)
      requires Valid(index)
      modifies this
      ensures Valid(if ok then |positions| else index)
      ensures SameOutside(filled, old(filled), positions, index)
      ensures !ok ==> rowUsed == old(rowUsed) && colUsed == old(colUsed)
      ensures !ok ==> index < |positions| && At(filled, positions[index]) == Sharp
      ensures !ok ==> ResetOrKept(filled, old(filled), positions, index)
      ensures !ok ==> !Extendable(positions, Values(old(filled), positions, index))
      decreases |positions| - index, 1
    {
      if index == |positions| {
        return true;
      }
      var p := positions[index];
      var candidates := Candidates(Digits, rowUsed[p.0], colUsed[p.1]);
      PermutationOfItself(candidates);
      var options: seq<char> :| IsPermutation(options, candidates);
      PermutationMembers(options, candidates);
      ghost var start := filled;
      ghost var prefix := Values(start, positions, index);
      var i := 0;
      while i < |options|
        invariant 0 <= i <= |options|
        invariant rowUsed == old(rowUsed) && colUsed == old(colUsed)
        invariant Valid(index) && SameOutside(filled, start, positions, index)
        invariant ResetOrKept(filled, start, positions, index)
        invariant forall j :: 0 <= j < i ==> !Extendable(positions, prefix + [options[j]])
      {
        var digit := options[i];
        ghost var before := filled;
        ok := TryDigit(index, digit);
        if ok {
          SameOutsideTrans(start, before, filled, positions, index);
          return;
        }
        LoopStep(start, before, filled, positions, index, options, i);
        i := i + 1;
      }
      NoDigitLeftStep(start, filled, rowUsed, colUsed, positions, index, options);
      filled := Put(filled, p, Sharp);
      ok := false;
    }

    /**
     * One turn of the search loop: digit goes into positions[index] and into
     * its row and column sets, the later positions are searched, and on
     * failure the digit leaves the sets again while the cell keeps it.
     */
    method TryDigit(index: nat, digit: char) returns (ok: bool)
      requires Valid(index) && index < |positions|
      requires digit in Digits
      requires digit !in rowUsed[positions[index].0] && digit !in colUsed[positions[index].1]
      modifies this
      ensures Valid(if ok then |positions| else index)
      ensures SameOutside(filled, old(filled), positions, index)
      ensures !ok ==> rowUsed == old(rowUsed) && colUsed == old(colUsed)
      ensures !ok ==> ResetOrKept(filled, old(filled), positions, index)
      ensures !ok ==> !Extendable(positions, Values(old(filled), positions, index) + [digit])
      decreases |positions| - index, 0
    {
      var p := positions[index];
      AddThenRemove(rowUsed, p.0, digit);
      AddThenRemove(colUsed, p.1, digit);
      PlaceDigit(filled, rowUsed, colUsed, positions, index, digit);
      ghost var before := filled;
      filled := Put(filled, p, digit);
      rowUsed := rowUsed[p.0 := rowUsed[p.0] + {digit}];
      colUsed := colUsed[p.1 := colUsed[p.1] + {digit}];
      ok := Solve(index + 1);
      if ok {
        SameOutsidePut(before, filled, positions, index, digit);
        return;
      }
      rowUsed := rowUsed[p.0 := rowUsed[p.0] - {digit}];
      colUsed := colUsed[p.1 := colUsed[p.1] - {digit}];
      ChildFailedStep(before, filled, rowUsed, colUsed, positions, index, digit);
    }
  }

  datatype BuildError = Unsolvable

  /**
   * The positions of the grid filled with digits, every row and column
   * without a repeat among them and every other cell unchanged; an error
   * exactly when no such filling exists.
   */
  method BuildPartialLatin(grid: Grid, positions: seq<Coord>) returns (result: Result<Grid, BuildError>)
    requires ValidPositions(grid, positions)
    ensures result.Ok? <==> Solvable(positions)
    ensures result.Ok? ==> SameShape(result.value, grid) && PositionsInGrid(result.value, positions)
    ensures result.Ok? ==> LatinAssignment(positions, Values(result.value, positions, |positions|))
    ensures result.Ok? ==> forall r, c :: 0 <= r < |grid| && 0 <= c < |grid[r]| && (r, c) !in positions ==>
      result.value[r][c] == grid[r][c]
  {
    var builder := new Builder(grid, positions);
    var ok := builder.Solve(0);
    SolvableFromEmpty(positions);
    assert Values(grid, positions, 0) == [];
    if !ok {
      return Err(Unsolvable);
    }
    var filled := builder.filled;
    assert |Values(filled, positions, |positions|)| == |positions|;
    assert positions[0..] == positions;
    return Ok(filled);
  }

  /** Every cell the builder fills in holds one of the digits 1 to 6. */
  lemma FilledCellsHoldDigits(g: Grid, ps: seq<Coord>)
    requires PositionsInGrid(g, ps) && LatinAssignment(ps, Values(g, ps, |ps|))
    ensures forall k :: 0 <= k < |ps| ==> At(g, ps[k]) in Digits
  {
    assert forall k :: 0 <= k < |ps| ==> Values(g, ps, |ps|)[k] == At(g, ps[k]);
  }
}
