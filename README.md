# Dice puzzle generator: a verified Dafny model

The repository generates rolling-die puzzles on an 8x8 board with three
Python scripts:

- `cube.py` is the orientation algebra of a die. It has six world-facing
  labels, each with an opposite. A right-handed table derives the third
  axis of a die from its first two. A table per grid direction says how
  tipping the die relabels its axes. The 24 legal orientations are listed
  in a fixed order, which gives each one an integer code.
- `main.py` draws symmetric shapes. It chooses cells of a 4x4 triangle
  whose house values sum to 36. It closes each chosen cell under the four
  reflections of the board and marks the result with '#'. It scores the
  board, partly by counting its edge transitions and its 4-connected
  groups of '#' cells.
- `partial_latin_square.py` fills the '#' cells of such a board with the
  digits 1 to 6. No digit may repeat among the filled cells of a row or
  of a column. It uses a depth-first search over per-row and per-column
  sets of used digits, and it tries the free digits in shuffled order.

The Dafny modules follow the scripts. A module that uses another one
imports it.

| module | file | models |
|---|---|---|
| `Results` | results.dfy | `Option` and `Result` for lookups and operations that can fail |
| `Cube` | cube.dfy | cube.py |
| `GridText` | grid_text.dfy | `format_grid`, which main.py and partial_latin_square.py define identically |
| `PartialLatin` | partial_latin.dfy | `find_sharp_cells` and `build_partial_latin` with its inner `solve` |
| `BoardSymmetry` | symmetry.dfy | `symmetry_transforms`, `compute_orbit`, `build_grid`, `POSITIONS` |
| `HouseSums` | solutions.dfy | `HOUSES`, `TARGET_SUM`, `find_solutions` |
| `Components` | components.dfy | `component_count`, taken out of `prettiness_score` |
| `EdgeTransitions` | edge_transitions.dfy | the integer edge-transition counts of `prettiness_score` |
| `SetFacts` | set_facts.dfy | one general lemma about set sizes |

Each script keeps its own form in the model:

- **cube.py is pure.** Every operation is a function on datatypes. `_Z_FROM_XY`
  is a `match` that returns `Option`. `ALL_CUBES` is a constant sequence in
  the table's insertion order.
- **The search in partial_latin_square.py is imperative.** It is
  `class Builder`, whose fields `filled`, `rowUsed` and `colUsed` the
  recursive methods `Solve` and `TryDigit` update. This matches the
  Python lists and sets that `solve` mutates. `find_sharp_cells` and
  `format_grid` are functions.
- **main.py is mixed.** `compute_orbit`, `build_grid` and `component_count`
  are methods with `while` loops over a worklist, a board and a matrix of
  flags. `symmetry_transforms`, `find_solutions` and the edge counts are
  functions.

Most operations have a partner: an inverse, an invariant they keep, or an
independent reference definition. An all-inputs lemma connects the two.
Small lookups such as `Delta` and `OfValue` have contracts but no partner.

- **Orientation algebra.** The geometric meaning of the tables is a
  unit-vector axis for each label, the vector cross product, and a
  quarter-turn rotation for each direction. The third-axis table and the
  sign rule `CrossLabel` both agree with the vector cross product.
- **Encoding.** The partner of encoding is decoding.
- **Search.** The partner of the search is the predicate that a Latin
  completion exists.
- **Orbits.** The partner of the orbit worklist is the closed-form set of
  the eight images.
- **House sums.** The partner of the enumeration is the predicate
  "non-empty, increasing, in range, sums to 36".
- **Formatting.** The partner of formatting is splitting on newlines.
- **Edge counts.** The partners of the edge counts are transposition and
  exchanging '#' with '.'.

A note on terms: a "completion" of the digits placed so far is a choice of
digits for the remaining positions that keeps the whole assignment Latin.

## Model

| member | source | states |
|---|---|---|
| Cube.Delta | cube.py:17-24 | each direction moves the die one cell along exactly one grid axis: one offset is 0 and the other is -1 or 1 |
| Cube.Opposite | cube.py:19-24 | the opposite of a direction (up/down, left/right) is a different direction whose step is the negated step |
| Cube.Value | cube.py:27-33 | the enum value of a label is one of 0 to 5 |
| Cube.OfValue | cube.py:27-33 | `Orientation(v)` for v below 6 is the label whose value is v |
| Cube.Op | cube.py:35-37 | the opposite of a label is never the label itself |
| Cube.OpIsValuePlusThree | cube.py:35-37 | `op` is `Orientation((value + 3) % 6)` |
| Cube.OpIsInvolution | cube.py:35-37 | `op` is an involution without a fixed point: `op(op(o)) == o` and `op(o) != o` |
| Cube.AxisIndex | cube.py:52-54 | each label lies on one of the three world axes |
| Cube.CrossLabel | cube.py:52-54 | a sign rule for the third axis of two perpendicular labels: it lies on neither of their axes |
| Cube.CrossLabelIsCross | cube.py:52-54 | the sign rule gives the label whose unit vector is the vector cross product of the two factors' unit vectors |
| Cube.ZFromXY | cube.py:56-92 | the table is defined exactly on the pairs whose y is neither x nor op(x), and its z is then none of x, op(x), y, op(y) |
| Cube.ZIsCrossProduct | cube.py:52-92 | every entry of the table is the sign rule's third axis for its key |
| Cube.ZIsVectorCross | cube.py:52-92 | the table is right-handed: the unit vector of each entry's z is the vector cross product of those of x and y |
| Cube.NewCube | cube.py:179-181 | constructing a cube succeeds exactly on the keys of the table and keeps x and y; otherwise it fails with the invalid pair |
| Cube.Z | cube.py:138-140 | the derived axis of a valid cube differs from x, y and their opposites |
| Cube.SixLabelsCoverAll | cube.py:144-153 | x, op(x), y, op(y), z and op(z) together are all six labels |
| Cube.FaceOf | cube.py:144-153 | `face` maps x, op(x), y, op(y), z, op(z) to X_POS, X_NEG, Y_POS, Y_NEG, Z_POS, Z_NEG, and a face comes only from its own label |
| Cube.FaceIsBijection | cube.py:144-153 | `face` is injective in the label and onto the six faces |
| Cube.RollTable | cube.py:109-134 | the four tables as written; specified by `RotIsQuarterTurn` and the four quarter-turn lemmas below |
| Cube.Rot | cube.py:160-161 | `table.get(label, label)`, a lookup with pass-through; specified by `RotIsQuarterTurn` and `RotInjective` |
| Cube.RotIsQuarterTurn | cube.py:109-134 | each roll table, with labels outside it passed through, is the quarter turn of the world that tipping the die in that direction performs |
| Cube.QuarterTurnUp | cube.py:110-115 | the up table is the quarter turn about the east-west axis, top toward north |
| Cube.QuarterTurnDown | cube.py:116-121 | the down table is the quarter turn about the east-west axis, top toward south |
| Cube.QuarterTurnRight | cube.py:122-127 | the right table is the quarter turn about the north-south axis, top toward east |
| Cube.QuarterTurnLeft | cube.py:128-133 | the left table is the quarter turn about the north-south axis, top toward west |
| Cube.RotCommutesWithOp | cube.py:109-134 | rotating the opposite of a label gives the opposite of the rotated label |
| Cube.RotOppositeCancels | cube.py:109-134 | the table of the opposite direction undoes each table, pass-through labels included |
| Cube.RotFourTimes | cube.py:109-134 | each table applied four times is the identity, since each is a 4-cycle |
| Cube.RotInjective | cube.py:160-161 | looking a label up with pass-through is injective for every direction |
| Cube.Roll | cube.py:157-166 | rolling a valid cube gives a valid cube whose derived z is the old z pushed through the direction's table |
| Cube.RollPassesValidation | cube.py:163-166 | the construction inside `roll` never fails: the rotated pair is a key of the table |
| Cube.RollKeepsFrame | cube.py:138-166 | the table's z for the rotated pair is the rotated z |
| Cube.RollKeepsFrameUp | cube.py:110-115 | the same, for the up table |
| Cube.RollKeepsFrameDown | cube.py:116-121 | the same, for the down table |
| Cube.RollKeepsFrameRight | cube.py:122-127 | the same, for the right table |
| Cube.RollKeepsFrameLeft | cube.py:128-133 | the same, for the left table |
| Cube.RollOppositeCancels | cube.py:157-166 | a roll followed by the roll in the opposite direction returns the original cube |
| Cube.RollFourTimes | cube.py:157-166 | four rolls in the same direction return the original cube |
| Cube.RollIsBijection | cube.py:157-166 | every roll is a bijection of the valid cubes: each valid cube has exactly one valid predecessor under it |
| Cube.RollCarriesFaces | cube.py:144-166 | the face that pointed at label o points at the rotated label after the roll |
| Cube.AllCubes | cube.py:188-195 | the 24 keys of the table in insertion order; specified by `AllCubesEnumeratesKeys` |
| Cube.AllCubesEnumeratesKeys | cube.py:188-196 | `ALL_CUBES` has 24 entries, all valid and pairwise distinct, and lists every valid cube |
| Cube.AllCubesAreValid | cube.py:188-192 | every cube that `all_cubes` lists passes validation, and there are 24 of them |
| Cube.AllCubesAreDistinct | cube.py:188-192 | no cube is listed twice |
| Cube.AllCubesAreComplete | cube.py:188-192 | every valid cube is listed |
| Cube.IndexOf | cube.py:170-171 | `list.index` is the first position holding the cube |
| Cube.Encode | cube.py:170-171 | the code of a valid cube is below 24 and `ALL_CUBES` holds the cube there |
| Cube.Decode | cube.py:173-175 | list indexing succeeds exactly for -24 <= i < 24 and yields a valid cube; otherwise it fails with the index |
| Cube.DecodeNegative | cube.py:173-175 | a negative index -24 <= i < 0 decodes as i + 24, so it counts from the end, and encoding its cube gives i + 24 |
| Cube.DecodeEncode | cube.py:170-175 | decoding the code of a valid cube gives the cube |
| Cube.EncodeDecode | cube.py:170-175 | encoding the cube decoded from 0 <= i < 24 gives i |
| GridText.SpacedRow | main.py:60 | `" ".join(row)` has length 2n-1 for n characters (0 for an empty row) and holds only the row's characters and spaces |
| GridText.SpacedRowLayout | main.py:60 | the row's characters sit at the even positions and single spaces at the odd positions |
| GridText.SpacedRows | main.py:60 | definition: the spaced line of each row, in order; it has one line per row |
| GridText.JoinLines | main.py:60 | `"\n".join`; specified by `SplitJoinLines` |
| GridText.FormatGrid | main.py:58-60 | the spaced rows joined by newlines; specified by `FormatGridLines` |
| GridText.SplitLines | main.py:58-60 | splitting text on newlines, as Python's `split("\n")` does, yields at least one line |
| GridText.SplitLinesOfLine | main.py:58-60 | a line without newline followed by a newline splits off as the first line |
| GridText.SplitJoinLines | main.py:58-60 | splitting the newline-join of at least one newline-free line gives back exactly the lines |
| GridText.FormatGridLines | main.py:58-60 | the formatted grid has one line per row, and that line is the row spaced out |
| PartialLatin.SharpInRow | partial_latin_square.py:25 | from column c on, the cells of one row that hold '#', each such column once, in increasing column order |
| PartialLatin.SharpFromRow | partial_latin_square.py:25 | from row r on, exactly the '#' cells inside the width, in strictly row-major order |
| PartialLatin.FindSharpCells | partial_latin_square.py:22-25 | exactly the (row, col) cells holding '#' within the first row's width, in strictly row-major order |
| PartialLatin.SortedCellsAreDistinct | partial_latin_square.py:22-25 | a strictly row-major list lists no cell twice |
| PartialLatin.Candidates | partial_latin_square.py:39 | the options are exactly the digits used neither in the cell's row nor in its column |
| PartialLatin.RemoveFirst | partial_latin_square.py:40 | removing one occurrence of a member shortens the list by one and keeps every other member |
| PartialLatin.PermutationOfItself | partial_latin_square.py:40 | the unshuffled order is one possible outcome of the shuffle |
| PartialLatin.PermutationMembers | partial_latin_square.py:40 | a shuffle keeps the length and the members |
| PartialLatin.Values | partial_latin_square.py:42 | definition: the characters at the first n positions, in order |
| PartialLatin.Put | partial_latin_square.py:42 | `filled[row][col] = digit` keeps the shape, sets that cell and changes no other |
| PartialLatin.StateFrame | partial_latin_square.py:39-50 | the search invariant depends only on what the filled positions hold |
| PartialLatin.PlaceDigit | partial_latin_square.py:42-44 | placing a free digit and adding it to the row set and the column set keeps the search invariant, one position further |
| PartialLatin.CompletionStartsWithCandidate | partial_latin_square.py:38-46 | any completion of the digits placed so far puts one of the options at the next position |
| PartialLatin.NoDigitLeft | partial_latin_square.py:41-52 | when no option leads to a completion, the digits placed so far have none |
| PartialLatin.AddThenRemove | partial_latin_square.py:43-50 | adding a digit absent from a set and removing it again restores the set |
| PartialLatin.RuleOut | partial_latin_square.py:41-50 | the options tried so far all lead to no completion |
| PartialLatin.SolvableFromEmpty | partial_latin_square.py:54-55 | a Latin assignment of all positions exists exactly when the empty prefix has a completion |
| PartialLatin.SameOutsideTrans | partial_latin_square.py:34-52 | changing only positions[n..] twice changes only positions[n..] |
| PartialLatin.SameOutsidePut | partial_latin_square.py:42-47 | writing positions[n] and then changing only positions[n+1..] changes only positions[n..] |
| PartialLatin.SameOutsideKeepsPrefix | partial_latin_square.py:34-52 | changing only positions[n..] keeps the digits at positions[..n] |
| PartialLatin.ChildFailed | partial_latin_square.py:46-51 | after a failed recursive call, only positions[n..] differ from the start, and the later ones hold '#' or their old content |
| PartialLatin.ValuesAfterPut | partial_latin_square.py:42 | writing digit d at positions[n] extends the placed digits by d |
| PartialLatin.ChildFailedStep | partial_latin_square.py:46-50 | after a failed recursive call and removing the digit from both sets, the search invariant holds again at n, and placing that digit at n has no completion |
| PartialLatin.LoopStep | partial_latin_square.py:41-50 | one failed turn of the loop adds its option to those known to have no completion |
| PartialLatin.NoDigitLeftStep | partial_latin_square.py:51-52 | resetting the cell to '#' after the last option keeps the invariant, and the prefix has no completion |
| PartialLatin.Builder.constructor | partial_latin_square.py:29-32 | a copy of the grid, one empty set per row and one per column of the first row |
| PartialLatin.Builder.Solve | partial_latin_square.py:34-52 | see "Search" below |
| PartialLatin.Builder.TryDigit | partial_latin_square.py:42-50 | see "Search" below |
| PartialLatin.BuildPartialLatin | partial_latin_square.py:28-57 | see "Search" below |
| PartialLatin.FilledCellsHoldDigits | partial_latin_square.py:39-44 | on success, every position holds one of the digits 1 to 6 |
| BoardSymmetry.Transforms | main.py:25-32 | four images of a cell, each on the board when the cell is |
| BoardSymmetry.TransformsAreInvolutions | main.py:25-32 | each of the four reflections undoes itself |
| BoardSymmetry.Images | main.py:25-45 | the eight images of a cell under the reflections; specified by `ImagesClosed`, `ClosedContainsImages` and `ReachableIsImages` |
| BoardSymmetry.ImagesClosed | main.py:35-45 | the eight images of a cell contain it, are closed under the four reflections, and stay on the board with it |
| BoardSymmetry.ClosedContainsImages | main.py:35-45 | every closed set containing a cell contains all its images, so the images are the least closed set |
| BoardSymmetry.ApplyStaysInClosed | main.py:39-44 | a finite sequence of reflections never leaves a closed set |
| BoardSymmetry.ReachableIsImages | main.py:35-45 | the images are exactly the cells that finite sequences of the reflections reach from the cell |
| BoardSymmetry.ComputeOrbit | main.py:35-45 | the worklist loop terminates and returns exactly the images of the cell |
| BoardSymmetry.Triangle | main.py:13-18 | the ten coordinates of `POSITIONS`; specified by `TriangleIsUpperCorner` |
| BoardSymmetry.TriangleIsUpperCorner | main.py:12-18 | the ten positions are distinct and are exactly the cells (x, y) with 0 <= x <= y < 4 |
| BoardSymmetry.TriangleAt | main.py:52 | `POSITIONS[i]` for -10 <= i < 10 lies on the board in the triangle x <= y < 4 |
| BoardSymmetry.TriangleAtNegative | main.py:52 | a negative index names the position ten places further on, so it counts from the end |
| BoardSymmetry.UnionAllMembers | main.py:51-54 | a cell is in the union exactly when it is in one of the sets |
| BoardSymmetry.Orbits | main.py:51-53 | definition: the orbit of the triangle cell of each chosen index, in order |
| BoardSymmetry.MarkedCellsMembers | main.py:51-54 | a cell is marked exactly when it is an image of the triangle cell of some chosen index |
| BoardSymmetry.MarkedCellsSnoc | main.py:51-54 | one more index adds the orbit of its cell to the marked cells |
| BoardSymmetry.MarkedCellsIgnoreOrder | main.py:51-54 | the marked cells depend neither on the order of the indices nor on repeats |
| BoardSymmetry.MarkedCellsOnBoard | main.py:51-54 | every marked cell lies on the board |
| BoardSymmetry.MarkedCellsDiagonal | main.py:30 | the marked cells are symmetric in the main diagonal |
| BoardSymmetry.MarkCells | main.py:53-54 | writing '#' at every cell of a set changes exactly those cells of the board |
| BoardSymmetry.BuildGrid | main.py:48-55 | 8 rows of 8 characters; the cell at column x of row y is '#' exactly when (x, y) is marked, '.' otherwise |
| HouseSums.Prefix | main.py:166 | definition: each list with x put in front, in order |
| HouseSums.Combos | main.py:166 | `itertools.combinations(range(lo, hi), r)`; specified by `CombosSound`, `CombosComplete` and `CombosSorted` |
| HouseSums.CombosSound | main.py:166 | every r-combination of the range lo..hi-1 has r elements, is strictly increasing and lies in the range |
| HouseSums.CombosWithLo | main.py:166 | a combination of the range above lo, with lo put in front, is a combination of the whole range |
| HouseSums.CombosWithoutLo | main.py:166 | a combination of the range above lo is a combination of the whole range |
| HouseSums.CombosComplete | main.py:166 | every strictly increasing r-list in the range is generated |
| HouseSums.CombosSorted | main.py:166 | the combinations come in strictly increasing lexicographic order, as in `itertools.combinations` |
| HouseSums.IncreasingIsShort | main.py:165-166 | a strictly increasing list inside lo..hi-1 has at most hi - lo elements |
| HouseSums.HouseSum | main.py:167 | the sum of the house values at the indices; used by `OnTarget` and `FindSolutionsCorrect` |
| HouseSums.OnTarget | main.py:167 | the filter keeps exactly the lists whose house values sum to 36 |
| HouseSums.OnTargetSorted | main.py:163-168 | filtering keeps the order |
| HouseSums.SizeSolutions | main.py:166-167 | the solutions with r cells; specified by `SizeMember` and `SizeSolutionsSorted` |
| HouseSums.SizeMember | main.py:163-168 | a list is among the solutions of size r exactly when it is a solution with r cells |
| HouseSums.Levels | main.py:165 | the sizes r to top, one after another; specified by `LevelsMember` and `LevelsSorted` |
| HouseSums.LevelsMember | main.py:165 | a list is in the sizes r to top, one after another, exactly when it qualifies and has at least r cells |
| HouseSums.LevelsSorted | main.py:165 | sorted sizes, one after another, form a sorted list |
| HouseSums.SizeSolutionsSorted | main.py:166-167 | the solutions of one size all have that size and are sorted |
| HouseSums.SortedAppend | main.py:165 | sorted smaller solutions followed by sorted larger ones stay sorted |
| HouseSums.FindSolutions | main.py:160-168 | the solutions of sizes 1 to 10, one size after another; specified by `FindSolutionsCorrect` and `FindSolutionsDistinct` |
| HouseSums.FindSolutionsCorrect | main.py:160-168 | see "House sums" below |
| HouseSums.LexLessIrreflexive | main.py:166 | lexicographic order is irreflexive |
| HouseSums.FindSolutionsDistinct | main.py:160-168 | no solution is listed twice |
| Components.MarkVisited | main.py:140 | setting one flag adds exactly its cell to the visited cells |
| Components.FloodFrom | main.py:133-141 | flooding from an unvisited '#' cell flags that cell and only '#' cells, and clears no flag |
| Components.ScanRow | main.py:129-141 | after scanning a row, every '#' cell of it is flagged, and the count stays at most the number of flagged cells and zero exactly when none is |
| Components.ComponentCount | main.py:124-142 | the count is 0 exactly when the board has no '#' cell, and is never more than the number of '#' cells |
| EdgeTransitions.HorizontalEdge | main.py:82 | 1 where cell (r, c) differs from its right neighbour, 0 otherwise; specified by `TransposedEdges` and `InvertedEdges` |
| EdgeTransitions.VerticalEdge | main.py:83 | 1 where cell (r, c) differs from the cell below, 0 otherwise; specified by `TransposedEdges` and `InvertedEdges` |
| EdgeTransitions.Horizontal | main.py:82 | the horizontal transitions number at most 8 × 7 = 56 |
| EdgeTransitions.Vertical | main.py:83 | the vertical transitions number at most 7 × 8 = 56 |
| EdgeTransitions.GridSumBound | main.py:84 | a sum of 0/1 terms over a rows × cols rectangle is at most rows × cols |
| EdgeTransitions.FlippedSum | main.py:82-83 | summing over a rectangle gives the same total as summing its mirror image |
| EdgeTransitions.Transposed | main.py:30 | definition: the board mirrored in its main diagonal, so row c holds column c |
| EdgeTransitions.TransposedEdges | main.py:82-83 | a horizontal edge of the mirrored board is a vertical edge of the board, and the other way round |
| EdgeTransitions.TransposeSwapsTransitions | main.py:82-83 | mirroring the board in its main diagonal exchanges its horizontal and vertical transition counts |
| EdgeTransitions.Inverted | main.py:82-83 | definition: the board with '#' and '.' exchanged, every cell in place |
| EdgeTransitions.InvertedEdges | main.py:82-83 | exchanging '#' and '.' keeps every edge as it was |
| EdgeTransitions.InvertKeepsTransitions | main.py:82-83 | a board and its inverse have the same horizontal and the same vertical transition counts |
| EdgeTransitions.BuiltGridTransitionsAgree | main.py:82-83 | a board drawn by `build_grid` is its own mirror image in the main diagonal, so its horizontal and vertical counts are equal |

The third column is too short for three of the rows. Their contracts
state the following.

**Search.** These rows cover `PartialLatin.Builder.Solve`,
`PartialLatin.Builder.TryDigit` and `PartialLatin.BuildPartialLatin`.

- While the search runs, every row set and every column set holds exactly
  the digits placed at `positions[0..index)` in that row or column. The
  placed digits are Latin.
- Only the cells of `positions[index..]` are ever written.
- **When `Solve` fails:**
  - the sets are back to what they were;
  - `positions[index]` holds '#';
  - each later position holds '#' or its old content;
  - the digits placed before `index` have no completion, whatever order the
    shuffle produced.
- **When `TryDigit` fails**, placing its digit at `index` has no completion.
- **`BuildPartialLatin`** succeeds exactly when a Latin assignment of all
  positions exists. Success means:
  - the result has the grid's shape;
  - the positions hold a Latin assignment of the digits 1 to 6;
  - every other cell is unchanged.

**House sums.** This row covers `HouseSums.FindSolutionsCorrect`. The
solutions are exactly the non-empty, strictly increasing index lists over
the ten triangle cells whose house values sum to 36. Smaller sets come
first, and sets of equal size come in lexicographic order.

These scripts contain no front end. The candidate order comes from
`random.shuffle`.

## Left out

- **File input, printing and the command line.** This covers `load_solutions`,
  `parse_arguments` and `main` in partial_latin_square.py, and
  `write_solutions_with_scores` in main.py, with its JSON output.
- **The floating-point parts of `prettiness_score`.** These are the
  normalisations, density, balance, compactness, the weighted blend, the
  clamps, and the float-keyed sort. Only the integer `component_count` and
  the transition counts are modelled.
- **`random.shuffle`.** The model says nothing about its distribution. The
  shuffled candidate list is any permutation of the candidates. The order
  of positions shuffled by the command-line entry point is an input.
- **The exact number of solutions.** The model does not prove that
  `find_solutions` returns a particular number of index lists.
  `FindSolutionsCorrect` characterises the list instead.
- Components.ComponentCount: the contract does not state that the count
  equals the number of 4-connected groups of '#' cells. It states that the
  count is zero exactly when there is no '#' and is bounded by the number
  of '#' cells.
- Components.FloodFrom: the contract does not state that the flood flags
  exactly the group of its start cell. It states that the flood flags the
  start cell, flags only '#' cells and clears no flag.
- PartialLatin.BuildPartialLatin: the model asks for a grid with at least
  one row, positions inside the grid and inside the first row's column
  range, and no position listed twice. Python raises an error on an empty
  grid and on a position past the end of a row or of `col_used`. Python
  accepts a negative coordinate, which counts from the end, and a repeated
  position. The model excludes these two cases because the only caller
  (partial_latin_square.py:96-101) passes a shuffle of the output of
  `find_sharp_cells`, which has neither.
- BoardSymmetry.BuildGrid: the model asks that every index lie in
  -10 <= i < 10. Python raises `IndexError` at `POSITIONS[i]`
  (main.py:52) for any other index. The only caller passes the lists of
  `find_solutions`, whose indices are 0 to 9.
- Components.CoversBoard: `ComponentCount`, `Horizontal` and `Vertical`
  ask for at least 8 rows of at least 8 characters. Python raises
  `IndexError` on a smaller board. Every board the scripts score comes from
  `build_grid` and is 8 x 8.
- PartialLatin.FindSharpCells: the model asks that no row be shorter than
  the first. On a shorter row the Python comprehension reads past the end
  of that row and fails.
- **Split loop bodies.** The body of the candidate loop in `solve` is the
  separate method `TryDigit`. The per-cell flood of `component_count` is
  `FloodFrom`, and its row scan is `ScanRow`. This changes no behaviour.
- **The failure exit of `build_partial_latin`.** It raises `RuntimeError`.
  The model returns `Err(Unsolvable)` instead. Construction of an invalid
  cube raises `ValueError`, and the model returns `Err(InvalidOrientation(x, y))`.
  An out-of-range `decode` raises `IndexError`, and the model returns
  `Err(IndexOutOfRange(i))`.
