/**
 * The text form of a grid shared by main.py and partial_latin_square.py:
 * each row's characters joined by single spaces, the rows joined by newlines.
 */
module GridText {

  /** A row written with a single space between consecutive characters. */
  function SpacedRow(row: seq<char>): (line: string)
    ensures |line| == if |row| == 0 then 0 else 2 * |row| - 1
    ensures forall ch :: ch in line ==> ch == ' ' || ch in row
  {
    if |row| <= 1 then row else [row[0], ' '] + SpacedRow(row[1..])
  }

  /** Character 2i of the line is character i of the row, and the odd positions hold spaces. */
  lemma {:induction false} SpacedRowLayout(row: seq<char>)
    ensures forall i :: 0 <= i < |row| ==> SpacedRow(row)[2 * i] == row[i]
    ensures forall i :: 0 <= i < |row| - 1 ==> SpacedRow(row)[2 * i + 1] == ' '
  {
    if |row| > 1 {
      SpacedRowLayout(row[1..]);
      var rest := SpacedRow(row[1..]);
      forall i | 1 <= i < |row| ensures SpacedRow(row)[2 * i] == row[i] {
        assert SpacedRow(row)[2 * i] == rest[2 * (i - 1)];
      }
      forall i | 1 <= i < |row| - 1 ensures SpacedRow(row)[2 * i + 1] == ' ' {
        assert SpacedRow(row)[2 * i + 1] == rest[2 * (i - 1) + 1];
      }
    }
  }

  /** Lines joined with a newline between consecutive ones; no lines give the empty text. */
  function JoinLines(lines: seq<string>): string
  {
    if |lines| == 0 then ""
    else if |lines| == 1 then lines[0]
    else lines[0] + "\n" + JoinLines(lines[1..])
  }

  /** The spaced rows of a grid, one per row. */
  function SpacedRows(grid: seq<seq<char>>): (lines: seq<string>)
    ensures |lines| == |grid|
    ensures forall r :: 0 <= r < |grid| ==> lines[r] == SpacedRow(grid[r])
  {
    seq(|grid|, r requires 0 <= r < |grid| => SpacedRow(grid[r]))
  }

  /** The grid as text: one line per row. */
  function FormatGrid(grid: seq<seq<char>>): string
  {
    JoinLines(SpacedRows(grid))
  }

  /** Splitting a text at every newline; the inverse of JoinLines. */
  function SplitLines(s: string): (lines: seq<string>)
    ensures |lines| >= 1
    decreases |s|
  {
    if |s| == 0 then [""]
    else
      var rest := SplitLines(s[1..]);
      if s[0] == '\n' then [""] + rest
      else [[s[0]] + rest[0]] + rest[1..]
  }

  lemma {:induction false} SplitLinesOfLine(a: string, b: string)
    requires '\n' !in a
    ensures SplitLines(a + "\n" + b) == [a] + SplitLines(b)
    ensures SplitLines(a) == [a]
    decreases |a|
  {
    if |a| == 0 {
      assert a + "\n" + b == "\n" + b;
      assert ("\n" + b)[1..] == b;
    } else {
      SplitLinesOfLine(a[1..], b);
      assert (a + "\n" + b)[1..] == a[1..] + "\n" + b;
      assert [a[0]] + a[1..] == a;
    }
  }

  /** Joining lines that hold no newline and splitting the result gives the lines back. */
  lemma {:induction false} SplitJoinLines(lines: seq<string>)
    requires |lines| >= 1
    requires forall i :: 0 <= i < |lines| ==> '\n' !in lines[i]
    ensures SplitLines(JoinLines(lines)) == lines
  {
    if |lines| == 1 {
      SplitLinesOfLine(lines[0], "");
    } else {
      SplitJoinLines(lines[1..]);
      SplitLinesOfLine(lines[0], JoinLines(lines[1..]));
    }
  }

  /**
   * The text of a non-empty grid whose cells are not newlines has one line
   * per row, and line r is row r with single spaces between its characters.
   */
  lemma FormatGridLines(grid: seq<seq<char>>)
    requires |grid| >= 1
    requires forall r :: 0 <= r < |grid| ==> '\n' !in grid[r]
    ensures |SplitLines(FormatGrid(grid))| == |grid|
    ensures forall r :: 0 <= r < |grid| ==> SplitLines(FormatGrid(grid))[r] == SpacedRow(grid[r])
  {
    var lines := SpacedRows(grid);
    assert forall i :: 0 <= i < |lines| ==> '\n' !in lines[i];
    SplitJoinLines(lines);
  }
}
