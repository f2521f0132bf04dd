/**
  Day 4, part two: a diagram of rows in which '@' is a roll of paper. In every round each
  roll with fewer than four rolls among its eight neighbours is marked, against the
  diagram as it stands at the start of the round; then every marked roll is replaced by
  'x'. Rounds repeat until one marks nothing, and the answer is the number of rolls
  removed.
 */
module PaperRolls {
  import opened JsText

  /** A roll with fewer adjacent rolls than this is removed. */
  const AdjacentRollsLimit := 4

  /** The eight offsets, as (column offset, row offset), in the source's order. */
  const Directions: seq<(int, int)> :=
    [(-1, -1), (0, -1), (1, -1), (-1, 0), (1, 0), (-1, 1), (0, 1), (1, 1)]

  /** The direction table lists each of the eight neighbouring offsets exactly once. */
  lemma DirectionsAreTheEightNeighbours()
    ensures |Directions| == 8
    ensures forall i, j :: 0 <= i < j < |Directions| ==> Directions[i] != Directions[j]
    ensures forall dc, dr :: (dc, dr) in Directions <==>
      -1 <= dc <= 1 && -1 <= dr <= 1 && (dc, dr) != (0, 0)
  {
    DirectionsAreNeighbours();
    NeighboursAreDirections();
  }

  /** Every offset in the table is a neighbouring one. */
  lemma DirectionsAreNeighbours()
    ensures forall k :: 0 <= k < |Directions| ==>
      -1 <= Directions[k].0 <= 1 && -1 <= Directions[k].1 <= 1 && Directions[k] != (0, 0)
  {
  }

  /** Every neighbouring offset is in the table. */
  lemma NeighboursAreDirections()
    ensures forall dc, dr :: -1 <= dc <= 1 && -1 <= dr <= 1 && (dc, dr) != (0, 0) ==> (dc, dr) in Directions
  {
    forall dc, dr | -1 <= dc <= 1 && -1 <= dr <= 1 && (dc, dr) != (0, 0)
      ensures (dc, dr) in Directions
    {
      if dr == -1 {
        assert Directions[dc + 1] == (dc, dr);
      } else if dr == 0 {
        assert Directions[if dc == -1 then 3 else 4] == (dc, dr);
      } else {
        assert Directions[dc + 6] == (dc, dr);
      }
    }
  }

  /**
    Whether the neighbour of (r, c) at offset d is an adjacent roll as the source counts
    it: its column must lie within the length of row r (the row being scanned), its row
    within the diagram, and it must hold '@'. A column past the end of a shorter
    neighbouring row reads `undefined`, which is not a roll.
   */
  predicate CountsAsAdjacent(grid: seq<string>, r: nat, c: nat, d: (int, int))
    requires r < |grid|
  {
    var adjacentRow, adjacentColumn := r + d.1, c + d.0;
    0 <= adjacentColumn <= |grid[r]| - 1 && 0 <= adjacentRow <= |grid| - 1
      && adjacentColumn < |grid[adjacentRow]| && grid[adjacentRow][adjacentColumn] == '@'
  }

  /** The number of the given offsets at which an adjacent roll is counted. */
  function AdjacentIn(grid: seq<string>, r: nat, c: nat, dirs: seq<(int, int)>): (n: nat)
    requires r < |grid|
    ensures n <= |dirs|
  {
    if |dirs| == 0 then 0
    else
      AdjacentIn(grid, r, c, dirs[..|dirs| - 1])
        + (if CountsAsAdjacent(grid, r, c, dirs[|dirs| - 1]) then 1 else 0)
  }

  function AdjacentRolls(grid: seq<string>, r: nat, c: nat): nat
    requires r < |grid|
  {
    AdjacentIn(grid, r, c, Directions)
  }

  /** A cell is marked in a round when it is a roll with fewer than four adjacent rolls. */
  predicate Marked(grid: seq<string>, r: nat, c: nat)
    requires r < |grid| && c < |grid[r]|
  {
    grid[r][c] == '@' && AdjacentRolls(grid, r, c) < AdjacentRollsLimit
  }

  /** The marks `[column, row]` of row r among its first n columns, left to right. */
  function RowMarks(grid: seq<string>, r: nat, n: nat): seq<(nat, nat)>
    requires r < |grid| && n <= |grid[r]|
  {
    if n == 0 then []
    else RowMarks(grid, r, n - 1) + (if Marked(grid, r, n - 1) then [(n - 1, r)] else [])
  }

  /** The marks of the first k rows, row by row. */
  function MarksBefore(grid: seq<string>, k: nat): seq<(nat, nat)>
    requires k <= |grid|
  {
    if k == 0 then [] else MarksBefore(grid, k - 1) + RowMarks(grid, k - 1, |grid[k - 1]|)
  }

  /** `rollIndicesToBeRemoved` for a round that starts from `grid`. */
  function Marks(grid: seq<string>): seq<(nat, nat)>
  {
    MarksBefore(grid, |grid|)
  }

  lemma {:induction false} RowMarksMembership(grid: seq<string>, r: nat, n: nat)
    requires r < |grid| && n <= |grid[r]|
    ensures forall c: nat, q: nat :: (c, q) in RowMarks(grid, r, n) <==> q == r && c < n && Marked(grid, r, c)
  {
    if n > 0 {
      RowMarksMembership(grid, r, n - 1);
    }
  }

  lemma {:induction false} MarksBeforeMembership(grid: seq<string>, k: nat)
    requires k <= |grid|
    ensures forall c: nat, r: nat :: (c, r) in MarksBefore(grid, k) <==>
      r < k && c < |grid[r]| && Marked(grid, r, c)
  {
    if k > 0 {
      MarksBeforeMembership(grid, k - 1);
      RowMarksMembership(grid, k - 1, |grid[k - 1]|);
    }
  }

  /** The marks of a round are exactly the marked cells of the diagram. */
  lemma MarksMembership(grid: seq<string>)
    ensures forall c: nat, r: nat :: (c, r) in Marks(grid) <==>
      r < |grid| && c < |grid[r]| && Marked(grid, r, c)
  {
    MarksBeforeMembership(grid, |grid|);
  }

  /** One round: every marked cell becomes 'x' and every other cell is unchanged. */
  function Round(grid: seq<string>): (next: seq<string>)
    ensures |next| == |grid|
    ensures forall r :: 0 <= r < |grid| ==> |next[r]| == |grid[r]|
  {
    seq(|grid|, r requires 0 <= r < |grid| =>
      seq(|grid[r]|, c requires 0 <= c < |grid[r]| =>
        if Marked(grid, r, c) then 'x' else grid[r][c]))
  }

  /** The number of rolls in a row. */
  function RowRolls(row: string): nat
  {
    if |row| == 0 then 0 else RowRolls(row[..|row| - 1]) + (if row[|row| - 1] == '@' then 1 else 0)
  }

  /** The number of rolls in the diagram. */
  function RollCount(grid: seq<string>): nat
  {
    if |grid| == 0 then 0 else RollCount(grid[..|grid| - 1]) + RowRolls(grid[|grid| - 1])
  }

  lemma {:induction false} RoundRowRolls(grid: seq<string>, r: nat, n: nat)
    requires r < |grid| && n <= |grid[r]|
    ensures RowRolls(Round(grid)[r][..n]) + |RowMarks(grid, r, n)| == RowRolls(grid[r][..n])
  {
    if n > 0 {
      RoundRowRolls(grid, r, n - 1);
      assert Round(grid)[r][..n][..n - 1] == Round(grid)[r][..n - 1];
      assert grid[r][..n][..n - 1] == grid[r][..n - 1];
    }
  }

  lemma {:induction false} RoundRollCount(grid: seq<string>, k: nat)
    requires k <= |grid|
    ensures RollCount(Round(grid)[..k]) + |MarksBefore(grid, k)| == RollCount(grid[..k])
  {
    if k > 0 {
      RoundRollCount(grid, k - 1);
      var r := k - 1;
      RoundRowRolls(grid, r, |grid[r]|);
      assert Round(grid)[..k][..r] == Round(grid)[..r];
      assert grid[..k][..r] == grid[..r];
      assert Round(grid)[r][..|grid[r]|] == Round(grid)[r];
      assert grid[r][..|grid[r]|] == grid[r];
    }
  }

  /** A round removes exactly one roll per mark. */
  lemma RoundRemovesMarks(grid: seq<string>)
    ensures RollCount(Round(grid)) + |Marks(grid)| == RollCount(grid)
  {
    RoundRollCount(grid, |grid|);
    assert Round(grid)[..|grid|] == Round(grid);
    assert grid[..|grid|] == grid;
  }

  /** Rounds until one marks nothing; the roll count falls in every round that marks. */
  function ErodeFully(grid: seq<string>): seq<string>
    decreases RollCount(grid)
  {
    if |Marks(grid)| == 0 then grid
    else
      RoundRemovesMarks(grid);
      ErodeFully(Round(grid))
  }

  /** The diagram the rounds end with marks nothing: no roll there has fewer than four neighbours. */
  lemma {:induction false} ErodeFullyIsStable(grid: seq<string>)
    ensures Marks(ErodeFully(grid)) == []
    ensures forall r, c :: 0 <= r < |ErodeFully(grid)| && 0 <= c < |ErodeFully(grid)[r]| ==>
      !Marked(ErodeFully(grid), r, c)
    decreases RollCount(grid)
  {
    if |Marks(grid)| != 0 {
      RoundRemovesMarks(grid);
      ErodeFullyIsStable(Round(grid));
    } else {
      MarksMembership(grid);
    }
  }

  /**
    The rounds keep the diagram's shape and only ever turn a roll into 'x': every cell of
    the result is the original cell or, where the original was '@', an 'x'.
   */
  lemma {:induction false} ErodeFullyOnlyRemovesRolls(grid: seq<string>)
    ensures |ErodeFully(grid)| == |grid|
    ensures forall r :: 0 <= r < |grid| ==> |ErodeFully(grid)[r]| == |grid[r]|
    ensures forall r, c :: 0 <= r < |grid| && 0 <= c < |grid[r]| ==>
      ErodeFully(grid)[r][c] == grid[r][c] || (grid[r][c] == '@' && ErodeFully(grid)[r][c] == 'x')
    decreases RollCount(grid)
  {
    if |Marks(grid)| != 0 {
      RoundRemovesMarks(grid);
      ErodeFullyOnlyRemovesRolls(Round(grid));
    }
  }

  /** The number of rolls removed until the rounds stop. */
  function RollsRemoved(grid: seq<string>): nat
  {
    ErodeFullyRemovesRolls(grid);
    RollCount(grid) - RollCount(ErodeFully(grid))
  }

  lemma {:induction false} ErodeFullyRemovesRolls(grid: seq<string>)
    ensures RollCount(ErodeFully(grid)) <= RollCount(grid)
    decreases RollCount(grid)
  {
    if |Marks(grid)| != 0 {
      RoundRemovesMarks(grid);
      ErodeFullyRemovesRolls(Round(grid));
    }
  }

  // ---------------------------------------------------------------------------------
  // The source's loops

  /** Marks applied one after another, each replacing one character by 'x'. */
  function ApplyAll(grid: seq<string>, marks: seq<(nat, nat)>): (next: seq<string>)
    requires forall i :: 0 <= i < |marks| ==> marks[i].1 < |grid| && marks[i].0 < |grid[marks[i].1]|
    ensures |next| == |grid|
    ensures forall r :: 0 <= r < |grid| ==> |next[r]| == |grid[r]|
  {
    if |marks| == 0 then grid
    else
      var before := ApplyAll(grid, marks[..|marks| - 1]);
      var (c, r) := marks[|marks| - 1];
      before[r := before[r][..c] + "x" + before[r][c + 1..]]
  }

  /** After the marks are applied, a cell is 'x' where some mark names it and unchanged elsewhere. */
  lemma {:induction false} ApplyAllCells(grid: seq<string>, marks: seq<(nat, nat)>)
    requires forall i :: 0 <= i < |marks| ==> marks[i].1 < |grid| && marks[i].0 < |grid[marks[i].1]|
    ensures forall r, c :: 0 <= r < |grid| && 0 <= c < |grid[r]| ==>
      ApplyAll(grid, marks)[r][c] == if (c, r) in marks then 'x' else grid[r][c]
  {
    if |marks| > 0 {
      var front := marks[..|marks| - 1];
      ApplyAllCells(grid, front);
      var before := ApplyAll(grid, front);
      var (c0, r0) := marks[|marks| - 1];
      var row := before[r0][..c0] + "x" + before[r0][c0 + 1..];
      assert forall c :: 0 <= c < |row| ==> row[c] == if c == c0 then 'x' else before[r0][c];
      assert forall m :: m in marks <==> m in front || m == (c0, r0);
    }
  }

  /** One more mark changes one character of one row. */
  lemma ApplyAllStep(grid: seq<string>, marks: seq<(nat, nat)>, k: nat)
    requires forall i :: 0 <= i < |marks| ==> marks[i].1 < |grid| && marks[i].0 < |grid[marks[i].1]|
    requires k < |marks|
    ensures var before := ApplyAll(grid, marks[..k]);
      var (c, r) := marks[k];
      ApplyAll(grid, marks[..k + 1]) == before[r := before[r][..c] + "x" + before[r][c + 1..]]
  {
    assert marks[..k + 1][..k] == marks[..k];
  }

  /** Applying a round's marks one by one gives the round. */
  lemma ApplyMarksIsRound(grid: seq<string>)
    requires forall i :: 0 <= i < |Marks(grid)| ==>
      Marks(grid)[i].1 < |grid| && Marks(grid)[i].0 < |grid[Marks(grid)[i].1]|
    ensures ApplyAll(grid, Marks(grid)) == Round(grid)
  {
    var a, b := ApplyAll(grid, Marks(grid)), Round(grid);
    forall r | 0 <= r < |grid| ensures a[r] == b[r] {
      ApplyMarksOnRow(grid, r);
    }
  }

  /** Row by row, applying the marks is the round. */
  lemma ApplyMarksOnRow(grid: seq<string>, r: nat)
    requires forall i :: 0 <= i < |Marks(grid)| ==>
      Marks(grid)[i].1 < |grid| && Marks(grid)[i].0 < |grid[Marks(grid)[i].1]|
    requires r < |grid|
    ensures ApplyAll(grid, Marks(grid))[r] == Round(grid)[r]
  {
    MarksMembership(grid);
    ApplyAllCells(grid, Marks(grid));
    var a, b := ApplyAll(grid, Marks(grid))[r], Round(grid)[r];
    forall c | 0 <= c < |grid[r]| ensures a[c] == b[c] {
      assert (c, r) in Marks(grid) <==> Marked(grid, r, c);
    }
  }

  /** Every mark lies inside the diagram. */
  lemma MarksInRange(grid: seq<string>)
    ensures forall i :: 0 <= i < |Marks(grid)| ==>
      Marks(grid)[i].1 < |grid| && Marks(grid)[i].0 < |grid[Marks(grid)[i].1]|
  {
    MarksMembership(grid);
    forall i | 0 <= i < |Marks(grid)|
      ensures Marks(grid)[i].1 < |grid| && Marks(grid)[i].0 < |grid[Marks(grid)[i].1]|
    {
      assert Marks(grid)[i] in Marks(grid);
    }
  }

  /** The `for … of directions` loop for the roll at (rowIndex, pointIndex). */
  method CountAdjacent(diagram: array<string>, rowIndex: nat, pointIndex: nat) returns (adjacentRolls: nat)
    requires rowIndex < diagram.Length
    ensures adjacentRolls == AdjacentRolls(diagram[..], rowIndex, pointIndex)
  {
    adjacentRolls := 0;
    for i := 0 to |Directions|
      invariant adjacentRolls == AdjacentIn(diagram[..], rowIndex, pointIndex, Directions[..i])
    {
      assert Directions[..i + 1][..i] == Directions[..i];
      var (adjacentColumnOffset, adjacentRowOffset) := Directions[i];
      var adjacentColumnIndex := rowIndex + adjacentRowOffset;
      var adjacentRowIndex := pointIndex + adjacentColumnOffset;
      var row := diagram[rowIndex];
      var leftBound := adjacentRowIndex >= 0;
      var rightBound := adjacentRowIndex <= |row| - 1;
      var downwardBound := adjacentColumnIndex <= diagram.Length - 1;
      var upwardBound := adjacentColumnIndex >= 0;
      if leftBound && rightBound && downwardBound && upwardBound {
        var adjacentRow := diagram[adjacentColumnIndex];
        if adjacentRowIndex < |adjacentRow| && adjacentRow[adjacentRowIndex] == '@' {
          adjacentRolls := adjacentRolls + 1;
        }
      }
    }
    assert Directions[..|Directions|] == Directions;
  }

  /** The marking pass of one round: `forEach` over the rows and their characters. */
  method FindMarks(diagram: array<string>) returns (rollIndicesToBeRemoved: seq<(nat, nat)>)
    ensures rollIndicesToBeRemoved == Marks(diagram[..])
  {
    ghost var grid := diagram[..];
    rollIndicesToBeRemoved := [];
    for rowIndex := 0 to diagram.Length
      invariant rollIndicesToBeRemoved == MarksBefore(grid, rowIndex)
    {
      var row := diagram[rowIndex];
      for pointIndex := 0 to |row|
        invariant rollIndicesToBeRemoved == MarksBefore(grid, rowIndex) + RowMarks(grid, rowIndex, pointIndex)
      {
        if row[pointIndex] == '@' {
          var adjacentRolls := CountAdjacent(diagram, rowIndex, pointIndex);
          if adjacentRolls < AdjacentRollsLimit {
            rollIndicesToBeRemoved := rollIndicesToBeRemoved + [(pointIndex, rowIndex)];
          }
        }
      }
    }
  }

  /** The removal pass of one round: each mark's character becomes 'x'. */
  method ApplyMarks(diagram: array<string>, rollIndicesToBeRemoved: seq<(nat, nat)>)
    requires forall i :: 0 <= i < |rollIndicesToBeRemoved| ==>
      rollIndicesToBeRemoved[i].1 < diagram.Length
      && rollIndicesToBeRemoved[i].0 < |diagram[rollIndicesToBeRemoved[i].1]|
    modifies diagram
    ensures diagram[..] == ApplyAll(old(diagram[..]), rollIndicesToBeRemoved)
  {
    ghost var grid := diagram[..];
    for k := 0 to |rollIndicesToBeRemoved|
      invariant diagram[..] == ApplyAll(grid, rollIndicesToBeRemoved[..k])
    {
      ApplyAllStep(grid, rollIndicesToBeRemoved, k);
      var (columnIndex, rowIndex) := rollIndicesToBeRemoved[k];
      var row := diagram[rowIndex];
      SliceInRange(row, 0, columnIndex);
      SliceInRange(row, columnIndex + 1, |row|);
      assert Slice(row, 0, columnIndex) == row[..columnIndex];
      assert Slice(row, columnIndex + 1, |row|) == row[columnIndex + 1..];
      diagram[rowIndex] := Slice(row, 0, columnIndex) + "x" + Slice(row, columnIndex + 1, |row|);
    }
    assert rollIndicesToBeRemoved[..|rollIndicesToBeRemoved|] == rollIndicesToBeRemoved;
  }

  /**
    The source's `while (rollsRemovedThisRound)` loop: rounds until one removes nothing.
    The diagram ends as ErodeFully of the input and the count is the rolls that went.
   */
  method RemoveRolls(diagram: array<string>) returns (rollsRemoved: nat)
    modifies diagram
    ensures diagram[..] == ErodeFully(old(diagram[..]))
    ensures rollsRemoved == RollsRemoved(old(diagram[..]))
  {
    rollsRemoved := 0;
    var rollsRemovedThisRound := true;
    while rollsRemovedThisRound
      invariant ErodeFully(diagram[..]) == ErodeFully(old(diagram[..]))
      invariant rollsRemoved + RollCount(diagram[..]) == RollCount(old(diagram[..]))
      invariant !rollsRemovedThisRound ==> |Marks(diagram[..])| == 0
      decreases RollCount(diagram[..]) + (if rollsRemovedThisRound then 1 else 0)
    {
      rollsRemovedThisRound := false;
      ghost var grid := diagram[..];
      var rollIndicesToBeRemoved := FindMarks(diagram);
      MarksInRange(grid);
      ApplyMarks(diagram, rollIndicesToBeRemoved);
      ApplyMarksIsRound(grid);
      RoundRemovesMarks(grid);
      rollsRemoved := rollsRemoved + |rollIndicesToBeRemoved|;
      rollsRemovedThisRound := |rollIndicesToBeRemoved| > 0;
    }
    ErodeFullyRemovesRolls(old(diagram[..]));
  }
}
