/**
 * The solved-days heatmap's layout (HeatmapView.swift): the year's dates laid out column by
 * column into a rows-by-columns grid, with slots past the end left empty.
 */
module Heatmap {
  import opened Wrappers

  /** The position in `dates` of the date shown at row `r` of column `c`: columns are filled top to bottom. */
  function Index(rows: nat, r: nat, c: nat): nat
  {
    c * rows + r
  }

  /** The cell at row `r`, column `c`: the date at its index, or empty past the end of `dates`. */
  function Cell<T>(dates: seq<T>, rows: nat, r: nat, c: nat): Option<T>
  {
    if Index(rows, r, c) < |dates| then Some(dates[Index(rows, r, c)]) else None
  }

  /** Row `i % rows`, column `i / rows` is where index `i` goes. */
  lemma IndexOfDivMod(rows: nat, i: nat)
    requires rows > 0
    ensures Index(rows, i % rows, i / rows) == i
  {
  }

  /** Two cells of the same grid have different indices: no index is shown twice. */
  lemma IndexInjective(rows: nat, r: nat, c: nat, r': nat, c': nat)
    requires r < rows && r' < rows
    requires Index(rows, r, c) == Index(rows, r', c')
    ensures r == r' && c == c'
  {
    if c < c' {
      MulStep(rows, c, c');
    } else if c' < c {
      MulStep(rows, c', c);
    }
  }

  lemma {:induction false} MulStep(rows: nat, a: nat, b: nat)
    requires a < b
    ensures a * rows + rows <= b * rows
    decreases b - a
  {
    assert (a + 1) * rows == a * rows + rows;
    if a + 1 < b {
      MulStep(rows, a + 1, b);
    }
  }

  /** `generateGrid`: an empty grid filled in by walking the dates with their indices. */
  method GenerateGrid<T>(dates: seq<T>, rows: nat, columns: nat) returns (grid: seq<seq<Option<T>>>)
    requires rows > 0 || dates == []
    ensures |grid| == rows
    ensures forall r | 0 <= r < rows :: |grid[r]| == columns
    ensures forall r, c | 0 <= r < rows && 0 <= c < columns :: grid[r][c] == Cell(dates, rows, r, c)
  {
    grid := seq(rows, _ => seq(columns, _ => None));
    for index := 0 to |dates|
      invariant |grid| == rows
      invariant forall r | 0 <= r < rows :: |grid[r]| == columns
      invariant forall r, c | 0 <= r < rows && 0 <= c < columns :: grid[r][c] == Cell(dates[..index], rows, r, c)
    {
      var row := index % rows;
      var column := index / rows;
      IndexOfDivMod(rows, index);
      forall r, c | 0 <= r < rows && 0 <= c < columns
        ensures Cell(dates[..index + 1], rows, r, c)
                == if r == row && c == column then Some(dates[index]) else Cell(dates[..index], rows, r, c)
      {
        CellStep(dates, rows, index, r, c);
      }
      if column < columns {
        grid := grid[row := grid[row][column := Some(dates[index])]];
      }
    }
    assert dates[..|dates|] == dates;
  }

  /** Showing one more date changes only the cell of that date's index. */
  lemma CellStep<T>(dates: seq<T>, rows: nat, index: nat, r: nat, c: nat)
    requires rows > 0 && index < |dates| && r < rows
    ensures Cell(dates[..index + 1], rows, r, c)
            == if r == index % rows && c == index / rows then Some(dates[index]) else Cell(dates[..index], rows, r, c)
  {
    IndexOfDivMod(rows, index);
    if Index(rows, r, c) == index {
      IndexInjective(rows, r, c, index % rows, index / rows);
    }
  }

  /** Date `i` is shown at row `i % rows` of column `i / rows` when that column exists. */
  lemma DatePlaced<T>(dates: seq<T>, rows: nat, columns: nat, i: nat)
    requires rows > 0 && i < |dates| && i / rows < columns
    ensures i % rows < rows
    ensures Cell(dates, rows, i % rows, i / rows) == Some(dates[i])
  {
    IndexOfDivMod(rows, i);
  }

  /** Dates from index `rows * columns` on have no column and are not shown. */
  lemma DateBeyondGrid(rows: nat, columns: nat, i: nat)
    requires rows > 0
    ensures i / rows < columns <==> i < rows * columns
  {
    IndexOfDivMod(rows, i);
    if i / rows < columns {
      MulStep(rows, i / rows, columns);
    } else {
      assert i / rows * rows >= columns * rows by {
        MulMono(rows, columns, i / rows);
      }
    }
  }

  lemma MulMono(rows: nat, a: nat, b: nat)
    requires a <= b
    ensures a * rows <= b * rows
  {
  }

  /** A cell is empty exactly when its index is past the last date. */
  lemma EmptyCells<T>(dates: seq<T>, rows: nat, r: nat, c: nat)
    ensures Cell(dates, rows, r, c).None? <==> c * rows + r >= |dates|
  {
  }

  /**
   * The year view: 365 dates in 14 rows of 27 columns. Every date is shown, and the empty
   * cells are rows 1 to 13 of the last column (13 cells).
   */
  lemma YearLayout<T>(dates: seq<T>)
    requires |dates| == 365
    ensures forall i | 0 <= i < 365 :: i / 14 < 27
    ensures forall r, c | 0 <= r < 14 && 0 <= c < 27 :: Cell(dates, 14, r, c).None? <==> (c == 26 && r >= 1)
  {
    forall i | 0 <= i < 365
      ensures i / 14 < 27
    {
      DateBeyondGrid(14, 27, i);
    }
  }
}
