/** Cell spans of a spreadsheet grid and the scan that decides whether one
    column of the grid may be fixed to the left of the view. */
module Spans {

  /** A grid cell, reduced to the two spans the fixability scan looks at
      (Java ints; the scan only compares them with 1). */
  datatype Cell = Cell(rowSpan: int, columnSpan: int)

  /** A grid is a list of rows, each row a list of cells. */
  type Grid = seq<seq<Cell>>

  /** How the scan ends: it returns a verdict, or `row.get(indexColumn)`
      throws because the index is outside the row it has reached. */
  datatype ScanResult = Returned(fixable: bool) | IndexOutOfBounds

  /** A cell occupies more than one grid cell in some direction. */
  predicate IsSpanning(c: Cell) {
    c.columnSpan > 1 || c.rowSpan > 1
  }

  /** `index` can be read in `row`. */
  predicate InRow(row: seq<Cell>, index: int) {
    0 <= index < |row|
  }

  /** The scan gets past each of the first `k` rows: the index is inside the
      row and the cell there does not span. */
  ghost predicate ClearBefore(rows: Grid, index: int, k: int)
    requires 0 <= k <= |rows|
  {
    forall j :: 0 <= j < k ==> InRow(rows[j], index) && !IsSpanning(rows[j][index])
  }

  /** Reference definition of the scan, one row at a time, stopping at the
      first row that is too short or whose cell spans. */
  function Scan(rows: Grid, index: int): ScanResult
    decreases |rows|
  {
    if rows == [] then Returned(true)
    else if !InRow(rows[0], index) then IndexOutOfBounds
    else if IsSpanning(rows[0][index]) then Returned(false)
    else Scan(rows[1..], index)
  }

  /** The column scan of the constructor: a loop over the rows that returns
      false at the first spanning cell and true when every row is passed. */
  method InitCanFix(rows: Grid, index: int) returns (r: ScanResult)
    ensures r == Scan(rows, index)
  {
    for k := 0 to |rows|
      invariant Scan(rows[k..], index) == Scan(rows, index)
    {
      var row := rows[k];
      assert rows[k..][0] == row && rows[k..][1..] == rows[k + 1..];
      if !(0 <= index < |row|) {
        return IndexOutOfBounds;
      }
      var columnSpan := row[index].columnSpan;
      if columnSpan > 1 || row[index].rowSpan > 1 {
        return Returned(false);
      }
    }
    assert rows[|rows|..] == [];
    return Returned(true);
  }

  /** Dropping a cleared first row does not change which rows are cleared. */
  lemma ClearBeforeTail(rows: Grid, index: int, k: int)
    requires 0 < k <= |rows|
    ensures ClearBefore(rows, index, k) <==>
              InRow(rows[0], index) && !IsSpanning(rows[0][index]) && ClearBefore(rows[1..], index, k - 1)
  {
  }

  /** The scan answers "fixable" exactly when it gets past every row. In
      particular a grid with no rows is fixable. */
  lemma {:induction false} ScanFixableIff(rows: Grid, index: int)
    ensures Scan(rows, index) == Returned(true) <==> ClearBefore(rows, index, |rows|)
    decreases |rows|
  {
    if rows != [] {
      ClearBeforeTail(rows, index, |rows|);
      if InRow(rows[0], index) && !IsSpanning(rows[0][index]) {
        ScanFixableIff(rows[1..], index);
      }
    }
  }

  /** The scan answers "not fixable" exactly when some row holds a spanning
      cell at the index and every row before it was passed: the rows after
      that one are never looked at, even if they are too short. */
  lemma {:induction false} ScanNotFixableIff(rows: Grid, index: int)
    ensures Scan(rows, index) == Returned(false) <==>
              exists k :: 0 <= k < |rows| && ClearBefore(rows, index, k)
                          && InRow(rows[k], index) && IsSpanning(rows[k][index])
    decreases |rows|
  {
    if rows == [] {
      return;
    }
    if !InRow(rows[0], index) || IsSpanning(rows[0][index]) {
      assert ClearBefore(rows, index, 0);
      forall k | 0 < k < |rows|
        ensures !ClearBefore(rows, index, k)
      {
        ClearBeforeTail(rows, index, k);
      }
      return;
    }
    ScanNotFixableIff(rows[1..], index);
    if Scan(rows, index) == Returned(false) {
      var k :| 0 <= k < |rows[1..]| && ClearBefore(rows[1..], index, k)
               && InRow(rows[1..][k], index) && IsSpanning(rows[1..][k][index]);
      ClearBeforeTail(rows, index, k + 1);
      assert rows[k + 1] == rows[1..][k];
    }
    if exists k :: 0 <= k < |rows| && ClearBefore(rows, index, k)
                   && InRow(rows[k], index) && IsSpanning(rows[k][index]) {
      var k :| 0 <= k < |rows| && ClearBefore(rows, index, k)
               && InRow(rows[k], index) && IsSpanning(rows[k][index]);
      assert k != 0;
      ClearBeforeTail(rows, index, k);
      assert rows[1..][k - 1] == rows[k];
    }
  }

  /** The scan throws exactly when it reaches a row too short for the index
      with every row before it passed. */
  lemma {:induction false} ScanThrowsIff(rows: Grid, index: int)
    ensures Scan(rows, index) == IndexOutOfBounds <==>
              exists k :: 0 <= k < |rows| && ClearBefore(rows, index, k) && !InRow(rows[k], index)
    decreases |rows|
  {
    if rows == [] {
      return;
    }
    if !InRow(rows[0], index) || IsSpanning(rows[0][index]) {
      assert ClearBefore(rows, index, 0);
      forall k | 0 < k < |rows|
        ensures !ClearBefore(rows, index, k)
      {
        ClearBeforeTail(rows, index, k);
      }
      return;
    }
    ScanThrowsIff(rows[1..], index);
    if Scan(rows, index) == IndexOutOfBounds {
      var k :| 0 <= k < |rows[1..]| && ClearBefore(rows[1..], index, k) && !InRow(rows[1..][k], index);
      ClearBeforeTail(rows, index, k + 1);
      assert rows[k + 1] == rows[1..][k];
    }
    if exists k :: 0 <= k < |rows| && ClearBefore(rows, index, k) && !InRow(rows[k], index) {
      var k :| 0 <= k < |rows| && ClearBefore(rows, index, k) && !InRow(rows[k], index);
      assert k != 0;
      ClearBeforeTail(rows, index, k);
      assert rows[1..][k - 1] == rows[k];
    }
  }

  /** When the index is valid in every row the scan never throws, and the
      column is fixable iff no cell at the index has a row span or a column
      span greater than 1. */
  lemma ScanValidIndex(rows: Grid, index: int)
    requires forall j :: 0 <= j < |rows| ==> 0 <= index < |rows[j]|
    ensures Scan(rows, index).Returned?
    ensures Scan(rows, index).fixable <==>
              forall j :: 0 <= j < |rows| ==>
                rows[j][index].columnSpan <= 1 && rows[j][index].rowSpan <= 1
  {
  }
}
