/** A column of a spreadsheet view: whether it may be fixed to the left of
    the view (decided once, when the column is created), its header text,
    and fixing or unfixing it through the view's list of fixed columns. */
module Spreadsheet {
  import opened Spans
  import opened FixedColumns

  /** The parts of the view a column touches: the rows of its grid and the
      list of fixed columns, which every column of the view shares. */
  class SpreadsheetView {
    var rows: Grid
    var fixedColumns: seq<SpreadsheetColumn>

    constructor (rows: Grid)
      ensures this.rows == rows && fixedColumns == []
    {
      this.rows := rows;
      fixedColumns := [];
    }

    /** The grid's rows change; the columns' row listeners are to be told. */
    method SetRows(newRows: Grid)
      modifies this`rows
      ensures rows == newRows
    {
      rows := newRows;
    }
  }

  /** The header text shown for a column: the dot that follows the given
      text marks a column that can be fixed. */
  function HeaderText(original: string, fixable: bool): (h: string)
    ensures |h| == |original| + (if fixable then 1 else 0)
    ensures h[..|original|] == original
    ensures fixable ==> h[|original|] == '.'
  {
    if fixable then original + "." else original
  }

  class SpreadsheetColumn {
    const view: SpreadsheetView
    const indexColumn: int
    /** Decided once, by the constructor's scan. */
    const canFix: bool
    /** The rows the constructor scanned. */
    ghost const rowsAtConstruction: Grid
    /** The header text of the underlying table column. */
    var text: string

    /** `canFix` is the verdict of the scan of the rows seen at construction. */
    ghost predicate Valid() {
      Scan(rowsAtConstruction, indexColumn) == Returned(canFix)
    }

    /** Creating the column scans its cells once; the scan must not throw
        (otherwise no column is created). A fixable column gets a dot after
        its header text. */
    constructor (view: SpreadsheetView, indexColumn: int, headerText: string)
      requires Scan(view.rows, indexColumn).Returned?
      ensures this.view == view && this.indexColumn == indexColumn
      ensures rowsAtConstruction == view.rows && Valid()
      ensures canFix <==> ClearBefore(view.rows, indexColumn, |view.rows|)
      ensures text == HeaderText(headerText, canFix)
    {
      this.view := view;
      this.indexColumn := indexColumn;
      rowsAtConstruction := view.rows;
      var outcome := InitCanFix(view.rows, indexColumn);
      canFix := outcome.fixable;
      text := if outcome.fixable then headerText + "." else headerText;
      new;
      ScanFixableIff(view.rows, indexColumn);
    }

    /** The column is fixable iff the scan at construction passed every row,
        whatever the rows have become since. */
    function IsColumnFixable(): (b: bool)
      requires Valid()
      ensures b <==> ClearBefore(rowsAtConstruction, indexColumn, |rowsAtConstruction|)
    {
      ScanFixableIff(rowsAtConstruction, indexColumn);
      canFix
    }

    /** The row listener: rescans the current rows and keeps nothing of the
        verdict, so the column's state and the view are left as they were.
        `r` is how the rescan ended; `IndexOutOfBounds` is the exception the
        listener throws when a row is now too short for the index. */
    method OnRowsChanged() returns (r: ScanResult)
      requires Valid()
      ensures r == Scan(view.rows, indexColumn)
      ensures Valid() && view.rows == old(view.rows)
      ensures view.fixedColumns == old(view.fixedColumns)
    {
      r := InitCanFix(view.rows, indexColumn);
    }

    /** The column is fixed iff it occurs in the view's fixed-columns list. */
    function IsFixed(): (b: bool)
      reads view
      ensures b <==> multiset(view.fixedColumns)[this] > 0
    {
      this in view.fixedColumns
    }

    /** Fixing appends the column to the fixed-columns list, without looking
        at `canFix`; unfixing removes every occurrence of it. */
    method SetFixed(fixed: bool)
      modifies view`fixedColumns
      ensures IsFixed() == fixed
      ensures fixed ==> view.fixedColumns == old(view.fixedColumns) + [this]
      ensures !fixed ==> view.fixedColumns == RemoveAll(old(view.fixedColumns), this)
    {
      if fixed {
        view.fixedColumns := view.fixedColumns + [this];
      } else {
        view.fixedColumns := RemoveAll(view.fixedColumns, this);
      }
    }

    /** The listener of the context menu's "Fix" item, which exists only on
        fixable columns: it unfixes a fixed column and fixes the others. */
    method OnFixItemChanged()
      requires canFix
      modifies view`fixedColumns
      ensures IsFixed() == !old(IsFixed())
      ensures view.fixedColumns == Toggle(old(view.fixedColumns), this)
    {
      if !IsFixed() {
        SetFixed(true);
      } else {
        SetFixed(false);
      }
    }

    method SetText(text: string)
      modifies this`text
      ensures this.text == text
    {
      this.text := text;
    }
  }

  /** A column whose cell spans two rows is not fixable, and yet SetFixed puts
      it in the fixed-columns list: it does not consult `canFix`. */
  method FixNonFixableColumn() returns (fixable: bool, fixed: bool)
    ensures !fixable && fixed
  {
    var view := new SpreadsheetView([[Cell(2, 1)], [Cell(1, 1)]]);
    var column := new SpreadsheetColumn(view, 0, "A");
    fixable := column.IsColumnFixable();
    column.SetFixed(true);
    fixed := column.IsFixed();
  }

  /** A column created over span-free rows stays fixable after a spanning
      cell is added to its rows and the row listener has run. */
  method StaleFixability() returns (fixable: bool, rescan: ScanResult)
    ensures fixable && rescan == Returned(false)
  {
    var view := new SpreadsheetView([[Cell(1, 1)]]);
    var column := new SpreadsheetColumn(view, 0, "A");
    view.SetRows([[Cell(1, 1)], [Cell(1, 3)]]);
    rescan := column.OnRowsChanged();
    fixable := column.IsColumnFixable();
  }

  /** When a row becomes too short for a column's index, the row listener's
      rescan throws, and the column keeps its verdict from construction. */
  method RowListenerThrows() returns (fixable: bool, rescan: ScanResult)
    ensures fixable && rescan == IndexOutOfBounds
  {
    var view := new SpreadsheetView([[Cell(1, 1)]]);
    var column := new SpreadsheetColumn(view, 0, "A");
    view.SetRows([[]]);
    rescan := column.OnRowsChanged();
    fixable := column.IsColumnFixable();
  }
}
