# Fixing spreadsheet columns (ControlsFX `SpreadsheetColumn`)

A Dafny model of the column-fixing logic of ControlsFX's `SpreadsheetColumn`:

- **Fixability.** When a column is created it scans the grid's rows once. It
  reads the cell at its index in each row, and it returns false at the first
  cell whose row span or column span is greater than 1. If no such cell is
  met, it returns true. The verdict is kept in the final field `canFix`.
  `isColumnFixable()` returns it. A fixable column gets a "." after its
  header text.
- **Fixed columns.** The view owns one list of fixed columns, shared by all
  its columns. `setFixed(true)` appends the column to that list and
  `setFixed(false)` removes every occurrence of it. `isFixed()` tests
  membership. The "Fix" item of a fixable column's header menu toggles
  between the two.

Layout:

- `spans.dfy` (module `Spans`) holds the cells, the reference scan `Scan`
  and the loop `InitCanFix`, with lemmas that characterise each outcome.
- `fixed_columns.dfy` (module `FixedColumns`) holds the list operations
  `RemoveAll` and `Toggle`, with lemmas on order, contents and double toggles.
- `spreadsheet_column.dfy` (module `Spreadsheet`) holds a stand-in
  `SpreadsheetView` class with the grid rows and the fixed-columns list.
  It also holds the `SpreadsheetColumn` class and three client methods that
  exhibit the source's quirks.

Modelling choices:

- `row.get(indexColumn)` is not guarded in the source. The model makes an
  out-of-range index a third outcome of the scan, `IndexOutOfBounds`.
- `canFix`, `view` and `indexColumn` are `const` fields, like the Java
  `final` fields. A ghost constant records the rows seen at construction.
- Column identity is object identity, as in the source: `contains` and
  `removeAll` use `equals`, which `SpreadsheetColumn` does not override.
- The grid's row listener is the method `OnRowsChanged`. In the model,
  whoever changes the rows calls it. It rescans and returns how the rescan
  ended, so a throw is visible, and it keeps nothing of the verdict.

Two behaviours of the code are worth stating on their own:

- The doc comment of `initCanFix` (SpreadsheetColumn.java:243-244) says
  only a column without any spanning cell can be fixed. The class and
  method documentation (:50-53, :186-190) only advise callers to check
  `isColumnFixable()` before `setFixed`. `SpreadsheetColumn.setFixed` does
  not consult `canFix` (`FixNonFixableColumn`); whether the view rejects the
  column is outside this model.
- The row listener carries a FIXME (:115). It calls `initCanFix()` and
  discards the result, so `isColumnFixable()` keeps the verdict from
  construction after the rows change (`StaleFixability`). If a row has
  become too short for the index, the listener throws instead
  (`RowListenerThrows`).

## Model

| member | source | states |
|---|---|---|
| `Spans.InitCanFix` | controlsfx/src/main/java/org/controlsfx/control/spreadsheet/SpreadsheetColumn.java:248-258 | The loop over the rows, with its early `return false`, gives exactly the reference scan's outcome for every grid and index. |
| `Spans.ScanFixableIff` | controlsfx/src/main/java/org/controlsfx/control/spreadsheet/SpreadsheetColumn.java:248-258 | The scan answers "fixable" iff every row has the index in range and a non-spanning cell there. A grid with no rows is fixable. |
| `Spans.ScanNotFixableIff` | controlsfx/src/main/java/org/controlsfx/control/spreadsheet/SpreadsheetColumn.java:249-252 | The scan answers "not fixable" iff some row has a spanning cell at the index and every earlier row was passed. Later rows are never read. |
| `Spans.ScanThrowsIff` | controlsfx/src/main/java/org/controlsfx/control/spreadsheet/SpreadsheetColumn.java:249-251 | The scan throws iff it reaches a row too short for the index, with every earlier row passed. |
| `Spans.ScanValidIndex` | controlsfx/src/main/java/org/controlsfx/control/spreadsheet/SpreadsheetColumn.java:248-258 | If the index is valid in every row, the scan never throws. The column is then fixable iff every cell at the index has `columnSpan <= 1` and `rowSpan <= 1`. |
| `FixedColumns.RemoveAll` | controlsfx/src/main/java/org/controlsfx/control/spreadsheet/SpreadsheetColumn.java:147-149 | After `removeAll(this)` the column is absent. Every other entry keeps its number of occurrences. |
| `FixedColumns.RemoveAllConcat` | controlsfx/src/main/java/org/controlsfx/control/spreadsheet/SpreadsheetColumn.java:147-149 | Removal distributes over concatenation, so the remaining columns keep their relative order. |
| `FixedColumns.RemoveAllAbsent` | controlsfx/src/main/java/org/controlsfx/control/spreadsheet/SpreadsheetColumn.java:147-149 | Unfixing a column that is not in the list leaves the list exactly as it was. |
| `FixedColumns.RemoveAllIdempotent` | controlsfx/src/main/java/org/controlsfx/control/spreadsheet/SpreadsheetColumn.java:147-149 | Unfixing twice is the same as unfixing once. |
| `FixedColumns.Toggle` | controlsfx/src/main/java/org/controlsfx/control/spreadsheet/SpreadsheetColumn.java:226-230 | The toggle flips the column's membership. Other columns keep their number of occurrences. |
| `FixedColumns.ToggleTwiceUnfixed` | controlsfx/src/main/java/org/controlsfx/control/spreadsheet/SpreadsheetColumn.java:226-230 | Starting from an unfixed column, toggling twice restores the fixed-columns list exactly. |
| `FixedColumns.ToggleTwiceFixed` | controlsfx/src/main/java/org/controlsfx/control/spreadsheet/SpreadsheetColumn.java:226-230 | Starting from a fixed column, toggling twice restores membership. The column then occurs once, at the end of the list. |
| `FixedColumns.ToggleTwiceReorders` | controlsfx/src/main/java/org/controlsfx/control/spreadsheet/SpreadsheetColumn.java:226-230 | Toggling a fixed column twice can change the list's order: with [1, 2], toggling 1 twice gives [2, 1]. |
| `Spreadsheet.HeaderText` | controlsfx/src/main/java/org/controlsfx/control/spreadsheet/SpreadsheetColumn.java:112-113 | The header starts with the original text. It has one extra character, a ".", iff the column is fixable. |
| `Spreadsheet.SpreadsheetColumn.constructor` | controlsfx/src/main/java/org/controlsfx/control/spreadsheet/SpreadsheetColumn.java:95-121 | The column scans the current rows once. `canFix` holds iff every row was passed. The header text gets its "." suffix iff `canFix`. |
| `Spreadsheet.SpreadsheetColumn.IsColumnFixable` | controlsfx/src/main/java/org/controlsfx/control/spreadsheet/SpreadsheetColumn.java:192-194 | The answer is the verdict of the scan of the rows seen at construction, whatever the rows are now. |
| `Spreadsheet.SpreadsheetColumn.OnRowsChanged` | controlsfx/src/main/java/org/controlsfx/control/spreadsheet/SpreadsheetColumn.java:116-120 | The row listener's result is the rescan of the current rows, `IndexOutOfBounds` when it throws. It changes neither the column nor the view. |
| `Spreadsheet.SpreadsheetColumn.IsFixed` | controlsfx/src/main/java/org/controlsfx/control/spreadsheet/SpreadsheetColumn.java:135-137 | The column is fixed iff it occurs at least once in the view's fixed-columns list. |
| `Spreadsheet.SpreadsheetColumn.SetFixed` | controlsfx/src/main/java/org/controlsfx/control/spreadsheet/SpreadsheetColumn.java:144-150 | Afterwards `IsFixed() == fixed`. Fixing appends the column, even a duplicate or a non-fixable column, and leaves the other entries alone. Unfixing removes every occurrence. |
| `Spreadsheet.SpreadsheetColumn.OnFixItemChanged` | controlsfx/src/main/java/org/controlsfx/control/spreadsheet/SpreadsheetColumn.java:216-232 | On a fixable column the menu listener flips `IsFixed()`. The list becomes the toggle of the old list. |
| `Spreadsheet.SpreadsheetColumn.SetText` | controlsfx/src/main/java/org/controlsfx/control/spreadsheet/SpreadsheetColumn.java:196-198 | The header text is replaced. |
| `Spreadsheet.FixNonFixableColumn` | controlsfx/src/main/java/org/controlsfx/control/spreadsheet/SpreadsheetColumn.java:139-150 | A column with a cell spanning two rows is not fixable, and `SetFixed(true)` still puts it in the fixed-columns list: `SpreadsheetColumn.setFixed` does not consult `canFix`. Whether the view rejects the column is outside this model. |
| `Spreadsheet.StaleFixability` | controlsfx/src/main/java/org/controlsfx/control/spreadsheet/SpreadsheetColumn.java:115-120 | A column created fixable stays fixable after a spanning cell is added to its rows, even though a rescan now answers "not fixable". |
| `Spreadsheet.RowListenerThrows` | controlsfx/src/main/java/org/controlsfx/control/spreadsheet/SpreadsheetColumn.java:116-120 | When a row becomes too short for the index, the listener's rescan throws, and the column still reports the fixability it had at construction. |

## Left out

- Spreadsheet.SpreadsheetColumn.constructor: requires the scan of the current rows not to throw. In the source, the constructor throws `IndexOutOfBoundsException` when a row reached by the scan is too short for the index, and no column is created. The model does not represent that failed construction.
- The JavaFX thread hand-off (`Platform.runLater`) and the building of the `ContextMenu` and `CheckMenuItem`. These are UI plumbing. Only the listener's toggle decision and its existence only on fixable columns are modelled.
- The new and old check-item values passed to the menu listener. The listener ignores them and decides from `isFixed()`, and so does the model.
- `setPrefWidth`, `getWidth`, `setResizable` and `fitColumn`. They pass doubles and flags straight to the table column and its skin, which are not part of this model.
- `getText`. It reads the header text, which is the field `text` here.
- `SpreadsheetView`, `Grid` and `SpreadsheetCell` are not part of this model. The view is a stand-in with the grid rows and the fixed-columns list. Any listener the real view puts on its fixed-columns list is not modelled. A cell is only its two spans.
- A `null` cell or a `null` `indexColumn`. Both would throw a `NullPointerException` in the source. The model uses plain values.
- `TextFields`, `SegmentedButton` and the `HelloTextFields` sample. They are toolkit glue: a fade animation, auto-completion that delegates to code not shown here, a constructor that turns `null` into an empty list, and a demo layout.
