# Badminton tally sheet: a Dafny model

The app keeps a club session on a tally sheet. Each row holds one player. The
columns are Name, Time, `Total /`, Price and the twenty game columns `game1` to
`game20`. Every game a player joins is marked with a lowercase `l` in that game's
column.

Pressing Calculate does three things. First it finds the active rows: everything up
to the last row with a filled-in Name. It then checks that every game column holds
a whole number of shuttlecocks, at four marks each. Next it runs the tally-to-price
transform. The transform counts each named player's marks and writes the count and
a price back into the sheet. It pads the sheet to at least 23 rows. It then sums the session
under the new pricing (per mark plus a per-player fee) and under the old pricing
(real shuttlecock price per four marks plus the court rental). The sheet can also be
downloaded as an image, which is drawn from a fixed-width text rendering of the
table.

The model has four modules:

- `Cells` (`cells.dfy`) defines a cell as free text or a whole number. It also
  gives the Python string behaviour the app relies on: `str()` of a cell, whether
  `str.strip()` is empty (with the full `str.isspace` character set), `str.count`
  of the marker and `str.join`.
- `Tally` (`tally.dfy`) models `process_table_data`. It is an imperative method
  over a local copy of the sheet, with the row loop, the column loop, the row
  extension loops, the padding loop and the summing loop. The method is proved
  against the specification function `ProcessedTable` and closed forms of the sums.
- `Validation` (`validation.dfy`) models the Calculate handler. It covers the loop
  that finds the active-row bound, the divisible-by-four check over the game
  columns, the warning text, and the call of the transform.
- `Layout` (`layout.dfy`) models the fixed-width text that the table image is drawn
  from: column widths, left-justified fields with a two-space gap, the header line
  and one line per row.

The tariffs are parameters: price per mark, per-player fee, court rental and real
shuttlecock price. Sums and the old price are `real`s because Python's `/` is true
division.

## Model

| member | source | states |
|---|---|---|
| Cells.ShowAgrees | app.py:24-39 | A cell is blank exactly when every character of `str(cell)` is whitespace. Its mark count is `str(cell).count('l')`. A number is never blank and carries no mark. |
| Tally.Extended | app.py:46-59 | Appending `''` to a row until it is long enough keeps the row as a prefix and fills the new cells with `''`. |
| Tally.ProcessedRow | app.py:24-59 | One pass over one row. Only Total and Price change; other cells are kept and cells added by extension are `''`. A blank-named row gets `''` in Total and Price. A named row gets its mark count in Total and `count * shuttle + walkin` in Price. |
| Tally.ProcessedRows | app.py:20-59 | Rows below the bound are processed and the others are left as they were. No row is added, removed or reordered. |
| Tally.Padded | app.py:62-63 | The sheet has `max(23, len)` rows. The original rows come first, unchanged. Every added row is `ncols` cells of `''`. |
| Tally.ProcessedTable | app.py:20-63 | The sheet after the transform has `max(23, len)` rows. Each original row is processed if it lies below the bound and kept as it was otherwise. Each added row is `ncols` cells of `''`. |
| Tally.RowMarksPerColumn | app.py:34-39 | A row's mark count (`RowMarks`) is zero exactly when none of the game columns 4..23 it has holds an `l`. It is at least the marks of each of those columns, and zero for a row that stops before column 4. |
| Tally.TotalMarksPerRow | app.py:24-41 | The session total (`TotalMarks`) is zero exactly when no named row below the bound has a mark. It is at least each named row's count, and blank-named rows add nothing to it. |
| Tally.OldSolutionExact | app.py:82 | The old price (`OldSolution`) divides by four exactly: four times the price less the court rental is marks times the real shuttlecock price. When the marks are a multiple of 4, the old price is a whole number of shuttlecocks plus the rental. |
| Tally.ProcessTableData | app.py:8-94 | The returned sheet is `ProcessedTable`. `total_slashes` is the marks of the named active rows, and `sum_D` equals it. `net_price_sum` is `shuttle * total + walkin * named players`. `old_solution_sum` is `total / 4 * real_shuttle + court`. The difference is `net - old`. |
| Tally.ProcessRows | app.py:20-59 | The row loop, including its early stop at the end of the sheet, leaves exactly `ProcessedRows` and accumulates the marks of the named rows up to `min(bound, len)`. |
| Tally.CountRowMarks | app.py:34-39 | The column loop counts the marks in whichever game columns 4..23 the row has. |
| Tally.WriteTotalAndPrice | app.py:43-59 | Writing Total and Price, with the extension loops for rows that are too short, gives `ProcessedRow`. |
| Tally.SumTotalAndPrice | app.py:65-79 | The summing loop adds the numeric Total and Price of the named rows below the bound, and adds nothing past the end of the sheet. |
| Tally.ProcessedColumnSums | app.py:65-79 | Re-summing the processed sheet gives back the counted marks for Total, and `shuttle * marks + walkin * named players` for Price. Padding rows add nothing. |
| Tally.ProcessedTableCells | app.py:20-63 | Cell by cell: rows from the bound on are untouched, no cell other than Total and Price changes, named active rows get count and price, blank-named active rows get `''`, and padding rows are all `''`. |
| Tally.ProcessedTableShape | app.py:43-63 | The transformed sheet has at least 23 rows. With at least four columns every row keeps the sheet's width. With fewer, a named active row grows to four cells and the rows no longer share one width. |
| Tally.ShortRowPrice | app.py:52-59 | A named row too short to hold a Price has no game column. So its count is 0, and the short-row formula `count * walkin + walkin` gives the per-player fee, as the main formula would. |
| Tally.NoActiveRows | app.py:20-63 | With bound 0 the transform only pads the sheet. |
| Tally.ProcessedRowStable | app.py:24-59 | Processing a row keeps its Name and its marks, and processing it again changes nothing. |
| Tally.ProcessIdempotent | app.py:8-94 | Running the transform on its own output changes no cell and finds the same marks and the same named players, so it gives the same summary. |
| Tally.OnePlayerSession | app.py:8-94 | Running the transform on a 24-column sheet holding only Ann, with one mark in game1, at tariffs (20, 60, 0, 0): 23 rows come back, and Ann's row has Total 1 and Price 80. The summary is total 1, old price 0, new price 80, difference 80 and `sum_D` 1. |
| Validation.ActiveBound | app.py:193-196 | The bound is one past the last row with a non-blank Name, or 0. No row from the bound on is named. |
| Validation.ActiveBoundUnique | app.py:193-200 | Those properties fix the bound uniquely. It is 0 exactly when no Name is filled in, which is the case the handler reports instead of computing. |
| Validation.FindActiveBound | app.py:193-196 | The loop that overwrites the bound at every named row ends with `ActiveBound`. |
| Validation.ColumnMarksPerRow | app.py:206 | A game column's count over the first `bound` rows (`ColumnMarks`) is zero exactly when none of those cells holds an `l`. It is at least each cell's marks, and blank-named rows count too. |
| Validation.Flagged | app.py:202-208 | The flagged game columns below a bound are in increasing order, and a column is among them exactly when its marks over the active rows are not a multiple of 4. |
| Validation.InvalidGameColumns | app.py:202-210 | Without 24 columns nothing is checked. Otherwise the list is `Flagged`: a game column is listed exactly when its marks over the active rows are not a multiple of 4, in increasing column order. The list is empty exactly when every game column is a multiple of 4. |
| Validation.ColumnNames | app.py:208 | The listed columns are reported by their header names, in the same order. |
| Validation.WarningMessage | app.py:210-216 | The warning is empty exactly when there are enough columns and nothing is flagged. It starts with the too-few-columns text when columns are missing. It ends with the comma-separated flagged names when there are any. |
| Validation.Calculate | app.py:186-225 | The sheet's first column is headed "Name". No result exactly when no Name is filled in. Otherwise the sheet and the summary are those of the transform at `ActiveBound`. The warning is the message for the sheet's column count and the header names of the `Flagged` game columns, in column order. It is empty exactly when the sheet has all game columns and each holds a multiple of 4 marks over the active rows. |
| Validation.ComputedSheetAligned | app.py:221-243 | The sheet Calculate stores and draws as an image (with at least the Price column) is rectangular on its headers and has at least 23 rows. So its fixed-width text has one line per row after the header, and every line is aligned on the shared column widths. |
| Validation.NoWarningMeansWholeShuttlecocks | app.py:202-208 | When every active row is named and no game column is flagged, the session's marks are a multiple of 4. The old price then charges a whole number of shuttlecocks. |
| Layout.PadRight | app.py:104-107 | `f"{s:<{w}}"` has length `max(len(s), w)`, starts with `s` uncut and is filled with spaces. |
| Layout.CellTexts | app.py:103-107 | The table as the layout sees it: `str()` of every cell. |
| Layout.ColumnWidths | app.py:103 | Each column's width is at least its header and at least every cell text in it, and equals one of them. |
| Layout.ConcatIsJoin | app.py:104-107 | The `"".join` used for lines is `str.join` with the empty separator. |
| Layout.ConcatPart | app.py:104-107 | In `"".join(parts)`, each part appears unchanged at the sum of the lengths before it. |
| Layout.FormatLineColumn | app.py:104-107 | In a line of fields that fit their widths, column `c` holds its field, left-justified in `width + 2` characters, from `ColumnStart(c)` on. |
| Layout.FormatLineAligned | app.py:104-107 | Such a line is exactly `sum(width + 2)` long and every column sits at its fixed offset. |
| Layout.TableText | app.py:110 | `df_string` is all lines joined by `"\n"`: the header line, then a newline, then the row lines. |
| Layout.TextLines | app.py:104-110 | One header line plus one line per row. |
| Layout.TextAligned | app.py:103-110 | The header and every row fit the column widths. So every line has the same length, every column starts at the same offset in each line, and no header or cell text is cut. |
| Layout.TableAligned | app.py:103-110 | The same holds for the table's own cells, laid out through `str()`. |

## Left out

- The Streamlit page is not modelled: widgets, session state, `st.rerun`, how warnings are displayed, the summary text and the download button (app.py:161-253). The tariffs are integer parameters, as `number_input` with integer defaults and steps yields.
- The pandas conversions are not modelled: `values.tolist()`, building the `DataFrame` back, and `fillna('')`. The sheet is a sequence of rows of cells, taken after `fillna`. In `Validation.Calculate` the rows are assumed rectangular, as in a data frame, and row index labels are assumed to be positions 0..n-1.
- Cells are text or whole numbers only. Floats, booleans and missing values (before `fillna`) are not modelled.
- Tally.NumericValue treats a text cell as 0 where Python's `float()` would parse numeric text. The summing loop only reads Total and Price of named active rows, and the transform has just written numbers there.
- Python floats are not modelled. The sums and the old price are exact `real`s.
- Tally.ProcessTableData excludes the input that makes the source raise `IndexError`: zero columns, a bound past the end and fewer than 23 rows. The summing loop then reads the Name of an empty padding row.
- Tally.ProcessTableData and Tally.ProcessedTable require every row to have a Name cell. So they also exclude a non-empty zero-column sheet with bound 0, which the source processes without error.
- Tally.ProcessTableData does not model the failure of rebuilding the data frame (app.py:93). On a sheet with fewer than 4 columns, a named active row is lengthened to 4 cells. `pd.DataFrame(processed_data, columns=...)` then raises `ValueError`, because the rows no longer match the headers. The model returns the lengthened sheet instead.
- Validation.Calculate requires the first column to be headed "Name". The handler finds the Name by its header (app.py:195), while the transform reads column 0 (app.py:24). The sheet's headers (app.py:139) put "Name" first. A sheet with "Name" elsewhere, or with two "Name" columns, is not modelled.
- The drawing part of `dataframe_to_image` is not modelled (app.py:112-135): font loading, pixel metrics, image size, drawing and PNG encoding.
- The layout of an empty table is not modelled: the pandas maximum of an empty column is NaN and the width format fails. Layout functions require at least one row.
- Cell texts that contain a newline are not modelled. They would break `split('\n')`, which is only used for drawing.
- Duplicate column names are not modelled. Headers are indexed by position.
- The "Additionally, …" warning branch (app.py:213-214) is modelled in `Validation.WarningMessage`, but it cannot be reached. Columns are only flagged when the sheet has 24 columns, and only the too-few-columns case sets an earlier warning.
- Tally.ProcessedRow keeps the short-row price formula as written (`count * walkin + walkin`, app.py:59); `Tally.ShortRowPrice` shows that it always gives the same price as the main formula. The short-row branch is only reached on a sheet with fewer than 4 columns, which the source then fails to rebuild into a data frame (app.py:93).
