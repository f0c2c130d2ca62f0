/** The tally-to-price transform: counts the marks each named player has in the game
    columns, writes the count and the player's price back into the sheet, pads the sheet
    to its minimum size, and sums the results under the old and the new pricing. */
module Tally {
  import opened Cells

  /** Column layout of the sheet: Name, Time, Total, Price, then the game columns. */
  const NameColumn: nat := 0
  const TotalColumn: nat := 2
  const PriceColumn: nat := 3
  const FirstGameColumn: nat := 4
  const GameColumnsEnd: nat := 24
  /** The sheet is padded to at least this many rows. */
  const MinRows: nat := 23

  /** The four tariffs: price per mark, per-player fee, court rental, and the real
      price of one shuttlecock (which lasts four marks). */
  datatype Tariffs = Tariffs(shuttle: int, walkin: int, court: int, realShuttle: int)

  /** The summary handed back with the updated sheet. */
  datatype Results = Results(
    totalSlashes: nat,
    oldSolutionSum: real,
    netPriceSum: real,
    newMinusOld: real,
    sumD: real)

  /** Every row has a Name cell to look at. */
  predicate HasNames(rows: seq<seq<Cell>>)
  {
    forall i :: 0 <= i < |rows| ==> |rows[i]| > 0
  }

  /** The first `n` rows have a Name cell. */
  predicate NamesUpTo(rows: seq<seq<Cell>>, n: nat)
  {
    n <= |rows| && forall i :: 0 <= i < n ==> |rows[i]| > 0
  }

  predicate Named(row: seq<Cell>)
    requires |row| > 0
  {
    !IsBlank(row[NameColumn])
  }

  /** Marks in the game columns FirstGameColumn .. hi - 1 of a row. */
  function GameMarks(row: seq<Cell>, hi: nat): nat
    requires hi <= |row|
  {
    if hi <= FirstGameColumn then 0 else GameMarks(row, hi - 1) + CellMarks(row[hi - 1])
  }

  /** Marks in whichever of the twenty game columns the row has. */
  function RowMarks(row: seq<Cell>): nat
  {
    GameMarks(row, Min(GameColumnsEnd, |row|))
  }

  /** A row lengthened with empty-string cells to at least `n` cells. */
  function Extended(row: seq<Cell>, n: nat): (r: seq<Cell>)
    ensures |r| == Max(|row|, n)
    ensures r[..|row|] == row
    ensures forall k :: |row| <= k < |r| ==> r[k] == Str("")
  {
    if |row| >= n then row else row + Blanks(n - |row|)
  }

  /** A row after one pass of the transform, as written: a blank-named row loses its
      Total and Price; a named row gets its mark count as Total and a price, being
      lengthened first when it is too short to hold them (and then priced with the
      per-player fee in place of the per-mark price). */
  function ProcessedRow(row: seq<Cell>, t: Tariffs): (r: seq<Cell>)
    requires |row| > 0
    ensures |r| == if Named(row) then Max(|row|, 4) else |row|
    ensures forall k :: 0 <= k < |row| && k != TotalColumn && k != PriceColumn ==> r[k] == row[k]
    ensures forall k :: |row| <= k < |r| && k != TotalColumn && k != PriceColumn ==> r[k] == Str("")
    ensures !Named(row) ==> forall k :: k in {TotalColumn, PriceColumn} && k < |r| ==> r[k] == Str("")
    ensures Named(row) ==> r[TotalColumn] == Num(RowMarks(row))
    ensures Named(row) ==> r[PriceColumn] == Num(RowMarks(row) * t.shuttle + t.walkin)
  {
    if !Named(row) then
      var cleared := if TotalColumn < |row| then row[TotalColumn := Str("")] else row;
      if PriceColumn < |cleared| then cleared[PriceColumn := Str("")] else cleared
    else
      var count := RowMarks(row);
      var counted := Extended(row, TotalColumn + 1)[TotalColumn := Num(count)];
      if PriceColumn < |counted| then counted[PriceColumn := Num(count * t.shuttle + t.walkin)]
      else Extended(counted, PriceColumn + 1)[PriceColumn := Num(count * t.walkin + t.walkin)]
  }

  /** The rows of the sheet after the row loop: rows below `bound` processed. */
  function ProcessedRows(table: seq<seq<Cell>>, t: Tariffs, bound: nat): (rows: seq<seq<Cell>>)
    requires HasNames(table)
    ensures |rows| == |table|
    ensures forall i :: 0 <= i < |table| ==>
      rows[i] == if i < bound then ProcessedRow(table[i], t) else table[i]
  {
    seq(|table|, i requires 0 <= i < |table| => if i < bound then ProcessedRow(table[i], t) else table[i])
  }

  /** The sheet padded with all-empty rows of `ncols` cells up to MinRows rows. */
  function Padded(rows: seq<seq<Cell>>, ncols: nat): (r: seq<seq<Cell>>)
    ensures |r| == Max(MinRows, |rows|)
    ensures r[..|rows|] == rows
    ensures forall i :: |rows| <= i < |r| ==> r[i] == Blanks(ncols)
  {
    if |rows| >= MinRows then rows else rows + seq(MinRows - |rows|, _ => Blanks(ncols))
  }

  /** The sheet the transform hands back. */
  function ProcessedTable(table: seq<seq<Cell>>, ncols: nat, t: Tariffs, bound: nat): (r: seq<seq<Cell>>)
    requires HasNames(table)
    ensures |r| == Max(MinRows, |table|)
    ensures forall i :: 0 <= i < |table| ==> r[i] == if i < bound then ProcessedRow(table[i], t) else table[i]
    ensures forall i :: |table| <= i < |r| ==> r[i] == Blanks(ncols)
  {
    var rows := ProcessedRows(table, t, bound);
    var r := Padded(rows, ncols);
    assert forall i :: 0 <= i < |table| ==> r[i] == r[..|rows|][i];
    r
  }

  /** Marks of the named rows among the first `n`. */
  function TotalMarks(table: seq<seq<Cell>>, n: nat): nat
    requires n <= |table| && HasNames(table)
  {
    if n == 0 then 0
    else TotalMarks(table, n - 1) + (if Named(table[n - 1]) then RowMarks(table[n - 1]) else 0)
  }

  /** Number of named rows among the first `n`. */
  function NamedCount(table: seq<seq<Cell>>, n: nat): (r: nat)
    requires n <= |table| && HasNames(table)
    ensures r <= n
  {
    if n == 0 then 0 else NamedCount(table, n - 1) + (if Named(table[n - 1]) then 1 else 0)
  }

  /** float(cell) where it succeeds on a written-back number; text adds nothing. */
  function NumericValue(c: Cell): real
  {
    match c
    case Num(v) => v as real
    case Str(_) => 0.0
  }

  /** The numeric sum of column `col` over the named rows among the first `n`. */
  function ColumnSum(rows: seq<seq<Cell>>, col: nat, n: nat): real
    requires NamesUpTo(rows, n)
  {
    if n == 0 then 0.0
    else
      ColumnSum(rows, col, n - 1) + Contribution(rows[n - 1], col)
  }

  /** The legacy price: whole-session marks in shuttlecocks (four marks each) at the
      real shuttlecock price, plus the court rental. */
  function OldSolution(totalSlashes: nat, t: Tariffs): real
  {
    (totalSlashes as real / 4.0) * t.realShuttle as real + t.court as real
  }

  /** process_table_data: the row loop, the padding loop and the summing loop. */
  method ProcessTableData(table: seq<seq<Cell>>, ncols: nat, t: Tariffs, lastRow: nat)
    returns (out: seq<seq<Cell>>, res: Results)
    requires HasNames(table)
    requires ncols > 0 || lastRow <= |table| || |table| >= MinRows
    ensures out == ProcessedTable(table, ncols, t, lastRow)
    ensures res.totalSlashes == TotalMarks(table, Min(lastRow, |table|))
    ensures res.sumD == res.totalSlashes as real
    ensures res.netPriceSum
         == (t.shuttle * res.totalSlashes + t.walkin * NamedCount(table, Min(lastRow, |table|))) as real
    ensures res.oldSolutionSum == OldSolution(res.totalSlashes, t)
    ensures res.newMinusOld == res.netPriceSum - res.oldSolutionSum
  {
    var data, total := ProcessRows(table, t, lastRow);
    while |data| < MinRows
      invariant |table| <= |data| <= Max(MinRows, |table|)
      invariant data[..|table|] == ProcessedRows(table, t, lastRow)
      invariant forall k :: |table| <= k < |data| ==> data[k] == Blanks(ncols)
      decreases MinRows - |data|
    {
      data := data + [Blanks(ncols)];
    }
    assert data == ProcessedTable(table, ncols, t, lastRow);
    ProcessedColumnSums(table, ncols, t, lastRow);
    var sumD, sumE := SumTotalAndPrice(data, lastRow);
    var oldSolutionSum := OldSolution(total, t);
    res := Results(total, oldSolutionSum, sumE, sumE - oldSolutionSum, sumD);
    out := data;
  }

  /** The row loop of process_table_data, which stops at the end of the sheet. */
  method ProcessRows(table: seq<seq<Cell>>, t: Tariffs, lastRow: nat)
    returns (data: seq<seq<Cell>>, total: nat)
    requires HasNames(table)
    ensures data == ProcessedRows(table, t, lastRow)
    ensures total == TotalMarks(table, Min(lastRow, |table|))
  {
    data := table;
    total := 0;
    var i := 0;
    while i < lastRow
      invariant i <= |table| && |data| == |table|
      invariant forall k :: 0 <= k < i ==> k < lastRow && data[k] == ProcessedRow(table[k], t)
      invariant forall k :: i <= k < |table| ==> data[k] == table[k]
      invariant total == TotalMarks(table, i)
    {
      if i >= |data| {
        break;
      }
      var row := data[i];
      if IsBlank(row[NameColumn]) {
        if TotalColumn < |row| {
          row := row[TotalColumn := Str("")];
        }
        if PriceColumn < |row| {
          row := row[PriceColumn := Str("")];
        }
        assert row == ProcessedRow(table[i], t);
        data := data[i := row];
        i := i + 1;
        continue;
      }
      var rowMarks := CountRowMarks(row);
      total := total + rowMarks;
      row := WriteTotalAndPrice(row, rowMarks, t);
      data := data[i := row];
      i := i + 1;
    }
    assert i == Min(lastRow, |table|);
  }

  /** The summing loop: Total and Price over the named rows below `lastRow`, reading a
      number where there is one. */
  method SumTotalAndPrice(data: seq<seq<Cell>>, lastRow: nat) returns (sumD: real, sumE: real)
    requires NamesUpTo(data, Min(lastRow, |data|))
    ensures sumD == ColumnSum(data, TotalColumn, Min(lastRow, |data|))
    ensures sumE == ColumnSum(data, PriceColumn, Min(lastRow, |data|))
  {
    sumD, sumE := 0.0, 0.0;
    var i := 0;
    while i < lastRow
      invariant i <= lastRow
      invariant sumD == ColumnSum(data, TotalColumn, Min(i, |data|))
      invariant sumE == ColumnSum(data, PriceColumn, Min(i, |data|))
    {
      if i < |data| {
        if !IsBlank(data[i][NameColumn]) {
          if TotalColumn < |data[i]| {
            sumD := sumD + NumericValue(data[i][TotalColumn]);
          }
          if PriceColumn < |data[i]| {
            sumE := sumE + NumericValue(data[i][PriceColumn]);
          }
        }
      }
      i := i + 1;
    }
  }

  /** The column loop: marks in the game columns of one row. */
  method CountRowMarks(row: seq<Cell>) returns (marks: nat)
    ensures marks == RowMarks(row)
  {
    marks := 0;
    for col := FirstGameColumn to GameColumnsEnd
      invariant marks == GameMarks(row, Min(col, |row|))
    {
      if col < |row| {
        marks := marks + CountOf(Show(row[col]), Marker);
      }
    }
  }

  /** Writing Total and Price of a named row, lengthening the row when it is too short. */
  method WriteTotalAndPrice(row: seq<Cell>, marks: nat, t: Tariffs) returns (r: seq<Cell>)
    requires |row| > 0 && Named(row) && marks == RowMarks(row)
    ensures r == ProcessedRow(row, t)
  {
    r := row;
    if TotalColumn < |r| {
      r := r[TotalColumn := Num(marks)];
    } else {
      while |r| <= TotalColumn
        invariant |row| <= |r| <= TotalColumn + 1
        invariant r == row + Blanks(|r| - |row|)
        decreases TotalColumn - |r|
      {
        r := r + [Str("")];
      }
      r := r[TotalColumn := Num(marks)];
    }
    assert r == Extended(row, TotalColumn + 1)[TotalColumn := Num(marks)];
    ghost var counted := r;
    if PriceColumn < |r| {
      r := r[PriceColumn := Num(marks * t.shuttle + t.walkin)];
    } else {
      while |r| <= PriceColumn
        invariant |counted| <= |r| <= PriceColumn + 1
        invariant r == counted + Blanks(|r| - |counted|)
        decreases PriceColumn - |r|
      {
        r := r + [Str("")];
      }
      r := r[PriceColumn := Num(marks * t.walkin + t.walkin)];
    }
  }

  /** Re-summing Total and Price over the processed sheet gives back the marks counted
      in the row loop and the prices written for them. */
  lemma ProcessedColumnSums(table: seq<seq<Cell>>, ncols: nat, t: Tariffs, bound: nat)
    requires HasNames(table)
    requires ncols > 0 || bound <= |table| || |table| >= MinRows
    ensures var out := ProcessedTable(table, ncols, t, bound);
            var n := Min(bound, |out|);
            var m := Min(bound, |table|);
            && NamesUpTo(out, n)
            && ColumnSum(out, TotalColumn, n) == TotalMarks(table, m) as real
            && ColumnSum(out, PriceColumn, n)
               == (t.shuttle * TotalMarks(table, m) + t.walkin * NamedCount(table, m)) as real
  {
    var out := ProcessedTable(table, ncols, t, bound);
    var n := Min(bound, |out|);
    forall i | 0 <= i < n
      ensures |out[i]| > 0
      ensures i < |table| ==> out[i] == ProcessedRow(table[i], t)
      ensures i >= |table| ==> !Named(out[i])
    {
      ProcessedTableRow(table, ncols, t, bound, i);
    }
    ColumnSumsUpTo(table, t, out, n);
  }

  lemma {:induction false} ColumnSumsUpTo(table: seq<seq<Cell>>, t: Tariffs, out: seq<seq<Cell>>, j: nat)
    requires HasNames(table)
    requires j <= |out|
    requires forall i :: 0 <= i < j ==> |out[i]| > 0
    requires forall i :: 0 <= i < j && i < |table| ==> out[i] == ProcessedRow(table[i], t)
    requires forall i :: |table| <= i < j ==> !Named(out[i])
    ensures NamesUpTo(out, j)
    ensures ColumnSum(out, TotalColumn, j) == TotalMarks(table, Min(j, |table|)) as real
    ensures ColumnSum(out, PriceColumn, j)
         == (t.shuttle * TotalMarks(table, Min(j, |table|)) + t.walkin * NamedCount(table, Min(j, |table|))) as real
  {
    if j > 0 {
      ColumnSumsUpTo(table, t, out, j - 1);
      ColumnSumStep(out, TotalColumn, j);
      ColumnSumStep(out, PriceColumn, j);
      if j - 1 < |table| {
        ColumnSumsTableRow(table, t, out, j);
      }
    }
  }

  /** The step of ColumnSumsUpTo over a row of the table. */
  lemma ColumnSumsTableRow(table: seq<seq<Cell>>, t: Tariffs, out: seq<seq<Cell>>, j: nat)
    requires HasNames(table) && 0 < j <= |table| && NamesUpTo(out, j)
    requires out[j - 1] == ProcessedRow(table[j - 1], t)
    requires ColumnSum(out, TotalColumn, j - 1) == TotalMarks(table, j - 1) as real
    requires ColumnSum(out, PriceColumn, j - 1)
          == (t.shuttle * TotalMarks(table, j - 1) + t.walkin * NamedCount(table, j - 1)) as real
    requires ColumnSum(out, TotalColumn, j) == ColumnSum(out, TotalColumn, j - 1) + Contribution(out[j - 1], TotalColumn)
    requires ColumnSum(out, PriceColumn, j) == ColumnSum(out, PriceColumn, j - 1) + Contribution(out[j - 1], PriceColumn)
    ensures ColumnSum(out, TotalColumn, j) == TotalMarks(table, j) as real
    ensures ColumnSum(out, PriceColumn, j) == (t.shuttle * TotalMarks(table, j) + t.walkin * NamedCount(table, j)) as real
  {
    var row := out[j - 1];
    ProcessedRowValues(table[j - 1], row, t);
    var c := if Named(row) then RowMarks(table[j - 1]) else 0;
    var n := if Named(row) then 1 else 0;
    PriceStep(t, TotalMarks(table, j - 1), NamedCount(table, j - 1), c, n);
  }

  /** One more row in a column sum. */
  lemma ColumnSumStep(rows: seq<seq<Cell>>, col: nat, j: nat)
    requires 0 < j && NamesUpTo(rows, j)
    ensures |rows[j - 1]| > 0
    ensures ColumnSum(rows, col, j) == ColumnSum(rows, col, j - 1) + Contribution(rows[j - 1], col)
  {
  }

  /** What a row adds to the sum of column `col`. */
  function Contribution(row: seq<Cell>, col: nat): real
    requires |row| > 0
  {
    if Named(row) && col < |row| then NumericValue(row[col]) else 0.0
  }

  /** A processed row contributes its mark count to Total and its price to Price. */
  lemma ProcessedRowValues(orig: seq<Cell>, row: seq<Cell>, t: Tariffs)
    requires |orig| > 0 && row == ProcessedRow(orig, t)
    ensures |row| > 0 && (Named(row) <==> Named(orig))
    ensures Contribution(row, TotalColumn) == (if Named(orig) then RowMarks(orig) else 0) as real
    ensures Contribution(row, PriceColumn)
         == (if Named(orig) then RowMarks(orig) * t.shuttle + t.walkin else 0) as real
  {
    assert row[NameColumn] == orig[NameColumn];
  }

  /** Row `i` of the processed sheet: its Name cell, its Total and its Price. */
  lemma ProcessedTableRow(table: seq<seq<Cell>>, ncols: nat, t: Tariffs, bound: nat, i: nat)
    requires HasNames(table)
    requires ncols > 0 || bound <= |table| || |table| >= MinRows
    requires i < bound && i < |ProcessedTable(table, ncols, t, bound)|
    ensures var row := ProcessedTable(table, ncols, t, bound)[i];
            && |row| > 0
            && (i < |table| ==> row == ProcessedRow(table[i], t) && (Named(row) <==> Named(table[i])))
            && (i >= |table| ==> !Named(row))
  {
    var out := ProcessedTable(table, ncols, t, bound);
    if i < |table| {
      assert out[..|table|][i] == out[i];
    } else {
      EmptyCell();
    }
  }

  lemma PriceStep(t: Tariffs, marks: nat, named: nat, c: nat, n: nat)
    ensures t.shuttle * (marks + c) + t.walkin * (named + n)
         == t.shuttle * marks + t.walkin * named + (c * t.shuttle + n * t.walkin)
  {
  }

  /** What the transform does to each cell: active named rows get their mark count and
      price, active blank-named rows lose them, nothing else changes, rows past `bound`
      are untouched, and the rows added at the end are all empty. */
  lemma ProcessedTableCells(table: seq<seq<Cell>>, ncols: nat, t: Tariffs, bound: nat)
    requires HasNames(table)
    ensures var out := ProcessedTable(table, ncols, t, bound);
      && |out| == Max(MinRows, |table|)
      && (forall i :: bound <= i < |table| ==> out[i] == table[i])
      && (forall i :: 0 <= i < |table| ==> |table[i]| <= |out[i]|)
      && (forall i, k :: 0 <= i < |table| && 0 <= k < |table[i]| && k != TotalColumn && k != PriceColumn
            ==> out[i][k] == table[i][k])
      && (forall i :: 0 <= i < |table| && i < bound && Named(table[i]) ==>
            && out[i][TotalColumn] == Num(RowMarks(table[i]))
            && out[i][PriceColumn] == Num(RowMarks(table[i]) * t.shuttle + t.walkin))
      && (forall i, k ::
            (0 <= i < |table| && i < bound && !Named(table[i]) && k in {TotalColumn, PriceColumn} && k < |out[i]|)
            ==> out[i][k] == Str(""))
      && (forall i :: |table| <= i < |out| ==> out[i] == Blanks(ncols))
  {
    var out := ProcessedTable(table, ncols, t, bound);
    forall i | 0 <= i < |table|
      ensures out[i] == ProcessedRows(table, t, bound)[i]
    {
      assert out[..|table|][i] == out[i];
    }
  }

  /** A row too short to reach Total or Price has no game column, so its count is 0 and
      the per-player fee it is priced with in place of the per-mark price makes no
      difference: the price is the per-player fee either way. */
  lemma ShortRowPrice(row: seq<Cell>, t: Tariffs)
    requires 0 < |row| <= PriceColumn && Named(row)
    ensures RowMarks(row) == 0
    ensures ProcessedRow(row, t) == Extended(row, TotalColumn)[..TotalColumn] + [Num(0), Num(t.walkin)]
  {
    var r := ProcessedRow(row, t);
    assert |r| == 4;
  }

  /** With no active row the transform only pads the sheet. */
  lemma NoActiveRows(table: seq<seq<Cell>>, ncols: nat, t: Tariffs)
    requires HasNames(table)
    ensures ProcessedTable(table, ncols, t, 0) == Padded(table, ncols)
  {
    assert ProcessedRows(table, t, 0) == table;
  }

  /** On a sheet of at least four columns the transform keeps every row `ncols` cells
      long, so the sheet can be rebuilt with its headers; on a narrower sheet a named
      active row grows to four cells and the rows no longer match the headers. */
  lemma ProcessedTableShape(table: seq<seq<Cell>>, ncols: nat, t: Tariffs, bound: nat)
    requires HasNames(table) && Rectangular(table, ncols)
    ensures |ProcessedTable(table, ncols, t, bound)| >= MinRows
    ensures ncols > PriceColumn ==> Rectangular(ProcessedTable(table, ncols, t, bound), ncols)
    ensures ncols <= PriceColumn && (exists i :: 0 <= i < Min(bound, |table|) && Named(table[i])) ==>
              !Rectangular(ProcessedTable(table, ncols, t, bound), ncols)
  {
    var r := ProcessedTable(table, ncols, t, bound);
    if ncols <= PriceColumn && exists i :: 0 <= i < Min(bound, |table|) && Named(table[i]) {
      var i :| 0 <= i < Min(bound, |table|) && Named(table[i]);
      assert |r[i]| == Max(ncols, 4);
    }
  }

  /** Rows that agree on the game columns below `hi` have the same marks there. */
  lemma {:induction false} GameMarksAgree(a: seq<Cell>, b: seq<Cell>, hi: nat)
    requires hi <= |a| && hi <= |b|
    requires forall k :: FirstGameColumn <= k < hi ==> a[k] == b[k]
    ensures GameMarks(a, hi) == GameMarks(b, hi)
  {
    if hi > FirstGameColumn {
      GameMarksAgree(a, b, hi - 1);
    }
  }

  /** Processing a row keeps its marks and is a fixed point. */
  lemma ProcessedRowStable(row: seq<Cell>, t: Tariffs)
    requires |row| > 0
    ensures var r := ProcessedRow(row, t);
      && (Named(r) <==> Named(row))
      && RowMarks(r) == RowMarks(row)
      && ProcessedRow(r, t) == r
  {
    var r := ProcessedRow(row, t);
    assert r[NameColumn] == row[NameColumn];
    if |row| >= FirstGameColumn {
      GameMarksAgree(row, r, Min(GameColumnsEnd, |row|));
    }
    var rr := ProcessedRow(r, t);
    assert |rr| == |r|;
    forall k | 0 <= k < |r|
      ensures rr[k] == r[k]
    {
    }
  }

  /** Marks and named rows of the processed sheet up to `j` are those of the input. */
  lemma {:induction false} ProcessedTotals(table: seq<seq<Cell>>, t: Tariffs, out: seq<seq<Cell>>, j: nat)
    requires HasNames(table) && HasNames(out)
    requires j <= |out|
    requires forall i :: 0 <= i < j && i < |table| ==> out[i] == ProcessedRow(table[i], t)
    requires forall i :: |table| <= i < j ==> !Named(out[i])
    ensures TotalMarks(out, j) == TotalMarks(table, Min(j, |table|))
    ensures NamedCount(out, j) == NamedCount(table, Min(j, |table|))
  {
    if j > 0 {
      ProcessedTotals(table, t, out, j - 1);
      CountsStep(out, j);
      if j - 1 < |table| {
        CountsStep(table, j);
        ProcessedRowStable(table[j - 1], t);
        assert Min(j, |table|) == j && Min(j - 1, |table|) == j - 1;
      } else {
        assert Min(j, |table|) == Min(j - 1, |table|);
      }
    }
  }

  lemma CountsStep(rows: seq<seq<Cell>>, j: nat)
    requires HasNames(rows) && 0 < j <= |rows|
    ensures TotalMarks(rows, j)
         == TotalMarks(rows, j - 1) + (if Named(rows[j - 1]) then RowMarks(rows[j - 1]) else 0)
    ensures NamedCount(rows, j) == NamedCount(rows, j - 1) + (if Named(rows[j - 1]) then 1 else 0)
  {
  }

  /** Running the transform again on its own output, with the same tariffs and bound,
      changes nothing in the sheet, and finds the same marks and the same named rows
      (so the same summary). */
  lemma ProcessIdempotent(table: seq<seq<Cell>>, ncols: nat, t: Tariffs, bound: nat)
    requires HasNames(table)
    requires ncols > 0 || |table| >= MinRows
    ensures var out := ProcessedTable(table, ncols, t, bound);
      && HasNames(out)
      && ProcessedTable(out, ncols, t, bound) == out
      && TotalMarks(out, Min(bound, |out|)) == TotalMarks(table, Min(bound, |table|))
      && NamedCount(out, Min(bound, |out|)) == NamedCount(table, Min(bound, |table|))
  {
    var out := ProcessedTable(table, ncols, t, bound);
    forall i | 0 <= i < |out|
      ensures |out[i]| > 0
      ensures i < |table| ==> out[i] == ProcessedRows(table, t, bound)[i]
      ensures i >= |table| ==> out[i] == Blanks(ncols) && !Named(out[i])
    {
      if i < |table| {
        assert out[..|table|][i] == out[i];
      } else {
        EmptyCell();
      }
    }
    forall i | 0 <= i < |out|
      ensures ProcessedRows(out, t, bound)[i] == out[i]
    {
      if i < |table| && i < bound {
        ProcessedRowStable(table[i], t);
      } else if i >= |table| && i < bound {
        assert ProcessedRow(out[i], t) == out[i];
      }
    }
    assert ProcessedRows(out, t, bound) == out;
    var n := Min(bound, |out|);
    forall i | 0 <= i < n && i < |table|
      ensures out[i] == ProcessedRow(table[i], t)
    {
    }
    ProcessedTotals(table, t, out, n);
  }

  /** The marks of a row are zero exactly when none of its game columns holds a mark,
      and no game column holds more marks than the row. */
  lemma {:induction false} GameMarksPerColumn(row: seq<Cell>, hi: nat)
    requires hi <= |row|
    ensures GameMarks(row, hi) == 0 <==> forall k :: FirstGameColumn <= k < hi ==> CellMarks(row[k]) == 0
    ensures forall k :: FirstGameColumn <= k < hi ==> CellMarks(row[k]) <= GameMarks(row, hi)
  {
    if hi > FirstGameColumn {
      GameMarksPerColumn(row, hi - 1);
    }
  }

  /** RowMarks counts the marks of game columns 4 .. 23 that the row has: it is zero
      exactly when none of them holds a mark, bounds each of them, and is zero for a row
      that stops before the game columns. */
  lemma RowMarksPerColumn(row: seq<Cell>)
    ensures RowMarks(row) == 0 <==>
              forall k :: FirstGameColumn <= k < Min(GameColumnsEnd, |row|) ==> CellMarks(row[k]) == 0
    ensures forall k :: FirstGameColumn <= k < Min(GameColumnsEnd, |row|) ==> CellMarks(row[k]) <= RowMarks(row)
    ensures |row| <= FirstGameColumn ==> RowMarks(row) == 0
  {
    GameMarksPerColumn(row, Min(GameColumnsEnd, |row|));
  }

  /** The session total is zero exactly when no named row among the first `n` has a
      mark, and it bounds the marks of each such row; blank-named rows add nothing. */
  lemma {:induction false} TotalMarksPerRow(table: seq<seq<Cell>>, n: nat)
    requires n <= |table| && HasNames(table)
    ensures TotalMarks(table, n) == 0 <==> forall i :: 0 <= i < n && Named(table[i]) ==> RowMarks(table[i]) == 0
    ensures forall i :: 0 <= i < n && Named(table[i]) ==> RowMarks(table[i]) <= TotalMarks(table, n)
  {
    if n > 0 {
      TotalMarksPerRow(table, n - 1);
    }
  }

  /** The old price divides by four exactly, and charges a whole number of shuttlecocks
      when the marks make whole shuttlecocks. */
  lemma OldSolutionExact(totalSlashes: nat, t: Tariffs)
    ensures 4.0 * (OldSolution(totalSlashes, t) - t.court as real) == (totalSlashes * t.realShuttle) as real
    ensures totalSlashes % 4 == 0 ==>
              OldSolution(totalSlashes, t) == ((totalSlashes / 4) * t.realShuttle + t.court) as real
  {
    var q := totalSlashes / 4;
    if totalSlashes % 4 == 0 {
      assert totalSlashes == 4 * q;
      assert totalSlashes as real / 4.0 == q as real;
    }
  }

  /** Game columns lo .. hi - 1 without a mark add nothing to the row's marks. */
  lemma {:induction false} UnmarkedGameColumns(row: seq<Cell>, lo: nat, hi: nat)
    requires FirstGameColumn <= lo <= hi <= |row|
    requires forall k :: lo <= k < hi ==> CellMarks(row[k]) == 0
    ensures GameMarks(row, hi) == GameMarks(row, lo)
  {
    if hi > lo {
      UnmarkedGameColumns(row, lo, hi - 1);
    }
  }

  /** A one-player session on a full sheet row: Ann with one mark in game1, 20 per mark
      and 60 per player, no court rental and no real shuttlecock price. Her row gets
      Total 1 and Price 80, the sheet is padded to 23 rows, and the summary counts one
      mark, a new price of 80, an old price of 0 and a difference of 80. */
  method OnePlayerSession() returns (out: seq<seq<Cell>>, res: Results)
    ensures |out| == MinRows && |out[0]| == GameColumnsEnd
    ensures out[0][TotalColumn] == Num(1) && out[0][PriceColumn] == Num(80)
    ensures res == Results(1, 0.0, 80.0, 80.0, 1.0)
  {
    var ann := [Str("Ann"), Str("18:00"), Str(""), Str(""), Str("l")] + Blanks(19);
    var t := Tariffs(20, 60, 0, 0);
    var table := [ann];
    assert !IsSpace(ann[NameColumn].text[0]);
    assert CountOf("l", Marker) == 1 by {
      assert "l"[..0] == [];
    }
    assert GameMarks(ann, 5) == 1 by {
      assert GameMarks(ann, 4) == 0;
    }
    UnmarkedGameColumns(ann, 5, GameColumnsEnd);
    assert TotalMarks(table, 1) == 1 && NamedCount(table, 1) == 1 by {
      assert table[0] == ann;
    }
    out, res := ProcessTableData(table, GameColumnsEnd, t, 1);
    ProcessedTableCells(table, GameColumnsEnd, t, 1);
  }
}
