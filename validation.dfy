/** The checks the Calculate button runs before the transform: where the active rows
    end, and which game columns hold a number of marks that is not a whole number of
    shuttlecocks (four marks each); then the call of the transform itself. */
module Validation {
  import opened Cells
  import opened Tally
  import opened Layout

  /** Marks a shuttlecock lasts. */
  const MarksPerShuttlecock: nat := 4

  const TooFewColumnsWarning: string :=
    "The table does not have enough columns for full game data validation (expected at least 24 columns for 'game1' to 'game20')."
  const NotDivisibleWarning: string :=
    "The total slash count in the following columns is not divisible by 4: "
  const AdditionallyNotDivisible: string :=
    "\n\nAdditionally, the total slash count in the following columns is not divisible by 4: "

  /** One past the last row whose Name is not blank, or 0 when every Name is blank. */
  function ActiveBound(table: seq<seq<Cell>>): (b: nat)
    requires HasNames(table)
    ensures b <= |table|
    ensures b > 0 ==> Named(table[b - 1])
    ensures forall i :: b <= i < |table| ==> !Named(table[i])
  {
    if |table| == 0 then 0
    else if Named(table[|table| - 1]) then |table|
    else ActiveBound(table[..|table| - 1])
  }

  /** The three properties of ActiveBound single it out, and it is 0 exactly when no
      Name is filled in. */
  lemma ActiveBoundUnique(table: seq<seq<Cell>>, b: nat)
    requires HasNames(table)
    requires b <= |table|
    requires b > 0 ==> Named(table[b - 1])
    requires forall i :: b <= i < |table| ==> !Named(table[i])
    ensures b == ActiveBound(table)
    ensures b == 0 <==> forall i :: 0 <= i < |table| ==> !Named(table[i])
  {
  }

  /** The loop over the rows that leaves the bound at the last filled-in Name. */
  method FindActiveBound(table: seq<seq<Cell>>) returns (bound: nat)
    requires HasNames(table)
    ensures bound == ActiveBound(table)
  {
    bound := 0;
    for idx := 0 to |table|
      invariant bound == ActiveBound(table[..idx])
    {
      assert table[..idx + 1][..idx] == table[..idx];
      if !IsBlank(table[idx][NameColumn]) {
        bound := idx + 1;
      }
    }
    assert table[..|table|] == table;
  }

  /** Marks in column `col` over the first `n` rows. */
  function ColumnMarks(table: seq<seq<Cell>>, col: nat, n: nat): nat
    requires n <= |table| && forall i :: 0 <= i < n ==> col < |table[i]|
  {
    if n == 0 then 0 else ColumnMarks(table, col, n - 1) + CellMarks(table[n - 1][col])
  }

  /** A column's marks are zero exactly when none of its first `n` cells holds a mark,
      and bound the marks of each of those cells, whether the row is named or not. */
  lemma {:induction false} ColumnMarksPerRow(table: seq<seq<Cell>>, col: nat, n: nat)
    requires n <= |table| && forall i :: 0 <= i < n ==> col < |table[i]|
    ensures ColumnMarks(table, col, n) == 0 <==> forall i :: 0 <= i < n ==> CellMarks(table[i][col]) == 0
    ensures forall i :: 0 <= i < n ==> CellMarks(table[i][col]) <= ColumnMarks(table, col, n)
  {
    if n > 0 {
      ColumnMarksPerRow(table, col, n - 1);
    }
  }

  /** The game columns below `hi` whose marks over the first `n` rows are not a
      multiple of four, in column order. */
  function Flagged(table: seq<seq<Cell>>, n: nat, hi: nat): (cols: seq<nat>)
    requires n <= |table| && forall i :: 0 <= i < n ==> hi <= |table[i]|
    ensures forall j :: 0 <= j < |cols| ==> FirstGameColumn <= cols[j] < hi
    ensures forall j, k :: 0 <= j < k < |cols| ==> cols[j] < cols[k]
    ensures forall c :: FirstGameColumn <= c < hi ==>
              (c in cols <==> ColumnMarks(table, c, n) % MarksPerShuttlecock != 0)
  {
    if hi <= FirstGameColumn then []
    else
      var below := Flagged(table, n, hi - 1);
      if ColumnMarks(table, hi - 1, n) % MarksPerShuttlecock != 0 then below + [hi - 1] else below
  }

  /** The column check: with all twenty game columns present, the game columns whose
      marks over the active rows are not a multiple of four, in column order. */
  method InvalidGameColumns(table: seq<seq<Cell>>, ncols: nat, bound: nat)
    returns (enough: bool, invalid: seq<nat>)
    requires Rectangular(table, ncols)
    ensures enough == (ncols >= GameColumnsEnd)
    ensures !enough ==> invalid == []
    ensures enough ==> invalid == Flagged(table, Min(bound, |table|), GameColumnsEnd)
    ensures forall j :: 0 <= j < |invalid| ==> FirstGameColumn <= invalid[j] < GameColumnsEnd
    ensures forall j, k :: 0 <= j < k < |invalid| ==> invalid[j] < invalid[k]
    ensures enough ==> forall c :: FirstGameColumn <= c < GameColumnsEnd ==>
              (c in invalid <==> ColumnMarks(table, c, Min(bound, |table|)) % MarksPerShuttlecock != 0)
    ensures invalid == [] <==>
              !enough || forall c :: FirstGameColumn <= c < GameColumnsEnd ==>
                           ColumnMarks(table, c, Min(bound, |table|)) % MarksPerShuttlecock == 0
  {
    enough := ncols >= GameColumnsEnd;
    invalid := [];
    if enough {
      var n := Min(bound, |table|);
      for col := FirstGameColumn to GameColumnsEnd
        invariant invalid == Flagged(table, n, col)
      {
        if col < ncols {
          var marks := ColumnMarks(table, col, n);
          if marks % MarksPerShuttlecock != 0 {
            invalid := invalid + [col];
          }
        }
      }
      if invalid != [] {
        assert invalid[0] in invalid;
      }
    }
  }

  /** The names of the listed columns. */
  function ColumnNames(headers: seq<string>, cols: seq<nat>): (names: seq<string>)
    requires forall j :: 0 <= j < |cols| ==> cols[j] < |headers|
    ensures |names| == |cols|
    ensures forall j :: 0 <= j < |cols| ==> names[j] == headers[cols[j]]
  {
    seq(|cols|, j requires 0 <= j < |cols| => headers[cols[j]])
  }

  /** The warning shown beside the results. */
  function WarningMessage(enough: bool, invalidNames: seq<string>): (msg: string)
    ensures msg == "" <==> enough && invalidNames == []
    ensures !enough ==> |TooFewColumnsWarning| <= |msg| && msg[..|TooFewColumnsWarning|] == TooFewColumnsWarning
    ensures invalidNames != [] ==>
      var listed := Join(invalidNames, ", ");
      |listed| <= |msg| && msg[|msg| - |listed|..] == listed
  {
    var listed := Join(invalidNames, ", ");
    if !enough then
      if invalidNames == [] then TooFewColumnsWarning
      else TooFewColumnsWarning + AdditionallyNotDivisible + listed
    else if invalidNames == [] then ""
    else NotDivisibleWarning + listed
  }

  /** What pressing Calculate leads to. */
  datatype Outcome =
    | NoNames
    | Computed(table: seq<seq<Cell>>, results: Results, warning: string)

  /** The Calculate handler: find the active rows, check the game columns, and run the
      transform. The handler looks the Name up by its header; the sheet's first column
      is the one headed "Name", so that is the column the transform reads too. */
  method Calculate(table: seq<seq<Cell>>, headers: seq<string>, t: Tariffs) returns (o: Outcome)
    requires |headers| > 0 && headers[NameColumn] == "Name" && Rectangular(table, |headers|)
    ensures HasNames(table)
    ensures o.NoNames? <==> forall i :: 0 <= i < |table| ==> !Named(table[i])
    ensures o.Computed? ==>
      var b := ActiveBound(table);
      && o.table == ProcessedTable(table, |headers|, t, b)
      && o.results.totalSlashes == TotalMarks(table, b)
      && o.results.sumD == o.results.totalSlashes as real
      && o.results.netPriceSum == (t.shuttle * TotalMarks(table, b) + t.walkin * NamedCount(table, b)) as real
      && o.results.oldSolutionSum == OldSolution(TotalMarks(table, b), t)
      && o.results.newMinusOld == o.results.netPriceSum - o.results.oldSolutionSum
      && o.warning == WarningMessage(|headers| >= GameColumnsEnd,
                                     if |headers| >= GameColumnsEnd
                                     then ColumnNames(headers, Flagged(table, b, GameColumnsEnd))
                                     else [])
      && (o.warning == "" <==>
            |headers| >= GameColumnsEnd &&
            forall c :: FirstGameColumn <= c < GameColumnsEnd ==> ColumnMarks(table, c, b) % MarksPerShuttlecock == 0)
  {
    assert HasNames(table);
    var bound := FindActiveBound(table);
    ActiveBoundUnique(table, bound);
    if bound == 0 {
      return NoNames;
    }
    assert Min(bound, |table|) == bound;
    var enough, invalid := InvalidGameColumns(table, |headers|, bound);
    var names := ColumnNames(headers, invalid);
    assert names == [] <==> invalid == [];
    var warning := WarningMessage(enough, names);
    var out, res := ProcessTableData(table, |headers|, t, bound);
    o := Computed(out, res, warning);
  }

  /** The sheet Calculate shows, and offers as an image, is rectangular on the headers
      and at least 23 rows long, so its fixed-width text is aligned. */
  lemma ComputedSheetAligned(table: seq<seq<Cell>>, headers: seq<string>, t: Tariffs)
    requires |headers| > PriceColumn && Rectangular(table, |headers|)
    ensures HasNames(table)
    ensures var out := ProcessedTable(table, |headers|, t, ActiveBound(table));
            var texts := CellTexts(out);
      && |out| >= MinRows
      && Rectangular(out, |headers|)
      && Grid(texts, |headers|)
      && |TableLines(headers, out)| == |out| + 1
      && var widths := ColumnWidths(headers, texts);
         var lines := TableLines(headers, out);
         && Aligned(lines[0], headers, widths)
         && forall i :: 0 <= i < |out| ==> Aligned(lines[i + 1], texts[i], widths)
  {
    var out := ProcessedTable(table, |headers|, t, ActiveBound(table));
    ProcessedTableShape(table, |headers|, t, ActiveBound(table));
    TableAligned(headers, out);
  }

  /** Sum of the column marks of the game columns FirstGameColumn .. hi - 1. */
  function MarksByColumns(table: seq<seq<Cell>>, n: nat, hi: nat): nat
    requires n <= |table| && forall i :: 0 <= i < n ==> hi <= |table[i]|
  {
    if hi <= FirstGameColumn then 0 else MarksByColumns(table, n, hi - 1) + ColumnMarks(table, hi - 1, n)
  }

  /** Sum of the game marks below column `hi` of the first `n` rows. */
  function MarksByRows(table: seq<seq<Cell>>, n: nat, hi: nat): nat
    requires n <= |table| && forall i :: 0 <= i < n ==> hi <= |table[i]|
  {
    if n == 0 then 0 else MarksByRows(table, n - 1, hi) + GameMarks(table[n - 1], hi)
  }

  lemma {:induction false} MarksByRowsStep(table: seq<seq<Cell>>, n: nat, hi: nat)
    requires n <= |table| && forall i :: 0 <= i < n ==> hi <= |table[i]|
    requires hi > FirstGameColumn
    ensures MarksByRows(table, n, hi) == MarksByRows(table, n, hi - 1) + ColumnMarks(table, hi - 1, n)
  {
    if n > 0 {
      MarksByRowsStep(table, n - 1, hi);
    }
  }

  /** Counting the marks column by column or row by row gives the same number. */
  lemma {:induction false} ColumnsEqualRows(table: seq<seq<Cell>>, n: nat, hi: nat)
    requires n <= |table| && forall i :: 0 <= i < n ==> hi <= |table[i]|
    ensures MarksByColumns(table, n, hi) == MarksByRows(table, n, hi)
  {
    if hi <= FirstGameColumn {
      ZeroRows(table, n, hi);
    } else {
      ColumnsEqualRows(table, n, hi - 1);
      MarksByRowsStep(table, n, hi);
    }
  }

  lemma {:induction false} ZeroRows(table: seq<seq<Cell>>, n: nat, hi: nat)
    requires n <= |table| && forall i :: 0 <= i < n ==> hi <= |table[i]|
    requires hi <= FirstGameColumn
    ensures MarksByRows(table, n, hi) == 0
  {
    if n > 0 {
      ZeroRows(table, n - 1, hi);
    }
  }

  /** When every active row is named, the session total is the sum of the column totals. */
  lemma {:induction false} TotalIsRowSum(table: seq<seq<Cell>>, n: nat)
    requires HasNames(table) && n <= |table|
    requires forall i :: 0 <= i < n ==> GameColumnsEnd <= |table[i]| && Named(table[i])
    ensures TotalMarks(table, n) == MarksByRows(table, n, GameColumnsEnd)
  {
    if n > 0 {
      TotalIsRowSum(table, n - 1);
    }
  }

  lemma {:induction false} MultipleSum(table: seq<seq<Cell>>, n: nat, hi: nat)
    requires n <= |table| && forall i :: 0 <= i < n ==> hi <= |table[i]|
    requires forall c :: FirstGameColumn <= c < hi ==> ColumnMarks(table, c, n) % MarksPerShuttlecock == 0
    ensures MarksByColumns(table, n, hi) % MarksPerShuttlecock == 0
  {
    if hi > FirstGameColumn {
      MultipleSum(table, n, hi - 1);
    }
  }

  /** When every active row is named and no game column is flagged, the marks of the
      session make whole shuttlecocks, so the old price charges a whole number of them. */
  lemma NoWarningMeansWholeShuttlecocks(table: seq<seq<Cell>>, ncols: nat, t: Tariffs)
    requires ncols >= GameColumnsEnd && Rectangular(table, ncols) && HasNames(table)
    requires forall i :: 0 <= i < ActiveBound(table) ==> Named(table[i])
    requires forall c :: FirstGameColumn <= c < GameColumnsEnd ==>
               ColumnMarks(table, c, ActiveBound(table)) % MarksPerShuttlecock == 0
    ensures TotalMarks(table, ActiveBound(table)) % MarksPerShuttlecock == 0
    ensures OldSolution(TotalMarks(table, ActiveBound(table)), t)
         == ((TotalMarks(table, ActiveBound(table)) / MarksPerShuttlecock) * t.realShuttle + t.court) as real
  {
    var n := ActiveBound(table);
    TotalIsRowSum(table, n);
    ColumnsEqualRows(table, n, GameColumnsEnd);
    MultipleSum(table, n, GameColumnsEnd);
    OldSolutionExact(TotalMarks(table, n), t);
  }
}
