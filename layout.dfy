/** The fixed-width text the table image is drawn from: every column as wide as its
    header or its widest cell, every field left-justified in that width plus a gap of
    two spaces, a header line and one line per row. */
module Layout {
  import opened Cells

  /** Spaces added to every column's width. */
  const Gap: nat := 2

  /** `n` spaces. */
  function Spaces(n: nat): (r: string)
    ensures |r| == n
    ensures forall k :: 0 <= k < n ==> r[k] == ' '
  {
    if n == 0 then "" else Spaces(n - 1) + " "
  }

  /** f"{s:<{width}}": `s` left-justified in a field of `width` characters, never cut. */
  function PadRight(s: string, width: nat): (r: string)
    ensures |r| == Max(|s|, width)
    ensures r[..|s|] == s
    ensures forall k :: |s| <= k < |r| ==> r[k] == ' '
  {
    if |s| >= width then s else s + Spaces(width - |s|)
  }

  /** The largest of a non-empty list of lengths. */
  function Largest(lengths: seq<nat>): (w: nat)
    requires |lengths| > 0
    ensures forall i :: 0 <= i < |lengths| ==> lengths[i] <= w
    ensures exists i :: 0 <= i < |lengths| && w == lengths[i]
  {
    var last := lengths[|lengths| - 1];
    if |lengths| == 1 then last
    else
      var w' := Largest(lengths[..|lengths| - 1]);
      assert forall i :: 0 <= i < |lengths| - 1 ==> lengths[..|lengths| - 1][i] == lengths[i];
      Max(w', last)
  }

  /** str() of every cell: the table as the text layout sees it. */
  function CellTexts(rows: seq<seq<Cell>>): (texts: seq<seq<string>>)
    ensures |texts| == |rows|
    ensures forall i :: 0 <= i < |rows| ==> |texts[i]| == |rows[i]|
    ensures forall i, c :: 0 <= i < |rows| && 0 <= c < |rows[i]| ==> texts[i][c] == Show(rows[i][c])
  {
    seq(|rows|, i requires 0 <= i < |rows| =>
      seq(|rows[i]|, c requires 0 <= c < |rows[i]| => Show(rows[i][c])))
  }

  /** Every row of texts has one entry per header. */
  predicate Grid(texts: seq<seq<string>>, ncols: nat)
  {
    forall i :: 0 <= i < |texts| ==> |texts[i]| == ncols
  }

  /** The length of each text of column `col`. */
  function TextLengths(texts: seq<seq<string>>, col: nat): (lengths: seq<nat>)
    requires forall i :: 0 <= i < |texts| ==> col < |texts[i]|
    ensures |lengths| == |texts|
    ensures forall i :: 0 <= i < |texts| ==> lengths[i] == |texts[i][col]|
  {
    seq(|texts|, i requires 0 <= i < |texts| => |texts[i][col]|)
  }

  /** max_widths: per column, the larger of the header length and the longest cell text. */
  function ColumnWidths(headers: seq<string>, texts: seq<seq<string>>): (widths: seq<nat>)
    requires |texts| > 0 && Grid(texts, |headers|)
    ensures |widths| == |headers|
    ensures forall c :: 0 <= c < |headers| ==> |headers[c]| <= widths[c]
    ensures forall i, c :: 0 <= i < |texts| && 0 <= c < |headers| ==> |texts[i][c]| <= widths[c]
    ensures forall c :: 0 <= c < |headers| ==>
              widths[c] == |headers[c]| || exists i :: 0 <= i < |texts| && widths[c] == |texts[i][c]|
  {
    seq(|headers|, c requires 0 <= c < |headers| => Max(Largest(TextLengths(texts, c)), |headers[c]|))
  }

  /** "".join(parts). */
  function Concat(parts: seq<string>): string
  {
    if parts == [] then "" else parts[0] + Concat(parts[1..])
  }

  /** Concat is str.join with the empty separator. */
  lemma {:induction false} ConcatIsJoin(parts: seq<string>)
    ensures Concat(parts) == Join(parts, "")
  {
    if |parts| > 1 {
      ConcatIsJoin(parts[1..]);
      assert parts[0] + "" == parts[0];
    } else if |parts| == 1 {
      assert Concat(parts) == parts[0] + Concat([]);
      assert parts[0] + "" == parts[0];
    }
  }

  /** Where part `k` starts in Concat(parts). */
  function Offset(parts: seq<string>, k: nat): nat
    requires k <= |parts|
  {
    if k == 0 then 0 else |parts[0]| + Offset(parts[1..], k - 1)
  }

  /** Concat(parts) is exactly as long as its parts together. */
  lemma {:induction false} ConcatLength(parts: seq<string>)
    ensures |Concat(parts)| == Offset(parts, |parts|)
  {
    if parts != [] {
      ConcatLength(parts[1..]);
    }
  }

  /** Part `k` is found unchanged at Offset(parts, k) in Concat(parts). */
  lemma {:induction false} ConcatPart(parts: seq<string>, k: nat)
    requires k < |parts|
    ensures Offset(parts, k) + |parts[k]| <= |Concat(parts)|
    ensures Concat(parts)[Offset(parts, k)..Offset(parts, k) + |parts[k]|] == parts[k]
  {
    var head := parts[0];
    var rest := Concat(parts[1..]);
    assert Concat(parts) == head + rest;
    if k == 0 {
      assert (head + rest)[..|head|] == head;
    } else {
      ConcatPart(parts[1..], k - 1);
      var s := Offset(parts[1..], k - 1);
      var n := |parts[k]|;
      assert parts[1..][k - 1] == parts[k];
      SliceAfter(head, rest, s, s + n);
    }
  }

  /** Slicing past a prefix slices the rest. */
  lemma SliceAfter(a: string, b: string, i: nat, j: nat)
    requires i <= j <= |b|
    ensures (a + b)[|a| + i..|a| + j] == b[i..j]
  {
    assert forall m :: 0 <= m < j - i ==> (a + b)[|a| + i..|a| + j][m] == b[i..j][m];
  }

  /** Each field left-justified in its width plus the gap. */
  function PaddedFields(fields: seq<string>, widths: seq<nat>): (parts: seq<string>)
    requires |fields| == |widths|
    ensures |parts| == |fields|
    ensures forall k :: 0 <= k < |fields| ==> parts[k] == PadRight(fields[k], widths[k] + Gap)
  {
    if fields == [] then []
    else [PadRight(fields[0], widths[0] + Gap)] + PaddedFields(fields[1..], widths[1..])
  }

  /** One line of the text: "".join of the padded fields. */
  function FormatLine(fields: seq<string>, widths: seq<nat>): string
    requires |fields| == |widths|
  {
    Concat(PaddedFields(fields, widths))
  }

  /** Where column `k` starts in a line. */
  function ColumnStart(widths: seq<nat>, k: nat): nat
    requires k <= |widths|
  {
    if k == 0 then 0 else widths[0] + Gap + ColumnStart(widths[1..], k - 1)
  }

  /** The length of a line: every width plus the gap. */
  function LineWidth(widths: seq<nat>): nat
  {
    ColumnStart(widths, |widths|)
  }

  /** No field is longer than its column. */
  predicate Fits(fields: seq<string>, widths: seq<nat>)
  {
    |fields| == |widths| && forall k :: 0 <= k < |fields| ==> |fields[k]| <= widths[k]
  }

  /** Parts of lengths widths[j] + Gap start where the columns start. */
  lemma {:induction false} OffsetIsColumnStart(parts: seq<string>, widths: seq<nat>, k: nat)
    requires |parts| == |widths| && k <= |parts|
    requires forall j :: 0 <= j < |parts| ==> |parts[j]| == widths[j] + Gap
    ensures Offset(parts, k) == ColumnStart(widths, k)
  {
    if k > 0 {
      assert forall j :: 0 <= j < |parts| - 1 ==> parts[1..][j] == parts[j + 1] && widths[1..][j] == widths[j + 1];
      OffsetIsColumnStart(parts[1..], widths[1..], k - 1);
    }
  }

  /** `line` is LineWidth(widths) long and holds field `c` left-justified in
      widths[c] + Gap characters from ColumnStart(widths, c) on. */
  predicate Aligned(line: string, fields: seq<string>, widths: seq<nat>)
    requires |fields| == |widths|
  {
    && |line| == LineWidth(widths)
    && forall c :: 0 <= c < |widths| ==>
         && ColumnStart(widths, c) + widths[c] + Gap <= |line|
         && line[ColumnStart(widths, c)..ColumnStart(widths, c) + widths[c] + Gap]
            == PadRight(fields[c], widths[c] + Gap)
  }

  /** In a join of parts of lengths widths[j] + Gap, part `c` sits at ColumnStart(widths, c). */
  lemma PartAtColumn(parts: seq<string>, widths: seq<nat>, c: nat)
    requires |parts| == |widths| && c < |parts|
    requires forall j :: 0 <= j < |parts| ==> |parts[j]| == widths[j] + Gap
    ensures ColumnStart(widths, c) + widths[c] + Gap <= |Concat(parts)|
    ensures Concat(parts)[ColumnStart(widths, c)..ColumnStart(widths, c) + widths[c] + Gap] == parts[c]
  {
    OffsetIsColumnStart(parts, widths, c);
    ConcatPart(parts, c);
  }

  /** Column `c` of a line of fitting fields holds that field, padded, from ColumnStart on. */
  lemma FormatLineColumn(fields: seq<string>, widths: seq<nat>, c: nat)
    requires Fits(fields, widths) && c < |fields|
    ensures ColumnStart(widths, c) + widths[c] + Gap <= |FormatLine(fields, widths)|
    ensures FormatLine(fields, widths)[ColumnStart(widths, c)..ColumnStart(widths, c) + widths[c] + Gap]
         == PadRight(fields[c], widths[c] + Gap)
  {
    var parts := PaddedFields(fields, widths);
    assert forall j :: 0 <= j < |parts| ==> |parts[j]| == widths[j] + Gap;
    PartAtColumn(parts, widths, c);
  }

  /** Fields that fit their columns are laid out aligned, whatever they hold. */
  lemma FormatLineAligned(fields: seq<string>, widths: seq<nat>)
    requires Fits(fields, widths)
    ensures Aligned(FormatLine(fields, widths), fields, widths)
  {
    var parts := PaddedFields(fields, widths);
    assert forall j :: 0 <= j < |parts| ==> |parts[j]| == widths[j] + Gap;
    ConcatLength(parts);
    OffsetIsColumnStart(parts, widths, |parts|);
    forall c | 0 <= c < |widths|
      ensures ColumnStart(widths, c) + widths[c] + Gap <= |FormatLine(fields, widths)|
      ensures FormatLine(fields, widths)[ColumnStart(widths, c)..ColumnStart(widths, c) + widths[c] + Gap]
           == PadRight(fields[c], widths[c] + Gap)
    {
      FormatLineColumn(fields, widths, c);
    }
  }

  /** The header line followed by one line per row, all on the same column widths. */
  function TextLines(headers: seq<string>, texts: seq<seq<string>>): (lines: seq<string>)
    requires |texts| > 0 && Grid(texts, |headers|)
    ensures |lines| == |texts| + 1
  {
    var widths := ColumnWidths(headers, texts);
    [FormatLine(headers, widths)] + seq(|texts|, i requires 0 <= i < |texts| => FormatLine(texts[i], widths))
  }

  /** The lines of the table's text. */
  function TableLines(headers: seq<string>, rows: seq<seq<Cell>>): (lines: seq<string>)
    requires |rows| > 0 && Rectangular(rows, |headers|)
  {
    TextLines(headers, CellTexts(rows))
  }

  /** df_string: the header line, a newline, and the row lines joined by newlines. */
  function TableText(headers: seq<string>, rows: seq<seq<Cell>>): (text: string)
    requires |rows| > 0 && Rectangular(rows, |headers|)
    ensures var lines := TableLines(headers, rows);
      && text == Join(lines, "\n")
      && |lines[0]| < |text| && text[..|lines[0]| + 1] == lines[0] + "\n"
  {
    var lines := TableLines(headers, rows);
    lines[0] + "\n" + Join(lines[1..], "\n")
  }

  /** The header line and every row line are aligned on the same column widths: all
      lines have the same length, every column starts at the same offset in each, and no
      header or cell text is cut, since every column is at least as wide as each of them. */
  lemma TextAligned(headers: seq<string>, texts: seq<seq<string>>)
    requires |texts| > 0 && Grid(texts, |headers|)
    ensures var widths := ColumnWidths(headers, texts);
            var lines := TextLines(headers, texts);
      && Fits(headers, widths)
      && Aligned(lines[0], headers, widths)
      && forall i :: 0 <= i < |texts| ==> Fits(texts[i], widths) && Aligned(lines[i + 1], texts[i], widths)
  {
    var widths := ColumnWidths(headers, texts);
    var lines := TextLines(headers, texts);
    FormatLineAligned(headers, widths);
    forall i | 0 <= i < |texts|
      ensures Fits(texts[i], widths) && Aligned(lines[i + 1], texts[i], widths)
    {
      assert lines[i + 1] == FormatLine(texts[i], widths);
      FormatLineAligned(texts[i], widths);
    }
  }

  /** The table's text is laid out from str() of its cells, one line per row plus the
      header line, and is aligned as TextAligned states. */
  lemma TableAligned(headers: seq<string>, rows: seq<seq<Cell>>)
    requires |rows| > 0 && Rectangular(rows, |headers|)
    ensures var texts := CellTexts(rows);
      && Grid(texts, |headers|)
      && |TableLines(headers, rows)| == |rows| + 1
      && (forall i, c :: 0 <= i < |rows| && 0 <= c < |headers| ==> texts[i][c] == Show(rows[i][c]))
      && var widths := ColumnWidths(headers, texts);
         var lines := TableLines(headers, rows);
         && Aligned(lines[0], headers, widths)
         && forall i :: 0 <= i < |rows| ==> Aligned(lines[i + 1], texts[i], widths)
  {
    TextAligned(headers, CellTexts(rows));
  }
}
