/** Table cells as the tally sheet holds them, and the few pieces of Python string
    behaviour the rest of the model relies on: str() of a cell, str.strip() emptiness,
    str.count() of one character, and str.join(). */
module Cells {

  /** A cell of the tally sheet: free text, or a whole number written back by the
      transform (the usage count and the price). */
  datatype Cell = Str(text: string) | Num(value: int)

  function Min(a: int, b: int): int { if a <= b then a else b }
  function Max(a: int, b: int): int { if a >= b then a else b }

  /** The character the tally marks games with. */
  const Marker: char := 'l'

  /** Python's str.isspace() for one character: the ASCII controls 9..13 and 28..31,
      the space, and the Unicode separators and spaces. */
  predicate IsSpace(c: char)
  {
    || ('\t' <= c <= '\r')
    || ('\U{1C}' <= c <= '\U{1F}')
    || c == ' '
    || c == '\U{85}'
    || c == '\U{A0}'
    || c == '\U{1680}'
    || ('\U{2000}' <= c <= '\U{200A}')
    || c == '\U{2028}'
    || c == '\U{2029}'
    || c == '\U{202F}'
    || c == '\U{205F}'
    || c == '\U{3000}'
  }

  function DigitChar(d: nat): (c: char)
    requires d < 10
    ensures '0' <= c <= '9'
  {
    ['0', '1', '2', '3', '4', '5', '6', '7', '8', '9'][d]
  }

  /** Decimal digits of a natural number, most significant first, no leading zero. */
  function Digits(n: nat): (s: string)
    ensures |s| > 0
    ensures forall k :: 0 <= k < |s| ==> '0' <= s[k] <= '9'
    ensures n > 0 ==> s[0] != '0'
  {
    if n < 10 then [DigitChar(n)] else Digits(n / 10) + [DigitChar(n % 10)]
  }

  /** str(n) for a Python int. */
  function DecimalString(n: int): (s: string)
    ensures |s| > 0
    ensures forall k :: 0 <= k < |s| ==> s[k] == '-' || '0' <= s[k] <= '9'
    ensures s[0] == '-' <==> n < 0
  {
    if n < 0 then "-" + Digits(-n) else Digits(n)
  }

  /** str(cell). */
  function Show(c: Cell): string
  {
    match c
    case Str(s) => s
    case Num(v) => DecimalString(v)
  }

  /** Every character of `s` is whitespace (Python: s.strip() == ''). */
  predicate AllSpace(s: string)
  {
    forall k :: 0 <= k < |s| ==> IsSpace(s[k])
  }

  /** s.count(ch) for a one-character ch. */
  function CountOf(s: string, ch: char): (r: nat)
    ensures (forall k :: 0 <= k < |s| ==> s[k] != ch) ==> r == 0
  {
    if s == [] then 0 else CountOf(s[..|s| - 1], ch) + (if s[|s| - 1] == ch then 1 else 0)
  }

  /** str(cell).strip() == '', read off the cell: a number is never blank. */
  predicate IsBlank(c: Cell)
  {
    match c
    case Str(s) => AllSpace(s)
    case Num(_) => false
  }

  /** str(cell).count(Marker), read off the cell: a number has no mark. */
  function CellMarks(c: Cell): nat
  {
    match c
    case Str(s) => CountOf(s, Marker)
    case Num(_) => 0
  }

  /** IsBlank and CellMarks are what Python computes on str(cell): the decimal form of
      a number is not blank and holds no mark. */
  lemma ShowAgrees(c: Cell)
    ensures IsBlank(c) <==> AllSpace(Show(c))
    ensures CellMarks(c) == CountOf(Show(c), Marker)
  {
    if c.Num? {
      var s := DecimalString(c.value);
      assert !IsSpace(s[0]);
    }
  }

  /** An empty-string cell is blank and carries no mark. */
  lemma EmptyCell()
    ensures IsBlank(Str("")) && CellMarks(Str("")) == 0
  {
  }

  /** `n` empty-string cells: a freshly appended row, or the tail added to a short row. */
  function Blanks(n: nat): (r: seq<Cell>)
    ensures |r| == n
    ensures forall k :: 0 <= k < n ==> r[k] == Str("")
  {
    seq(n, _ => Str(""))
  }

  /** Every row has exactly `ncols` cells, as in a data frame. */
  predicate Rectangular(table: seq<seq<Cell>>, ncols: nat)
  {
    forall i :: 0 <= i < |table| ==> |table[i]| == ncols
  }

  /** sep.join(parts). */
  function Join(parts: seq<string>, sep: string): string
  {
    if |parts| == 0 then ""
    else if |parts| == 1 then parts[0]
    else parts[0] + sep + Join(parts[1..], sep)
  }
}
