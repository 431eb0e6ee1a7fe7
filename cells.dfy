/** Spreadsheet cells as the conversion sees them after a sheet has been parsed. */
module Cells {

  /** A parsed spreadsheet value.
      - Missing: an empty cell, NaN, None or pd.NA (everything `pd.isna` accepts);
      - Str: a text cell;
      - Num: an integral number;
      - Other: any other value (a float, a date, a boolean), carried by its `str()` rendering. */
  datatype Cell = Missing | Str(s: string) | Num(n: int) | Other(rendered: string)

  datatype Option<T> = None | Some(value: T)

  /** A record of a sheet read with a header row: column name to cell. */
  type Row = map<string, Cell>

  /** A sheet read with a header row: its column names in order and its records. */
  datatype Table = Table(columns: seq<string>, rows: seq<Row>)

  /** The cell a record holds under `column`; a column the record lacks reads as missing. */
  function Lookup(row: Row, column: string): (c: Cell)
    ensures column !in row ==> c == Missing
    ensures column in row ==> c == row[column]
  {
    if column in row then row[column] else Missing
  }

  /** Cell `k` of a positional row; positions past the end read as missing, as pandas pads
      short rows of a frame with NaN. */
  function At(row: seq<Cell>, k: nat): (c: Cell)
    ensures k < |row| ==> c == row[k]
    ensures k >= |row| ==> c == Missing
  {
    if k < |row| then row[k] else Missing
  }

  /** Element-wise `==` of a column against a value: a missing value equals nothing,
      not even another missing value (NaN != NaN). */
  predicate CellEq(a: Cell, b: Cell) {
    !a.Missing? && a == b
  }

  function DigitChar(d: nat): char
    requires d < 10
  {
    ('0' as int + d) as char
  }

  /** Decimal digits of a natural number, most significant first. */
  function Digits(n: nat): (r: string)
    ensures |r| > 0
    ensures forall i :: 0 <= i < |r| ==> '0' <= r[i] <= '9'
  {
    if n < 10 then [DigitChar(n)] else Digits(n / 10) + [DigitChar(n % 10)]
  }

  /** Python's `str()` of a cell. A missing value renders as NaN does. */
  function Stringify(c: Cell): string {
    match c
    case Missing => "nan"
    case Str(s) => s
    case Num(n) => if n < 0 then "-" + Digits(-n) else Digits(n)
    case Other(r) => r
  }

  /** The first position from `i` on whose element satisfies `p`: the first element a filter
      keeps, or the first a scan with an early exit stops at. */
  function FirstFrom<T>(s: seq<T>, p: T -> bool, i: nat): (r: Option<nat>)
    requires i <= |s|
    ensures r.Some? ==> i <= r.value < |s| && p(s[r.value])
    ensures r.Some? ==> forall j :: i <= j < r.value ==> !p(s[j])
    ensures r.None? <==> forall j :: i <= j < |s| ==> !p(s[j])
    decreases |s| - i
  {
    if i == |s| then None
    else if p(s[i]) then Some(i)
    else FirstFrom(s, p, i + 1)
  }

  /** The first record of a filter on `column == v`: the index of the first record whose
      `column` equals `v`. */
  function FirstRowWith(rows: seq<Row>, column: string, v: Cell): (r: Option<nat>)
    ensures r.Some? ==> r.value < |rows| && CellEq(Lookup(rows[r.value], column), v)
    ensures r.Some? ==> forall j :: 0 <= j < r.value ==> !CellEq(Lookup(rows[j], column), v)
    ensures r.None? <==> forall j :: 0 <= j < |rows| ==> !CellEq(Lookup(rows[j], column), v)
  {
    FirstFrom(rows, (row: Row) => CellEq(Lookup(row, column), v), 0)
  }
}
