/** The tabular values the review pipeline reads: cells of a pandas
    `DataFrame` built from MongoDB documents or read from a CSV file. */
module Table {
  import opened Strings

  /** One cell: missing (`NaN`/`None`), a string, or a number held in
      tenths (`8.5` is `Number(85)`). */
  datatype Cell = Null | Str(s: string) | Number(tenths: int)

  /** One record: the keys it carries. */
  type Row = map<string, Cell>

  /** A row's value in column `c`; a key the row lacks reads as missing,
      as it does in a `DataFrame` built from a list of dictionaries. */
  function Get(row: Row, c: string): (v: Cell)
    ensures c !in row ==> v == Null
    ensures c in row ==> v == row[c]
  {
    if c in row then row[c] else Null
  }

  /** Whether column `c` exists: some record carries the key. */
  predicate HasColumn(rows: seq<Row>, c: string) {
    exists i :: 0 <= i < |rows| && c in rows[i]
  }

  /** `astype(str)` on one cell: a missing value becomes `"nan"`, a number
      its float text. */
  function AsStr(v: Cell): (s: string)
    ensures v.Str? ==> s == v.s
    ensures v.Null? ==> s == "nan"
    ensures v.Number? ==> s == FloatText(10 * v.tenths)
  {
    match v
    case Null => "nan"
    case Str(t) => t
    case Number(t) => FloatText(10 * t)
  }
}
