/** Tables as the pipeline passes them between stages. */
module Frames {

  /** One cell: a number, a piece of text, or missing (NaN or None). */
  datatype Cell = Num(r: real) | Text(s: string) | Null

  /** The numeric reading of a cell: a real number, or NaN. */
  datatype Value = Val(x: real) | NaN

  /** A row maps each column name of its table to the row's cell in that column. */
  type Row = map<string, Cell>

  /** A table with named columns; every row holds exactly one cell per column. */
  datatype Table = Table(columns: set<string>, rows: seq<Row>)

  predicate WellFormed(t: Table)
  {
    forall i :: 0 <= i < |t.rows| ==> t.rows[i].Keys == t.columns
  }

  /** The numeric reading of a cell: text and missing cells read as NaN. */
  function CellNumber(c: Cell): Value
  {
    if c.Num? then Val(c.r) else NaN
  }

  /** The cell a numeric result is written as: NaN becomes a missing cell. */
  function AsCell(v: Value): (c: Cell)
    ensures CellNumber(c) == v
  {
    if v.Val? then Num(v.x) else Null
  }

  /** The numeric reading of a row's cell in a column, NaN when the row has no such cell. */
  function NumberIn(row: Row, name: string): Value
  {
    if name in row then CellNumber(row[name]) else NaN
  }

  /** The message of the KeyError that a missing column or key raises. */
  function KeyError(name: string): string
  {
    "KeyError: '" + name + "'"
  }
}
