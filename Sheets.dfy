/**
 * A worksheet as the node sees it: a name and its rows, row `n` (1-based) being
 * `rows[n - 1]`. Rows and cells past the end read as empty, as the spreadsheet
 * library creates them on demand.
 */
module Sheets {

  import opened JsValues
  import opened Cells

  class Worksheet {
    var name: string
    var rows: seq<Row>

    constructor (name: string, rows: seq<Row>)
      ensures this.name == name && this.rows == rows
    {
      this.name := name;
      this.rows := rows;
    }
  }

  /** `worksheet.getRow(n)`: rows outside `1..rowCount` are empty. */
  function RowAt(rows: seq<Row>, n: int): Row {
    if 1 <= n <= |rows| then rows[n - 1] else []
  }

  /** `row.getCell(col).value = c` on a 1-based column, growing the row when needed. */
  function SetCell(row: Row, col: nat, c: Cell): (r: Row)
    requires col >= 1
    ensures |r| == if col > |row| then col else |row|
    ensures CellAt(r, col - 1) == c
    ensures forall p :: p != col - 1 ==> CellAt(r, p) == CellAt(row, p)
  {
    seq(if col > |row| then col else |row|, p => if p == col - 1 then c else CellAt(row, p))
  }

  /** The rows padded with empty ones so that row `n` exists. */
  function PadRows(rows: seq<Row>, n: nat): (r: seq<Row>)
    ensures |r| == if n > |rows| then n else |rows|
    ensures forall m :: m >= 1 ==> RowAt(r, m) == RowAt(rows, m)
  {
    if n > |rows| then rows + seq(n - |rows|, _ => []) else rows
  }
}
