/**
 * Worksheet cells and the three ways the node turns a cell into a value or a name:
 * `getCellValue` (the unwrapped value), the raw `cell.value?.toString()` that the
 * filter path uses for headers, and the trimmed name the column map uses.
 */
module Cells {

  import opened Wrappers
  import opened JsValues

  /** A cell as the spreadsheet library types it. `Plain` covers numbers, strings, booleans,
      dates and empty cells; the other kinds hold an object. For the last three, `None`
      stands for an object that lacks the expected property. */
  datatype Cell =
    | Plain(value: Value)
    | Formula(result: Value)
    | Hyperlink(text: Option<string>)
    | RichText(runs: Option<seq<string>>)
    | ErrorValue(code: Option<string>)

  type Row = seq<Cell>

  /** A cell of the library's Null type: skipped by `eachCell` and by `hasValues`. */
  predicate IsNullCell(c: Cell) {
    c.Plain? && (c.value.Null? || c.value.Undefined?)
  }

  /** `getCellValue`: a formula reads as its cached result, a hyperlink as its text,
      rich text as its runs joined, an error cell as its error code; anything else as
      the stored value. */
  function GetCellValue(c: Cell): (v: Value)
    ensures c.Plain? ==> v == c.value
    ensures c.Formula? ==> v == c.result
    ensures c.Hyperlink? ==> v == Str(if c.text.Some? then c.text.value else "")
    ensures c.RichText? ==> v == Str(if c.runs.Some? then Join(c.runs.value, "") else "")
    ensures c.ErrorValue? ==> v == Str(if c.code.Some? then c.code.value else "")
  {
    match c
    case Plain(x) => x
    case Formula(r) => r
    case Hyperlink(t) => Str(if t.Some? then t.value else "")
    case RichText(rs) => Str(if rs.Some? then Join(rs.value, "") else "")
    case ErrorValue(e) => Str(if e.Some? then e.value else "")
  }

  /** `cell.value?.toString() || ''`: object-valued cells show as "[object Object]". */
  function RawText(c: Cell): string {
    match c
    case Plain(v) => if v.Null? || v.Undefined? then "" else JsString(v)
    case _ => "[object Object]"
  }

  /** `getCellValue(cell)?.toString() || ''`. */
  function ValueText(c: Cell): string {
    var v := GetCellValue(c);
    if v.Null? || v.Undefined? then "" else JsString(v)
  }

  /** The name a header cell contributes to the column map: its unwrapped value if that
      is truthy, converted to a string and trimmed. */
  function HeaderKey(c: Cell): Option<string> {
    var v := GetCellValue(c);
    if Truthy(v) then Some(Trim(JsString(v))) else None
  }

  /** The cell at 0-based column `p`; columns past the end of the row are empty. */
  function CellAt(row: Row, p: int): Cell {
    if 0 <= p < |row| then row[p] else Plain(Null)
  }

  /** Reading a cell that holds what `getCellValue` returned gives the same value again,
      so a copied worksheet reads like its source. */
  lemma ReadingIsIdempotent(c: Cell)
    ensures GetCellValue(Plain(GetCellValue(c))) == GetCellValue(c)
  {
  }

  /** An empty (Null-type) cell contributes no column-map name, so skipping such cells,
      as `eachCell` does, leaves the map as it would be. */
  lemma NullCellHasNoHeaderKey(c: Cell)
    requires IsNullCell(c)
    ensures HeaderKey(c) == None
  {
  }
}
