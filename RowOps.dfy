/**
 * The row mutations that write a positional row array into a worksheet:
 * `isRowEmpty`, `handleAppendRow` (which reuses a trailing empty row),
 * `handleInsertRow` and `handleDeleteRow`, the last two guarding the header row.
 */
module RowOps {

  import opened Wrappers
  import opened JsValues
  import opened Cells
  import opened Sheets
  import opened Coercion
  import opened Columns
  import opened Records

  // ---------- isRowEmpty ----------

  /** The `isRowEmpty` test on one cell: its unwrapped value is null, undefined or `''`. */
  predicate CellHasData(c: Cell) {
    var v := GetCellValue(c);
    !IsNullCell(c) && !(v.Null? || v.Undefined? || v == Str(""))
  }

  /** The library's `row.hasValues`: some cell is not of the Null type. */
  predicate HasValues(row: Row) {
    exists c {:trigger row[c]} :: 0 <= c < |row| && !IsNullCell(row[c])
  }

  /** `isRowEmpty(worksheet, n)`: rows outside `1..rowCount` are not empty. */
  predicate RowIsEmpty(rows: seq<Row>, n: int) {
    && 1 <= n <= |rows|
    && (!HasValues(rows[n - 1]) || NoCellHasData(rows[n - 1]))
  }

  /** No cell of the row has data. */
  predicate NoCellHasData(row: Row) {
    forall c {:trigger row[c]} :: 0 <= c < |row| ==> !CellHasData(row[c])
  }

  method IsRowEmpty(ws: Worksheet, n: int) returns (empty: bool)
    ensures empty == RowIsEmpty(ws.rows, n)
  {
    if n < 1 || n > |ws.rows| {
      return false;
    }
    var row := ws.rows[n - 1];
    if !HasValues(row) {
      return true;
    }
    var hasData := false;
    var col := 0;
    while col < |row|
      invariant col <= |row|
      invariant hasData <==> exists c {:trigger row[c]} :: 0 <= c < col && CellHasData(row[c])
    {
      if !IsNullCell(row[col]) {
        var v := GetCellValue(row[col]);
        if !(v.Null? || v.Undefined? || v == Str("")) {
          hasData := true;
        }
      }
      col := col + 1;
    }
    return !hasData;
  }

  /** The `hasValues` shortcut changes nothing: a row is empty exactly when it exists and
      none of its cells has data. */
  lemma RowIsEmptyIffNoCellHasData(rows: seq<Row>, n: int)
    ensures RowIsEmpty(rows, n) <==> 1 <= n <= |rows| && NoCellHasData(rows[n - 1])
  {
    if 1 <= n <= |rows| && !HasValues(rows[n - 1]) {
      var row := rows[n - 1];
      forall c | 0 <= c < |row|
        ensures !CellHasData(row[c])
      {
        assert IsNullCell(row[c]);
      }
    }
  }

  /** An empty row is one the read and filter projections skip, whatever the headers. */
  lemma EmptyRowIsSkippedOnRead(hdr: seq<string>, rows: seq<Row>, n: int)
    requires RowIsEmpty(rows, n)
    ensures !HasData(RecordOf(hdr, RowAt(rows, n), n))
  {
    RowIsEmptyIffNoCellHasData(rows, n);
    var row := RowAt(rows, n);
    HasDataIffShownTruthy(hdr, row, n);
  }

  /** The converse fails: a row holding only the number 0 is not empty for `isRowEmpty`,
      yet the projections skip it because 0 is falsy. */
  lemma ZeroRowIsNotEmptyButSkipped(hdr: seq<string>)
    ensures !RowIsEmpty([[], [Plain(Int(0))]], 2)
    ensures !HasData(RecordOf(hdr, [Plain(Int(0))], 2))
  {
    var row := [Plain(Int(0))];
    assert CellHasData(row[0]);
    HasDataIffShownTruthy(hdr, row, 2);
  }

  // ---------- writing a row array ----------

  /** `worksheet.addRow(rowArray)`: holes become empty cells. */
  function NewRow(arr: seq<Option<Value>>): (row: Row)
    ensures |row| == |arr|
    ensures forall p :: 0 <= p < |arr| ==> row[p] == (if arr[p].Some? then Plain(arr[p].value) else Plain(Null))
  {
    seq(|arr|, p requires 0 <= p < |arr| => if arr[p].Some? then Plain(arr[p].value) else Plain(Null))
  }

  /** `rowArray.forEach((value, index) => row.getCell(index + 1).value = value)`:
      `forEach` skips holes, so their cells keep what they held. */
  function Overlay(row: Row, arr: seq<Option<Value>>): (r: Row)
    ensures |r| == if |arr| > |row| then |arr| else |row|
    ensures forall p :: 0 <= p < |arr| && arr[p].Some? ==> r[p] == Plain(arr[p].value)
    ensures forall p :: 0 <= p < |r| && !(p < |arr| && arr[p].Some?) ==> r[p] == CellAt(row, p)
  {
    seq(if |arr| > |row| then |arr| else |row|, p requires 0 <= p => if p < |arr| && arr[p].Some? then Plain(arr[p].value) else CellAt(row, p))
  }

  // ---------- handleAppendRow ----------

  datatype AppendResult = AppendResult(rowNumber: int, data: JsonObject, message: string, wasEmptyRowReused: bool)

  /** The last row is reused when there is a data row and it is empty. */
  predicate ReusesLastRow(rows: seq<Row>) {
    |rows| > 1 && RowIsEmpty(rows, |rows|)
  }

  /** The worksheet rows after appending `arr`. */
  function AppendedRows(rows: seq<Row>, arr: seq<Option<Value>>): seq<Row> {
    if ReusesLastRow(rows) then rows[..|rows| - 1] + [Overlay(rows[|rows| - 1], arr)]
    else rows + [NewRow(arr)]
  }

  /** The object `handleAppendRow` returns. */
  function AppendOutcome(rows: seq<Row>, data: JsonObject): AppendResult {
    var reused := ReusesLastRow(rows);
    var n := if reused then |rows| else |rows| + 1;
    AppendResult(n, data,
      "Row added successfully at row " + IntToString(n) + (if reused then " (reused empty row)" else ""),
      reused)
  }

  /** The write at the end of `handleAppendRow`: into the reused last row, or as a new row. */
  method WriteAppendedRow(ws: Worksheet, arr: seq<Option<Value>>, reuse: bool)
    requires reuse == ReusesLastRow(ws.rows)
    modifies ws
    ensures ws.rows == AppendedRows(old(ws.rows), arr)
    ensures ws.name == old(ws.name)
  {
    if reuse {
      ws.rows := ws.rows[..|ws.rows| - 1] + [Overlay(ws.rows[|ws.rows| - 1], arr)];
    } else {
      ws.rows := ws.rows + [NewRow(arr)];
    }
  }

  /** `handleAppendRow(worksheet, data, columnMap)`. */
  method HandleAppendRow(ws: Worksheet, data: JsonObject, m: ColumnMap, parseDate: DateParser) returns (res: AppendResult)
    requires WellFormedColumnMap(m)
    modifies ws
    ensures ws.rows == AppendedRows(old(ws.rows), RowArray(data, m, parseDate))
    ensures ws.name == old(ws.name)
    ensures res == AppendOutcome(old(ws.rows), data)
  {
    var arr := MapRowData(data, m, parseDate);
    var last := |ws.rows|;
    var reuse := false;
    if last > 1 {
      reuse := IsRowEmpty(ws, last);
    }
    var n := if reuse then last else last + 1;
    res := AppendResult(n, data,
      "Row added successfully at row " + IntToString(n) + (if reuse then " (reused empty row)" else ""),
      reuse);
    WriteAppendedRow(ws, arr, reuse);
  }

  /** Append either overwrites the last row in place, exactly when it is an empty data row,
      or adds a row after it; every other row is untouched, and the reported row number is
      the row that now holds the values. */
  lemma AppendWritesReportedRow(rows: seq<Row>, data: JsonObject, arr: seq<Option<Value>>)
    ensures var res := AppendOutcome(rows, data);
      var after := AppendedRows(rows, arr);
      && (res.wasEmptyRowReused <==> |rows| > 1 && RowIsEmpty(rows, |rows|))
      && |after| == res.rowNumber
      && (res.wasEmptyRowReused ==> res.rowNumber == |rows|)
      && (!res.wasEmptyRowReused ==> res.rowNumber == |rows| + 1)
      && (forall k :: 1 <= k < res.rowNumber ==> RowAt(after, k) == RowAt(rows, k))
      && (forall p :: 0 <= p < |arr| && arr[p].Some? ==> RowAt(after, res.rowNumber)[p] == Plain(arr[p].value))
  {
  }

  // ---------- handleInsertRow / handleDeleteRow ----------

  /** `worksheet.insertRow(n, row)`: later rows shift down; past the end, the gap is filled
      with empty rows. */
  function InsertRowAt(rows: seq<Row>, n: nat, row: Row): seq<Row>
    requires n >= 1
  {
    if n - 1 <= |rows| then rows[..n - 1] + [row] + rows[n - 1..]
    else PadRows(rows, n - 1) + [row]
  }

  /** `worksheet.spliceRows(n, 1)`: later rows shift up; a row past the end changes nothing. */
  function DeleteRowAt(rows: seq<Row>, n: int): seq<Row> {
    if 1 <= n <= |rows| then rows[..n - 1] + rows[n..] else rows
  }

  datatype InsertRowResult = InsertRowResult(rowNumber: int, data: JsonObject, message: string)
  datatype DeleteRowResult = DeleteRowResult(rowNumber: int, message: string)

  const InsertHeaderError: string := "Cannot insert before header row (row 1)"
  const DeleteHeaderError: string := "Cannot delete header row (row 1)"

  /** `handleInsertRow(worksheet, rowNumber, data, columnMap)`. */
  method HandleInsertRow(ws: Worksheet, n: int, data: JsonObject, m: ColumnMap, parseDate: DateParser)
    returns (res: Result<InsertRowResult, string>)
    requires WellFormedColumnMap(m)
    modifies ws
    ensures n < 2 ==> res == Failure(InsertHeaderError) && ws.rows == old(ws.rows)
    ensures n >= 2 ==> ws.rows == InsertRowAt(old(ws.rows), n, NewRow(RowArray(data, m, parseDate)))
    ensures n >= 2 ==> res == Success(InsertRowResult(n, data, "Row inserted successfully at row " + IntToString(n)))
    ensures ws.name == old(ws.name)
  {
    if n < 2 {
      return Failure(InsertHeaderError);
    }
    var arr := MapRowData(data, m, parseDate);
    ws.rows := InsertRowAt(ws.rows, n, NewRow(arr));
    return Success(InsertRowResult(n, data, "Row inserted successfully at row " + IntToString(n)));
  }

  /** `handleDeleteRow(worksheet, rowNumber)`. */
  method HandleDeleteRow(ws: Worksheet, n: int) returns (res: Result<DeleteRowResult, string>)
    modifies ws
    ensures n < 2 ==> res == Failure(DeleteHeaderError) && ws.rows == old(ws.rows)
    ensures n >= 2 ==> ws.rows == DeleteRowAt(old(ws.rows), n)
    ensures n >= 2 ==> res == Success(DeleteRowResult(n, "Row " + IntToString(n) + " deleted successfully"))
    ensures ws.name == old(ws.name)
  {
    if n < 2 {
      return Failure(DeleteHeaderError);
    }
    ws.rows := DeleteRowAt(ws.rows, n);
    return Success(DeleteRowResult(n, "Row " + IntToString(n) + " deleted successfully"));
  }

  /** Inserting puts the row at `n`, keeps the rows above and shifts the ones below down. */
  lemma InsertShiftsRowsDown(rows: seq<Row>, n: nat, row: Row, k: int)
    requires n >= 1 && k >= 1
    ensures RowAt(InsertRowAt(rows, n, row), n) == row
    ensures k < n ==> RowAt(InsertRowAt(rows, n, row), k) == RowAt(rows, k)
    ensures k > n ==> RowAt(InsertRowAt(rows, n, row), k) == RowAt(rows, k - 1)
  {
  }

  /** Deleting row `n` keeps the rows above and shifts the ones below up. */
  lemma DeleteShiftsRowsUp(rows: seq<Row>, n: int, k: int)
    requires 1 <= n <= |rows| && k >= 1
    ensures k < n ==> RowAt(DeleteRowAt(rows, n), k) == RowAt(rows, k)
    ensures k >= n ==> RowAt(DeleteRowAt(rows, n), k) == RowAt(rows, k + 1)
  {
  }

  /** Deleting the row just inserted, within the sheet, restores the sheet. */
  lemma DeleteUndoesInsert(rows: seq<Row>, n: nat, row: Row)
    requires 1 <= n <= |rows| + 1
    ensures DeleteRowAt(InsertRowAt(rows, n, row), n) == rows
  {
    var ins := InsertRowAt(rows, n, row);
    assert ins[..n - 1] == rows[..n - 1];
    assert ins[n..] == rows[n - 1..];
    assert rows[..n - 1] + rows[n - 1..] == rows;
  }
}
