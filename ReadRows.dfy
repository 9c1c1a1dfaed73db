/**
 * `handleReadRows`: the header list comes from the unwrapped cell values of row 1,
 * untrimmed, and every row from `startRow` to the end row is projected; rows without
 * a truthy field are dropped.
 */
module ReadRows {

  import opened JsValues
  import opened Cells
  import opened Sheets
  import opened Records

  /** `headers[colNumber - 1] = getCellValue(cell)?.toString() || ''`; a column whose cell is
      empty is a hole, which reads like `''`. */
  function ReadHeaders(header: Row): (hdr: seq<string>)
    ensures |hdr| == |header|
    ensures forall c :: 0 <= c < |header| && IsNullCell(header[c]) ==> hdr[c] == ""
  {
    seq(|header|, c requires 0 <= c < |header| => ValueText(header[c]))
  }

  /** `endRow === 0 ? rowCount : Math.min(endRow, rowCount)`. */
  function ReadEnd(endRow: int, rowCount: nat): (e: int)
    ensures endRow == 0 ==> e == rowCount
    ensures endRow != 0 ==> e <= rowCount && e <= endRow && (e == rowCount || e == endRow)
  {
    if endRow == 0 then rowCount else if endRow < rowCount then endRow else rowCount
  }

  /** The records `handleReadRows` returns. */
  function ReadRowsOf(rows: seq<Row>, startRow: int, endRow: int): seq<Record> {
    Project(ReadHeaders(RowAt(rows, 1)), rows, startRow, ReadEnd(endRow, |rows|))
  }

  /** `handleReadRows(worksheet, startRow, endRow)`. */
  method HandleReadRows(ws: Worksheet, startRow: int, endRow: int) returns (records: seq<Record>)
    ensures records == ReadRowsOf(ws.rows, startRow, endRow)
  {
    var hdr := ReadHeaders(RowAt(ws.rows, 1));
    var last := ReadEnd(endRow, |ws.rows|);
    records := [];
    var rowNum := startRow;
    while rowNum <= last
      invariant startRow <= rowNum <= last + 1 || (rowNum == startRow && startRow > last)
      invariant records == Project(hdr, ws.rows, startRow, rowNum - 1)
      decreases last - rowNum
    {
      var rowData := ProjectRow(hdr, RowAt(ws.rows, rowNum), rowNum);
      if HasData(rowData) {
        records := records + [rowData];
      }
      rowNum := rowNum + 1;
    }
  }

  /** A row between `startRow` and the end row is returned exactly when it has a truthy
      field. With no header named "_rowNumber", every record read also carries a row number
      in that range, and the numbers strictly increase. */
  lemma ReadRowsRangeAndOrder(rows: seq<Row>, startRow: int, endRow: int)
    ensures var out := ReadRowsOf(rows, startRow, endRow);
      NoRowNumberHeader(ReadHeaders(RowAt(rows, 1))) ==>
      && (forall i :: 0 <= i < |out| ==>
            (RowNumberKey in out[i] && out[i][RowNumberKey].Int?
             && startRow <= out[i][RowNumberKey].i <= ReadEnd(endRow, |rows|)))
      && (forall i, j :: 0 <= i < j < |out| ==> out[i][RowNumberKey].i < out[j][RowNumberKey].i)
    ensures forall n :: startRow <= n <= ReadEnd(endRow, |rows|) ==>
      (var r := RecordOf(ReadHeaders(RowAt(rows, 1)), RowAt(rows, n), n);
       r in ReadRowsOf(rows, startRow, endRow) <==> HasData(r))
  {
    var hdr := ReadHeaders(RowAt(rows, 1));
    var e := ReadEnd(endRow, |rows|);
    if NoRowNumberHeader(hdr) {
      ProjectRowNumbers(hdr, rows, startRow, e);
    }
    forall n | startRow <= n <= e
      ensures RecordOf(hdr, RowAt(rows, n), n) in Project(hdr, rows, startRow, e) <==> HasData(RecordOf(hdr, RowAt(rows, n), n))
    {
      ProjectKeepsExactlyRowsWithData(hdr, rows, startRow, e, n);
    }
  }
}
