/**
 * Row projection shared by `handleReadRows` and `handleFilterRows`: a worksheet row
 * becomes a JavaScript object keyed by header text, carrying `_rowNumber`, and rows
 * with no truthy field are skipped.
 */
module Records {

  import opened Wrappers
  import opened JsValues
  import opened Cells
  import opened Sheets

  /** The object built for one row; JavaScript key order is not modelled. */
  type Record = map<string, Value>

  const RowNumberKey: string := "_rowNumber"

  /** Column `c` of the row contributes a field: its cell is not empty and its header
      (`headers[colNumber - 1]`) is a non-empty string. */
  predicate Named(hdr: seq<string>, row: Row, c: int) {
    0 <= c < |row| && !IsNullCell(row[c]) && c < |hdr| && hdr[c] != ""
  }

  /** The object after visiting the first `k` cells of the row. */
  function RecordUpTo(hdr: seq<string>, row: Row, k: nat, n: int): Record
    requires k <= |row|
  {
    if k == 0 then map[RowNumberKey := Int(n)]
    else
      var r := RecordUpTo(hdr, row, k - 1, n);
      if Named(hdr, row, k - 1) then r[hdr[k - 1] := GetCellValue(row[k - 1])] else r
  }

  /** `{ _rowNumber: n, [header]: getCellValue(cell), ... }` for row number `n`. */
  function RecordOf(hdr: seq<string>, row: Row, n: int): Record {
    RecordUpTo(hdr, row, |row|, n)
  }

  /** `Object.keys(rowData).some(key => key !== '_rowNumber' && rowData[key])`. */
  predicate HasData(r: Record) {
    exists key :: key in r && key != RowNumberKey && Truthy(r[key])
  }

  /** The last of the first `k` columns that contributes a field named `key`. */
  function LastNamed(hdr: seq<string>, row: Row, k: nat, key: string): (c: Option<nat>)
    requires k <= |row|
    ensures c.Some? ==> c.value < k && Named(hdr, row, c.value) && hdr[c.value] == key
    ensures c.Some? ==> forall d :: c.value < d < k ==> !(Named(hdr, row, d) && hdr[d] == key)
    ensures c.None? ==> forall d :: 0 <= d < k ==> !(Named(hdr, row, d) && hdr[d] == key)
  {
    if k == 0 then None
    else if Named(hdr, row, k - 1) && hdr[k - 1] == key then Some(k - 1)
    else LastNamed(hdr, row, k - 1, key)
  }

  /** Column `c` is the one whose value the object shows under its header. */
  predicate Shown(hdr: seq<string>, row: Row, c: int) {
    Named(hdr, row, c) && hdr[c] != RowNumberKey && LastNamed(hdr, row, |row|, hdr[c]) == Some(c)
  }

  /** No header is the text "_rowNumber", which would overwrite the row number. */
  predicate NoRowNumberHeader(hdr: seq<string>) {
    forall c :: 0 <= c < |hdr| ==> hdr[c] != RowNumberKey
  }

  /** A field of the object is present exactly when some column of that header contributes,
      and holds the value of the last such column; `_rowNumber` survives unless a header
      carries that name. */
  lemma {:induction false} RecordUpToFields(hdr: seq<string>, row: Row, k: nat, n: int)
    requires k <= |row|
    ensures RowNumberKey in RecordUpTo(hdr, row, k, n)
    ensures forall key :: key != RowNumberKey ==>
      (key in RecordUpTo(hdr, row, k, n) <==> LastNamed(hdr, row, k, key).Some?)
    ensures forall key :: key != RowNumberKey && key in RecordUpTo(hdr, row, k, n) ==>
      LastNamed(hdr, row, k, key).Some? && RecordUpTo(hdr, row, k, n)[key] == GetCellValue(row[LastNamed(hdr, row, k, key).value])
    ensures NoRowNumberHeader(hdr) ==> RecordUpTo(hdr, row, k, n)[RowNumberKey] == Int(n)
    decreases k
  {
    if k > 0 {
      RecordUpToFields(hdr, row, k - 1, n);
    }
  }

  /** The `hasData` test in terms of the row: some shown column holds a truthy value. */
  lemma HasDataIffShownTruthy(hdr: seq<string>, row: Row, n: int)
    ensures HasData(RecordOf(hdr, row, n)) <==> exists c :: Shown(hdr, row, c) && Truthy(GetCellValue(row[c]))
  {
    var r := RecordOf(hdr, row, n);
    RecordUpToFields(hdr, row, |row|, n);
    if HasData(r) {
      var key :| key in r && key != RowNumberKey && Truthy(r[key]);
      var c := LastNamed(hdr, row, |row|, key).value;
      assert Shown(hdr, row, c) && Truthy(GetCellValue(row[c]));
    }
    if exists c :: Shown(hdr, row, c) && Truthy(GetCellValue(row[c])) {
      var c :| Shown(hdr, row, c) && Truthy(GetCellValue(row[c]));
      assert hdr[c] in r && Truthy(r[hdr[c]]);
    }
  }

  /** A row with no non-empty cell under a non-empty header is always skipped. */
  lemma UnnamedRowHasNoData(hdr: seq<string>, row: Row, n: int)
    requires forall c :: !Named(hdr, row, c)
    ensures !HasData(RecordOf(hdr, row, n))
  {
    HasDataIffShownTruthy(hdr, row, n);
  }

  /** The records of rows `from..to` that have data, in row order. */
  function Project(hdr: seq<string>, rows: seq<Row>, from: int, to: int): seq<Record>
    decreases to - from
  {
    if to < from then []
    else
      var r := RecordOf(hdr, RowAt(rows, to), to);
      Project(hdr, rows, from, to - 1) + (if HasData(r) then [r] else [])
  }

  /** `r` is the record of some row in `from..to` that has data. */
  ghost predicate RecordOfRowWithData(hdr: seq<string>, rows: seq<Row>, from: int, to: int, r: Record) {
    exists n :: from <= n <= to && r == RecordOf(hdr, RowAt(rows, n), n) && HasData(r)
  }

  /** Every projected record is the record of a row in range that has data. */
  lemma {:induction false} ProjectElements(hdr: seq<string>, rows: seq<Row>, from: int, to: int)
    decreases to - from + 1
    ensures forall r :: r in Project(hdr, rows, from, to) ==> RecordOfRowWithData(hdr, rows, from, to, r)
  {
    if to >= from {
      ProjectElements(hdr, rows, from, to - 1);
      var prefix := Project(hdr, rows, from, to - 1);
      var last := RecordOf(hdr, RowAt(rows, to), to);
      forall r | r in Project(hdr, rows, from, to)
        ensures RecordOfRowWithData(hdr, rows, from, to, r)
      {
        if r in prefix {
          var n :| from <= n <= to - 1 && r == RecordOf(hdr, RowAt(rows, n), n) && HasData(r);
        } else {
          assert r == last && HasData(last);
        }
      }
    }
  }

  /** With no "_rowNumber" header, every projected record carries its row number, in
      `from..to`, and the numbers strictly increase. */
  lemma {:induction false} ProjectRowNumbers(hdr: seq<string>, rows: seq<Row>, from: int, to: int)
    decreases to - from + 1
    requires NoRowNumberHeader(hdr)
    ensures forall i :: 0 <= i < |Project(hdr, rows, from, to)| ==>
      (RowNumberKey in Project(hdr, rows, from, to)[i] && Project(hdr, rows, from, to)[i][RowNumberKey].Int?
      && from <= Project(hdr, rows, from, to)[i][RowNumberKey].i <= to)
    ensures forall i, j :: 0 <= i < j < |Project(hdr, rows, from, to)| ==>
      Project(hdr, rows, from, to)[i][RowNumberKey].i < Project(hdr, rows, from, to)[j][RowNumberKey].i
  {
    if to >= from {
      ProjectRowNumbers(hdr, rows, from, to - 1);
      RecordUpToFields(hdr, RowAt(rows, to), |RowAt(rows, to)|, to);
    }
  }

  /** The record of a row in `from..to` is in the projection exactly when it has data,
      whatever the headers. */
  lemma ProjectKeepsExactlyRowsWithData(hdr: seq<string>, rows: seq<Row>, from: int, to: int, n: int)
    requires from <= n <= to
    ensures RecordOf(hdr, RowAt(rows, n), n) in Project(hdr, rows, from, to) <==> HasData(RecordOf(hdr, RowAt(rows, n), n))
  {
    var r := RecordOf(hdr, RowAt(rows, n), n);
    if r in Project(hdr, rows, from, to) {
      ProjectElements(hdr, rows, from, to);
    }
    if HasData(r) {
      ProjectContains(hdr, rows, from, to, n);
    }
  }

  lemma {:induction false} ProjectContains(hdr: seq<string>, rows: seq<Row>, from: int, to: int, n: int)
    decreases to - from + 1
    requires from <= n <= to && HasData(RecordOf(hdr, RowAt(rows, n), n))
    ensures RecordOf(hdr, RowAt(rows, n), n) in Project(hdr, rows, from, to)
  {
    if n < to {
      ProjectContains(hdr, rows, from, to - 1, n);
    }
  }

  /** `row.eachCell(...)` filling the object for row `n`. */
  method ProjectRow(hdr: seq<string>, row: Row, n: int) returns (r: Record)
    ensures r == RecordOf(hdr, row, n)
  {
    r := map[RowNumberKey := Int(n)];
    var col := 0;
    while col < |row|
      invariant col <= |row|
      invariant r == RecordUpTo(hdr, row, col, n)
    {
      var cell := row[col];
      if !IsNullCell(cell) && col < |hdr| && hdr[col] != "" {
        r := r[hdr[col] := GetCellValue(cell)];
      }
      col := col + 1;
    }
  }
}
