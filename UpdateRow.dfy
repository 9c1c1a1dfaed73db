/**
 * `handleUpdateRow`: writes the fields of a JSON object into an existing row, column by
 * column through the header map, and reports which fields it wrote and which it skipped
 * because the header row has no such column.
 */
module UpdateRow {

  import opened Wrappers
  import opened JsValues
  import opened Cells
  import opened Sheets
  import opened Coercion
  import opened Columns

  /** `if (colNumber)`: the name has a column, and column 0 would not count. */
  predicate Mapped(m: ColumnMap, name: string) {
    name in m && m[name] >= 1
  }

  /** The fields written, in the order of the object. */
  function UpdatedFields(entries: JsonObject, m: ColumnMap): (names: seq<string>)
    ensures forall x :: x in names ==> Mapped(m, x)
    decreases |entries|
  {
    if entries == [] then []
    else
      var prev := UpdatedFields(entries[..|entries| - 1], m);
      var name := entries[|entries| - 1].0;
      if Mapped(m, name) then prev + [name] else prev
  }

  /** The fields skipped, in the order of the object. */
  function SkippedFields(entries: JsonObject, m: ColumnMap): (names: seq<string>)
    ensures forall x :: x in names ==> !Mapped(m, x)
    decreases |entries|
  {
    if entries == [] then []
    else
      var prev := SkippedFields(entries[..|entries| - 1], m);
      var name := entries[|entries| - 1].0;
      if Mapped(m, name) then prev else prev + [name]
  }

  /** The row after writing every mapped field, converted, at its column, in order. */
  function UpdatedCells(row: Row, entries: JsonObject, m: ColumnMap, parseDate: DateParser): (r: Row)
    ensures |r| >= |row|
    decreases |entries|
  {
    if entries == [] then row
    else
      var prev := UpdatedCells(row, entries[..|entries| - 1], m, parseDate);
      var (name, v) := entries[|entries| - 1];
      if Mapped(m, name) then SetCell(prev, m[name], Plain(ConvertValue(v, parseDate))) else prev
  }

  /** The worksheet rows after updating row `n`: the row is created when missing. */
  function UpdatedRows(rows: seq<Row>, n: nat, entries: JsonObject, m: ColumnMap, parseDate: DateParser): seq<Row>
    requires n >= 1
  {
    var padded := PadRows(rows, n);
    padded[n - 1 := UpdatedCells(RowAt(rows, n), entries, m, parseDate)]
  }

  const UpdateHeaderError: string := "Cannot update header row (row 1)"
  const SkippedWarningPrefix: string := "The following fields were not found in the worksheet and were skipped: "

  /** The object `handleUpdateRow` returns; `skippedFields` and `warning` are only set when
      some field was skipped. */
  datatype UpdateResult = UpdateResult(
    rowNumber: int,
    updatedFields: seq<string>,
    message: string,
    skippedFields: Option<seq<string>>,
    warning: Option<string>)

  function UpdateOutcome(n: int, entries: JsonObject, m: ColumnMap): UpdateResult {
    var skipped := SkippedFields(entries, m);
    UpdateResult(n, UpdatedFields(entries, m), "Row " + IntToString(n) + " updated successfully",
      if |skipped| > 0 then Some(skipped) else None,
      if |skipped| > 0 then Some(SkippedWarningPrefix + Join(skipped, ", ")) else None)
  }

  /** `handleUpdateRow(worksheet, rowNumber, data, columnMap)`. */
  method HandleUpdateRow(ws: Worksheet, n: int, entries: JsonObject, m: ColumnMap, parseDate: DateParser)
    returns (res: Result<UpdateResult, string>)
    modifies ws
    ensures n < 2 ==> res == Failure(UpdateHeaderError) && ws.rows == old(ws.rows)
    ensures n >= 2 ==> ws.rows == UpdatedRows(old(ws.rows), n, entries, m, parseDate)
    ensures n >= 2 ==> res == Success(UpdateOutcome(n, entries, m))
    ensures ws.name == old(ws.name)
  {
    if n < 2 {
      return Failure(UpdateHeaderError);
    }
    var row := RowAt(ws.rows, n);
    var updated: seq<string> := [];
    var skipped: seq<string> := [];
    var i := 0;
    while i < |entries|
      invariant i <= |entries|
      invariant row == UpdatedCells(RowAt(ws.rows, n), entries[..i], m, parseDate)
      invariant updated == UpdatedFields(entries[..i], m)
      invariant skipped == SkippedFields(entries[..i], m)
    {
      assert entries[..i + 1][..i] == entries[..i];
      var (name, v) := entries[i];
      if name in m && m[name] >= 1 {
        row := SetCell(row, m[name], Plain(ConvertValue(v, parseDate)));
        updated := updated + [name];
      } else {
        skipped := skipped + [name];
      }
      i := i + 1;
    }
    assert entries[..i] == entries;
    ws.rows := PadRows(ws.rows, n)[n - 1 := row];
    var warning: Option<string> := None;
    var skippedOut: Option<seq<string>> := None;
    if |skipped| > 0 {
      skippedOut := Some(skipped);
      warning := Some(SkippedWarningPrefix + Join(skipped, ", "));
    }
    res := Success(UpdateResult(n, updated, "Row " + IntToString(n) + " updated successfully", skippedOut, warning));
  }

  /** Every key of the object is reported exactly once: as updated when it has a column,
      as skipped when it has none. */
  lemma {:induction false} FieldsPartitionTheKeys(entries: JsonObject, m: ColumnMap)
    ensures multiset(UpdatedFields(entries, m)) + multiset(SkippedFields(entries, m)) == multiset(KeysOf(entries))
    decreases |entries|
  {
    if entries != [] {
      var prefix := entries[..|entries| - 1];
      FieldsPartitionTheKeys(prefix, m);
      assert KeysOf(entries) == KeysOf(prefix) + [entries[|entries| - 1].0];
    }
  }

  /** A field is reported as skipped (with the warning) exactly when some key of the object
      has no column. */
  lemma {:induction false} WarningIffSomeKeyUnmapped(n: int, entries: JsonObject, m: ColumnMap)
    ensures UpdateOutcome(n, entries, m).warning.Some? <==> exists i :: 0 <= i < |entries| && !Mapped(m, entries[i].0)
    ensures UpdateOutcome(n, entries, m).skippedFields.Some? <==> exists i :: 0 <= i < |entries| && !Mapped(m, entries[i].0)
  {
    FieldsPartitionTheKeys(entries, m);
    var keys := KeysOf(entries);
    if exists i :: 0 <= i < |entries| && !Mapped(m, entries[i].0) {
      var i :| 0 <= i < |entries| && !Mapped(m, entries[i].0);
      assert keys[i] in multiset(keys);
      assert keys[i] !in UpdatedFields(entries, m);
      assert keys[i] in multiset(SkippedFields(entries, m));
    } else {
      NothingSkippedWhenAllMapped(entries, m);
    }
  }

  lemma {:induction false} NothingSkippedWhenAllMapped(entries: JsonObject, m: ColumnMap)
    requires forall i :: 0 <= i < |entries| ==> Mapped(m, entries[i].0)
    ensures SkippedFields(entries, m) == []
    decreases |entries|
  {
    if entries != [] {
      var prefix := entries[..|entries| - 1];
      assert forall i :: 0 <= i < |prefix| ==> prefix[i] == entries[i];
      NothingSkippedWhenAllMapped(prefix, m);
    }
  }

  /** A cell no mapped field points at keeps its content. */
  lemma {:induction false} UntouchedCellsKeepTheirContent(row: Row, entries: JsonObject, m: ColumnMap, parseDate: DateParser, p: int)
    requires forall i :: 0 <= i < |entries| && Mapped(m, entries[i].0) ==> m[entries[i].0] != p + 1
    ensures CellAt(UpdatedCells(row, entries, m, parseDate), p) == CellAt(row, p)
    decreases |entries|
  {
    if entries != [] {
      var prefix := entries[..|entries| - 1];
      assert forall i :: 0 <= i < |prefix| ==> prefix[i] == entries[i];
      UntouchedCellsKeepTheirContent(row, prefix, m, parseDate, p);
    }
  }

  /** A mapped field that no later field overrides leaves its converted value in its column. */
  lemma {:induction false} LastWriteWins(row: Row, entries: JsonObject, m: ColumnMap, parseDate: DateParser, i: nat)
    requires i < |entries| && Mapped(m, entries[i].0)
    requires forall j :: i < j < |entries| && Mapped(m, entries[j].0) ==> m[entries[j].0] != m[entries[i].0]
    ensures CellAt(UpdatedCells(row, entries, m, parseDate), m[entries[i].0] - 1) == Plain(ConvertValue(entries[i].1, parseDate))
    decreases |entries|
  {
    var prefix := entries[..|entries| - 1];
    var prev := UpdatedCells(row, prefix, m, parseDate);
    var last := entries[|entries| - 1];
    var col := m[entries[i].0];
    assert UpdatedCells(row, entries, m, parseDate) ==
      if Mapped(m, last.0) then SetCell(prev, m[last.0], Plain(ConvertValue(last.1, parseDate))) else prev;
    if i < |entries| - 1 {
      assert forall j :: 0 <= j < |prefix| ==> prefix[j] == entries[j];
      LastWriteWins(row, prefix, m, parseDate, i);
      assert CellAt(prev, col - 1) == Plain(ConvertValue(entries[i].1, parseDate));
      assert Mapped(m, last.0) ==> m[last.0] != col;
    }
  }

  /** Updating row `n` changes no other row. */
  lemma OtherRowsUnchanged(rows: seq<Row>, n: nat, entries: JsonObject, m: ColumnMap, parseDate: DateParser, k: int)
    requires n >= 1 && k >= 1 && k != n
    ensures RowAt(UpdatedRows(rows, n, entries, m, parseDate), k) == RowAt(rows, k)
  {
    assert RowAt(PadRows(rows, n), k) == RowAt(rows, k);
  }
}
