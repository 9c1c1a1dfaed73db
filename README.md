# ExcelAI node: a verified model of its tabular rules

The ExcelAI node for n8n reads and edits Excel workbooks on behalf of a workflow. Between
the loosely typed JSON a workflow sends and the worksheet the spreadsheet library holds,
it applies a layer of rules:

- how a cell is read (`getCellValue`);
- how a JSON field value is coerced before it is written (`convertValue`);
- how the header row becomes a column map, and how an object is spread over a positional
  row through it (`getColumnMapping`, `mapRowData`);
- how rows are read back as objects keyed by header, dropping rows with no truthy field
  (`handleReadRows`);
- how rows are filtered by field conditions combined with AND/OR (`handleFilterRows`);
- how rows are appended (reusing a trailing empty row), inserted, updated and deleted,
  with the header row protected;
- how worksheets are chosen, created, deleted, renamed and copied, under their name
  rules;
- how column numbers are lettered (`columnNumberToLetter`).

This project models that layer in Dafny and proves what the node promises about it. The
workbook is a `Workbook` object holding a list of `Worksheet` objects. Each worksheet has
a name and a sequence of rows, and row `n` (1-based) is `rows[n - 1]`. A row is a
sequence of `Cell`s. A cell is a plain value (undefined, null, boolean, integer, exact
decimal, date or string), a formula with its cached result, a hyperlink, rich text or an
error cell. JSON objects are lists of `(key, value)` entries in `Object.entries` order.

Modules, one per part of the node: `Wrappers` (Option, Result), `JsValues` (the
JavaScript value semantics used: truthiness, `String(v)`, `Number(v)`, `trim`, `join`,
property lookup), `Cells`, `Coercion`, `Sheets`, `Columns`, `Records` (the row
projection shared by read and filter), `ReadRows`, `Filter`, `RowOps` (isRowEmpty,
append, insert, delete), `UpdateRow`, `Workbooks`, `Letters`, `Dispatch`.

Parts of the node that compute values are modelled as functions, and the lemmas state
their properties. Parts that change state or loop are methods with loops: the column
mapping, the row scatter, read, filter, isRowEmpty, update and the lettering loop. Each
such method is proved equal to a specification function, and the properties are proved
about that function. Worksheet handlers change the workbook object in place.

All source paths below are in the repository `n8n-nodes-excel-ai`.

## Model

| member | source | states |
|---|---|---|
| Cells.GetCellValue | nodes/ExcelAI/ExcelAI.node.ts:17-32 | A plain cell reads as its stored value and a formula as its cached result. A hyperlink reads as its text, rich text as its runs joined with `''`, and an error cell as its code; each reads as `''` when the object lacks that property. |
| Cells.ReadingIsIdempotent | nodes/ExcelAI/ExcelAI.node.ts:17-32 | Reading a cell that stores what another cell read as gives the same value again. |
| Cells.NullCellHasNoHeaderKey | nodes/ExcelAI/ExcelAI.node.ts:887-890 | An empty (Null-type) cell contributes no column name, so `eachCell` skipping such cells changes nothing in the map. |
| Coercion.ConvertValue | nodes/ExcelAI/ExcelAI.node.ts:918-972 | The result is never undefined. A string result is the original, untrimmed input. A non-string input other than undefined comes back unchanged. |
| Coercion.ConvertText | nodes/ExcelAI/ExcelAI.node.ts:929-971 | The string rules never give undefined, and their only string result is the untrimmed input. |
| Coercion.ConvertPattern | nodes/ExcelAI/ExcelAI.node.ts:945-971 | The pattern rules never give undefined, and their only string result is the untrimmed input. |
| Coercion.CoercesNullsAndBooleans | nodes/ExcelAI/ExcelAI.node.ts:918-944 | null and undefined become null. A text whose trim is empty or `null` in any case becomes null. `true`/`false` in any case become the booleans. These rules hold whatever the number and date patterns would say. |
| Coercion.BlankExample | nodes/ExcelAI/ExcelAI.node.ts:930-935 | `""` and `"   "` become null. |
| Coercion.CoercesNumbersDatesAndText | nodes/ExcelAI/ExcelAI.node.ts:945-971 | Past the word rules, the trimmed text is tried in order. A match of `^-?\d+$` gives that integer. Otherwise a match of `^-?\d*\.\d+$` gives the exact decimal. Otherwise a match of the ISO date pattern that parses gives the date. Anything else gives the original untrimmed string. |
| Coercion.ConvertIsIdempotent | nodes/ExcelAI/ExcelAI.node.ts:918-972 | Converting an already converted value changes nothing. |
| Coercion.IntegerTextShape | nodes/ExcelAI/ExcelAI.node.ts:946-951 | The decimal text of any integer equals its own trim. It matches the integer pattern with that integer as its value, and it is none of the words null/true/false. |
| Coercion.IntegerTextRoundTrip | nodes/ExcelAI/ExcelAI.node.ts:946-951 | Converting the text of any integer (for example `"0"` or `"-5"`) gives the integer back. |
| Columns.HeaderKeys | nodes/ExcelAI/ExcelAI.node.ts:887-890 | Lists, column by column, the name each header cell contributes: the trimmed text of a truthy value, or none. |
| Columns.KeyMap | nodes/ExcelAI/ExcelAI.node.ts:887-893 | Every entry maps a name to a 1-based column within the header whose cell contributes exactly that name. |
| Columns.KeyMapHoldsEveryKey | nodes/ExcelAI/ExcelAI.node.ts:887-893 | Every contributed name is in the map, under a column at or after its own, so a later duplicate wins. |
| Columns.ColumnMapHoldsEveryHeader | nodes/ExcelAI/ExcelAI.node.ts:883-896 | With KeyMap: the column map holds exactly the truthy header cells, keyed by their trimmed text, each at its last occurrence. |
| Columns.KeyMapIsWellFormed | nodes/ExcelAI/ExcelAI.node.ts:891 | Column numbers are at least 1, and no two names share a column. |
| Columns.KeyMapExtend | nodes/ExcelAI/ExcelAI.node.ts:887-893 | One more header cell either adds or overrides its name at that column, or leaves the map as it was. |
| Columns.GetColumnMapping | nodes/ExcelAI/ExcelAI.node.ts:883-896 | The loop over row 1 builds exactly the column map of the header row, and that map is well formed. |
| Columns.Slot | nodes/ExcelAI/ExcelAI.node.ts:902-904 | A mapped column receives the converted field value, or `''` when the object has no such field. |
| Columns.Slots | nodes/ExcelAI/ExcelAI.node.ts:901-905 | Every mapped name gets the value Slot gives it, and no other name gets a value. |
| Columns.MaxColumn | nodes/ExcelAI/ExcelAI.node.ts:899-905 | The largest column number in the map, attained by some entry (0 for an empty map). |
| Columns.Scatter | nodes/ExcelAI/ExcelAI.node.ts:899-907 | The array is as long as `new Array(size)` grown to the largest column. |
| Columns.ScatterPlacesEveryName | nodes/ExcelAI/ExcelAI.node.ts:901-905 | Each mapped column of the array lies within it and holds its name's value. |
| Columns.ScatterFillsOnlyMappedColumns | nodes/ExcelAI/ExcelAI.node.ts:899-907 | A position of the array is filled exactly when some name maps to its column. |
| Columns.Put | nodes/ExcelAI/ExcelAI.node.ts:904 | Writing a JavaScript array slot past its end grows the array with holes and touches nothing else. |
| Columns.MapRowData | nodes/ExcelAI/ExcelAI.node.ts:898-908 | The write loop builds exactly the scattered row of the converted fields; the order of the map does not matter. |
| Columns.RowArrayHoldsMappedFields | nodes/ExcelAI/ExcelAI.node.ts:901-905 | Position `col-1` of the row array holds the converted field, or `''`, for every mapped column. |
| Columns.HolesAreUnmappedColumns | nodes/ExcelAI/ExcelAI.node.ts:899-907 | A position is a hole exactly when no name maps to its column. |
| Records.LastNamed | nodes/ExcelAI/ExcelAI.node.ts:1013-1018 | Finds the last column whose non-empty cell sits under a given non-empty header, or reports that there is none. |
| Records.RecordUpToFields | nodes/ExcelAI/ExcelAI.node.ts:1011-1018 | The row object's field for a header is present exactly when some non-empty cell sits under it, and holds the value of the last such cell. `_rowNumber` is always present and equals the row number unless a header carries that name. |
| Records.HasDataIffShownTruthy | nodes/ExcelAI/ExcelAI.node.ts:1021 | The `hasData` test holds exactly when some cell shown in the object has a truthy value. |
| Records.UnnamedRowHasNoData | nodes/ExcelAI/ExcelAI.node.ts:1013-1022 | A row with no non-empty cell under a non-empty header is always skipped. |
| Records.ProjectElements | nodes/ExcelAI/ExcelAI.node.ts:1009-1025 | Every projected record is the record of a row in the range that has data. |
| Records.ProjectRowNumbers | nodes/ExcelAI/ExcelAI.node.ts:1009-1025 | Every projected record carries its row number inside the range, and the numbers strictly increase. |
| Records.ProjectKeepsExactlyRowsWithData | nodes/ExcelAI/ExcelAI.node.ts:1020-1024 | A row in the range is projected exactly when its record has data, whatever the headers. |
| Records.ProjectContains | nodes/ExcelAI/ExcelAI.node.ts:1020-1024 | A row in the range whose record has data is projected. |
| Records.ProjectRow | nodes/ExcelAI/ExcelAI.node.ts:1011-1018 | The cell loop builds exactly the record of the row. |
| ReadRows.ReadHeaders | nodes/ExcelAI/ExcelAI.node.ts:1003-1005 | One header per column, from the untrimmed `getCellValue` text; an empty cell gives `''`. |
| ReadRows.ReadEnd | nodes/ExcelAI/ExcelAI.node.ts:1007 | The end row is rowCount when `endRow` is 0, and otherwise the smaller of `endRow` and rowCount. |
| ReadRows.HandleReadRows | nodes/ExcelAI/ExcelAI.node.ts:991-1028 | The loop returns exactly the projection of rows `startRow..E` under the read headers. |
| ReadRows.ReadRowsRangeAndOrder | nodes/ExcelAI/ExcelAI.node.ts:1007-1024 | A row in `startRow..E` is returned exactly when it has a truthy header-named field, whatever the headers. When no header is named `_rowNumber`, every record read carries a `_rowNumber` in `startRow..E`, and the numbers strictly increase. |
| Filter.FilterHeaders | nodes/ExcelAI/ExcelAI.node.ts:1047-1050 | One raw, untrimmed `cell.value` text per header column. |
| Filter.HandleFilterRows | nodes/ExcelAI/ExcelAI.node.ts:1030-1136 | The validation loop and the projection loop return exactly the filter's result or error. |
| Filter.InvalidFieldsAreTheUnknownFields | nodes/ExcelAI/ExcelAI.node.ts:1053-1060 | A field is reported exactly when some condition names it, it is non-empty, and it is not a header. |
| Filter.AvailableAreTheNonEmptyHeaders | nodes/ExcelAI/ExcelAI.node.ts:1065 | The "available fields" are exactly the non-empty headers. |
| Filter.FilterFailsIffUnknownField | nodes/ExcelAI/ExcelAI.node.ts:1053-1068 | The filter fails, before any row is scanned, exactly when some condition has a non-empty unknown field. The error carries the invalid fields in condition order and the available headers. |
| Filter.FilterErrorText | nodes/ExcelAI/ExcelAI.node.ts:1062-1066 | The failure's message lists the invalid fields, then the non-empty headers, each joined with `, `. |
| Filter.KeepWhereMembers | nodes/ExcelAI/ExcelAI.node.ts:1095 | `filter` keeps a record exactly when it is one of the inputs and the callback accepts it. |
| Filter.KeepWhereIsSubsequence | nodes/ExcelAI/ExcelAI.node.ts:1095 | `filter` leaves some inputs out and keeps the others in their order. |
| Filter.KeepMatchingMembers | nodes/ExcelAI/ExcelAI.node.ts:1095-1133 | A record is kept exactly when it is a candidate and it matches the conditions. |
| Filter.KeepMatchingIsSubsequence | nodes/ExcelAI/ExcelAI.node.ts:1095-1133 | The kept records are the candidates with some left out, in their original order. |
| Filter.FilterSelectsMatchingDataRows | nodes/ExcelAI/ExcelAI.node.ts:1070-1135 | With no conditions the result is every data row (row 2 on) that has data. The result is always an order-preserving selection of those rows. Under `and` it holds exactly the rows where every condition holds, and under any other logic the rows where at least one holds. |
| Filter.AndIntersects | nodes/ExcelAI/ExcelAI.node.ts:1130-1132 | Under `and`, two conditions keep exactly the rows each one keeps. |
| Filter.OrUnites | nodes/ExcelAI/ExcelAI.node.ts:1130-1132 | Under any other logic, two conditions keep exactly the rows either one keeps. |
| Filter.NegatedOperators | nodes/ExcelAI/ExcelAI.node.ts:1101-1124 | `notEquals`, `notContains` and `isNotEmpty` are the negations of `equals`, `contains` and `isEmpty`, and `isEmpty` is exactly falsiness. |
| Filter.NotEqualsNegatesEquals | nodes/ExcelAI/ExcelAI.node.ts:1101-1104 | `notEquals` holds exactly when `equals` does not. |
| Filter.NotContainsNegatesContains | nodes/ExcelAI/ExcelAI.node.ts:1105-1108 | `notContains` holds exactly when `contains` does not. |
| Filter.IsNotEmptyNegatesIsEmpty | nodes/ExcelAI/ExcelAI.node.ts:1121-1124 | `isNotEmpty` holds exactly when `isEmpty` does not. |
| Filter.IsEmptyMeansFalsy | nodes/ExcelAI/ExcelAI.node.ts:1121-1122 | `isEmpty` holds exactly for falsy values: its tests for `''`, null and undefined add nothing. |
| Filter.ComparisonsOnNaNFail | nodes/ExcelAI/ExcelAI.node.ts:1109-1116 | Given NaN on either side, none of the four numeric comparisons holds. |
| Filter.ComparisonsFailOnNaN | nodes/ExcelAI/ExcelAI.node.ts:1109-1116 | The four numeric comparisons are false when `Number` of either side is NaN. |
| Filter.FalsyValuesAreEmpty | nodes/ExcelAI/ExcelAI.node.ts:1121-1122 | 0, false, null, `''` and a missing field are all `isEmpty`. |
| Filter.UnknownOperatorNeverHolds | nodes/ExcelAI/ExcelAI.node.ts:1125-1126 | An operator outside the twelve is always false. |
| JsValues.Lookup | nodes/ExcelAI/ExcelAI.node.ts:902 | A key the object lacks reads as undefined, and any other result is the value of an entry with that key. |
| JsValues.KeysOf | nodes/ExcelAI/ExcelAI.node.ts:1361 | The keys of an object, one per entry, in order. |
| JsValues.NaNIsUnordered | nodes/ExcelAI/ExcelAI.node.ts:1109-1116 | Every `<` and `<=` involving NaN is false. |
| Sheets.SetCell | nodes/ExcelAI/ExcelAI.node.ts:1259 | Writing a cell grows the row as needed, sets that column and leaves every other column as it was. |
| Sheets.PadRows | nodes/ExcelAI/ExcelAI.node.ts:1251 | Creating a missing row adds empty rows up to it and changes no existing row. |
| RowOps.IsRowEmpty | nodes/ExcelAI/ExcelAI.node.ts:1138-1160 | The `hasData` loop returns exactly the emptiness rule. A row outside `1..rowCount` is not empty. A row without values is empty. Otherwise the row is empty when no cell reads as something other than null, undefined or `''`. |
| RowOps.RowIsEmptyIffNoCellHasData | nodes/ExcelAI/ExcelAI.node.ts:1145-1159 | The `hasValues` shortcut changes nothing: a row is empty exactly when it exists and no cell has data. |
| RowOps.EmptyRowIsSkippedOnRead | nodes/ExcelAI/ExcelAI.node.ts:1138-1160 | A row that `isRowEmpty` calls empty is skipped by the read and filter projections, whatever the headers. |
| RowOps.ZeroRowIsNotEmptyButSkipped | nodes/ExcelAI/ExcelAI.node.ts:1154 | The converse fails: a row holding only 0 is not empty for `isRowEmpty`, yet the projections skip it. |
| RowOps.NewRow | nodes/ExcelAI/ExcelAI.node.ts:1189 | The added row has one cell per array position: the value, or an empty cell for a hole. |
| RowOps.Overlay | nodes/ExcelAI/ExcelAI.node.ts:1181-1183 | Every value of the array is written at its column. Holes and columns past the array keep their old cells. |
| RowOps.WriteAppendedRow | nodes/ExcelAI/ExcelAI.node.ts:1178-1191 | The values go into the last row when it is reused, and otherwise into a new row after it. |
| RowOps.HandleAppendRow | nodes/ExcelAI/ExcelAI.node.ts:1162-1203 | The worksheet becomes the appended rows of the scattered object, and the result reports the row number, the data, the message and `wasEmptyRowReused`. |
| RowOps.AppendWritesReportedRow | nodes/ExcelAI/ExcelAI.node.ts:1178-1191 | `wasEmptyRowReused` holds exactly when rowCount > 1 and the last row is empty. The reported row is then that last row, and otherwise rowCount + 1. Rows above it are untouched, and it holds every value of the array. |
| RowOps.HandleInsertRow | nodes/ExcelAI/ExcelAI.node.ts:1205-1232 | Row numbers below 2 fail with the header-row error and change nothing. Otherwise the scattered row is inserted at that number and the success message is returned. |
| RowOps.InsertShiftsRowsDown | nodes/ExcelAI/ExcelAI.node.ts:1223 | The inserted row is at `n`; rows above are unchanged and rows below move down one. |
| RowOps.HandleDeleteRow | nodes/ExcelAI/ExcelAI.node.ts:1285-1307 | Row numbers below 2 fail with the header-row error and change nothing. Otherwise that row is removed and the success message is returned. |
| RowOps.DeleteShiftsRowsUp | nodes/ExcelAI/ExcelAI.node.ts:1299 | Rows above `n` are unchanged and rows below move up one. |
| RowOps.DeleteUndoesInsert | nodes/ExcelAI/ExcelAI.node.ts:1205-1307 | Deleting a row just inserted within the sheet restores the sheet. |
| UpdateRow.UpdatedFields | nodes/ExcelAI/ExcelAI.node.ts:1255-1265 | Every updated field has a non-zero column in the map. |
| UpdateRow.SkippedFields | nodes/ExcelAI/ExcelAI.node.ts:1255-1265 | No skipped field has a non-zero column in the map. |
| UpdateRow.UpdatedCells | nodes/ExcelAI/ExcelAI.node.ts:1255-1265 | Writing the fields never shortens the row. |
| UpdateRow.HandleUpdateRow | nodes/ExcelAI/ExcelAI.node.ts:1234-1283 | Row numbers below 2 fail with the header-row error and change nothing. Otherwise the loop writes the mapped fields, converted, into that row (creating it when missing), and the result lists the updated and skipped fields, the message, and the warning when something was skipped. |
| UpdateRow.FieldsPartitionTheKeys | nodes/ExcelAI/ExcelAI.node.ts:1255-1265 | Every key of the object is reported exactly once, as updated or as skipped: the two lists together are the keys as a multiset. |
| UpdateRow.WarningIffSomeKeyUnmapped | nodes/ExcelAI/ExcelAI.node.ts:1276-1280 | For every row number, `skippedFields` and `warning` are present exactly when some key has no column. |
| UpdateRow.UntouchedCellsKeepTheirContent | nodes/ExcelAI/ExcelAI.node.ts:1255-1265 | A cell that no mapped field points at keeps its content. |
| UpdateRow.LastWriteWins | nodes/ExcelAI/ExcelAI.node.ts:1255-1265 | A mapped field that no later field overrides leaves its converted value in its column. |
| UpdateRow.OtherRowsUnchanged | nodes/ExcelAI/ExcelAI.node.ts:1251-1268 | Updating row `n` changes no other row. |
| Workbooks.FindSheet | nodes/ExcelAI/ExcelAI.node.ts:742 | Finds the first worksheet with exactly that name, and finds none exactly when no worksheet has it. |
| Workbooks.ResolveSheetName | nodes/ExcelAI/ExcelAI.node.ts:729-748 | A chosen worksheet is always one of the workbook's worksheets. |
| Workbooks.ResolveSheetNameCases | nodes/ExcelAI/ExcelAI.node.ts:729-748 | An empty or `__error__` name picks the first worksheet, or fails with "No worksheets found" on an empty workbook. Any other name picks the first worksheet of that name, or fails with `Worksheet "X" not found`. |
| Workbooks.SelectSource | nodes/ExcelAI/ExcelAI.node.ts:1385-1398 | An empty or `__error__` name fails with "Please select a valid worksheet". A name no worksheet has fails with `not found`. Any other name selects the first worksheet of that name. |
| Workbooks.HeaderRow | nodes/ExcelAI/ExcelAI.node.ts:1361-1362 | The header row holds the keys of the first object as strings, in order. |
| Workbooks.DataRow | nodes/ExcelAI/ExcelAI.node.ts:1365 | One cell per header. |
| Workbooks.InitialRows | nodes/ExcelAI/ExcelAI.node.ts:1360-1368 | No initial data gives no rows. Otherwise there is a header row and one row per object. |
| Workbooks.InitialRowsLayout | nodes/ExcelAI/ExcelAI.node.ts:1360-1368 | Row 1 names the keys of the first object. Each later row holds its object's value under each of those keys, with `''` for null or missing. |
| Workbooks.CopyRows | nodes/ExcelAI/ExcelAI.node.ts:1482-1491 | The copy has the same number of rows, and each row has the same number of cells. |
| Workbooks.CopyReadsLikeSource | nodes/ExcelAI/ExcelAI.node.ts:1482-1491 | Every cell of the copy reads exactly as the source cell reads. |
| Workbooks.CopyOfCopyIsCopy | nodes/ExcelAI/ExcelAI.node.ts:1482-1491 | Copying a copy gives the same rows again. |
| Workbooks.Workbook.RowSheet | nodes/ExcelAI/ExcelAI.node.ts:729-748 | The row operations get the worksheet ResolveSheetName picks, or its error. |
| Workbooks.Workbook.CreateWorksheet | nodes/ExcelAI/ExcelAI.node.ts:1340-1377 | An existing name fails with `already exists` and changes nothing. Otherwise a fresh worksheet holding the initial rows is added last, the other worksheets are kept, and the result reports its name, row count and message. Names stay distinct. |
| Workbooks.Workbook.DeleteWorksheet | nodes/ExcelAI/ExcelAI.node.ts:1379-1408 | The source checks fail as SelectSource says and change nothing. Otherwise exactly the selected worksheet is removed. Names stay distinct. |
| Workbooks.Workbook.RenameWorksheet | nodes/ExcelAI/ExcelAI.node.ts:1410-1449 | Fails on the source checks, or with `already exists` when the new name is taken (including the old name itself), changing nothing. Otherwise only the selected worksheet's name changes. No rows change, and names stay distinct. |
| Workbooks.Workbook.CopyWorksheet | nodes/ExcelAI/ExcelAI.node.ts:1451-1508 | Fails like rename, changing nothing. Otherwise a fresh worksheet holding what the source's cells read as is added last, with the copy message. Names stay distinct. |
| Letters.LetterValue | nodes/ExcelAI/ExcelAI.node.ts:1554-1562 | Every non-empty column name stands for a number of at least 1. |
| Letters.ColumnNumberToLetter | nodes/ExcelAI/ExcelAI.node.ts:1554-1562 | The loop returns exactly the bijective base-26 name of the column (empty for numbers below 1). |
| Letters.LettersAreColumnNames | nodes/ExcelAI/ExcelAI.node.ts:1554-1562 | A column name is made of `A`–`Z`, and it is non-empty exactly for numbers from 1 up. |
| Letters.LetterValueOfLetters | nodes/ExcelAI/ExcelAI.node.ts:1554-1562 | Reading a column's name back gives the column number. |
| Letters.LettersOfLetterValue | nodes/ExcelAI/ExcelAI.node.ts:1554-1562 | Every capital-letter string is the name of its number, so the lettering is a bijection onto those strings. |
| Letters.FirstColumnNames | nodes/ExcelAI/ExcelAI.node.test.ts:1294 | 1 is "A", 26 is "Z" and 27 is "AA". |
| Dispatch.ProcessedIndices | nodes/ExcelAI/ExcelAI.node.ts:692-699 | `readRows` and `filterRows` run once with item 0's parameters, even when there are no items. Every other operation runs once per item, in order. |

## Left out

- Workbook I/O: loading and saving through file paths or binary buffers, auto-save and the binary output are not modelled. They go through the file system and the spreadsheet library.
- Parsing of JSON parameters (`parseJsonInput`) is not modelled. Operations take the parsed object as a list of entries.
- Inherited object properties are not modelled. In JavaScript, `rowData[name]` on a key the object lacks, such as `constructor` or `toString`, reads an inherited function, which is truthy. JsValues.Lookup, Columns.Slot and Filter.FieldValue read every absent key as undefined.
- Records.RecordUpTo: a header named `__proto__` is stored as an ordinary field of the row object. In JavaScript, assigning `rowData['__proto__']` on the `{ _rowNumber }` literal goes through the prototype setter and creates no own key, so the node neither shows that value nor counts it for `hasData`.
- Nested JSON values (objects and arrays as field values) are not modelled. Values are the scalar kinds listed above.
- `parseInt`/`parseFloat` precision is not modelled. Integers are unbounded and decimals exact, so integers beyond 2^53, double rounding, exponent rendering and negative zero are not captured. For the same reason, `Number("1e400")` in the filter comparisons is a finite number in the model, where JavaScript gives Infinity.
- The `isNaN` guards after `parseInt`/`parseFloat` are not modelled separately. They can never fire once the pattern has matched, so the model returns the number directly.
- `new Date(text)` is the `DateParser` parameter (none = invalid date), and only the pattern that guards it is modelled.
- JavaScript object key order of the output records is not modelled. Records are maps; a header named `_rowNumber` overwrites the row number, as in the node. Duplicate keys in an input object are processed as listed, whereas a JavaScript object has only one entry per key.
- Several library behaviours are not modelled:
  - styles, row heights and column widths in the copy;
  - the worksheet name length and character rules and the library's case-insensitive duplicate check;
  - `rowCount` counting trailing rows;
  - `eachRow` skipping rows without values, which the projection skips anyway because they have no data.
- Row arrays with holes: when column 1 is unmapped, the library's `addRow`/`insertRow` shift the sparse array one column left. The model writes every value at its own column.
- Filter condition values are strings, and the condition list is taken as given. A missing `conditions` property counts as an empty list.
- Create with initial data that is not a JSON array is not modelled: it is treated as no initial data.
- `handleListWorksheets`, `handleGetWorksheetInfo`, the `loadOptions` helpers and the property schema are not modelled. They are listings for the UI and have no rules of their own.
- The continue-on-fail error record is not modelled, nor the `Unknown operation` dispatch errors (plain glue).
- The concrete conversions of `"NULL"`, `".5"` and other literal strings are not stated as separate lemmas. The general lemmas CoercesNullsAndBooleans and CoercesNumbersDatesAndText cover them, and IntegerTextRoundTrip covers `"0"` and `"-5"`.
