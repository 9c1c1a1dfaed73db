/**
 * The header index and the row scatter: `getColumnMapping` turns the header row into
 * a map from column name to 1-based column number, and `mapRowData` spreads a JSON
 * object over a positional row array through that map.
 */
module Columns {

  import opened Wrappers
  import opened JsValues
  import opened Cells
  import opened Sheets
  import opened Coercion

  /** Column name to 1-based column number. */
  type ColumnMap = map<string, nat>

  /** What a map built from a header row always satisfies: column numbers start at 1
      and no two names share a column. */
  predicate WellFormedColumnMap(m: ColumnMap) {
    && (forall k :: k in m ==> m[k] >= 1)
    && (forall a, b :: a in m && b in m && m[a] == m[b] ==> a == b)
  }

  // ---------- getColumnMapping ----------

  /** The name each header cell contributes, column by column. */
  function HeaderKeys(header: Row): (keys: seq<Option<string>>)
    ensures |keys| == |header|
    ensures forall c :: 0 <= c < |header| ==> keys[c] == HeaderKey(header[c])
  {
    seq(|header|, c requires 0 <= c < |header| => HeaderKey(header[c]))
  }

  /** The map built from a list of optional names: each present name maps to its 1-based
      position, and a later occurrence replaces an earlier one. */
  function KeyMap(keys: seq<Option<string>>): (m: ColumnMap)
    ensures forall k :: k in m ==> 1 <= m[k] <= |keys| && keys[m[k] - 1] == Some(k)
  {
    if keys == [] then map[]
    else
      var m := KeyMap(keys[..|keys| - 1]);
      var key := keys[|keys| - 1];
      if key.Some? then m[key.value := |keys|] else m
  }

  /** The column map of a header row: each cell with a truthy value maps its trimmed text
      to its column, and a later cell with the same text replaces an earlier one. */
  function ColumnMapOf(header: Row): ColumnMap {
    KeyMap(HeaderKeys(header))
  }

  /** Every present name is in the map, under a position at or after its own. */
  lemma {:induction false} KeyMapHoldsEveryKey(keys: seq<Option<string>>)
    ensures forall c :: 0 <= c < |keys| && keys[c].Some? ==> keys[c].value in KeyMap(keys) && c + 1 <= KeyMap(keys)[keys[c].value]
    decreases |keys|
  {
    if keys != [] {
      var prefix := keys[..|keys| - 1];
      KeyMapHoldsEveryKey(prefix);
      assert forall c :: 0 <= c < |prefix| ==> prefix[c] == keys[c];
    }
  }

  /** Every truthy header cell is in the map, under a column at or after its own: so the
      map holds exactly the truthy headers, each at its last occurrence. */
  lemma ColumnMapHoldsEveryHeader(header: Row)
    ensures forall c :: 0 <= c < |header| && HeaderKey(header[c]).Some? ==>
      HeaderKey(header[c]).value in ColumnMapOf(header) && c + 1 <= ColumnMapOf(header)[HeaderKey(header[c]).value]
  {
    var keys := HeaderKeys(header);
    KeyMapHoldsEveryKey(keys);
    assert forall c :: 0 <= c < |header| ==> keys[c] == HeaderKey(header[c]);
  }

  /** Maps built from a list of names never give two names the same column. */
  lemma KeyMapIsWellFormed(keys: seq<Option<string>>)
    ensures WellFormedColumnMap(KeyMap(keys))
  {
    var m := KeyMap(keys);
    forall a, b | a in m && b in m && m[a] == m[b]
      ensures a == b
    {
      assert keys[m[a] - 1] == Some(a);
    }
  }

  /** One more name: the map of a longer prefix of the names. */
  lemma KeyMapExtend(keys: seq<Option<string>>, col: nat)
    requires col < |keys|
    ensures KeyMap(keys[..col + 1]) ==
      if keys[col].Some? then KeyMap(keys[..col])[keys[col].value := col + 1] else KeyMap(keys[..col])
  {
    assert keys[..col + 1][..col] == keys[..col];
  }

  /** `getColumnMapping(worksheet)`: visits the non-empty cells of row 1 left to right. */
  method GetColumnMapping(ws: Worksheet) returns (m: ColumnMap)
    ensures m == ColumnMapOf(RowAt(ws.rows, 1))
    ensures WellFormedColumnMap(m)
  {
    var header := RowAt(ws.rows, 1);
    ghost var keys := HeaderKeys(header);
    m := map[];
    var col := 0;
    while col < |header|
      invariant col <= |header|
      invariant m == KeyMap(keys[..col])
    {
      KeyMapExtend(keys, col);
      var cell := header[col];
      assert keys[col] == HeaderKey(cell);
      if !IsNullCell(cell) {
        var v := GetCellValue(cell);
        if Truthy(v) {
          m := m[Trim(JsString(v)) := col + 1];
        }
      } else {
        NullCellHasNoHeaderKey(cell);
      }
      col := col + 1;
    }
    assert keys[..col] == keys;
    KeyMapIsWellFormed(keys);
  }

  // ---------- mapRowData ----------

  /** The value `mapRowData` stores for a mapped column: the converted field, or `''`
      when the object has no such field. */
  function Slot(data: JsonObject, name: string, parseDate: DateParser): (v: Value)
    ensures Lookup(data, name) == Undefined ==> v == Str("")
    ensures Lookup(data, name) != Undefined ==> v == ConvertValue(Lookup(data, name), parseDate)
  {
    var raw := Lookup(data, name);
    if raw != Undefined then ConvertValue(raw, parseDate) else Str("")
  }

  /** The largest column number in the map (0 for an empty map). */
  ghost function MaxColumn(m: ColumnMap): (w: nat)
    ensures forall k :: k in m ==> m[k] <= w
    ensures m != map[] ==> exists k :: k in m && m[k] == w
    ensures m == map[] ==> w == 0
    decreases |m|
  {
    if m == map[] then 0
    else
      var k :| k in m;
      var rest := m - {k};
      assert |rest| < |m| by { assert rest.Keys == m.Keys - {k}; }
      assert forall j :: j in m && j != k ==> j in rest && rest[j] == m[j];
      var w := MaxColumn(rest);
      if m[k] >= w then m[k] else w
  }

  /** The length of the array: `new Array(columnMap.size)` grows to the largest column. */
  ghost function RowWidth(m: ColumnMap): nat {
    var w := MaxColumn(m);
    if w > |m| then w else |m|
  }

  /** The value of every mapped column. */
  function Slots(data: JsonObject, m: ColumnMap, parseDate: DateParser): (vals: map<string, Value>)
    ensures vals.Keys == m.Keys
    ensures forall name :: name in m ==> vals[name] == Slot(data, name, parseDate)
  {
    map name | name in m :: Slot(data, name, parseDate)
  }

  /** The name that maps to column `col`. */
  ghost function NameAt(m: ColumnMap, col: nat): (name: string)
    requires col in m.Values
    ensures name in m && m[name] == col
  {
    var name :| name in m && m[name] == col;
    name
  }

  /** The positional row with `vals[name]` at the column of each mapped name and a hole
      (`None`) at every other position up to the width. */
  ghost function Scatter(m: ColumnMap, vals: map<string, Value>): (arr: seq<Option<Value>>)
    requires WellFormedColumnMap(m) && m.Keys <= vals.Keys
    ensures |arr| == RowWidth(m)
  {
    seq(RowWidth(m), p => if p + 1 in m.Values then Some(vals[NameAt(m, p + 1)]) else None)
  }

  /** Each mapped column of the scattered row holds its name's value. */
  lemma ScatterPlacesEveryName(m: ColumnMap, vals: map<string, Value>, name: string)
    requires WellFormedColumnMap(m) && m.Keys <= vals.Keys
    requires name in m
    ensures m[name] <= |Scatter(m, vals)|
    ensures Scatter(m, vals)[m[name] - 1] == Some(vals[name])
  {
    assert m[name] <= MaxColumn(m);
    assert m[name] in m.Values;
    assert NameAt(m, m[name]) == name;
  }

  /** A position of the scattered row is filled exactly when some name maps to its column. */
  lemma ScatterFillsOnlyMappedColumns(m: ColumnMap, vals: map<string, Value>, p: nat)
    requires WellFormedColumnMap(m) && m.Keys <= vals.Keys
    requires p < |Scatter(m, vals)|
    ensures Scatter(m, vals)[p].Some? <==> p + 1 in m.Values
  {
  }

  /** The positional row `mapRowData` builds. */
  ghost function RowArray(data: JsonObject, m: ColumnMap, parseDate: DateParser): seq<Option<Value>>
    requires WellFormedColumnMap(m)
  {
    Scatter(m, Slots(data, m, parseDate))
  }

  /** `rowArray[p] = v` on a JavaScript array: writing past the end leaves holes. */
  function Put(arr: seq<Option<Value>>, p: nat, v: Value): (r: seq<Option<Value>>)
    ensures |r| == if p < |arr| then |arr| else p + 1
    ensures r[p] == Some(v)
    ensures forall q :: 0 <= q < |r| && q != p ==> r[q] == (if q < |arr| then arr[q] else None)
  {
    if p < |arr| then arr[p := Some(v)] else arr + seq(p - |arr|, _ => None) + [Some(v)]
  }

  /** What the scatter loop has done after writing the columns of the names in `done`. */
  ghost predicate PartialRow(m: ColumnMap, vals: map<string, Value>, done: set<string>, arr: seq<Option<Value>>)
    requires m.Keys <= vals.Keys
  {
    && |arr| >= |m|
    && (forall k :: k in m && k in done ==> 1 <= m[k] <= |arr| && arr[m[k] - 1] == Some(vals[k]))
    && (forall p :: 0 <= p < |arr| && arr[p].Some? ==> p + 1 in m.Values)
    && (|arr| > |m| ==> |arr| in m.Values)
  }

  lemma PartialRowStep(m: ColumnMap, vals: map<string, Value>, done: set<string>, arr: seq<Option<Value>>, name: string)
    requires WellFormedColumnMap(m) && m.Keys <= vals.Keys
    requires PartialRow(m, vals, done, arr)
    requires name in m && name !in done
    ensures PartialRow(m, vals, done + {name}, Put(arr, m[name] - 1, vals[name]))
  {
    var col := m[name];
    var next := Put(arr, col - 1, vals[name]);
    forall k | k in m && k in done + {name}
      ensures 1 <= m[k] <= |next| && next[m[k] - 1] == Some(vals[k])
    {
      if k != name {
        assert m[k] != col;
      }
    }
    assert col in m.Values;
  }

  /** Once every name is written, the row is exactly as wide as `RowWidth`. */
  lemma PartialRowWidth(m: ColumnMap, vals: map<string, Value>, arr: seq<Option<Value>>)
    requires WellFormedColumnMap(m) && m.Keys <= vals.Keys
    requires PartialRow(m, vals, m.Keys, arr)
    ensures |arr| == RowWidth(m)
  {
    var w := MaxColumn(m);
    if m != map[] {
      var k :| k in m && m[k] == w;
      assert w <= |arr|;
    }
    if |arr| > |m| {
      var k :| k in m && m[k] == |arr|;
      assert |arr| <= w;
    }
  }

  lemma PartialRowComplete(m: ColumnMap, vals: map<string, Value>, arr: seq<Option<Value>>)
    requires WellFormedColumnMap(m) && m.Keys <= vals.Keys
    requires PartialRow(m, vals, m.Keys, arr)
    ensures arr == Scatter(m, vals)
  {
    var spec := Scatter(m, vals);
    PartialRowWidth(m, vals, arr);
    forall p | 0 <= p < |arr|
      ensures arr[p] == spec[p]
    {
      ScatterFillsOnlyMappedColumns(m, vals, p);
      if p + 1 in m.Values {
        var k := NameAt(m, p + 1);
        ScatterPlacesEveryName(m, vals, k);
        assert arr[m[k] - 1] == Some(vals[k]);
      }
    }
  }

  /** `mapRowData(rowData, columnMap)`: one write per map entry; the order of the entries
      does not matter because no two share a column. */
  method MapRowData(data: JsonObject, m: ColumnMap, parseDate: DateParser) returns (arr: seq<Option<Value>>)
    requires WellFormedColumnMap(m)
    ensures arr == RowArray(data, m, parseDate)
  {
    ghost var vals := Slots(data, m, parseDate);
    arr := seq(|m|, _ => None);
    var todo := m.Keys;
    while todo != {}
      invariant todo <= m.Keys
      invariant PartialRow(m, vals, m.Keys - todo, arr)
      decreases |todo|
    {
      var name :| name in todo;
      var v := Slot(data, name, parseDate);
      assert v == vals[name];
      PartialRowStep(m, vals, m.Keys - todo, arr, name);
      arr := Put(arr, m[name] - 1, v);
      assert m.Keys - todo + {name} == m.Keys - (todo - {name});
      todo := todo - {name};
    }
    PartialRowComplete(m, vals, arr);
  }

  /** Every mapped column of the row array holds its field's converted value, or `''`
      when the object lacks the field. */
  lemma RowArrayHoldsMappedFields(data: JsonObject, m: ColumnMap, parseDate: DateParser, name: string)
    requires WellFormedColumnMap(m) && name in m
    ensures |RowArray(data, m, parseDate)| >= m[name]
    ensures RowArray(data, m, parseDate)[m[name] - 1] == Some(Slot(data, name, parseDate))
  {
    var vals := Slots(data, m, parseDate);
    assert vals[name] == Slot(data, name, parseDate);
    ScatterPlacesEveryName(m, vals, name);
  }

  /** A position of the row array is a hole exactly when no name maps to its column. */
  lemma HolesAreUnmappedColumns(data: JsonObject, m: ColumnMap, parseDate: DateParser, p: nat)
    requires WellFormedColumnMap(m)
    requires p < |RowArray(data, m, parseDate)|
    ensures RowArray(data, m, parseDate)[p] == None <==> p + 1 !in m.Values
  {
    ScatterFillsOnlyMappedColumns(m, Slots(data, m, parseDate), p);
  }
}
