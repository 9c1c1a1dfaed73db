/**
 * The workbook as a list of named worksheets, and the handlers that change that list:
 * create, delete, rename and copy, with their name rules, plus the worksheet choice the
 * row operations make (the requested name, or the first worksheet when none is given).
 */
module Workbooks {

  import opened Wrappers
  import opened JsValues
  import opened Cells
  import opened Sheets

  /** The sentinel the worksheet picker returns when it could not list the worksheets. */
  const ErrorSentinel: string := "__error__"

  const NoWorksheets: string := "No worksheets found in the workbook"
  const InvalidSelection: string := "Please select a valid worksheet"

  function Quoted(name: string): string {
    "\"" + name + "\""
  }

  function NotFound(name: string): string {
    "Worksheet " + Quoted(name) + " not found"
  }

  function AlreadyExists(name: string): string {
    "Worksheet " + Quoted(name) + " already exists"
  }

  /** The names of the worksheets, in workbook order. */
  function NamesOf(sheets: seq<Worksheet>): (names: seq<string>)
    reads sheets
    ensures |names| == |sheets|
    ensures forall i :: 0 <= i < |sheets| ==> names[i] == sheets[i].name
  {
    if sheets == [] then [] else NamesOf(sheets[..|sheets| - 1]) + [sheets[|sheets| - 1].name]
  }

  /** `workbook.getWorksheet(name)`: the first worksheet with that exact name. */
  function FindSheet(names: seq<string>, name: string): (r: Option<nat>)
    ensures r.Some? ==> r.value < |names| && names[r.value] == name && forall j :: 0 <= j < r.value ==> names[j] != name
    ensures r.None? <==> name !in names
    decreases |names|
  {
    if names == [] then None
    else if names[0] == name then Some(0)
    else
      match FindSheet(names[1..], name)
      case Some(i) => Some(i + 1)
      case None => None
  }

  /** The worksheet the row operations work on: the requested one, or the first worksheet
      when the request is empty or the sentinel. */
  function ResolveSheetName(names: seq<string>, requested: string): (r: Result<nat, string>)
    ensures r.Success? ==> r.value < |names|
  {
    var name := if requested == ErrorSentinel then "" else requested;
    if name == "" && |names| == 0 then Failure(NoWorksheets)
    else
      var target := if name == "" then names[0] else name;
      match FindSheet(names, target)
      case Some(i) => Success(i)
      case None => Failure(NotFound(target))
  }

  /** Without a usable name the first worksheet is chosen, or the call fails on an empty
      workbook; with a name, the first worksheet of that name is chosen, or the call fails
      naming it. */
  lemma ResolveSheetNameCases(names: seq<string>, requested: string)
    ensures (requested == "" || requested == ErrorSentinel) && |names| == 0 ==>
      ResolveSheetName(names, requested) == Failure(NoWorksheets)
    ensures (requested == "" || requested == ErrorSentinel) && |names| > 0 ==>
      ResolveSheetName(names, requested) == Success(0)
    ensures requested != "" && requested != ErrorSentinel && requested !in names ==>
      ResolveSheetName(names, requested) == Failure(NotFound(requested))
    ensures requested != "" && requested != ErrorSentinel && requested in names ==>
      var r := ResolveSheetName(names, requested);
      && r.Success?
      && names[r.value] == requested
      && forall j :: 0 <= j < r.value ==> names[j] != requested
  {
  }

  /** The source-name checks shared by delete, rename and copy. */
  function SelectSource(names: seq<string>, name: string): (r: Result<nat, string>)
    ensures name == "" || name == ErrorSentinel ==> r == Failure(InvalidSelection)
    ensures name != "" && name != ErrorSentinel && name !in names ==> r == Failure(NotFound(name))
    ensures r.Success? ==> r.value < |names| && names[r.value] == name
    ensures r.Success? ==> forall j :: 0 <= j < r.value ==> names[j] != name
    ensures name != "" && name != ErrorSentinel && name in names ==> r.Success?
  {
    if name == ErrorSentinel || name == "" then Failure(InvalidSelection)
    else
      match FindSheet(names, name)
      case Some(i) => Success(i)
      case None => Failure(NotFound(name))
  }

  /** The initial rows of a created worksheet: the keys of the first object as headers, then
      one row per object holding its value under each header, or `''` when that is null or
      missing. */
  function InitialRows(initial: seq<JsonObject>): (rows: seq<Row>)
    ensures |initial| == 0 ==> rows == []
    ensures |initial| > 0 ==> |rows| == |initial| + 1
  {
    if |initial| == 0 then []
    else
      var headers := KeysOf(initial[0]);
      [HeaderRow(headers)] + seq(|initial|, i requires 0 <= i < |initial| => DataRow(headers, initial[i]))
  }

  function HeaderRow(headers: seq<string>): (row: Row)
    ensures |row| == |headers|
    ensures forall h :: 0 <= h < |headers| ==> row[h] == Plain(Str(headers[h]))
  {
    seq(|headers|, h requires 0 <= h < |headers| => Plain(Str(headers[h])))
  }

  /** `headers.map((header) => row[header] ?? '')`. */
  function DataRow(headers: seq<string>, obj: JsonObject): (row: Row)
    ensures |row| == |headers|
  {
    seq(|headers|, h requires 0 <= h < |headers| =>
      var v := Lookup(obj, headers[h]);
      Plain(if v.Null? || v.Undefined? then Str("") else v))
  }

  /** Row 1 of a created worksheet names the keys of the first object, and each later row
      holds its object's value in the column of that key, `''` standing for null or missing. */
  lemma InitialRowsLayout(initial: seq<JsonObject>, i: nat, h: nat)
    requires i < |initial| && h < |initial[0]|
    ensures RowAt(InitialRows(initial), 1)[h] == Plain(Str(initial[0][h].0))
    ensures var v := Lookup(initial[i], initial[0][h].0);
      |RowAt(InitialRows(initial), i + 2)| == |initial[0]| &&
      RowAt(InitialRows(initial), i + 2)[h] == Plain(if v.Null? || v.Undefined? then Str("") else v)
  {
  }

  /** A copy of the rows holding what each cell reads as, so formulas, hyperlinks, rich text
      and error cells become plain values. */
  function CopyRows(rows: seq<Row>): (copy: seq<Row>)
    ensures |copy| == |rows|
    ensures forall r :: 0 <= r < |rows| ==> |copy[r]| == |rows[r]|
  {
    seq(|rows|, r requires 0 <= r < |rows| =>
      seq(|rows[r]|, c requires 0 <= c < |rows[r]| => Plain(GetCellValue(rows[r][c]))))
  }

  /** The copy reads exactly like its source, cell by cell. */
  lemma CopyReadsLikeSource(rows: seq<Row>, r: int, c: int)
    ensures GetCellValue(CellAt(RowAt(CopyRows(rows), r), c)) == GetCellValue(CellAt(RowAt(rows, r), c))
  {
    if 1 <= r <= |rows| && 0 <= c < |rows[r - 1]| {
      ReadingIsIdempotent(rows[r - 1][c]);
    }
  }

  /** Copying a copy gives the same rows again. */
  lemma CopyOfCopyIsCopy(rows: seq<Row>)
    ensures CopyRows(CopyRows(rows)) == CopyRows(rows)
  {
    var once := CopyRows(rows);
    forall r | 0 <= r < |rows|
      ensures CopyRows(once)[r] == once[r]
    {
      forall c | 0 <= c < |rows[r]|
        ensures CopyRows(once)[r][c] == once[r][c]
      {
        ReadingIsIdempotent(rows[r][c]);
      }
    }
  }

  ghost predicate Distinct(names: seq<string>) {
    forall i, j :: 0 <= i < j < |names| ==> names[i] != names[j]
  }

  lemma DistinctAppend(names: seq<string>, name: string)
    requires Distinct(names) && name !in names
    ensures Distinct(names + [name])
  {
  }

  lemma DistinctRemove(names: seq<string>, i: nat)
    requires Distinct(names) && i < |names|
    ensures Distinct(names[..i] + names[i + 1..])
  {
    var rest := names[..i] + names[i + 1..];
    forall a, b | 0 <= a < b < |rest|
      ensures rest[a] != rest[b]
    {
      var a' := if a < i then a else a + 1;
      var b' := if b < i then b else b + 1;
      assert rest[a] == names[a'] && rest[b] == names[b'];
    }
  }

  lemma DistinctReplace(names: seq<string>, i: nat, name: string)
    requires Distinct(names) && i < |names| && name !in names
    ensures Distinct(names[i := name])
  {
  }

  datatype CreateResult = CreateResult(sheetName: string, rowCount: nat, message: string)
  datatype DeleteResult = DeleteResult(sheetName: string, message: string)
  datatype RenameResult = RenameResult(oldName: string, newName: string, message: string)
  datatype CopyResult = CopyResult(sourceName: string, newName: string, rowCount: nat, message: string)

  class Workbook {
    var sheets: seq<Worksheet>

    /** No two worksheets share a name (and so no worksheet is listed twice). */
    ghost predicate Valid()
      reads this, sheets
    {
      Distinct(NamesOf(sheets))
    }

    function Names(): (names: seq<string>)
      reads this, sheets
      ensures |names| == |sheets|
      ensures forall i :: 0 <= i < |sheets| ==> names[i] == sheets[i].name
    {
      NamesOf(sheets)
    }

    constructor ()
      ensures sheets == [] && Valid()
    {
      sheets := [];
    }

    /** The worksheet the row operations use, at the position `ResolveSheetName` picks. */
    method RowSheet(requested: string) returns (res: Result<Worksheet, string>)
      ensures var choice := ResolveSheetName(Names(), requested);
        && (choice.Failure? ==> res == Failure(choice.error))
        && (choice.Success? ==> res == Success(sheets[choice.value]))
    {
      var names := NamesOf(sheets);
      var choice := ResolveSheetName(names, requested);
      if choice.Failure? {
        return Failure(choice.error);
      }
      return Success(sheets[choice.value]);
    }

    /** `handleCreateWorksheet`: a new last worksheet holding the initial rows. */
    method CreateWorksheet(newName: string, initial: seq<JsonObject>) returns (res: Result<CreateResult, string>)
      requires Valid()
      modifies this
      ensures Valid()
      ensures newName in old(Names()) ==> res == Failure(AlreadyExists(newName)) && sheets == old(sheets)
      ensures newName !in old(Names()) ==>
        && |sheets| == |old(sheets)| + 1
        && sheets[..|old(sheets)|] == old(sheets)
        && fresh(sheets[|old(sheets)|])
        && sheets[|old(sheets)|].rows == InitialRows(initial)
        && Names() == old(Names()) + [newName]
        && res == Success(CreateResult(newName, |InitialRows(initial)|,
             "Worksheet " + Quoted(newName) + " created successfully"))
    {
      var names := NamesOf(sheets);
      if FindSheet(names, newName).Some? {
        return Failure(AlreadyExists(newName));
      }
      var rows := InitialRows(initial);
      var ws := new Worksheet(newName, rows);
      sheets := sheets + [ws];
      assert NamesOf(sheets) == names + [newName];
      DistinctAppend(names, newName);
      res := Success(CreateResult(newName, |rows|, "Worksheet " + Quoted(newName) + " created successfully"));
    }

    /** `handleDeleteWorksheet`: removes the worksheet of that name. */
    method DeleteWorksheet(name: string) returns (res: Result<DeleteResult, string>)
      requires Valid()
      modifies this
      ensures Valid()
      ensures var choice := SelectSource(old(Names()), name);
        && (choice.Failure? ==> res == Failure(choice.error) && sheets == old(sheets))
        && (choice.Success? ==>
             && sheets == old(sheets[..choice.value] + sheets[choice.value + 1..])
             && Names() == old(Names()[..choice.value] + Names()[choice.value + 1..])
             && res == Success(DeleteResult(name, "Worksheet " + Quoted(name) + " deleted successfully")))
    {
      var names := NamesOf(sheets);
      var choice := SelectSource(names, name);
      if choice.Failure? {
        return Failure(choice.error);
      }
      var i := choice.value;
      sheets := sheets[..i] + sheets[i + 1..];
      assert NamesOf(sheets) == names[..i] + names[i + 1..];
      DistinctRemove(names, i);
      res := Success(DeleteResult(name, "Worksheet " + Quoted(name) + " deleted successfully"));
    }

    /** `handleRenameWorksheet`: gives the worksheet a name no other worksheet has. */
    method RenameWorksheet(name: string, newName: string) returns (res: Result<RenameResult, string>)
      requires Valid()
      modifies sheets
      ensures Valid()
      ensures sheets == old(sheets)
      ensures forall j :: 0 <= j < |sheets| ==> sheets[j].rows == old(sheets[j].rows)
      ensures var choice := SelectSource(old(Names()), name);
        && (choice.Failure? ==> res == Failure(choice.error) && Names() == old(Names()))
        && (choice.Success? && newName in old(Names()) ==> res == Failure(AlreadyExists(newName)) && Names() == old(Names()))
        && (choice.Success? && newName !in old(Names()) ==>
             && Names() == old(Names())[choice.value := newName]
             && res == Success(RenameResult(name, newName,
                  "Worksheet renamed from " + Quoted(name) + " to " + Quoted(newName) + " successfully")))
    {
      var names := NamesOf(sheets);
      var choice := SelectSource(names, name);
      if choice.Failure? {
        return Failure(choice.error);
      }
      if FindSheet(names, newName).Some? {
        return Failure(AlreadyExists(newName));
      }
      var i := choice.value;
      assert forall j :: 0 <= j < |sheets| && j != i ==> sheets[j] != sheets[i];
      sheets[i].name := newName;
      assert NamesOf(sheets) == names[i := newName];
      DistinctReplace(names, i, newName);
      res := Success(RenameResult(name, newName,
        "Worksheet renamed from " + Quoted(name) + " to " + Quoted(newName) + " successfully"));
    }

    /** `handleCopyWorksheet`: a new last worksheet holding what the source's cells read as. */
    method CopyWorksheet(name: string, newName: string) returns (res: Result<CopyResult, string>)
      requires Valid()
      modifies this
      ensures Valid()
      ensures var choice := SelectSource(old(Names()), name);
        && (choice.Failure? ==> res == Failure(choice.error) && sheets == old(sheets))
        && (choice.Success? && newName in old(Names()) ==> res == Failure(AlreadyExists(newName)) && sheets == old(sheets))
        && (choice.Success? && newName !in old(Names()) ==>
             && |sheets| == |old(sheets)| + 1
             && sheets[..|old(sheets)|] == old(sheets)
             && fresh(sheets[|old(sheets)|])
             && sheets[|old(sheets)|].rows == CopyRows(old(sheets[choice.value].rows))
             && Names() == old(Names()) + [newName]
             && res == Success(CopyResult(name, newName, |old(sheets[choice.value].rows)|,
                  "Worksheet " + Quoted(name) + " copied to " + Quoted(newName) + " successfully")))
    {
      var names := NamesOf(sheets);
      var choice := SelectSource(names, name);
      if choice.Failure? {
        return Failure(choice.error);
      }
      if FindSheet(names, newName).Some? {
        return Failure(AlreadyExists(newName));
      }
      var source := sheets[choice.value];
      var rows := CopyRows(source.rows);
      var ws := new Worksheet(newName, rows);
      sheets := sheets + [ws];
      assert NamesOf(sheets) == names + [newName];
      DistinctAppend(names, newName);
      res := Success(CopyResult(name, newName, |rows|,
        "Worksheet " + Quoted(name) + " copied to " + Quoted(newName) + " successfully"));
    }
  }
}
