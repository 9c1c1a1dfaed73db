/**
 * `handleFilterRows`: validate the condition fields against the raw header texts,
 * project every data row (row 2 on) with those headers, then keep the rows on which
 * every (`and`) or some (any other logic) condition holds.
 */
module Filter {

  import opened Wrappers
  import opened JsValues
  import opened Cells
  import opened Sheets
  import opened Records

  /** One filter condition; `value` is the text typed in the condition. */
  datatype Condition = Condition(field: string, operator: string, value: string)

  /** The failure raised when some condition names a field that is not a header. */
  datatype FilterError = UnknownFields(invalid: seq<string>, available: seq<string>)

  /** The error text the node raises. */
  function ErrorMessage(e: FilterError): string {
    "Filter condition error: The following field(s) do not exist in the worksheet: " + Join(e.invalid, ", ")
      + ". Available fields are: " + Join(e.available, ", ")
  }

  /** `headers[colNumber - 1] = cell.value?.toString() || ''`: the raw, untrimmed value. */
  function FilterHeaders(header: Row): (hdr: seq<string>)
    ensures |hdr| == |header|
  {
    seq(|header|, c requires 0 <= c < |header| => RawText(header[c]))
  }

  /** The non-empty field of every condition that is not a header, in condition order. */
  function InvalidFields(conds: seq<Condition>, hdr: seq<string>): seq<string>
    decreases |conds|
  {
    if conds == [] then []
    else
      var f := conds[|conds| - 1].field;
      InvalidFields(conds[..|conds| - 1], hdr) + (if f != "" && f !in hdr then [f] else [])
  }

  /** `headers.filter(h => h)`. */
  function Available(hdr: seq<string>): seq<string>
    decreases |hdr|
  {
    if hdr == [] then []
    else Available(hdr[..|hdr| - 1]) + (if hdr[|hdr| - 1] != "" then [hdr[|hdr| - 1]] else [])
  }

  /** `rowData[field]`. */
  function FieldValue(r: Record, field: string): Value {
    if field in r then r[field] else Undefined
  }

  /** The operator switch on `val = rowData[c.field]` and `compareVal = c.value`. */
  predicate OperatorHolds(op: string, v: Value, cmp: string) {
    OperatorOn(op, v, JsString(v), cmp, ToNumber(v), ToNumber(Str(cmp)))
  }

  /** The switch itself, given `String(val)` as `s`, `Number(val)` as `a` and
      `Number(compareVal)` as `b`. */
  predicate OperatorOn(op: string, v: Value, s: string, cmp: string, a: Num, b: Num) {
    if op == "equals" then s == cmp
    else if op == "notEquals" then s != cmp
    else if op == "contains" then Includes(s, cmp)
    else if op == "notContains" then !Includes(s, cmp)
    else if op == "greaterThan" then NumLess(b, a)
    else if op == "greaterOrEqual" then NumLessEq(b, a)
    else if op == "lessThan" then NumLess(a, b)
    else if op == "lessOrEqual" then NumLessEq(a, b)
    else if op == "startsWith" then StartsWith(s, cmp)
    else if op == "endsWith" then EndsWith(s, cmp)
    else if op == "isEmpty" then !Truthy(v) || v == Str("") || v == Null || v == Undefined
    else if op == "isNotEmpty" then Truthy(v) && v != Str("") && v != Null && v != Undefined
    else false
  }

  predicate Holds(r: Record, c: Condition) {
    OperatorHolds(c.operator, FieldValue(r, c.field), c.value)
  }

  /** `results.every(r => r)` under `and`, `results.some(r => r)` otherwise. */
  predicate Matches(r: Record, conds: seq<Condition>, logic: string) {
    if logic == "and" then forall i :: 0 <= i < |conds| ==> Holds(r, conds[i])
    else exists i :: 0 <= i < |conds| && Holds(r, conds[i])
  }

  /** The callback given to `allRows.filter`. */
  function MatchesOf(conds: seq<Condition>, logic: string): Record -> bool {
    r => Matches(r, conds, logic)
  }

  /** `records.filter(keep)`. */
  function KeepWhere(records: seq<Record>, keep: Record -> bool): seq<Record>
    decreases |records|
  {
    if records == [] then []
    else
      var r := records[|records| - 1];
      KeepWhere(records[..|records| - 1], keep) + (if keep(r) then [r] else [])
  }

  /** `allRows.filter(...)`. */
  function KeepMatching(records: seq<Record>, conds: seq<Condition>, logic: string): seq<Record> {
    KeepWhere(records, MatchesOf(conds, logic))
  }

  /** What `handleFilterRows` returns or raises. */
  function FilterRowsOf(rows: seq<Row>, conds: seq<Condition>, logic: string): Result<seq<Record>, FilterError> {
    var hdr := FilterHeaders(RowAt(rows, 1));
    var bad := InvalidFields(conds, hdr);
    if |conds| > 0 && |bad| > 0 then Failure(UnknownFields(bad, Available(hdr)))
    else
      var all := Project(hdr, rows, 2, |rows|);
      if |conds| == 0 then Success(all) else Success(KeepMatching(all, conds, logic))
  }

  /** `handleFilterRows(worksheet, conditions, logic)`. */
  method HandleFilterRows(ws: Worksheet, conds: seq<Condition>, logic: string) returns (result: Result<seq<Record>, FilterError>)
    ensures result == FilterRowsOf(ws.rows, conds, logic)
  {
    var hdr := FilterHeaders(RowAt(ws.rows, 1));
    if |conds| > 0 {
      var bad: seq<string> := [];
      var i := 0;
      while i < |conds|
        invariant i <= |conds|
        invariant bad == InvalidFields(conds[..i], hdr)
      {
        assert conds[..i + 1][..i] == conds[..i];
        var f := conds[i].field;
        if f != "" && f !in hdr {
          bad := bad + [f];
        }
        i := i + 1;
      }
      assert conds[..i] == conds;
      if |bad| > 0 {
        return Failure(UnknownFields(bad, Available(hdr)));
      }
    }
    var all: seq<Record> := [];
    var rowNum := 2;
    while rowNum <= |ws.rows|
      invariant 2 <= rowNum <= |ws.rows| + 1 || (rowNum == 2 && |ws.rows| < 2)
      invariant all == Project(hdr, ws.rows, 2, rowNum - 1)
      decreases |ws.rows| - rowNum
    {
      var rowData := ProjectRow(hdr, RowAt(ws.rows, rowNum), rowNum);
      if HasData(rowData) {
        all := all + [rowData];
      }
      rowNum := rowNum + 1;
    }
    if |conds| == 0 {
      return Success(all);
    }
    return Success(KeepMatching(all, conds, logic));
  }

  // ---------- field validation ----------

  /** A field is reported exactly when some condition names it, it is non-empty and it is
      not among the headers. */
  lemma {:induction false} InvalidFieldsAreTheUnknownFields(conds: seq<Condition>, hdr: seq<string>, f: string)
    decreases |conds|
    ensures f in InvalidFields(conds, hdr) <==> f != "" && f !in hdr && exists i :: 0 <= i < |conds| && conds[i].field == f
  {
    if conds != [] {
      var prefix := conds[..|conds| - 1];
      InvalidFieldsAreTheUnknownFields(prefix, hdr, f);
      if exists i :: 0 <= i < |conds| && conds[i].field == f {
        var i :| 0 <= i < |conds| && conds[i].field == f;
        if i < |prefix| {
          assert prefix[i].field == f;
        }
      }
      if exists i :: 0 <= i < |prefix| && prefix[i].field == f {
        var i :| 0 <= i < |prefix| && prefix[i].field == f;
        assert conds[i].field == f;
      }
    }
  }

  /** The available list is the non-empty headers. */
  lemma {:induction false} AvailableAreTheNonEmptyHeaders(hdr: seq<string>, h: string)
    decreases |hdr|
    ensures h in Available(hdr) <==> h != "" && h in hdr
  {
    if hdr != [] {
      var prefix := hdr[..|hdr| - 1];
      AvailableAreTheNonEmptyHeaders(prefix, h);
      assert hdr == prefix + [hdr[|hdr| - 1]];
    }
  }

  /** The filter fails, before any row is looked at, exactly when some condition has a
      non-empty field that is not a header; the error lists those fields. */
  lemma FilterFailsIffUnknownField(rows: seq<Row>, conds: seq<Condition>, logic: string)
    ensures var hdr := FilterHeaders(RowAt(rows, 1));
      FilterRowsOf(rows, conds, logic).Failure? <==>
        exists i :: 0 <= i < |conds| && conds[i].field != "" && conds[i].field !in hdr
    ensures var hdr := FilterHeaders(RowAt(rows, 1));
      FilterRowsOf(rows, conds, logic).Failure? ==>
        FilterRowsOf(rows, conds, logic).error == UnknownFields(InvalidFields(conds, hdr), Available(hdr))
  {
    var hdr := FilterHeaders(RowAt(rows, 1));
    var bad := InvalidFields(conds, hdr);
    if exists i :: 0 <= i < |conds| && conds[i].field != "" && conds[i].field !in hdr {
      var i :| 0 <= i < |conds| && conds[i].field != "" && conds[i].field !in hdr;
      InvalidFieldsAreTheUnknownFields(conds, hdr, conds[i].field);
    }
    if |bad| > 0 {
      InvalidFieldsAreTheUnknownFields(conds, hdr, bad[0]);
    }
  }

  /** The text the failure raises: the invalid fields, then the non-empty headers, each
      joined with ", ". */
  lemma FilterErrorText(rows: seq<Row>, conds: seq<Condition>, logic: string)
    requires FilterRowsOf(rows, conds, logic).Failure?
    ensures var hdr := FilterHeaders(RowAt(rows, 1));
      ErrorMessage(FilterRowsOf(rows, conds, logic).error) ==
        "Filter condition error: The following field(s) do not exist in the worksheet: "
        + Join(InvalidFields(conds, hdr), ", ") + ". Available fields are: " + Join(Available(hdr), ", ")
  {
  }

  // ---------- combination ----------

  /** A record is kept exactly when it is one of the candidates and `keep` accepts it. */
  lemma {:induction false} KeepWhereMembers(records: seq<Record>, keep: Record -> bool, r: Record)
    decreases |records|
    ensures r in KeepWhere(records, keep) <==> r in records && keep(r)
  {
    if records != [] {
      var prefix := records[..|records| - 1];
      KeepWhereMembers(prefix, keep, r);
      assert records == prefix + [records[|records| - 1]];
    }
  }

  /** A record is kept exactly when it is one of the candidates and it matches. */
  lemma KeepMatchingMembers(records: seq<Record>, conds: seq<Condition>, logic: string, r: Record)
    ensures r in KeepMatching(records, conds, logic) <==> r in records && Matches(r, conds, logic)
  {
    KeepWhereMembers(records, MatchesOf(conds, logic), r);
  }

  /** `xs` is `ys` with some elements left out, order kept. */
  predicate SubsequenceOf<T(==)>(xs: seq<T>, ys: seq<T>)
    decreases |ys|
  {
    if xs == [] then true
    else if ys == [] then false
    else if xs[|xs| - 1] == ys[|ys| - 1] then SubsequenceOf(xs[..|xs| - 1], ys[..|ys| - 1])
    else SubsequenceOf(xs, ys[..|ys| - 1])
  }

  lemma {:induction false} KeepWhereIsSubsequence(records: seq<Record>, keep: Record -> bool)
    decreases |records|
    ensures SubsequenceOf(KeepWhere(records, keep), records)
  {
    if records != [] {
      var prefix := records[..|records| - 1];
      KeepWhereIsSubsequence(prefix, keep);
      var kept := KeepWhere(prefix, keep);
      if keep(records[|records| - 1]) {
        assert KeepWhere(records, keep) == kept + [records[|records| - 1]];
        SubsequenceExtend(kept, records);
      } else {
        assert KeepWhere(records, keep) == kept + [] == kept;
        SubsequenceOfDropLast(kept, records);
      }
    }
  }

  lemma KeepMatchingIsSubsequence(records: seq<Record>, conds: seq<Condition>, logic: string)
    ensures SubsequenceOf(KeepMatching(records, conds, logic), records)
  {
    KeepWhereIsSubsequence(records, MatchesOf(conds, logic));
  }

  /** Appending the last element of `ys` to a subsequence of the rest of `ys`. */
  lemma SubsequenceExtend<T>(xs: seq<T>, ys: seq<T>)
    requires ys != [] && SubsequenceOf(xs, ys[..|ys| - 1])
    ensures SubsequenceOf(xs + [ys[|ys| - 1]], ys)
  {
    var out := xs + [ys[|ys| - 1]];
    assert out[..|out| - 1] == xs;
  }

  /** A subsequence of `ys` without its last element is a subsequence of `ys`. */
  lemma {:induction false} SubsequenceOfDropLast<T>(xs: seq<T>, ys: seq<T>)
    requires ys != [] && SubsequenceOf(xs, ys[..|ys| - 1])
    decreases |ys|, 0
    ensures SubsequenceOf(xs, ys)
  {
    if xs != [] && xs[|xs| - 1] == ys[|ys| - 1] {
      SubsequenceDropLastOfBoth(xs, ys[..|ys| - 1]);
    }
  }

  /** Dropping the last element of a subsequence keeps it a subsequence. */
  lemma {:induction false} SubsequenceDropLastOfBoth<T>(xs: seq<T>, ys: seq<T>)
    requires xs != [] && SubsequenceOf(xs, ys)
    decreases |ys|, 1
    ensures SubsequenceOf(xs[..|xs| - 1], ys)
  {
    var ys0 := ys[..|ys| - 1];
    if xs[|xs| - 1] == ys[|ys| - 1] {
      SubsequenceOfDropLast(xs[..|xs| - 1], ys);
    } else {
      SubsequenceDropLastOfBoth(xs, ys0);
      SubsequenceOfDropLast(xs[..|xs| - 1], ys);
    }
  }

  /** The result of a successful filter: with no conditions every data row with data;
      otherwise an order-preserving selection of those rows, holding exactly the ones that
      match under the chosen logic. */
  lemma FilterSelectsMatchingDataRows(rows: seq<Row>, conds: seq<Condition>, logic: string, r: Record)
    requires FilterRowsOf(rows, conds, logic).Success?
    ensures var all := Project(FilterHeaders(RowAt(rows, 1)), rows, 2, |rows|);
      && (conds == [] ==> FilterRowsOf(rows, conds, logic).value == all)
      && SubsequenceOf(FilterRowsOf(rows, conds, logic).value, all)
      && (conds != [] ==> (r in FilterRowsOf(rows, conds, logic).value <==> r in all && Matches(r, conds, logic)))
  {
    var hdr := FilterHeaders(RowAt(rows, 1));
    var all := Project(hdr, rows, 2, |rows|);
    if conds == [] {
      assert FilterRowsOf(rows, conds, logic) == Success(all);
      SubsequenceOfItself(all);
    } else {
      assert |InvalidFields(conds, hdr)| == 0;
      assert FilterRowsOf(rows, conds, logic) == Success(KeepMatching(all, conds, logic));
      KeepMatchingIsSubsequence(all, conds, logic);
      KeepMatchingMembers(all, conds, logic, r);
    }
  }

  lemma {:induction false} SubsequenceOfItself<T>(xs: seq<T>)
    decreases |xs|
    ensures SubsequenceOf(xs, xs)
  {
    if xs != [] {
      SubsequenceOfItself(xs[..|xs| - 1]);
    }
  }

  /** Under `and`, two conditions keep the rows that each of them keeps. */
  lemma AndIntersects(records: seq<Record>, a: Condition, b: Condition, r: Record)
    ensures r in KeepMatching(records, [a, b], "and") <==>
      r in KeepMatching(records, [a], "and") && r in KeepMatching(records, [b], "and")
  {
    KeepMatchingMembers(records, [a, b], "and", r);
    KeepMatchingMembers(records, [a], "and", r);
    KeepMatchingMembers(records, [b], "and", r);
    assert [a][0] == a && [b][0] == b && [a, b][0] == a && [a, b][1] == b;
    assert Matches(r, [a], "and") == Holds(r, a);
    assert Matches(r, [b], "and") == Holds(r, b);
    assert Matches(r, [a, b], "and") <==> Holds(r, a) && Holds(r, b);
  }

  /** Under any other logic, two conditions keep the rows that either of them keeps. */
  lemma OrUnites(records: seq<Record>, a: Condition, b: Condition, logic: string, r: Record)
    requires logic != "and"
    ensures r in KeepMatching(records, [a, b], logic) <==>
      r in KeepMatching(records, [a], logic) || r in KeepMatching(records, [b], logic)
  {
    KeepMatchingMembers(records, [a, b], logic, r);
    KeepMatchingMembers(records, [a], logic, r);
    KeepMatchingMembers(records, [b], logic, r);
    assert [a][0] == a && [b][0] == b && [a, b][0] == a && [a, b][1] == b;
    assert Matches(r, [a], logic) == Holds(r, a);
    assert Matches(r, [b], logic) == Holds(r, b);
    assert Matches(r, [a, b], logic) <==> Holds(r, a) || Holds(r, b);
  }

  // ---------- operators ----------

  /** `notEquals`, `notContains` and `isNotEmpty` are the negations of `equals`,
      `contains` and `isEmpty`; `isEmpty` is exactly falsiness. */
  lemma NegatedOperators(v: Value, cmp: string)
    ensures OperatorHolds("notEquals", v, cmp) == !OperatorHolds("equals", v, cmp)
    ensures OperatorHolds("notContains", v, cmp) == !OperatorHolds("contains", v, cmp)
    ensures OperatorHolds("isNotEmpty", v, cmp) == !OperatorHolds("isEmpty", v, cmp)
    ensures OperatorHolds("isEmpty", v, cmp) == !Truthy(v)
  {
    var s, a, b := JsString(v), ToNumber(v), ToNumber(Str(cmp));
    NotEqualsNegatesEquals(v, s, cmp, a, b);
    NotContainsNegatesContains(v, s, cmp, a, b);
    IsNotEmptyNegatesIsEmpty(v, s, cmp, a, b);
    IsEmptyMeansFalsy(v, s, cmp, a, b);
  }

  lemma NotEqualsNegatesEquals(v: Value, s: string, cmp: string, a: Num, b: Num)
    ensures OperatorOn("notEquals", v, s, cmp, a, b) == !OperatorOn("equals", v, s, cmp, a, b)
  {
  }

  lemma NotContainsNegatesContains(v: Value, s: string, cmp: string, a: Num, b: Num)
    ensures OperatorOn("notContains", v, s, cmp, a, b) == !OperatorOn("contains", v, s, cmp, a, b)
  {
  }

  lemma IsNotEmptyNegatesIsEmpty(v: Value, s: string, cmp: string, a: Num, b: Num)
    ensures OperatorOn("isNotEmpty", v, s, cmp, a, b) == !OperatorOn("isEmpty", v, s, cmp, a, b)
  {
  }

  /** The extra tests of `isEmpty` add nothing to `!val`: the empty string, null and
      undefined are falsy already. */
  lemma IsEmptyMeansFalsy(v: Value, s: string, cmp: string, a: Num, b: Num)
    ensures OperatorOn("isEmpty", v, s, cmp, a, b) == !Truthy(v)
  {
  }

  /** The four comparisons are false when either side is not a number. */
  lemma ComparisonsFailOnNaN(v: Value, cmp: string, op: string)
    requires op == "greaterThan" || op == "greaterOrEqual" || op == "lessThan" || op == "lessOrEqual"
    requires ToNumber(v).NaN? || ToNumber(Str(cmp)).NaN?
    ensures !OperatorHolds(op, v, cmp)
  {
    ComparisonsOnNaNFail(v, JsString(v), cmp, op, ToNumber(v), ToNumber(Str(cmp)));
  }

  lemma ComparisonsOnNaNFail(v: Value, s: string, cmp: string, op: string, a: Num, b: Num)
    requires op == "greaterThan" || op == "greaterOrEqual" || op == "lessThan" || op == "lessOrEqual"
    requires a.NaN? || b.NaN?
    ensures !OperatorOn(op, v, s, cmp, a, b)
  {
    NaNIsUnordered(a, b);
  }

  /** Zero, false, null, the empty string and a missing field are all empty. */
  lemma FalsyValuesAreEmpty(cmp: string)
    ensures OperatorHolds("isEmpty", Int(0), cmp) && OperatorHolds("isEmpty", Bool(false), cmp)
    ensures OperatorHolds("isEmpty", Null, cmp) && OperatorHolds("isEmpty", Str(""), cmp)
    ensures OperatorHolds("isEmpty", Undefined, cmp)
  {
  }

  /** An operator outside the twelve never holds. */
  lemma UnknownOperatorNeverHolds(op: string, v: Value, cmp: string)
    requires op !in {"equals", "notEquals", "contains", "notContains", "greaterThan", "greaterOrEqual",
                     "lessThan", "lessOrEqual", "startsWith", "endsWith", "isEmpty", "isNotEmpty"}
    ensures !OperatorHolds(op, v, cmp)
  {
  }
}
