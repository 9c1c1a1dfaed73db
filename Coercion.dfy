/**
 * `convertValue`: the fixed-priority chain that turns a JSON field value into the most
 * specific cell value before it is written to a worksheet.
 */
module Coercion {

  import opened Wrappers
  import opened JsValues

  /** What `new Date(text)` yields for a text that passed the ISO pattern: `None` when the
      resulting Date is invalid (its time is NaN). */
  type DateParser = string -> Option<JsDate>

  /** `^-?\d+$` */
  predicate IsIntegerText(t: string) {
    if |t| > 0 && t[0] == '-' then |t| > 1 && AllDigits(t[1..]) else |t| > 0 && AllDigits(t)
  }

  /** `^-?\d*\.\d+$` */
  predicate IsDecimalText(t: string) {
    var body := if |t| > 0 && t[0] == '-' then t[1..] else t;
    var p := IndexOfAny(body, '.', '.');
    p < |body| && AllDigits(body[..p]) && |body| - p >= 2 && AllDigits(body[p + 1..])
  }

  /** `parseInt(t, 10)` of a text matching the integer pattern. */
  function IntegerValue(t: string): int
    requires IsIntegerText(t)
  {
    if t[0] == '-' then -(DigitsValue(t[1..]) as int) else DigitsValue(t) as int
  }

  /** `parseFloat(t)` of a text matching the decimal pattern, kept exact as
      `mantissa / 10^digits-after-the-point`. */
  function DecimalValue(t: string): Value
    requires IsDecimalText(t)
  {
    var neg := t[0] == '-';
    var body := if neg then t[1..] else t;
    var p := IndexOfAny(body, '.', '.');
    var digits := body[..p] + body[p + 1..];
    DigitsAroundThePoint(body, p);
    var m := DigitsValue(digits) as int;
    Dec(if neg then -m else m, |body| - p - 1)
  }

  /** The digits before and after the point together are digits. */
  lemma DigitsAroundThePoint(body: string, p: nat)
    requires p < |body| && AllDigits(body[..p]) && AllDigits(body[p + 1..])
    ensures AllDigits(body[..p] + body[p + 1..])
  {
    var digits := body[..p] + body[p + 1..];
    forall i | 0 <= i < |digits|
      ensures IsDigit(digits[i])
    {
      if i < p {
        assert digits[i] == body[..p][i];
      } else {
        assert digits[i] == body[p + 1..][i - p];
      }
    }
  }

  predicate DigitsAt(t: string, from: nat, count: nat) {
    from + count <= |t| && AllDigits(t[from..from + count])
  }

  /** `(Z|[+-]\d{2}:?\d{2})?` */
  predicate IsZoneText(z: string) {
    z == "" || z == "Z"
    || (|z| == 5 && (z[0] == '+' || z[0] == '-') && DigitsAt(z, 1, 4))
    || (|z| == 6 && (z[0] == '+' || z[0] == '-') && DigitsAt(z, 1, 2) && z[3] == ':' && DigitsAt(z, 4, 2))
  }

  /** `(\.\d{1,3})?` followed by the zone. */
  predicate IsFractionAndZone(x: string) {
    IsZoneText(x)
    || (|x| >= 2 && x[0] == '.' && DigitsAt(x, 1, 1) && IsZoneText(x[2..]))
    || (|x| >= 3 && x[0] == '.' && DigitsAt(x, 1, 2) && IsZoneText(x[3..]))
    || (|x| >= 4 && x[0] == '.' && DigitsAt(x, 1, 3) && IsZoneText(x[4..]))
  }

  /** `T\d{2}:\d{2}(:\d{2}(\.\d{1,3})?)?(Z|[+-]\d{2}:?\d{2})?` after the `T`. */
  predicate IsTimeText(u: string) {
    |u| >= 5 && DigitsAt(u, 0, 2) && u[2] == ':' && DigitsAt(u, 3, 2)
    && (IsZoneText(u[5..])
        || (|u| >= 8 && u[5] == ':' && DigitsAt(u, 6, 2) && IsFractionAndZone(u[8..])))
  }

  /** The ISO 8601 subset `^\d{4}-\d{2}-\d{2}(T…)?$`: a calendar date in extended format
      (ISO 8601:2004 section 4.1.2.2), optionally with a time of day and zone designator
      (section 4.3.2). */
  predicate IsIsoDateText(t: string) {
    |t| >= 10 && DigitsAt(t, 0, 4) && t[4] == '-' && DigitsAt(t, 5, 2) && t[7] == '-' && DigitsAt(t, 8, 2)
    && (|t| == 10 || (t[10] == 'T' && IsTimeText(t[11..])))
  }

  /** `convertValue`. The string results are always the untrimmed input. */
  function ConvertValue(v: Value, parseDate: DateParser): (r: Value)
    ensures !r.Undefined?
    ensures r.Str? ==> r == v
    ensures !v.Str? && !v.Undefined? ==> r == v
  {
    if v.Null? || v.Undefined? then Null
    else if !v.Str? then v
    else ConvertText(v.s, parseDate)
  }

  /** The string rules: blank or "null", then the two boolean words, then the patterns. */
  function ConvertText(s: string, parseDate: DateParser): (r: Value)
    ensures !r.Undefined? && (r.Str? ==> r == Str(s))
  {
    var t := Trim(s);
    var lower := LowerAscii(t);
    if t == "" || lower == "null" then Null
    else if lower == "true" then Bool(true)
    else if lower == "false" then Bool(false)
    else ConvertPattern(s, t, parseDate)
  }

  /** The integer, decimal and ISO date patterns, tried on the trimmed text `t` of `s`. */
  function ConvertPattern(s: string, t: string, parseDate: DateParser): (r: Value)
    ensures !r.Undefined? && (r.Str? ==> r == Str(s))
  {
    if IsIntegerText(t) then Int(IntegerValue(t))
    else if IsDecimalText(t) then DecimalValue(t)
    else if IsIsoDateText(t) && parseDate(t).Some? then Date(parseDate(t).value)
    else Str(s)
  }

  // ---------- properties ----------

  /** Null, undefined, blank, "null" (any case) and the two boolean words, with the
      boolean words and null taking precedence over every number or date check. */
  lemma CoercesNullsAndBooleans(s: string, parseDate: DateParser)
    ensures ConvertValue(Null, parseDate) == Null && ConvertValue(Undefined, parseDate) == Null
    ensures Trim(s) == "" ==> ConvertValue(Str(s), parseDate) == Null
    ensures LowerAscii(Trim(s)) == "null" ==> ConvertValue(Str(s), parseDate) == Null
    ensures LowerAscii(Trim(s)) == "true" ==> ConvertValue(Str(s), parseDate) == Bool(true)
    ensures LowerAscii(Trim(s)) == "false" ==> ConvertValue(Str(s), parseDate) == Bool(false)
  {
    var t := Trim(s);
    var lower := LowerAscii(t);
    if t == "" || lower == "null" {
      assert ConvertText(s, parseDate) == Null;
    } else if lower == "true" {
      assert ConvertText(s, parseDate) == Bool(true);
    } else if lower == "false" {
      assert ConvertText(s, parseDate) == Bool(false);
    }
  }

  /** The empty text and a text of spaces both become null. */
  lemma BlankExample(parseDate: DateParser)
    ensures ConvertValue(Str(""), parseDate) == Null
    ensures ConvertValue(Str("   "), parseDate) == Null
  {
    assert TrimStart("   ") == TrimStart("  ") == TrimStart(" ") == "";
    CoercesNullsAndBooleans("   ", parseDate);
  }

  /** The integer pattern wins over the decimal and date patterns, and a text that
      matches no rule comes back untrimmed. */
  lemma CoercesNumbersDatesAndText(s: string, parseDate: DateParser)
    requires var t := Trim(s); t != "" && LowerAscii(t) != "null" && LowerAscii(t) != "true" && LowerAscii(t) != "false"
    ensures IsIntegerText(Trim(s)) ==> ConvertValue(Str(s), parseDate) == Int(IntegerValue(Trim(s)))
    ensures !IsIntegerText(Trim(s)) && IsDecimalText(Trim(s)) ==> ConvertValue(Str(s), parseDate) == DecimalValue(Trim(s))
    ensures !IsIntegerText(Trim(s)) && !IsDecimalText(Trim(s)) && IsIsoDateText(Trim(s)) && parseDate(Trim(s)).Some?
            ==> ConvertValue(Str(s), parseDate) == Date(parseDate(Trim(s)).value)
    ensures !IsIntegerText(Trim(s)) && !IsDecimalText(Trim(s)) && !(IsIsoDateText(Trim(s)) && parseDate(Trim(s)).Some?)
            ==> ConvertValue(Str(s), parseDate) == Str(s)
  {
  }

  /** Converting an already converted value changes nothing. */
  lemma ConvertIsIdempotent(v: Value, parseDate: DateParser)
    ensures ConvertValue(ConvertValue(v, parseDate), parseDate) == ConvertValue(v, parseDate)
  {
  }

  lemma TrimOfUnpadded(t: string)
    requires |t| > 0 && !IsJsWhitespace(t[0]) && !IsJsWhitespace(t[|t| - 1])
    ensures Trim(t) == t
  {
  }

  /** A text ending in a digit is none of the words "null", "true" and "false". */
  lemma EndsInDigitIsNoWord(t: string)
    requires |t| > 0 && IsDigit(t[|t| - 1])
    ensures LowerAscii(t) != "null" && LowerAscii(t) != "true" && LowerAscii(t) != "false"
  {
    var lower := LowerAscii(t);
    assert lower[|t| - 1] == t[|t| - 1];
  }

  /** The digits of a natural number start and end with a digit. */
  lemma NatTextEnds(n: nat)
    ensures var d := NatToString(n); IsDigit(d[0]) && IsDigit(d[|d| - 1])
  {
  }

  /** The text JavaScript shows for an integer is its own trim, matches the integer
      pattern with the integer as value, and is none of the words. */
  lemma IntegerTextShape(i: int)
    ensures var t := IntToString(i);
      && Trim(t) == t && IsIntegerText(t) && IntegerValue(t) == i
      && LowerAscii(t) != "null" && LowerAscii(t) != "true" && LowerAscii(t) != "false"
  {
    var t := IntToString(i);
    var digits := NatToString(if i < 0 then -i else i);
    NatToStringRoundTrip(if i < 0 then -i else i);
    NatTextEnds(if i < 0 then -i else i);
    if i < 0 {
      assert t == "-" + digits;
      assert t[1..] == digits;
      assert t[|t| - 1] == digits[|digits| - 1];
    } else {
      assert t == digits;
    }
    TrimOfUnpadded(t);
    EndsInDigitIsNoWord(t);
  }

  /** Writing an integer as JavaScript shows it and converting the text gives the integer back. */
  lemma {:induction false} IntegerTextRoundTrip(i: int, parseDate: DateParser)
    ensures ConvertValue(Str(IntToString(i)), parseDate) == Int(i)
  {
    IntegerTextShape(i);
    CoercesNumbersDatesAndText(IntToString(i), parseDate);
  }
}
