/**
 * JavaScript values as they pass between the node's JSON input and worksheet cells,
 * and the three JavaScript conversions the node relies on: truthiness, `String(v)`
 * and `Number(v)`, plus `String.prototype.trim` and the string tests used by filters.
 */
module JsValues {

  import opened Wrappers

  /** A valid JavaScript Date: its `getTime()` in milliseconds and the text `String(date)`
      renders (that text depends on the host's time zone, so it is carried, not computed). */
  datatype JsDate = JsDate(time: int, text: string)

  /** The values a cell or a JSON field can hold. A JavaScript number is either an
      integer or a finite decimal `mantissa / 10^scale`. */
  datatype Value =
    | Undefined
    | Null
    | Bool(b: bool)
    | Int(i: int)
    | Dec(mantissa: int, scale: nat)
    | Date(date: JsDate)
    | Str(s: string)

  /** The result of JavaScript's `Number(v)`: NaN, an infinity or a finite (exact) number. */
  datatype Num = NaN | PosInf | NegInf | Fin(r: real)

  // ---------- truthiness ----------

  /** JavaScript truthiness: undefined, null, false, 0, -0 and "" are falsy. */
  predicate Truthy(v: Value) {
    match v
    case Undefined => false
    case Null => false
    case Bool(b) => b
    case Int(i) => i != 0
    case Dec(m, _) => m != 0
    case Date(_) => true
    case Str(s) => s != ""
  }

  // ---------- String(v) ----------

  function Pow10(k: nat): (p: nat)
    ensures p >= 1
  {
    if k == 0 then 1 else 10 * Pow10(k - 1)
  }

  function DigitChar(d: nat): char
    requires d < 10
  {
    "0123456789"[d]
  }

  /** Decimal digits of a natural number, most significant first, no leading zeros. */
  function NatToString(n: nat): (s: string)
    ensures |s| >= 1
    ensures forall i :: 0 <= i < |s| ==> IsDigit(s[i])
    decreases n
  {
    if n < 10 then [DigitChar(n)] else NatToString(n / 10) + [DigitChar(n % 10)]
  }

  function IntToString(i: int): string {
    if i < 0 then "-" + NatToString(-i) else NatToString(i)
  }

  /** Removes trailing zeros of the fraction: 2.50 is shown as 2.5 and 3.0 as 3. */
  function Normalize(m: int, s: nat): (r: (int, nat))
    ensures r.1 <= s
    decreases s
  {
    if s > 0 && m % 10 == 0 then Normalize(m / 10, s - 1) else (m, s)
  }

  function ZeroPadded(n: nat, width: nat): (t: string)
    ensures |t| >= width
  {
    var t := NatToString(n);
    if |t| >= width then t else seq(width - |t|, _ => '0') + t
  }

  /** `a / 10^k` written with exactly `k` fraction digits (and at least one whole digit). */
  function FixedPoint(a: nat, k: nat): string {
    var t := ZeroPadded(a, k + 1);
    t[..|t| - k] + "." + t[|t| - k..]
  }

  /** How JavaScript shows the number `m / 10^s` (for magnitudes where it uses plain notation). */
  function DecimalToString(m: int, s: nat): string {
    var r := Normalize(m, s);
    if r.1 == 0 then IntToString(r.0)
    else if r.0 < 0 then "-" + FixedPoint(-r.0, r.1)
    else FixedPoint(r.0, r.1)
  }

  /** JavaScript's `String(v)` (and `v.toString()` for the non-null values). */
  function JsString(v: Value): string {
    match v
    case Undefined => "undefined"
    case Null => "null"
    case Bool(b) => if b then "true" else "false"
    case Int(i) => IntToString(i)
    case Dec(m, s) => DecimalToString(m, s)
    case Date(d) => d.text
    case Str(s) => s
  }

  // ---------- trim and character classes ----------

  predicate IsDigit(c: char) {
    '0' <= c <= '9'
  }

  predicate AllDigits(s: string) {
    forall i :: 0 <= i < |s| ==> IsDigit(s[i])
  }

  /** ECMAScript WhiteSpace and LineTerminator code points (the Zs category written out),
      which `trim()` removes and `Number(s)` ignores around a number. */
  predicate IsJsWhitespace(c: char) {
    c == '\t' || c == '\n' || c == '\U{B}' || c == '\U{C}' || c == '\r' || c == ' '
    || c == '\U{A0}' || c == '\U{1680}' || ('\U{2000}' <= c <= '\U{200A}')
    || c == '\U{2028}' || c == '\U{2029}' || c == '\U{202F}' || c == '\U{205F}'
    || c == '\U{3000}' || c == '\U{FEFF}'
  }

  function TrimStart(s: string): (t: string)
    ensures |t| <= |s|
    ensures t == s[|s| - |t|..]
    ensures t == [] || !IsJsWhitespace(t[0])
  {
    if |s| > 0 && IsJsWhitespace(s[0]) then TrimStart(s[1..]) else s
  }

  function TrimEnd(s: string): (t: string)
    ensures |t| <= |s|
    ensures t == s[..|t|]
    ensures t == [] || !IsJsWhitespace(t[|t| - 1])
  {
    if |s| > 0 && IsJsWhitespace(s[|s| - 1]) then TrimEnd(s[..|s| - 1]) else s
  }

  /** `String.prototype.trim`. */
  function Trim(s: string): string {
    TrimEnd(TrimStart(s))
  }

  /** ASCII lower-casing. For comparing with the all-ASCII words "null", "true" and
      "false" this agrees with JavaScript's full `toLowerCase`, since no other code
      point lower-cases to one of their letters. */
  function LowerAscii(s: string): (t: string)
    ensures |t| == |s|
  {
    seq(|s|, i requires 0 <= i < |s| => if 'A' <= s[i] <= 'Z' then (s[i] as int + 32) as char else s[i])
  }

  // ---------- string tests used by filter operators ----------

  predicate StartsWith(s: string, prefix: string) {
    |prefix| <= |s| && s[..|prefix|] == prefix
  }

  predicate EndsWith(s: string, suffix: string) {
    |suffix| <= |s| && s[|s| - |suffix|..] == suffix
  }

  /** `s.includes(part)`. */
  predicate Includes(s: string, part: string)
    decreases |s|
  {
    StartsWith(s, part) || (|s| > 0 && Includes(s[1..], part))
  }

  // ---------- Number(v) ----------

  function DigitsValue(s: string): nat
    requires AllDigits(s)
    decreases |s|
  {
    if s == [] then 0 else 10 * DigitsValue(s[..|s| - 1]) + (s[|s| - 1] as int - '0' as int)
  }

  function RadixDigit(c: char): int {
    if '0' <= c <= '9' then c as int - '0' as int
    else if 'a' <= c <= 'z' then c as int - 'a' as int + 10
    else if 'A' <= c <= 'Z' then c as int - 'A' as int + 10
    else 99
  }

  /** Value of a non-empty digit string in base 2, 8 or 16 (`0b…`, `0o…`, `0x…`). */
  function RadixValue(s: string, base: nat): Option<nat>
    decreases |s|
  {
    if s == [] then None
    else
      var d := RadixDigit(s[|s| - 1]);
      if !(0 <= d < base) then None
      else if |s| == 1 then Some(d)
      else match RadixValue(s[..|s| - 1], base)
        case None => None
        case Some(h) => Some(h * base + d)
  }

  function Scale(x: real, e: int): real
    decreases if e < 0 then -e else e
  {
    if e == 0 then x else if e > 0 then Scale(x * 10.0, e - 1) else Scale(x / 10.0, e + 1)
  }

  /** A signed exponent: optional sign, then one or more digits. */
  function ExponentValue(s: string): Option<int> {
    if |s| > 0 && (s[0] == '+' || s[0] == '-') then
      (if |s| > 1 && AllDigits(s[1..]) then
         Some(if s[0] == '-' then -(DigitsValue(s[1..]) as int) else DigitsValue(s[1..]) as int)
       else None)
    else if |s| > 0 && AllDigits(s) then Some(DigitsValue(s) as int)
    else None
  }

  function IndexOfAny(s: string, a: char, b: char): (k: nat)
    ensures k <= |s|
    ensures forall i :: 0 <= i < k ==> s[i] != a && s[i] != b
    ensures k < |s| ==> s[k] == a || s[k] == b
    decreases |s|
  {
    if s == [] then 0 else if s[0] == a || s[0] == b then 0 else 1 + IndexOfAny(s[1..], a, b)
  }

  /** `digits [. digits]`, `digits .` or `. digits`, without sign or exponent. */
  function MantissaValue(s: string): Option<real> {
    var p := IndexOfAny(s, '.', '.');
    var whole := s[..p];
    var frac := if p < |s| then s[p + 1..] else "";
    if AllDigits(whole) && AllDigits(frac) && (|whole| > 0 || |frac| > 0) then
      Some((DigitsValue(whole + frac) as real) / (Pow10(|frac|) as real))
    else None
  }

  /** ECMAScript StrUnsignedDecimalLiteral other than Infinity. */
  function UnsignedDecimalValue(s: string): Option<real> {
    var e := IndexOfAny(s, 'e', 'E');
    match MantissaValue(s[..e])
    case None => None
    case Some(m) =>
      if e == |s| then Some(m)
      else match ExponentValue(s[e + 1..])
        case None => None
        case Some(x) => Some(Scale(m, x))
  }

  /** `Number(s)` for a string: surrounding whitespace ignored, empty means 0,
      `Infinity` with an optional sign, `0x`/`0o`/`0b` integers, or a decimal literal
      with optional sign, fraction and exponent; anything else is NaN. */
  function StringToNumber(s: string): Num {
    var t := Trim(s);
    if t == "" then Fin(0.0)
    else if t == "Infinity" || t == "+Infinity" then PosInf
    else if t == "-Infinity" then NegInf
    else if |t| > 2 && t[0] == '0' && (t[1] in "xXoObB") then
      var base := if t[1] in "xX" then 16 else if t[1] in "oO" then 8 else 2;
      match RadixValue(t[2..], base)
      case None => NaN
      case Some(n) => Fin(n as real)
    else
      var neg := t[0] == '-';
      var body := if t[0] == '-' || t[0] == '+' then t[1..] else t;
      match UnsignedDecimalValue(body)
      case None => NaN
      case Some(r) => Fin(if neg then -r else r)
  }

  /** JavaScript's `Number(v)`. */
  function ToNumber(v: Value): Num {
    match v
    case Undefined => NaN
    case Null => Fin(0.0)
    case Bool(b) => Fin(if b then 1.0 else 0.0)
    case Int(i) => Fin(i as real)
    case Dec(m, s) => Fin((m as real) / (Pow10(s) as real))
    case Date(d) => Fin(d.time as real)
    case Str(s) => StringToNumber(s)
  }

  /** JavaScript `a < b` on numbers: false whenever either side is NaN. */
  predicate NumLess(a: Num, b: Num) {
    match a
    case NaN => false
    case PosInf => false
    case NegInf => b.PosInf? || b.Fin?
    case Fin(x) => b.PosInf? || (b.Fin? && x < b.r)
  }

  /** JavaScript `a <= b` on numbers: false whenever either side is NaN. */
  predicate NumLessEq(a: Num, b: Num) {
    !a.NaN? && !b.NaN? && (a == b || NumLess(a, b))
  }

  /** `parts.join(sep)`. */
  function Join(parts: seq<string>, sep: string): string
    decreases |parts|
  {
    if |parts| == 0 then ""
    else if |parts| == 1 then parts[0]
    else Join(parts[..|parts| - 1], sep) + sep + parts[|parts| - 1]
  }

  // ---------- JSON objects ----------

  /** A parsed JSON object, as `Object.entries` lists it: keys in insertion order. */
  type JsonObject = seq<(string, Value)>

  /** `obj[key]`: the value of the last entry with that key, `undefined` when there is none. */
  function Lookup(obj: JsonObject, key: string): (v: Value)
    ensures (forall i :: 0 <= i < |obj| ==> obj[i].0 != key) ==> v == Undefined
    ensures v != Undefined ==> exists i :: 0 <= i < |obj| && obj[i] == (key, v)
  {
    if obj == [] then Undefined
    else if obj[|obj| - 1].0 == key then obj[|obj| - 1].1
    else Lookup(obj[..|obj| - 1], key)
  }

  /** `Object.keys(obj)`: the keys in order. */
  function KeysOf(obj: JsonObject): (keys: seq<string>)
    ensures |keys| == |obj|
    ensures forall i :: 0 <= i < |obj| ==> keys[i] == obj[i].0
  {
    seq(|obj|, i requires 0 <= i < |obj| => obj[i].0)
  }

  // ---------- lemmas ----------

  /** NaN is unordered: every comparison that involves it is false. */
  lemma NaNIsUnordered(a: Num, b: Num)
    requires a.NaN? || b.NaN?
    ensures !NumLess(a, b) && !NumLess(b, a) && !NumLessEq(a, b) && !NumLessEq(b, a)
  {
  }

  /** The digit string of `n` reads back as `n`. */
  lemma {:induction false} NatToStringRoundTrip(n: nat)
    ensures AllDigits(NatToString(n)) && DigitsValue(NatToString(n)) == n
    decreases n
  {
    var s := NatToString(n);
    if n >= 10 {
      NatToStringRoundTrip(n / 10);
      assert s[..|s| - 1] == NatToString(n / 10);
    }
  }
}
