/**
 * `columnNumberToLetter`: spreadsheet column names, the bijective base-26 numeral with
 * digits `A` (1) to `Z` (26), so 1 is "A", 26 is "Z" and 27 is "AA".
 */
module Letters {

  /** The name of column `n`; numbers below 1 have the empty name. */
  function Letters(n: int): string
    decreases n
  {
    if n <= 0 then "" else Letters((n - 1) / 26) + [(65 + (n - 1) % 26) as char]
  }

  predicate IsColumnName(s: string) {
    forall i :: 0 <= i < |s| ==> 'A' <= s[i] <= 'Z'
  }

  /** The column number a name stands for. */
  function LetterValue(s: string): (n: nat)
    requires IsColumnName(s)
    ensures s != [] ==> n >= 1
    decreases |s|
  {
    if s == [] then 0 else LetterValue(s[..|s| - 1]) * 26 + (s[|s| - 1] as int - 64)
  }

  /** `columnNumberToLetter(column)`: peels off the last letter until the number reaches 0. */
  method ColumnNumberToLetter(column: int) returns (letter: string)
    ensures letter == Letters(column)
  {
    letter := "";
    var n := column;
    while n > 0
      invariant Letters(n) + letter == Letters(column)
      decreases n
    {
      var remainder := (n - 1) % 26;
      letter := [(65 + remainder) as char] + letter;
      n := (n - 1) / 26;
    }
  }

  /** Every column name is made of capital letters, and only numbers from 1 up have one. */
  lemma {:induction false} LettersAreColumnNames(n: int)
    ensures IsColumnName(Letters(n))
    ensures Letters(n) != [] <==> n >= 1
    decreases n
  {
    if n > 0 {
      LettersAreColumnNames((n - 1) / 26);
    }
  }

  /** Reading a column name back gives the column number. */
  lemma {:induction false} LetterValueOfLetters(n: nat)
    ensures IsColumnName(Letters(n)) && LetterValue(Letters(n)) == n
    decreases n
  {
    LettersAreColumnNames(n);
    if n > 0 {
      var q := (n - 1) / 26;
      var s := Letters(n);
      LetterValueOfLetters(q);
      assert s[..|s| - 1] == Letters(q);
      assert s[|s| - 1] as int - 64 == (n - 1) % 26 + 1;
    }
  }

  /** Every column name is the name of its number: the numbering has no gaps and no two
      numbers share a name. */
  lemma {:induction false} LettersOfLetterValue(s: string)
    requires IsColumnName(s)
    ensures Letters(LetterValue(s)) == s
    decreases |s|
  {
    if s != [] {
      var prefix := s[..|s| - 1];
      var q := LetterValue(prefix);
      var d := s[|s| - 1] as int - 65;
      var n := LetterValue(s);
      LettersOfLetterValue(prefix);
      assert n - 1 == q * 26 + d;
      DivideByBase(q, d);
      assert Letters(n) == Letters(q) + [(65 + d) as char];
      assert s == prefix + [s[|s| - 1]];
    }
  }

  lemma DivideByBase(q: nat, d: int)
    requires 0 <= d < 26
    ensures (q * 26 + d) / 26 == q && (q * 26 + d) % 26 == d
  {
  }

  /** The first columns, and the first two-letter one. */
  lemma FirstColumnNames()
    ensures Letters(1) == "A"
    ensures Letters(26) == "Z"
    ensures Letters(27) == "AA"
  {
  }
}
