/**
 * Rows of a localisation file as the CSV reader hands them over: the
 * format uses `;` as its only delimiter, with no quoting and no escaping,
 * and every record has at least one field.
 */
module CsvRows {

  /** The fields of one line; the reader never produces a record without fields. */
  type Row = r: seq<string> | |r| >= 1 witness [""]

  const Delimiter: char := ';'

  /**
   * Kotlin's `Char.isWhitespace`, used when trimming and testing for
   * blankness: Java's `Character.isWhitespace` or `Character.isSpaceChar`,
   * so the no-break spaces U+00A0, U+2007 and U+202F count as well.
   */
  predicate IsWhitespace(c: char) {
    var n := c as int;
    || (0x09 <= n <= 0x0D)
    || (0x1C <= n <= 0x20)
    || n == 0xA0
    || n == 0x1680
    || (0x2000 <= n <= 0x200A)
    || n == 0x2028
    || n == 0x2029
    || n == 0x202F
    || n == 0x205F
    || n == 0x3000
  }

  /** The position of the first occurrence of `c` in `s`. */
  function IndexOf(s: string, c: char): (i: nat)
    requires c in s
    ensures i < |s| && s[i] == c && c !in s[..i]
  {
    if s[0] == c then 0
    else
      var j := IndexOf(s[1..], c);
      assert s[1..][..j] == s[1..j + 1];
      1 + j
  }

  /** The line that a row of fields is read from. */
  function Join(fields: Row): string
    decreases |fields|
  {
    if |fields| == 1 then fields[0]
    else fields[0] + [Delimiter] + Join(fields[1..])
  }

  predicate FieldsWithoutDelimiter(fields: seq<string>) {
    forall k :: 0 <= k < |fields| ==> Delimiter !in fields[k]
  }

  /** Splits one line at every delimiter. */
  function Split(line: string): (fields: Row)
    ensures FieldsWithoutDelimiter(fields)
    ensures Join(fields) == line
    decreases |line|
  {
    if Delimiter !in line then [line]
    else
      var i := IndexOf(line, Delimiter);
      var rest := Split(line[i + 1..]);
      assert line == line[..i] + [Delimiter] + line[i + 1..];
      assert ([line[..i]] + rest)[1..] == rest;
      [line[..i]] + rest
  }

  /** Splitting the line a row was read from gives that row back. */
  lemma {:induction false} SplitJoin(fields: Row)
    requires FieldsWithoutDelimiter(fields)
    ensures Split(Join(fields)) == fields
    decreases |fields|
  {
    if |fields| == 1 {
      assert Delimiter !in Join(fields);
    } else {
      var tail: Row := fields[1..];
      var line := Join(fields);
      var f0 := fields[0];
      assert line == f0 + [Delimiter] + Join(tail);
      assert line[|f0|] == Delimiter;
      var i := IndexOf(line, Delimiter);
      assert i == |f0|;
      assert line[..i] == f0;
      assert line[i + 1..] == Join(tail);
      SplitJoin(tail);
    }
  }
}
