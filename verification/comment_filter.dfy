/**
 * The comment filter applied to every file before its rows are parsed: a
 * row is dropped when its first field, after leading whitespace is
 * trimmed, is blank or starts with `#`.
 */
module CommentFilter {
  import opened CsvRows

  /** The number of whitespace characters that `s` starts with. */
  function LeadingWhitespace(s: string): (n: nat)
    ensures n <= |s|
    ensures forall i :: 0 <= i < n ==> IsWhitespace(s[i])
    ensures n < |s| ==> !IsWhitespace(s[n])
  {
    if |s| > 0 && IsWhitespace(s[0]) then 1 + LeadingWhitespace(s[1..]) else 0
  }

  /** `s` without its leading whitespace. */
  function TrimStart(s: string): string {
    s[LeadingWhitespace(s)..]
  }

  /**
   * Trimming drops exactly a whitespace-only prefix: what remains is a
   * suffix of `s` that is empty or starts with a non-whitespace character.
   */
  lemma TrimStartDropsLeadingWhitespace(s: string)
    ensures |TrimStart(s)| <= |s| && TrimStart(s) == s[|s| - |TrimStart(s)|..]
    ensures IsBlank(s[..|s| - |TrimStart(s)|])
    ensures TrimStart(s) == [] || !IsWhitespace(TrimStart(s)[0])
  {
    assert |s| - |TrimStart(s)| == LeadingWhitespace(s);
  }

  /** A string of whitespace characters only (possibly empty). */
  predicate IsBlank(s: string) {
    forall i :: 0 <= i < |s| ==> IsWhitespace(s[i])
  }

  /**
   * A row that is neither blank nor a comment: its key field has a
   * non-whitespace character and the first one is not `#`.
   */
  predicate IsDataRow(row: Row): (kept: bool)
    ensures kept <==> LeadingWhitespace(row[0]) < |row[0]| && row[0][LeadingWhitespace(row[0])] != '#'
  {
    var first := TrimStart(row[0]);
    !IsBlank(first) && first[0] != '#'
  }

  /**
   * A row is kept exactly when its key field has a first non-whitespace
   * character and that character is not `#`.
   */
  lemma DataRowIffFirstVisibleChar(row: Row)
    ensures IsDataRow(row) <==>
      exists j :: 0 <= j < |row[0]| && !IsWhitespace(row[0][j]) && row[0][j] != '#' && IsBlank(row[0][..j])
  {
    var s := row[0];
    var j0 := LeadingWhitespace(s);
    if IsDataRow(row) {
      assert TrimStart(s)[0] == s[j0];
      assert IsBlank(s[..j0]);
    }
    if exists j :: 0 <= j < |s| && !IsWhitespace(s[j]) && s[j] != '#' && IsBlank(s[..j]) {
      var j :| 0 <= j < |s| && !IsWhitespace(s[j]) && s[j] != '#' && IsBlank(s[..j]);
      assert j == j0;
      assert TrimStart(s)[0] == s[j];
    }
  }

  /** The rows of a file that are neither blank nor comments, in file order. */
  function RemoveComments(rows: seq<Row>): (kept: seq<Row>)
    ensures |kept| <= |rows|
  {
    if rows == [] then []
    else (if IsDataRow(rows[0]) then [rows[0]] else []) + RemoveComments(rows[1..])
  }

  /** A row survives exactly when it occurs in the file and is a data row. */
  lemma {:induction false} RemoveCommentsMembership(rows: seq<Row>, r: Row)
    ensures r in RemoveComments(rows) <==> r in rows && IsDataRow(r)
  {
    if rows != [] {
      RemoveCommentsMembership(rows[1..], r);
      assert rows == [rows[0]] + rows[1..];
    }
  }

  /** Filtering commutes with concatenation: survivors keep their relative order. */
  lemma {:induction false} RemoveCommentsDistributes(a: seq<Row>, b: seq<Row>)
    ensures RemoveComments(a + b) == RemoveComments(a) + RemoveComments(b)
  {
    if a == [] {
      assert a + b == b;
    } else {
      assert (a + b)[1..] == a[1..] + b;
      RemoveCommentsDistributes(a[1..], b);
      var head: seq<Row> := if IsDataRow(a[0]) then [a[0]] else [];
      assert RemoveComments(a + b) == head + RemoveComments(a[1..] + b);
      assert RemoveComments(a) == head + RemoveComments(a[1..]);
    }
  }

  /** Every data row survives as often as it occurs; every other row never does. */
  lemma {:induction false} RemoveCommentsMultiplicity(rows: seq<Row>, r: Row)
    ensures multiset(RemoveComments(rows))[r] == if IsDataRow(r) then multiset(rows)[r] else 0
  {
    if rows != [] {
      RemoveCommentsMultiplicity(rows[1..], r);
      var head: seq<Row> := if IsDataRow(rows[0]) then [rows[0]] else [];
      assert RemoveComments(rows) == head + RemoveComments(rows[1..]);
      assert multiset(rows) == multiset([rows[0]]) + multiset(rows[1..]) by {
        assert rows == [rows[0]] + rows[1..];
      }
    }
  }

  /** Example: a comment row is dropped, a data row with an indented key is kept unmodified. */
  lemma RemoveCommentsExample()
    ensures RemoveComments([["# a comment", "ignored"], ["  KEY", "text"], [" \t"]]) == [["  KEY", "text"]]
  {
    var comment: Row := ["# a comment", "ignored"];
    var data: Row := ["  KEY", "text"];
    var blank: Row := [" \t"];
    assert LeadingWhitespace(comment[0]) == 0;
    assert LeadingWhitespace(data[0]) == 2;
    assert LeadingWhitespace(blank[0]) == 2;
    assert !IsDataRow(comment) && IsDataRow(data) && !IsDataRow(blank);
    assert [comment, data, blank][1..] == [data, blank];
    assert [data, blank][1..] == [blank];
  }
}
