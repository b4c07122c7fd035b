/**
 * The file loader: checks the `.csv` suffix of the path, filters the
 * comment rows out and folds every remaining row into an insertion-ordered
 * map from its key to its record.
 */
module FileLoader {
  import opened LocalizationTypes
  import opened CsvRows
  import opened CommentFilter
  import opened RecordScanner

  const CsvSuffix: string := ".csv"
  const NotCsvMessage: string := "File must be a .csv file."

  /** `s` ends with `suffix`: it is some prefix followed by `suffix`. */
  predicate EndsWith(s: string, suffix: string): (b: bool)
    ensures b <==> |suffix| <= |s| && s == s[..|s| - |suffix|] + suffix
  {
    |suffix| <= |s| && s[|s| - |suffix|..] == suffix
  }

  /** The insertion-ordered map invariant: `order` lists every key once. */
  ghost predicate WellFormed(d: LocalizationData) {
    && (forall i, j :: 0 <= i < j < |d.order| ==> d.order[i] != d.order[j])
    && (forall k :: k in d.order <==> k in d.records)
  }

  const EmptyData: LocalizationData := LocalizationData([], map[])

  /**
   * Insertion into an insertion-ordered map: the value of `key` becomes
   * `rec`; a key already present keeps its position, a new key goes last.
   */
  function Put(d: LocalizationData, key: string, rec: LocalizationRecord): (r: LocalizationData)
    requires WellFormed(d)
    ensures WellFormed(r)
    ensures r.records == d.records[key := rec]
    ensures |d.order| <= |r.order| && r.order[..|d.order|] == d.order
  {
    LocalizationData(if key in d.records then d.order else d.order + [key], d.records[key := rec])
  }

  /** The records of a sequence of data rows, inserted one after the other. */
  function BuildRecords(rows: seq<Row>): (d: LocalizationData)
    ensures WellFormed(d)
    decreases |rows|
  {
    if rows == [] then EmptyData
    else
      var last := rows[|rows| - 1];
      Put(BuildRecords(rows[..|rows| - 1]), last[0], ExpectedRecord(last))
  }

  /** The parse of a file's rows. */
  function Loaded(lines: seq<Row>): LocalizationData {
    BuildRecords(RemoveComments(lines))
  }

  /**
   * Parses one localisation file. A path that does not end in `.csv` is
   * rejected before anything is read; otherwise every data row is scanned
   * and stored under its key, a later row overwriting an earlier one.
   */
  method LoadFile(path: string, lines: seq<Row>) returns (r: Result<LocalizationData>)
    ensures r.Failure? <==> !EndsWith(path, CsvSuffix)
    ensures r.Failure? ==> r.error == NotCsvMessage
    ensures r.Success? ==> r.value == Loaded(lines)
  {
    if !EndsWith(path, CsvSuffix) {
      return Failure(NotCsvMessage);
    }
    var rows := RemoveComments(lines);
    var data := EmptyData;
    var i := 0;
    while i < |rows|
      invariant i <= |rows|
      invariant data == BuildRecords(rows[..i])
    {
      var row := rows[i];
      var rec := ScanRow(row);
      assert rows[..i + 1][..i] == rows[..i];
      data := Put(data, row[0], rec);
      i := i + 1;
    }
    assert rows[..|rows|] == rows;
    return Success(data);
  }

  /** The key column of a sequence of rows. */
  function KeyColumn(rows: seq<Row>): (keys: seq<string>)
    ensures |keys| == |rows|
  {
    seq(|rows|, i requires 0 <= i < |rows| => rows[i][0])
  }

  /** The position of the first occurrence of `k` in `s`. */
  function FirstIndex(s: seq<string>, k: string): (i: nat)
    requires k in s
    ensures i < |s| && s[i] == k && k !in s[..i]
  {
    if s[0] == k then 0
    else
      var j := FirstIndex(s[1..], k);
      assert s[1..][..j] == s[1..j + 1];
      1 + j
  }

  /** The position of the last occurrence of `k` in `s`. */
  function LastIndex(s: seq<string>, k: string): (i: nat)
    requires k in s
    ensures i < |s| && s[i] == k && k !in s[i + 1..]
  {
    if s[|s| - 1] == k then |s| - 1
    else
      assert s == s[..|s| - 1] + [s[|s| - 1]];
      var j := LastIndex(s[..|s| - 1], k);
      assert s[j + 1..] == s[..|s| - 1][j + 1..] + [s[|s| - 1]];
      j
  }

  lemma {:induction false} FirstIndexAppend(s: seq<string>, x: string, k: string)
    requires k in s
    ensures FirstIndex(s + [x], k) == FirstIndex(s, k)
  {
    if s[0] != k {
      assert (s + [x])[1..] == s[1..] + [x];
      FirstIndexAppend(s[1..], x, k);
    }
  }

  lemma KeyColumnPrefix(rows: seq<Row>)
    requires rows != []
    ensures KeyColumn(rows) == KeyColumn(rows[..|rows| - 1]) + [rows[|rows| - 1][0]]
  {
  }

  /** The keys of the built map are exactly the keys of the rows. */
  lemma {:induction false} BuildKeys(rows: seq<Row>)
    ensures forall k :: k in BuildRecords(rows).records <==> k in KeyColumn(rows)
    decreases |rows|
  {
    if rows != [] {
      BuildKeys(rows[..|rows| - 1]);
      KeyColumnPrefix(rows);
    }
  }

  /** Every key holds the record of the last row with that key. */
  lemma {:induction false} BuildLastWins(rows: seq<Row>)
    ensures forall k :: k in BuildRecords(rows).records ==>
      k in KeyColumn(rows) && BuildRecords(rows).records[k] == ExpectedRecord(rows[LastIndex(KeyColumn(rows), k)])
    decreases |rows|
  {
    if rows != [] {
      var init := rows[..|rows| - 1];
      var last := rows[|rows| - 1];
      BuildLastWins(init);
      KeyColumnPrefix(rows);
      var keys := KeyColumn(rows);
      forall k | k in BuildRecords(rows).records
        ensures k in keys && BuildRecords(rows).records[k] == ExpectedRecord(rows[LastIndex(keys, k)])
      {
        if k != last[0] {
          assert keys[..|rows| - 1] == KeyColumn(init);
          assert LastIndex(keys, k) == LastIndex(KeyColumn(init), k);
          assert rows[LastIndex(keys, k)] == init[LastIndex(KeyColumn(init), k)];
        }
      }
    }
  }

  /** Keys appear in the order of their first occurrence among the rows. */
  lemma {:induction false} BuildOrder(rows: seq<Row>)
    ensures forall k :: k in BuildRecords(rows).order ==> k in KeyColumn(rows)
    ensures forall i, j :: 0 <= i < j < |BuildRecords(rows).order| ==>
      FirstIndex(KeyColumn(rows), BuildRecords(rows).order[i]) < FirstIndex(KeyColumn(rows), BuildRecords(rows).order[j])
    decreases |rows|
  {
    if rows != [] {
      var init := rows[..|rows| - 1];
      var last := rows[|rows| - 1];
      var d := BuildRecords(init);
      var order := BuildRecords(rows).order;
      BuildOrder(init);
      BuildKeys(init);
      KeyColumnPrefix(rows);
      var keys := KeyColumn(rows);
      var keys0 := KeyColumn(init);
      forall k | k in d.order
        ensures FirstIndex(keys, k) == FirstIndex(keys0, k)
      {
        FirstIndexAppend(keys0, last[0], k);
      }
      if last[0] !in d.records {
        assert FirstIndex(keys, last[0]) == |init|;
        assert order == d.order + [last[0]];
      }
    }
  }

  /** The keys of a loaded file are the keys of its data rows; comment and blank rows yield none. */
  lemma LoadedKeys(lines: seq<Row>, k: string)
    ensures k in Loaded(lines).records <==> exists r :: r in lines && IsDataRow(r) && r[0] == k
  {
    var rows := RemoveComments(lines);
    BuildKeys(rows);
    if k in Loaded(lines).records {
      var i :| 0 <= i < |rows| && KeyColumn(rows)[i] == k;
      RemoveCommentsMembership(lines, rows[i]);
    }
    if exists r :: r in lines && IsDataRow(r) && r[0] == k {
      var r :| r in lines && IsDataRow(r) && r[0] == k;
      RemoveCommentsMembership(lines, r);
      var i :| 0 <= i < |rows| && rows[i] == r;
      assert KeyColumn(rows)[i] == k;
    }
  }

  /** Every record of a loaded file is the scan of one of its data rows. */
  lemma LoadedRecordFromRow(lines: seq<Row>, k: string)
    requires k in Loaded(lines).records
    ensures exists r :: r in lines && IsDataRow(r) && r[0] == k && Loaded(lines).records[k] == ExpectedRecord(r)
  {
    var rows := RemoveComments(lines);
    BuildLastWins(rows);
    var r := rows[LastIndex(KeyColumn(rows), k)];
    RemoveCommentsMembership(lines, r);
  }

  /** One more data row at the end of a file is one more insertion into the map. */
  lemma BuildAppend(rows: seq<Row>, row: Row)
    ensures BuildRecords(rows + [row]) == Put(BuildRecords(rows), row[0], ExpectedRecord(row))
  {
    assert (rows + [row])[..|rows|] == rows;
  }

  /** Example: re-inserting a key keeps its first position and replaces its record. */
  lemma DuplicateKeyExample(a: string, b: string, r1: LocalizationRecord, r2: LocalizationRecord, r3: LocalizationRecord)
    requires a != b
    ensures Put(Put(Put(EmptyData, a, r1), b, r2), a, r3).order == [a, b]
    ensures Put(Put(Put(EmptyData, a, r1), b, r2), a, r3).records.Keys == {a, b}
    ensures Put(Put(Put(EmptyData, a, r1), b, r2), a, r3).records[a] == r3
    ensures Put(Put(Put(EmptyData, a, r1), b, r2), a, r3).records[b] == r2
  {
    var d1 := Put(EmptyData, a, r1);
    var d2 := Put(d1, b, r2);
    assert d1.order == [a];
    assert d2.order == [a, b];
  }
}
