/**
 * Looking up the text of one key for one language: the record of the key,
 * then the entry in the language's column. A missing key gives nothing; a
 * column past the end of the record's entries is an index error.
 */
module RecordLookup {
  import opened LocalizationTypes
  import opened CsvRows
  import opened CommentFilter
  import opened RecordScanner
  import opened FileLoader

  /** The outcome of a lookup; `IndexOutOfBounds` stands for the exception the list access throws. */
  datatype Lookup = Absent | Entry(text: string) | IndexOutOfBounds(index: nat, size: nat)

  /** The entry at `index`, or the index error when the record has fewer entries. */
  function EntryAt(rec: LocalizationRecord, index: nat): (l: Lookup)
    ensures !l.Absent?
    ensures l.Entry? <==> index < |rec.entries|
  {
    if index < |rec.entries| then Entry(rec.entries[index])
    else IndexOutOfBounds(index, |rec.entries|)
  }

  /** The entry of `lang`: the entries are in language declaration order. */
  function EntryForLanguage(rec: LocalizationRecord, lang: LocalizationLanguage): (l: Lookup)
    ensures !l.Absent?
    ensures l.Entry? <==> lang.Ordinal() < |rec.entries|
  {
    EntryAt(rec, lang.Ordinal())
  }

  /** The text of `key` in `lang`: nothing when the file has no such key. */
  function Get(data: LocalizationData, key: string, lang: LocalizationLanguage): (l: Lookup)
    ensures l.Absent? <==> key !in data.records
  {
    if key in data.records then EntryForLanguage(data.records[key], lang) else Absent
  }

  /** An entry of a scanned row is the row's field in the language's column. */
  lemma ScannedEntryIsField(row: Row, lang: LocalizationLanguage)
    ensures EntryForLanguage(ExpectedRecord(row), lang).Entry? ==>
      1 + lang.Ordinal() < |row| && EntryForLanguage(ExpectedRecord(row), lang).text == row[1 + lang.Ordinal()]
  {
    var entries := ExpectedRecord(row).entries;
    if lang.Ordinal() < |entries| {
      assert entries[lang.Ordinal()] == row[1 + lang.Ordinal()];
    }
  }

  /**
   * A lookup in a parsed file, in terms of the file's rows: nothing exactly
   * when no data row has the key, and an entry is always the field in the
   * language's column of a data row with that key.
   */
  lemma GetFromRows(lines: seq<Row>, key: string, lang: LocalizationLanguage)
    ensures Get(Loaded(lines), key, lang).Absent? <==> !exists r :: r in lines && IsDataRow(r) && r[0] == key
    ensures Get(Loaded(lines), key, lang).Entry? ==>
      exists r :: r in lines && IsDataRow(r) && r[0] == key &&
        1 + lang.Ordinal() < |r| && Get(Loaded(lines), key, lang).text == r[1 + lang.Ordinal()]
  {
    LoadedKeys(lines, key);
    if key in Loaded(lines).records {
      LoadedRecordFromRow(lines, key);
      var r :| r in lines && IsDataRow(r) && r[0] == key && Loaded(lines).records[key] == ExpectedRecord(r);
      ScannedEntryIsField(r, lang);
    }
  }

  /** Every language can be looked up in a record that the scan marked Unused. */
  lemma UnusedRecordCoversAllLanguages(lines: seq<Row>, key: string, lang: LocalizationLanguage)
    requires key in Loaded(lines).records && Loaded(lines).records[key].state == Unused
    ensures Get(Loaded(lines), key, lang).Entry?
  {
    LoadedRecordFromRow(lines, key);
  }

  /**
   * In a row cut short by a sentinel at index k, a language has an entry
   * exactly when its column lies before the sentinel, and that entry is the
   * field in the column; every later language is an index error.
   */
  lemma TooShortLookup(row: Row, k: nat, lang: LocalizationLanguage)
    requires k <= LastScannedIndex - 1 && k < |row| && IsSentinel(row[k])
    requires forall j :: 0 <= j < k ==> !IsSentinel(row[j])
    ensures EntryForLanguage(ExpectedRecord(row), lang).Entry? <==> 1 + lang.Ordinal() < k
    ensures 1 + lang.Ordinal() < k ==> EntryForLanguage(ExpectedRecord(row), lang) == Entry(row[1 + lang.Ordinal()])
  {
    TooShortAtEarlySentinel(row, k);
  }

  /**
   * Example: a file holding the row `GREETING;Hello;Bonjour;x`. English and
   * French resolve, German, the third column, is an index error on a record
   * of two entries, and keys are matched exactly.
   */
  lemma GreetingLookupExample(data: LocalizationData)
    requires data.records == map["GREETING" := ExpectedRecord(["GREETING", "Hello", "Bonjour", "x"])]
    ensures Get(data, "GREETING", English) == Entry("Hello")
    ensures Get(data, "GREETING", French) == Entry("Bonjour")
    ensures Get(data, "GREETING", German) == IndexOutOfBounds(2, 2)
    ensures Get(data, "Greeting", English) == Absent
  {
    GreetingExample();
  }
}
