/**
 * The row scanner: walks the fields of one data row, stops after the
 * fifteenth field or at a one-character `x`/`X` stop sentinel, and turns
 * what it scanned into a LocalizationRecord with a state.
 */
module RecordScanner {
  import opened LocalizationTypes
  import opened CsvRows

  /** The highest field index the scan still accepts (the key is index 0). */
  const LastScannedIndex: nat := 14

  /** The number of scanned fields from which a row counts as complete. */
  const FullRowLength: nat := 15

  /** A field of exactly one character that lower-cases to `x`: only `x` and `X` do. */
  predicate IsSentinel(field: string): (sentinel: bool)
    ensures sentinel <==> field == "x" || field == "X"
  {
    |field| == 1 && (field[0] == 'x' || field[0] == 'X')
  }

  /**
   * The index of the first sentinel at or after `from` among the fields
   * the scan can reach (indices up to LastScannedIndex), if there is one.
   */
  function FirstSentinel(row: seq<string>, from: nat): (k: Option<nat>)
    ensures k.Some? ==>
      && from <= k.value <= LastScannedIndex && k.value < |row|
      && IsSentinel(row[k.value])
      && forall j :: from <= j < k.value ==> !IsSentinel(row[j])
    ensures k.None? ==> forall j :: from <= j < |row| && j <= LastScannedIndex ==> !IsSentinel(row[j])
    decreases |row| - from
  {
    if from >= |row| || from > LastScannedIndex then None
    else if IsSentinel(row[from]) then Some(from)
    else FirstSentinel(row, from + 1)
  }

  /** The classification of a scanned row from the two facts the scan leaves behind. */
  function Classify(goodCount: bool, containsX: bool): (state: LocalizationState)
    ensures state != Ok
    ensures state == BadEnd <==> !goodCount && !containsX
    ensures state == TooShort <==> !goodCount && containsX
    ensures state == Unused <==> goodCount
  {
    if !(goodCount || containsX) then BadEnd
    else if !goodCount && containsX then TooShort
    else Unused
  }

  /**
   * The record a data row yields, case by case on the first sentinel `k`
   * at an index of at most 14:
   *   k <= 13         TooShort, the fields strictly between the key and k;
   *   k == 14         Unused, fields 1 to 13;
   *   none, 15+ fields Unused, fields 1 to 14;
   *   none, fewer     BadEnd, every field after the key.
   */
  function ExpectedRecord(row: Row): (r: LocalizationRecord)
    ensures r.state != Ok
    ensures |r.entries| <= FullRowLength - 1
    ensures 1 + |r.entries| <= |row| && r.entries == row[1..1 + |r.entries|]
    ensures forall i :: 0 <= i < |r.entries| ==> !IsSentinel(r.entries[i])
    ensures r.state == Unused ==> |r.entries| >= LanguageCount
  {
    match FirstSentinel(row, 0)
    case Some(k) =>
      if k <= LastScannedIndex - 1 then LocalizationRecord(if k <= 1 then [] else row[1..k], TooShort)
      else LocalizationRecord(row[1..LastScannedIndex], Unused)
    case None =>
      if |row| >= FullRowLength then LocalizationRecord(row[1..FullRowLength], Unused)
      else LocalizationRecord(row[1..], BadEnd)
  }

  /**
   * Scans one data row as the source does: a take-while over the fields
   * whose predicate records in `containsX` whether the current field is a
   * sentinel and post-increments `count`, continuing while the old count
   * was at most 14 and the field is not a sentinel. The key is dropped from
   * the taken fields to give the entries.
   */
  method ScanRow(row: Row) returns (rec: LocalizationRecord)
    ensures rec == ExpectedRecord(row)
  {
    var count := 0;
    var containsX := false;
    var rest: seq<string> := [];
    var i := 0;
    while i < |row|
      invariant i <= |row| && i <= FullRowLength
      invariant rest == row[..i]
      invariant count == i
      invariant !containsX
      invariant forall j :: 0 <= j < i ==> !IsSentinel(row[j])
    {
      containsX := IsSentinel(row[i]);
      var take := count <= LastScannedIndex && !containsX;
      count := count + 1;
      if !take {
        break;
      }
      rest := rest + [row[i]];
      i := i + 1;
    }
    var goodCount := count >= FullRowLength;
    var state := Classify(goodCount, containsX);
    rec := LocalizationRecord(if |rest| == 0 then [] else rest[1..], state);
  }

  /** A row of fewer than 15 fields without any sentinel is BadEnd and keeps every field after the key. */
  lemma BadEndWhenUnterminated(row: Row)
    requires |row| < FullRowLength
    requires forall j :: 0 <= j < |row| ==> !IsSentinel(row[j])
    ensures ExpectedRecord(row) == LocalizationRecord(row[1..], BadEnd)
  {
  }

  /**
   * A first sentinel at index k <= 13 makes the row TooShort; its entries
   * are exactly the fields strictly between the key and the sentinel.
   */
  lemma TooShortAtEarlySentinel(row: Row, k: nat)
    requires k <= LastScannedIndex - 1 && k < |row| && IsSentinel(row[k])
    requires forall j :: 0 <= j < k ==> !IsSentinel(row[j])
    ensures ExpectedRecord(row).state == TooShort
    ensures ExpectedRecord(row).entries == if k <= 1 then [] else row[1..k]
  {
    assert FirstSentinel(row, 0) == Some(k);
  }

  /**
   * A row with at least 15 fields and no sentinel before index 14 is
   * Unused: with 13 entries when index 14 is a sentinel, else with 14.
   */
  lemma UnusedWhenComplete(row: Row)
    requires |row| >= FullRowLength
    requires forall j :: 0 <= j < LastScannedIndex ==> !IsSentinel(row[j])
    ensures ExpectedRecord(row).state == Unused
    ensures ExpectedRecord(row).entries ==
      if IsSentinel(row[LastScannedIndex]) then row[1..LastScannedIndex] else row[1..FullRowLength]
  {
  }

  /** The three parse-time states, each characterised by the row alone. */
  lemma StateCharacterisation(row: Row)
    ensures ExpectedRecord(row).state == BadEnd <==>
      |row| < FullRowLength && forall j :: 0 <= j < |row| ==> !IsSentinel(row[j])
    ensures ExpectedRecord(row).state == TooShort <==>
      exists k :: 0 <= k < |row| && k <= LastScannedIndex - 1 && IsSentinel(row[k])
    ensures ExpectedRecord(row).state == Unused <==>
      |row| >= FullRowLength && forall j :: 0 <= j < LastScannedIndex ==> !IsSentinel(row[j])
  {
    match FirstSentinel(row, 0)
    case Some(k) =>
    case None =>
  }

  /** Example: `GREETING;Hello;Bonjour;x` keeps the two texts and is TooShort. */
  lemma GreetingExample()
    ensures ExpectedRecord(["GREETING", "Hello", "Bonjour", "x"]) == LocalizationRecord(["Hello", "Bonjour"], TooShort)
  {
    TooShortAtEarlySentinel(["GREETING", "Hello", "Bonjour", "x"], 3);
  }
}
