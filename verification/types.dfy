/**
 * The value types of the localisation model: languages, record states,
 * records, one parsed file and the resolved view of a mod.
 */
module LocalizationTypes {

  datatype Option<T> = None | Some(value: T)

  /** The outcome of an operation that the source may abort with an exception. */
  datatype Result<T> = Success(value: T) | Failure(error: string)

  /** The 13 language columns of a localisation row, in column order. */
  datatype LocalizationLanguage =
    | English | French | German | Polish | Spanish | Italian | Swedish
    | Czech | Hungarian | Dutch | Portuguese | Russian | Finnish
  {
    /** The declaration index of the language, which is also its column among the entries. */
    function Ordinal(): (i: nat)
      ensures i < LanguageCount
    {
      match this
      case English => 0
      case French => 1
      case German => 2
      case Polish => 3
      case Spanish => 4
      case Italian => 5
      case Swedish => 6
      case Czech => 7
      case Hungarian => 8
      case Dutch => 9
      case Portuguese => 10
      case Russian => 11
      case Finnish => 12
    }
  }

  const LanguageCount: nat := 13

  /** The language whose column is `i`. */
  function LanguageAt(i: nat): (lang: LocalizationLanguage)
    requires i < LanguageCount
    ensures lang.Ordinal() == i
  {
    if i == 0 then English
    else if i == 1 then French
    else if i == 2 then German
    else if i == 3 then Polish
    else if i == 4 then Spanish
    else if i == 5 then Italian
    else if i == 6 then Swedish
    else if i == 7 then Czech
    else if i == 8 then Hungarian
    else if i == 9 then Dutch
    else if i == 10 then Portuguese
    else if i == 11 then Russian
    else Finnish
  }

  /** Distinct languages occupy distinct columns. */
  lemma OrdinalInjective(a: LocalizationLanguage, b: LocalizationLanguage)
    requires a.Ordinal() == b.Ordinal()
    ensures a == b
  {
    assert LanguageAt(a.Ordinal()) == a;
  }

  datatype LocalizationState = Ok | Unused | TooShort | BadEnd

  /** One keyed row: the language entries after the key, and its classification. */
  datatype LocalizationRecord = LocalizationRecord(entries: seq<string>, state: LocalizationState)

  /**
   * One parsed file: an insertion-ordered map from key to record. `order`
   * lists the keys in the order in which they were first inserted.
   */
  datatype LocalizationData = LocalizationData(order: seq<string>, records: map<string, LocalizationRecord>)

  /** The resolved localisation of a mod: file name (without extension) to parsed file. */
  datatype Localization = Localization(gameFiles: map<string, LocalizationData>, modFiles: map<string, LocalizationData>)
}
