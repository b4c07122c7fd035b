# Localisation model of a Paradox mod editor

This project models, in Dafny, how the editor reads the `localisation/`
directory of a game and of a mod (`src/main/kotlin/com/zelkatani/model/Localization.kt`).
It proves properties of that model.

Each localisation file is a `;`-separated table. The model covers four steps:

- **Comment filter.** A row whose first field, with its leading whitespace removed, is blank or starts with `#` is dropped before parsing.
- **Row scan.** Every remaining row has a key in field 0, then any number of further fields; the scan reads fields up to index 14 at most.
  - A one-character field `x` or `X` is the stop sentinel; the scan also stops after field 14.
  - The scan classifies the row as `BAD_END`, `TOO_SHORT` or `UNUSED`. A freshly parsed row is never `OK`.
  - The scanned fields after the key, before the stop, become the record's entries: at most 14 (the 13 language columns and one trailing field), never the sentinel.
- **Loading a file.** The path must end in `.csv`. The rows are then folded into an insertion-ordered map from key to record: a later row with the same key replaces the record and keeps the key's first position.
- **Resolution.** Every `.csv` file of the base directory is parsed:
  - from the mod's copy when the mod has a file of the same name, filed under `modFiles`;
  - from the base copy otherwise, filed under `gameFiles`.

  Then every mod file whose name is not a base name is parsed and filed under `modFiles`.

A lookup by key and language reads the record of the key, then the entry at the language's column. A missing key gives nothing. A column past the end of the entries is an index error.

Modules:

| module | file | contents |
|---|---|---|
| `LocalizationTypes` | `types.dfy` | languages, states, records, parsed files, the resolved view |
| `CsvRows` | `csv_rows.dfy` | rows as the CSV reader delivers them, and Kotlin's whitespace set |
| `CommentFilter` | `comment_filter.dfy` | the comment and blank-row filter |
| `RecordScanner` | `record_scanner.dfy` | the row scan (a method with a loop) and its specification `ExpectedRecord` |
| `FileLoader` | `file_loader.dfy` | the `.csv` check and the insertion-ordered fold (a method with a loop) and its specification `Loaded` |
| `Resolver` | `resolver.dfy` | the two passes over the directories (methods with loops) and their specification `Resolution` |
| `RecordLookup` | `record_lookup.dfy` | lookup by key and language |

Two modelling choices apply to the resolver:

- A directory is a map from file name, without its `.csv` extension, to the rows of that file. A missing directory is the empty map.
- The mod counterpart of a base file is assumed to be the file of the same name in the mod's `localisation/` directory. That is the reading of `GameLocation.fileFromMod` that the model takes; `GameLocation` is not part of this model.

The mod-only pass matches files by name without extension, as the code at lines 43-46 does.

## Model

| member | source | states |
|---|---|---|
| `LocalizationTypes.LanguageAt` | src/main/kotlin/com/zelkatani/model/Localization.kt:148-162 | each of the 13 columns belongs to the language whose declaration index it is |
| `LocalizationTypes.OrdinalInjective` | src/main/kotlin/com/zelkatani/model/Localization.kt:148-162 | distinct languages have distinct ordinals, hence distinct columns |
| `LocalizationTypes.LocalizationLanguage.Ordinal` | src/main/kotlin/com/zelkatani/model/Localization.kt:148-162 | the ordinal of a language, used as its column at line 130, is one of the 13 declaration positions; `LanguageAt` inverts it |
| `CsvRows.Split` | src/main/kotlin/com/zelkatani/model/Localization.kt:65 | splitting a line at `;` gives fields without `;` that join back to the line |
| `CsvRows.SplitJoin` | src/main/kotlin/com/zelkatani/model/Localization.kt:65 | fields without `;`, joined and split again, give back the same fields |
| `CommentFilter.TrimStartDropsLeadingWhitespace` | src/main/kotlin/com/zelkatani/model/Localization.kt:12 | `trimStart` drops exactly a prefix of whitespace (`IsWhitespace`, Kotlin's `Char.isWhitespace`): the rest is a suffix that is empty or starts with a non-whitespace character |
| `CommentFilter.IsDataRow` | src/main/kotlin/com/zelkatani/model/Localization.kt:12-13 | the filter's predicate (`trimStart`, `isNotBlank` via `IsBlank`, first character not `#`) keeps a row iff its key has a non-whitespace character and the first one is not `#` |
| `CommentFilter.DataRowIffFirstVisibleChar` | src/main/kotlin/com/zelkatani/model/Localization.kt:11-14 | a row is kept iff its key field has a first non-whitespace character and that character is not `#` |
| `CommentFilter.RemoveComments` | src/main/kotlin/com/zelkatani/model/Localization.kt:11-14 | the filter never adds rows |
| `CommentFilter.RemoveCommentsMembership` | src/main/kotlin/com/zelkatani/model/Localization.kt:11-14 | a row survives iff it occurs in the file and is a data row |
| `CommentFilter.RemoveCommentsDistributes` | src/main/kotlin/com/zelkatani/model/Localization.kt:11-14 | filtering a concatenation is the concatenation of the filtered parts, so survivors keep their file order |
| `CommentFilter.RemoveCommentsMultiplicity` | src/main/kotlin/com/zelkatani/model/Localization.kt:11-14 | every data row survives exactly as often as it occurs; comment and blank rows never do |
| `CommentFilter.RemoveCommentsExample` | src/main/kotlin/com/zelkatani/model/Localization.kt:11-14 | a `#` row and a whitespace-only row are dropped; a row with an indented key is kept unchanged |
| `RecordScanner.IsSentinel` | src/main/kotlin/com/zelkatani/model/Localization.kt:87 | a field is the stop sentinel iff it is exactly `x` or `X` |
| `RecordScanner.FirstSentinel` | src/main/kotlin/com/zelkatani/model/Localization.kt:86-89 | the index found is the first one-character `x`/`X` field at an index the scan reaches (at most 14); when none is found, no reachable field is one |
| `RecordScanner.Classify` | src/main/kotlin/com/zelkatani/model/Localization.kt:91-97 | never `OK`; `BAD_END` iff neither a full count nor a sentinel; `TOO_SHORT` iff a sentinel without a full count; `UNUSED` iff a full count |
| `RecordScanner.ExpectedRecord` | src/main/kotlin/com/zelkatani/model/Localization.kt:81-99 | a scanned record is never `OK`; it has at most 14 entries; its entries are the fields right after the key, with no sentinel among them; an `UNUSED` record has an entry for all 13 languages |
| `RecordScanner.ScanRow` | src/main/kotlin/com/zelkatani/model/Localization.kt:82-99 | the take-while scan with its `count` and `containsX` side effects yields exactly the record `ExpectedRecord` describes |
| `RecordScanner.BadEndWhenUnterminated` | src/main/kotlin/com/zelkatani/model/Localization.kt:86-99 | a row of fewer than 15 fields without a sentinel is `BAD_END` and keeps every field after the key |
| `RecordScanner.TooShortAtEarlySentinel` | src/main/kotlin/com/zelkatani/model/Localization.kt:86-99 | a first sentinel at index k ≤ 13 gives `TOO_SHORT` with exactly the fields between the key and the sentinel |
| `RecordScanner.UnusedWhenComplete` | src/main/kotlin/com/zelkatani/model/Localization.kt:86-99 | a row of at least 15 fields with no sentinel before index 14 is `UNUSED`: 13 entries when field 14 is a sentinel, else 14 |
| `RecordScanner.StateCharacterisation` | src/main/kotlin/com/zelkatani/model/Localization.kt:86-97 | each of the three states, in both directions, in terms of the row's length and sentinel positions alone |
| `RecordScanner.GreetingExample` | src/main/kotlin/com/zelkatani/model/Localization.kt:86-99 | `GREETING;Hello;Bonjour;x` is `TOO_SHORT` with entries `Hello`, `Bonjour` |
| `FileLoader.EndsWith` | src/main/kotlin/com/zelkatani/model/Localization.kt:73 | the suffix test holds iff the path is some prefix followed by the suffix |
| `FileLoader.Put` | src/main/kotlin/com/zelkatani/model/Localization.kt:77-99 | insertion into the ordered map: the key gets the new record; existing keys keep their positions; the order stays duplicate-free and lists exactly the keys |
| `FileLoader.BuildRecords` | src/main/kotlin/com/zelkatani/model/Localization.kt:77-103 | the folded map is well formed: its order lists every key once |
| `FileLoader.LoadFile` | src/main/kotlin/com/zelkatani/model/Localization.kt:72-104 | fails iff the path does not end in `.csv`, with the source's message; otherwise returns the fold of the scanned data rows |
| `FileLoader.BuildKeys` | src/main/kotlin/com/zelkatani/model/Localization.kt:81-99 | the map's keys are exactly the key fields of the rows |
| `FileLoader.BuildLastWins` | src/main/kotlin/com/zelkatani/model/Localization.kt:99 | every key holds the scan of the last row with that key |
| `FileLoader.BuildOrder` | src/main/kotlin/com/zelkatani/model/Localization.kt:77 | keys are ordered by the position of their first occurrence |
| `FileLoader.BuildAppend` | src/main/kotlin/com/zelkatani/model/Localization.kt:81-99 | one more row at the end of a file is one more insertion |
| `FileLoader.LoadedKeys` | src/main/kotlin/com/zelkatani/model/Localization.kt:72-104 | the keys of a parsed file are exactly the keys of its data rows |
| `FileLoader.LoadedRecordFromRow` | src/main/kotlin/com/zelkatani/model/Localization.kt:72-104 | every record of a parsed file is the scan of one of its data rows with that key |
| `FileLoader.DuplicateKeyExample` | src/main/kotlin/com/zelkatani/model/Localization.kt:77-99 | inserting `a`, `b`, then `a` again gives order `[a, b]` with the last record of `a` |
| `Resolver.ResolutionPartition` | src/main/kotlin/com/zelkatani/model/Localization.kt:23-53 | `gameFiles` and `modFiles` are disjoint and together cover every name of both directories; `modFiles` has exactly the mod's names with the mod copy's parse; `gameFiles` holds the base parse of the rest |
| `Resolver.LoadBaseFile` | src/main/kotlin/com/zelkatani/model/Localization.kt:30-37 | one base file: the mod copy's parse goes to `modFiles` when the mod has the name, else the base copy's parse goes to `gameFiles`; the ghost flag, set only beside the load of the base copy, holds iff the mod lacks the name, so an overridden base copy is never loaded |
| `Resolver.LoadBaseFiles` | src/main/kotlin/com/zelkatani/model/Localization.kt:27-38 | after the pass over the base directory, overridden names hold the mod parse and the others the base parse, whatever the listing order |
| `Resolver.LoadModOnlyFiles` | src/main/kotlin/com/zelkatani/model/Localization.kt:40-50 | after the pass over the mod directory, `modFiles` holds every mod file's parse and nothing else |
| `Resolver.Resolve` | src/main/kotlin/com/zelkatani/model/Localization.kt:23-53 | the resolved view equals `Resolution`, whatever order the directories are listed in |
| `Resolver.OverriddenBaseIsIgnored` | src/main/kotlin/com/zelkatani/model/Localization.kt:33-37 | changing the base copy of an overridden file leaves the resolution unchanged |
| `Resolver.MissingDirectory` | src/main/kotlin/com/zelkatani/model/Localization.kt:25-42 | with no base directory only mod files remain; with no mod directory every base file is a game file |
| `RecordLookup.EntryAt` | src/main/kotlin/com/zelkatani/model/Localization.kt:128 | indexing gives an entry iff the index is within the entries, and an index error otherwise |
| `RecordLookup.EntryForLanguage` | src/main/kotlin/com/zelkatani/model/Localization.kt:130 | a language has an entry iff its ordinal is within the entries |
| `RecordLookup.Get` | src/main/kotlin/com/zelkatani/model/Localization.kt:118-119 | the lookup gives nothing iff the key is not in the file |
| `RecordLookup.ScannedEntryIsField` | src/main/kotlin/com/zelkatani/model/Localization.kt:99-130 | the entry a language finds in a scanned row is the row's field at that language's column |
| `RecordLookup.GetFromRows` | src/main/kotlin/com/zelkatani/model/Localization.kt:118-130 | in a parsed file, a lookup gives nothing iff no data row has the key; an entry found is the language's column of a data row with that key |
| `RecordLookup.UnusedRecordCoversAllLanguages` | src/main/kotlin/com/zelkatani/model/Localization.kt:118-130 | every language has an entry in a parsed `UNUSED` record |
| `RecordLookup.TooShortLookup` | src/main/kotlin/com/zelkatani/model/Localization.kt:86-130 | in a row cut short at index k, a language has an entry iff its column is before k, and that entry is the row's field there |
| `RecordLookup.GreetingLookupExample` | src/main/kotlin/com/zelkatani/model/Localization.kt:118-130 | for `GREETING;Hello;Bonjour;x`, English and French resolve, German is an index error at 2 of 2, and another key gives nothing |

## Left out

- Reading files and CSV lexing. The CSV library is not part of this model. A file is given as its rows, and `CsvRows.Split` models only the plain `;` split of the format with no quoting.
- `GameLocation`, which locates the game and mod folders, is not part of this model. Both directories are parameters, and a mod counterpart is taken to be the same-named file in the mod's `localisation/` directory.
- The listing order of a directory, and hence the iteration order of `gameFiles` and `modFiles`. The directory listing does not specify it, so the model treats both as unordered maps.
- Listing entries that are directories whose name ends in `.csv`, and an `exists()` check that succeeds on a directory. The model treats every listed name as a readable file.
- The `OK` state. No code in the file ever sets a record to `OK`, and the `var state` of a record is never changed after parsing, so the record is modelled as a value.
- No code in the editor promotes a record to `OK` or looks a key up across files; the model has neither.
- Characters. Strings are sequences of characters, whereas the JVM uses UTF-16 code units; whitespace is Kotlin's `Char.isWhitespace` (`Character.isWhitespace` or `Character.isSpaceChar`) over single characters, as of current Unicode.
- `CsvRows.IsWhitespace` leaves out U+180E (Mongolian vowel separator): a Java 8 runtime, which the build targets, still counts it as a space separator, while current Unicode does not.
- The capacity hint of the map (1000) is left out, because it does not change behaviour.
