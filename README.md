# Test-data generation pipeline, modelled in Dafny

This project models the generation core of the TestStreet3 web service. A request names:
- a file-name template;
- an ordered list of columns, each with a name, a data-type tag and field options;
- a row count.

The request is processed in five parts:
- **Per-type generators.** LineId, PartId, StepId, CustomDataToString, CustomDataToString2 and the number generator each produce `count` strings from a Bogus `Faker`.
- **`GenDataSetService.GenerateDataSets`.** It walks the columns in order:
  - a plain column is added to an insertion-ordered name→values dictionary;
  - a title column has its first value substituted for the `{Name}` token in the file name;
  - a StepId column also adds a `"Pno"` list of run counters.
- **`DataPivotConverter.ColumnToRow`.** It turns the dictionary into a header line of keys plus one comma-joined line per row.
- **`PreviewTestData`.** It returns the substituted name and the lines.
- **`GenerateTestData`.** It normalises the name to `.csv` and joins the lines with `"\n"` under content type `text/csv`.

The repository also holds older snapshots of the service, the pivot and StepId. Each is modelled as its own small module, named `Legacy…`, and related to the current one where they agree.

How the C# is represented:
- **Randomness.** `Bogus.Faker` is a stream of raw draws (`raw: nat -> nat`) with a cursor. `Random.Int`, `Random.String2` and the ranged `String2` draw from it, and their contracts are all that the generators' proofs use. So every generator property holds whatever values are drawn. Each column draws from its own fresh faker (`new Faker()` per column), supplied as `fakers(i)` for column `i`.
- **Exceptions.** They are `Outcomes.Result` values whose fault names the cause: a negative count, an invalid draw, an index out of range, `First()` on an empty list, a duplicate dictionary key, or a missing key.
- **The dictionary.** `Tables.Table` is a sequence of key/values entries with distinct keys, in insertion order. `Add` fails on a key already present.
- **The loops.** The loops of `GenerateDataSets`, `GeneratePnoDatas`, `StepId.GetFaker` and both `ColumnToRow` versions are Dafny methods with loops. Each is proved equal to a specification function (`Generate`, `PnoDatas`, `Values`, `Pivot`), and the properties are proved about that function. The comprehension-style generators, `GenerateDatas` and the two request handlers are functions.

Behaviours of the code that a reader might not expect, each modelled as written:
- **Two StepId columns.** Both add `"Pno"`, so `Dictionary.Add` throws on the second; the later list does not silently replace the earlier one. See `TwoStepIdColumnsFail`.
- **When title substitution happens.** It happens inside the loop, in column order, on the already-updated name, not once after all columns. See `Place`, `Fold`, `TitleFilled` and `LineTitleExample`.
- **Row count and empty column lists.** The core does not reject `dataCnt <= 0` or an empty column list.
  - A negative count makes every generator but StepId throw.
  - A count of 0 gives empty lists, and then a title column throws at `First()` (`TitleNeedsRows`).
  - The empty-column check exists only in the HTTP controller.
- **The first Pno.** It is `"1"` when the first step value is the empty string, because the scan starts from `""`, not always `0` (`FirstPno`). Generated step codes are never empty, so a real StepId column starts at `"0"` (`StepPnoStartsAtZero`).
- **CustomDataToString2.** It has no arm in the generation switch, so such columns get empty strings (the `Unmatched` tag).
- **Bogus's ranged draws.** `Random.Number(min, max)` draws from `[min, max + 1)`, so `min == max + 1` returns `min` instead of throwing; only `min > max + 1` throws. `Random.Int`, the ranged `String2` and every contract built on them follow that (`OnePastMaxLength`).
- **Number of decimals.** `decimal.Round` throws when `Decimal` is outside 0..28, so a CustomDataToNumber column with such a setting and a positive count makes the request throw (`BadDecimalsFail`).

## Model

| member | source | states |
|---|---|---|
| Constants.UpperStringIsAToZ | Services/WebApp/Abstractions/Constants.cs:8 | UpperString is 26 distinct characters, exactly 'A'..'Z' |
| Constants.LowerStringIsAToZ | Services/WebApp/Abstractions/Constants.cs:9 | LowerString is 26 distinct characters, exactly 'a'..'z' |
| Constants.DigitsStringIsZeroToNine | Services/WebApp/Abstractions/Constants.cs:10 | DigitsString is 10 distinct characters, exactly '0'..'9' |
| Constants.AlphabetsDisjoint | Services/WebApp/Abstractions/Constants.cs:8-10 | the three alphabets share no character |
| DataFormatTypes.FromOrdinal | WebApp/Domains/Types/DataFormatType.cs:5-10 | casting an int gives the member with that ordinal (UpperString 0, LowerString 1, DigitsString 2), other values kept as undeclared |
| DataFormatTypes.FromOrdinalOfOrdinal | WebApp/Domains/Types/DataFormatType.cs:5-10 | casting a value's ordinal back gives the value |
| DataFormatTypes.ToDataFormatString | WebApp/Domains/Types/DataFormatType.cs:15-22 | the mapped alphabet is empty exactly for a value outside the three members |
| DataFormatTypes.FormatStringIsClass | WebApp/Domains/Types/DataFormatType.cs:18-21 | each member's alphabet holds exactly its class (A-Z, a-z, 0-9); other values have none |
| Bogus.Int | Service/WebApp/Domains/Rules/StepId.cs:18 | Random.Int(min, max) succeeds exactly when min <= max + 1, with a result in [min, max] (exactly min when min == max + 1) |
| Bogus.String2 | Service/WebApp/Domains/Rules/StepId.cs:14-15 | Random.String2(length, chars) gives exactly `length` characters, all from `chars`; fails on a negative length, or on an empty alphabet with a positive length (length 0 gives "" whatever the alphabet) |
| Bogus.String2Range | Service/WebApp/Domains/Rules/CustomDataToString.cs:10 | the ranged String2 fails when min > max + 1, succeeds for 0 <= min <= max + 1 and a non-empty alphabet, and gives a length in [min, max] (exactly min when min == max + 1) over `chars` |
| LineId.Codes | WebApp/Domains/Rules/LineId.cs:8-10 | `n` codes drawn in turn, each `length` upper-case letters; fails only for a negative length with n > 0 |
| LineId.GetFaker | WebApp/Domains/Rules/LineId.cs:7-10 | a negative count throws; otherwise exactly `count` codes of `length` (default 4) letters from A-Z |
| PartId.Code | Services/WebApp/Domains/Rules/PartId.cs:9-12 | one code is a letter, six letters or digits, then a letter |
| PartId.GetFaker | Services/WebApp/Domains/Rules/PartId.cs:7-13 | succeeds exactly for count >= 0, with exactly `count` eight-character part codes |
| PartId.LengthUnused | Services/WebApp/Domains/Rules/PartId.cs:7 | the `length` parameter makes no difference to the result |
| StepId.DrawCode | Service/WebApp/Domains/Rules/StepId.cs:13-15 | a drawn code is two letters from A-Z followed by six digits |
| StepId.DrawRepeat | Service/WebApp/Domains/Rules/StepId.cs:18 | the repeat count lies in [1, pno], or is 1 when pno <= 0 |
| StepId.AppendRun | Service/WebApp/Domains/Rules/StepId.cs:20-23 | the inner loop appends the code min(repeatCount, count - done) times |
| StepId.GetFaker | Service/WebApp/Domains/Rules/StepId.cs:7-27 | the while loop terminates (each pass appends at least one value) and returns the values of the runs drawn from the faker, `Values(faker, count, pno)` |
| StepId.CompletionIsRuns | Service/WebApp/Domains/Rules/StepId.cs:11-24 | what the loop still appends from any state is the expansion of the runs drawn for the values still due |
| StepId.RunsLength | Service/WebApp/Domains/Rules/StepId.cs:11-20 | the runs emit exactly the number of values still due |
| StepId.RunsShape | Service/WebApp/Domains/Rules/StepId.cs:13-23 | every run carries a step code and emits between 1 and max(pno, 1) copies; only the last run may be cut short |
| StepId.SingleValueRuns | Service/WebApp/Domains/Rules/StepId.cs:7-18 | with pno <= 1 (including the default 1) every run is a single value |
| StepId.ValuesShape | Service/WebApp/Domains/Rules/StepId.cs:7-27 | GetFaker returns exactly `count` step codes for a positive count and none otherwise |
| LegacyStepId.GetFaker | Services/WebApp/Domains/Rules/StepId.cs:7-12 | succeeds exactly for count >= 0, with exactly `count` step codes; `length` is not read |
| LegacyStepId.CodesAreUngroupedRuns | Services/WebApp/Domains/Rules/StepId.cs:8-12 | the independent per-row codes are the current generator's runs with no grouping |
| LegacyStepId.UngroupedStepIds | Services/WebApp/Domains/Rules/StepId.cs:7-12 | for count >= 0 the older generator equals the current one with pno = 0 |
| CustomDataToString.GetFaker | Service/WebApp/Domains/Rules/CustomDataToString.cs:8-11 | a negative count throws, 0 gives no values, MinLength > MaxLength + 1 throws, 0 <= MinLength <= MaxLength + 1 with a declared format succeeds; values have lengths in [MinLength, max(MinLength, MaxLength)] over the format's alphabet |
| CustomDataToString.OnePastMaxLength | Service/WebApp/Domains/Rules/CustomDataToString.cs:10 | with MaxLength == MinLength - 1 the generator still succeeds, every value exactly MinLength long |
| CustomDataToString.CharactersInClass | Service/WebApp/Domains/Rules/CustomDataToString.cs:10 | every generated character belongs to the FormatType's character class |
| CustomDataToString.ReadsOnlyLengthsAndFormat | Service/WebApp/Domains/Rules/CustomDataToString.cs:10 | options agreeing on MinLength, MaxLength and FormatType give the same result |
| CustomDataToString2.Pick | Service/WebApp/Domains/Rules/CustomDataToString2.cs:9 | an index drawn in [0, Count - 1] succeeds exactly for a non-empty list and yields one of CustomValues; for an empty list the draw gives 0 and the indexer throws |
| CustomDataToString2.GetFaker | Service/WebApp/Domains/Rules/CustomDataToString2.cs:7-10 | succeeds exactly for count 0, or a positive count with a non-empty CustomValues; gives `count` elements of CustomValues |
| Strings.Join | Service/WebApp/Applications/Converters/DataPivotConverter.cs:11 | string.Join of no parts is empty; otherwise it starts with the first part and is as long as the parts plus one separator per neighbouring pair |
| Strings.Replace | Service/WebApp/Domains/Services/GenDataSetService.cs:21 | string.Replace never grows the text when the replacement is no longer than the pattern, and never shrinks it when it is no shorter |
| Strings.IsNullOrWhiteSpace | Service/WebApp/Applications/GenerateTestData.cs:34 | the empty string is blank, and a blank string holds no visible ASCII character |
| Strings.SplitJoin | Service/WebApp/Applications/GenerateTestData.cs:43 | joining separator-free parts and splitting again gives the parts back |
| Tables.Add | Service/WebApp/Domains/Services/GenDataSetService.cs:19-24 | Dictionary.Add succeeds exactly on a new key, appending the entry and keeping the earlier ones |
| Tables.Lookup | Service/WebApp/Applications/Converters/DataPivotConverter.cs:17 | the indexer finds exactly the keys present, returning that key's values |
| GenDataSetService.NumberRows | Services/WebApp/Domains/Rules/CustomDataToNumber.cs:8-11 | the number arm throws on a negative count, and for a positive count when Decimal is outside 0..28; otherwise it gives `count` renderings of whole numbers between MinValue and MaxValue |
| GenDataSetService.GenerateDatas | Service/WebApp/Domains/Services/GenDataSetService.cs:31-43 | each arm gives RowCount values of its type's shape (an unmatched tag, CustomDataToString2 included, gives empty strings); a negative count throws in every arm but StepId; the number arm also throws on a bad Decimal; StepId gives the run values for the column's pno |
| GenDataSetService.GeneratePnoDatas | Service/WebApp/Domains/Services/GenDataSetService.cs:45-65 | the scan returns one rendered run counter per step value, `PnoDatas` |
| GenDataSetService.CounterIsRunLength | Service/WebApp/Domains/Services/GenDataSetService.cs:49-61 | the counter at `i` is one less than the length of the block of equal values ending at `i`, with "" in front of the list |
| GenDataSetService.PnoRecurrence | Service/WebApp/Domains/Services/GenDataSetService.cs:54-61 | for i > 0, Pno[i] is Pno[i-1] + 1 when the step value repeats, else 0 |
| GenDataSetService.FirstPno | Service/WebApp/Domains/Services/GenDataSetService.cs:49-58 | the first Pno is 1 exactly when the first step value is "", else 0 |
| GenDataSetService.StepPnoStartsAtZero | Service/WebApp/Domains/Services/GenDataSetService.cs:23-24 | the Pno list of a generated StepId column starts at "0" |
| GenDataSetService.PlaceColumn | Service/WebApp/Domains/Services/GenDataSetService.cs:16-24 | one loop iteration: Add a plain column, or substitute a title column's first value, then Add "Pno" for StepId |
| GenDataSetService.GenerateDataSets | Service/WebApp/Domains/Services/GenDataSetService.cs:10-29 | the loop over the columns returns `Generate`, stopping at the first exception |
| GenDataSetService.PlaceOutcome | Service/WebApp/Domains/Services/GenDataSetService.cs:18-21 | a plain column is appended under its name unless the name is taken; a title column leaves the table alone and needs a first value |
| GenDataSetService.ApplyOutcome | Service/WebApp/Domains/Services/GenDataSetService.cs:18-24 | an iteration succeeds exactly when a title column has a value and its new keys keep the table distinct, and then appends its entries ("Pno" right after the column's own) |
| GenDataSetService.FoldOutcome | Service/WebApp/Domains/Services/GenDataSetService.cs:14-26 | the loop from column i succeeds exactly when no column fails on its own and no key repeats, leaving the entries appended in order |
| GenDataSetService.GenerateOutcome | Service/WebApp/Domains/Services/GenDataSetService.cs:10-29 | GenerateDataSets succeeds exactly when every column's generator succeeds, every title column has a first value and the expected keys are distinct; the table then holds the columns' entries and its keys are the expected keys, in declaration order |
| GenDataSetService.SharedKeyFails | Service/WebApp/Domains/Services/GenDataSetService.cs:19-24 | two columns adding the same key (same name, two StepId, or "Pno" and a StepId) make the request throw |
| GenDataSetService.TwoStepIdColumnsFail | Service/WebApp/Domains/Services/GenDataSetService.cs:23-24 | two StepId columns make the request throw |
| GenDataSetService.TitleNeedsRows | Service/WebApp/Domains/Services/GenDataSetService.cs:21 | a title column with dataCnt <= 0 makes the request throw |
| GenDataSetService.ReplaceToken | Service/WebApp/Domains/Services/GenDataSetService.cs:21 | replacing `{Name}` in `a + {Name} + b`, with no '{' in a or b, gives `a + value + b` |
| Strings.ReplaceAfterPrefix | Service/WebApp/Domains/Services/GenDataSetService.cs:21 | string.Replace copies a prefix free of the pattern's first character, replaces the occurrence after it and resumes just past it |
| Strings.ReplaceJoin | Service/WebApp/Domains/Services/GenDataSetService.cs:21 | string.Replace replaces every occurrence: pieces free of the pattern's first character joined by the pattern become the pieces joined by the replacement |
| GenDataSetService.ReplaceTokens | Service/WebApp/Domains/Services/GenDataSetService.cs:21 | every `{Name}` is replaced: brace-free pieces joined by the token become the pieces joined by the value |
| GenDataSetService.RepeatedTokenExample | Service/WebApp/Domains/Services/GenDataSetService.cs:21 | "{line}-{line}.csv" (written `Token("line") + "-" + Token("line") + ".csv"`) becomes value + "-" + value + ".csv" |
| GenDataSetService.FoldFillsTitle | Service/WebApp/Domains/Services/GenDataSetService.cs:14-26 | when column j is the only title column left and the name is brace-free pieces joined by its `{Name}`, a successful loop leaves the pieces joined by column j's first value |
| GenDataSetService.TitleFilled | Service/WebApp/Domains/Services/GenDataSetService.cs:10-29 | for a request whose only title column is j and a template of brace-free pieces joined by its `{Name}` (any number of times), a successful request has a positive count and the pieces joined by column j's first value |
| GenDataSetService.BadDecimalsFail | Service/WebApp/Domains/Services/GenDataSetService.cs:40-41 | a CustomDataToNumber column with Decimal outside 0..28 and a positive count makes the request throw |
| GenDataSetService.ReplaceTokenAbsent | Service/WebApp/Domains/Services/GenDataSetService.cs:21 | substituting into a name without '{' leaves it unchanged |
| GenDataSetService.FoldKeepsName | Service/WebApp/Domains/Services/GenDataSetService.cs:14-26 | without title columns, or without '{' in the name, the loop returns the name unchanged |
| GenDataSetService.NameKept | Service/WebApp/Domains/Services/GenDataSetService.cs:10-29 | the same for a whole request |
| GenDataSetService.LineTitleExample | Service/WebApp/Domains/Services/GenDataSetService.cs:18-21 | "{line}.csv" with one LineId title column and a positive count becomes four letters + ".csv" with an empty table |
| GenDataSetService.EntriesFull | Service/WebApp/Domains/Services/GenDataSetService.cs:16-24 | when every successful outcome has n values, every stored list has n values |
| GenDataSetService.GeneratedColumnsFull | Service/WebApp/Domains/Services/GenDataSetService.cs:10-29 | every list in a generated table, "Pno" included, holds one value per row |
| LegacyGenDataSetService.GenerateDatas | WebApp/Domains/Services/GenDataSetService.cs:21-30 | every arm throws on a negative count; besides CustomDataToString every arm succeeds otherwise; values have the arm's shape, empty strings for the discard arm (CustomDataToNumber included) |
| LegacyGenDataSetService.GenerateDataSets | WebApp/Domains/Services/GenDataSetService.cs:10-18 | the loop adding `(idx++, Name)` entries returns `Generate` |
| LegacyGenDataSetService.FoldSucceeds | WebApp/Domains/Services/GenDataSetService.cs:14-16 | with earlier keys below the index, the loop fails only when a generator does |
| LegacyGenDataSetService.FoldEntries | WebApp/Domains/Services/GenDataSetService.cs:14-16 | on success the loop appends one entry per column, keyed `(j, Name)` |
| LegacyGenDataSetService.GenerateSucceeds | WebApp/Domains/Services/GenDataSetService.cs:10-18 | the older service throws exactly when a generator does, never on duplicate names |
| LegacyGenDataSetService.GenerateEntries | WebApp/Domains/Services/GenDataSetService.cs:14-16 | on success entry j is `((j, Name), values of column j)` |
| LegacyGenDataSetService.GenerateOutcome | WebApp/Domains/Services/GenDataSetService.cs:10-18 | the older service throws exactly when a generator does, never on duplicate names; entry j is `((j, Name), values of column j)`, with no title substitution and no "Pno" |
| LegacyGenDataSetService.SucceedsOnNonNegativeCount | WebApp/Domains/Services/GenDataSetService.cs:10-30 | without CustomDataToString columns the older service succeeds exactly for dataCnt >= 0 |
| DataPivotConverter.Row | Service/WebApp/Applications/Converters/DataPivotConverter.cs:15-17 | row i is the i-th value of every column, in key order |
| DataPivotConverter.RowValues | Service/WebApp/Applications/Converters/DataPivotConverter.cs:15-17 | the inner foreach succeeds exactly when every column has an i-th value, giving Row(i); else an index failure |
| DataPivotConverter.ColumnToRow | Service/WebApp/Applications/Converters/DataPivotConverter.cs:5-23 | the method returns `Pivot`: the header, then one joined line per row index, or the index failure |
| DataPivotConverter.PivotShape | Service/WebApp/Applications/Converters/DataPivotConverter.cs:9-21 | the pivot fails exactly on a column shorter than dataCnt; otherwise it has max(dataCnt, 0) + 1 lines |
| DataPivotConverter.HeaderSplits | Service/WebApp/Applications/Converters/DataPivotConverter.cs:7-11 | with no comma in the keys the header splits back into the keys in table order |
| DataPivotConverter.RowSplits | Service/WebApp/Applications/Converters/DataPivotConverter.cs:13-19 | line i + 1 has exactly one field per column iff no value of row i has a comma, and then splits back into row i |
| DataPivotConverter.EmptyTable | Service/WebApp/Applications/Converters/DataPivotConverter.cs:11-19 | an empty table gives an empty header and max(dataCnt, 0) empty lines |
| LegacyDataPivotConverter.RowValues | WebApp/Applications/Converters/DataPivotConverter.cs:15-17 | the foreach over the key snapshot gives Row(i), or the index failure |
| LegacyDataPivotConverter.ColumnToRow | WebApp/Applications/Converters/DataPivotConverter.cs:5-23 | the older pivot over a key snapshot returns the same `Pivot` as the current one |
| PreviewTestData.GenDataSets | Service/WebApp/Applications/PreviewTestData.cs:33-41 | a service exception propagates unchanged; a successful preview has the service's substituted name and RowCount + 1 lines |
| PreviewTestData.PreviewOutcome | Service/WebApp/Applications/PreviewTestData.cs:33-41 | a preview fails exactly when the service does; it returns the substituted name unchanged, the header of the expected keys, and RowCount + 1 lines |
| PreviewTestData.PreviewKeepsName | Service/WebApp/Applications/PreviewTestData.cs:37-40 | without title columns, or '{' in the name, the preview keeps the requested name |
| GenerateTestData.GetFileName | Service/WebApp/Applications/GenerateTestData.cs:40 | the file name is the suffix of the path after its last '/', or the whole path when it has none |
| GenerateTestData.LastDot | Service/WebApp/Applications/GenerateTestData.cs:40 | the position of the last '.', or -1 when there is none |
| GenerateTestData.StemOfPlainName | Service/WebApp/Applications/GenerateTestData.cs:40 | a name without '/' and '.' is its own stem |
| GenerateTestData.StemOfCsv | Service/WebApp/Applications/GenerateTestData.cs:40 | GetFileNameWithoutExtension(stem + ".csv") is the stem |
| GenerateTestData.GetFileNameWithoutExtension | Service/WebApp/Applications/GenerateTestData.cs:40 | the stem has no '/', is a prefix of the file name, and is cut exactly at its last '.' (whole when there is none) |
| GenerateTestData.CsvFileName | Service/WebApp/Applications/GenerateTestData.cs:34-41 | the name always ends in ".csv" and has no '/' when the timestamp has none; a blank name gives exactly "dataset-" + timestamp + ".csv", any other its stem + ".csv" |
| GenerateTestData.GenDataSets | Service/WebApp/Applications/GenerateTestData.cs:24-46 | a service exception propagates unchanged; a successful download has content type "text/csv" and a name ending in ".csv" |
| GenerateTestData.CsvFileNameIdempotent | Service/WebApp/Applications/GenerateTestData.cs:34-41 | normalising an already normalised name changes nothing |
| GenerateTestData.FormatIgnored | Service/WebApp/Applications/GenerateTestData.cs:12-46 | the requested FileFormatType makes no difference to the response |
| GenerateTestData.DownloadIsPreview | Service/WebApp/Applications/GenerateTestData.cs:24-46 | the download fails exactly when the preview does; its content is the preview's lines joined by "\n", its name the preview's name normalised, its type "text/csv" |
| GenerateTestData.ContentSplitsIntoLines | Service/WebApp/Applications/GenerateTestData.cs:31-43 | with no newline inside a line, the content splits back into the lines: no trailing newline |

## Left out

- HTTP controllers, MediatR handlers, async `Task` wrappers and dependency injection. These are transport only. The controller's check rejecting an empty column list is part of them.
- Rule persistence, the local file system, JSON serialisation and the schedule DTOs. This is I/O with no generation logic. The commented-out CSV write in the preview handler goes with them.
- The React client and its fetch-based API module. They are user-interface and network code.
- The internals of Bogus's `Faker`. It is a foreign library, so only the draws the generators use are modelled, through their range and alphabet contracts.
- `DateTime.Now`. The timestamp of the default file name is a parameter (`GenerateTestData.CsvFileName`).
- GenDataSetService.NumberRows: does not model `Random.Decimal`'s fractional values, the rounding to `Decimal` places, the cast to `double` or its `ToString` formatting. These are floating-point rendering, so only whole numbers between the bounds, in decimal, are modelled; the exception for `Decimal` outside 0..28 is modelled.
- Bogus.Int: does not model the 32-bit range of `int`; bounds are unbounded integers.
- GenDataSetService.GenerateDatas: for CustomDataToNumber it states only what NumberRows states.
- GenerateTestData.GetFileNameWithoutExtension: does not model Windows separators or invalid path characters. Only '/' separates directories.
- GenDataSetService.Place: does not prove in general that other columns' `{Name}` tokens survive a substitution. `Strings.Replace` models `string.Replace` (left to right, non-overlapping); the name is proved for a name without '{' (`NameKept`) and for one title column whose token, repeated any number of times, is the only '{' (`TitleFilled`), not for several title columns or templates with other braces.
- Null options. `CustomColumn.Options` is initialised to `default!`, which is null, so a column sent without options makes the request throw a NullReferenceException when the generator or the loop reads `Options`: the CustomDataToString, CustomDataToNumber and StepId generators read it before the loop reads `Options.UseTitle`. The model assumes every column has options. A null `CustomValues` list and null strings are likewise not modelled.
- The older service's `CustomColumn` has no `Options` property, yet its CustomDataToString arm reads `column.Options`, so that tree does not compile as written. The model gives the older service's columns the current `FieldOptions`.
- `CreateMGuideFiles` is commented out, and the older `CreateTestDatas` composes the older service's `(index, name)`-keyed table with a pivot that takes name keys, which does not type-check. Neither is part of this model.
- The older pivot is modelled over name keys, the type it declares, not over the older service's tuple keys.
- The DataType enum's source file is not part of this model. Its five named tags come from the generation switch, and every other value is `Unmatched`.
- Where the current tree has no copy of a generator, its older copy is used:
  - LineId comes from the `WebApp` tree;
  - PartId, Constants and the number generator's options come from the `Services` tree;
  - the older service's StepId arm (`LegacyStepId`) comes from the `Services` tree's StepId, because the `WebApp` tree's copy is not part of this model;
  - DataFormatType comes from the `WebApp` tree.
- Loop bodies are split into helper methods so that each proof stays small. These are `StepId.AppendRun`, `GenDataSetService.PlaceColumn` and the two `RowValues`. Each does exactly what the inlined body does.
- The dictionary and lists are values passed in and returned. Aliasing of the caller's dictionary is not modelled; the pivot methods take the table by value, so they cannot modify it.
