# importerkit — a Dafny model of the product-feed import core

importerkit reads a product feed row by row. It maps each row (column name to
text) to an `Item`, validates the item against six business rules, and
optionally waives the GTIN rule (the "lenient GTIN override"). It skips
invalid rows and records their messages under the row's line number. Valid
items are collected into batches, and each full batch is written to the
`items` table through an insert-or-update keyed on the GTIN. Every batch runs
in one database transaction. At the end the leftover batch is flushed, and a
notice is logged if the override fired. The run's status is success, partial
failure or failed.

The model has these modules:

- `Items`, `Dtos`, `ImportStatuses`, `ValidationErrors` and `ValidationResults`:
  the value types. These are the `Item` record, the options and result DTOs,
  the two enums with their backing values, messages and exit codes, and the
  validator's verdict.
- `PhpStrings` and `PhpNumbers`: the PHP built-ins the core relies on. These
  are `trim()`, `strtolower()`, `implode()`, the `(int)` cast, `is_numeric()`
  and `number_format($x, 2, '.', '')`, each stated over plain decimal
  literals.
- `Mapping`: `ItemMapper`.
- `Validation`: `ItemValidator`, including the GS1 check digit of a GTIN-13.
- `Persistence`: `ItemRepository`, a class whose fields are the table (a map
  from GTIN to item) and the log of transaction outcomes. The database's
  failures are given up front as a map from transaction number to `Fault`.
- `ImportRuns` and `RowVerdicts`: a declarative description of a whole run. It
  covers the verdict of each row, the counters, the errors map, the override
  notice, the batches handed to the repository, the progress reports and the
  status.
- `Importer`: the `DataImporter` class, whose `Import` loop is proved against
  that description.

## Model

| member | source | states |
|---|---|---|
| ImportStatuses.ExitCode | src/Enum/ImportStatus.php:13-20 | The exit code is 0, 1 or 2: 0 exactly for Success, 2 exactly for Failed. |
| ImportStatuses.ExitCodeInjective | src/Enum/ImportStatus.php:7-20 | Distinct statuses have distinct exit codes and distinct backing values. |
| ImportStatuses.Value | src/Enum/ImportStatus.php:9-11 | Definition: the backing strings "success", "partial_failure" and "failed". |
| Dtos.DefaultOptions | src/DTO/ImportOptions.php:9-12 | Definition: the constructor defaults, batchSize 100 and dryRun false; the third field, skipGtinValidation, defaults to false. |
| ValidationErrors.Rank | src/Enum/ValidationError.php:9-14 | Each case sits at its declaration position in AllErrors. |
| ValidationErrors.Value | src/Enum/ValidationError.php:9-14 | Definition: the six backing strings, from "invalid_gtin" to "missing_required_field". |
| ValidationErrors.Message | src/Enum/ValidationError.php:16-26 | Definition: getMessage(), the fixed text of each case. |
| ValidationErrors.Messages | src/Domain/ValidationResult.php:25-28 | Mapping getMessage() over a list gives one message per case, position by position. |
| ValidationErrors.AllErrorsComplete | src/Enum/ValidationError.php:9-14 | AllErrors lists every case exactly once. |
| ValidationErrors.MessagesAndValuesDistinct | src/Enum/ValidationError.php:9-25 | Distinct cases have distinct messages and distinct backing values, and every backing value is snake_case. |
| ValidationResults.ErrorMessages | src/Domain/ValidationResult.php:23-29 | getErrorMessages() gives one message per stored category, in order. |
| ValidationResults.PriceAndUrlMessages | tests/Unit/Domain/ValidationResultTest.php:33-52 | A price failure followed by a URL failure gives those two messages in that order. |
| PhpStrings.Trim | src/Mapper/ItemMapper.php:96-99 | trim() returns a middle slice of its input: everything cut away on either side is trimmable, and neither end of the result is. |
| PhpStrings.TrimKeeps | src/Mapper/ItemMapper.php:96-99 | A string with no trimmable character at either end is returned unchanged. |
| PhpStrings.TrimIdempotent | src/Mapper/ItemMapper.php:96-99 | Trimming twice is trimming once. |
| PhpStrings.TrimIsATrimming | src/Mapper/ItemMapper.php:96-99 | Trim meets the independent description IsTrimmingOf. |
| PhpStrings.TrimmingIsUnique | src/Mapper/ItemMapper.php:96-99 | Any string meeting IsTrimmingAt is the one Trim returns. |
| PhpStrings.LowerChar | src/Domain/ItemValidator.php:92 | strtolower() on one character shifts A-Z to a-z and leaves every other character alone. |
| PhpStrings.Lower | src/Domain/ItemValidator.php:92 | strtolower() keeps the length and lowers position by position. |
| PhpNumbers.NatToString | src/Mapper/ItemMapper.php:93 | The decimal rendering of n is canonical digits whose value is n. |
| PhpNumbers.NatToStringOfValue | src/Mapper/ItemMapper.php:93 | Rendering inverts evaluation on canonical digit strings. |
| PhpNumbers.IntCast | src/Mapper/ItemMapper.php:39 | Definition: (int) of a string: leading whitespace skipped, an optional sign, then the longest digit run; 0 when there is none. |
| PhpNumbers.IntCastOfRendering | src/Mapper/ItemMapper.php:39 | (int) reads back a rendered natural number, and its negation with a leading '-'. |
| PhpNumbers.IntCastOfDigits | src/Mapper/ItemMapper.php:39 | A run of digits after any PHP whitespace casts to its value. |
| PhpNumbers.IntCastOfText | src/Mapper/ItemMapper.php:39 | Text that starts (after whitespace) with no sign or digit casts to 0. |
| PhpNumbers.ParseDecimal | src/Mapper/ItemMapper.php:89 | A parsed literal is well formed: its digit runs are digits and not both empty. |
| PhpNumbers.ParseUnsigned | src/Mapper/ItemMapper.php:89 | digits.digits splits at the point into its two runs. |
| PhpNumbers.IsNumeric | src/Mapper/ItemMapper.php:89 | Definition: is_numeric(): the text, with leading and trailing whitespace removed, is a decimal literal `[+-]digits[.digits]`. |
| PhpNumbers.PlainDecimal | src/Domain/ItemValidator.php:76 | A plain literal digits.digits is numeric with exactly those runs. |
| PhpNumbers.ParseNegated | src/Domain/ItemValidator.php:76 | A leading '-' on an unsigned literal only flips its sign. |
| PhpNumbers.RoundedCents | src/Mapper/ItemMapper.php:93 | The rounded hundredths of a fraction lie between 0 and 100; 100 is a carry. |
| PhpNumbers.UnsignedCents | src/Mapper/ItemMapper.php:93 | A rendering of hundredths is in fixed two-decimal form and has no sign. |
| PhpNumbers.FormatCents | src/Mapper/ItemMapper.php:93 | The rendering is in fixed two-decimal form and starts with '-' exactly for a non-zero negative amount. |
| PhpNumbers.NumberFormat2 | src/Mapper/ItemMapper.php:93 | number_format(x, 2, '.', '') yields fixed two-decimal notation with no thousands separator. |
| PhpNumbers.FormatCentsParses | src/Mapper/ItemMapper.php:93 | A two-decimal rendering reads back as a literal with the same sign and the same hundredths. |
| PhpNumbers.NumberFormat2Idempotent | src/Mapper/ItemMapper.php:85-94 | The formatted text is numeric, and formatting it again changes nothing. |
| PhpNumbers.NumberFormat2KeepsShortValues | src/Mapper/ItemMapper.php:85-94 | With at most two fraction digits the formatted value equals the original value. |
| PhpNumbers.SameCentsSameValue | src/Mapper/ItemMapper.php:93 | Short literals with the same hundredths and matching sign denote the same value. |
| PhpNumbers.TwoDigitValue | src/Mapper/ItemMapper.php:93 | With at most two fraction digits, the value is the signed hundredths over 100. |
| Mapping.GetRequiredColumns | src/Mapper/ItemMapper.php:60-63 | Seven distinct column names, the GTIN first. |
| Mapping.HasRequiredColumnsListed | src/Mapper/ItemMapper.php:15-23 | A row has the required columns exactly when every listed column is one of its keys. |
| Mapping.Supports | src/Mapper/ItemMapper.php:46-55 | The scan returns true exactly when every required column is present. |
| Mapping.MissingAmongMembers | src/Mapper/ItemMapper.php:72-76 | A column is collected exactly when it is listed and absent. |
| Mapping.MissingAmongCharacterised | src/Mapper/ItemMapper.php:72-78 | For any list of columns, the collected list holds exactly the listed columns the row lacks, and is empty exactly when the row has them all. |
| Mapping.MissingColumnsCharacterised | src/Mapper/ItemMapper.php:68-83 | The missing list holds exactly the absent required columns, and is empty exactly when the row is supported. |
| Mapping.AssertRequiredColumns | src/Mapper/ItemMapper.php:68-83 | It passes exactly when the row is supported; otherwise it fails with "Missing required columns: " and the absent columns joined by ", ". |
| Mapping.MissingMessage | src/Mapper/ItemMapper.php:79-81 | Definition: "Missing required columns: " followed by the missing columns joined by ", ". |
| Mapping.MapFailsIffUnsupported | src/Mapper/ItemMapper.php:28-31 | map() fails exactly when a required column is absent, and the error names exactly the absent columns. |
| Mapping.Map | src/Mapper/ItemMapper.php:28-41 | Definition: map(): the MappingException for a row lacking columns, otherwise the five trimmed text fields, the normalised price and the cast stock. |
| Mapping.EmptyValuesStillMap | src/Mapper/ItemMapper.php:28-41 | Only key presence matters: a row with all the columns maps, whatever its values. |
| Mapping.EmptyRowExample | src/Mapper/ItemMapper.php:28-41 | A row of seven empty cells maps to empty fields, an empty price and stock 0. |
| Mapping.ExtraColumnsIgnored | src/Mapper/ItemMapper.php:28-41 | Columns beyond the required seven do not change the result. |
| Mapping.MissingSameAbsence | src/Mapper/ItemMapper.php:72-76 | Two rows lacking the same columns report the same missing list. |
| Mapping.FieldsAreTrimmed | src/Mapper/ItemMapper.php:33-37 | Each text field is its raw cell trimmed at both ends, with nothing else changed. |
| Mapping.NormalizePrice | src/Mapper/ItemMapper.php:85-94 | Definition: normalizePrice(): the trimmed text, formatted with two decimals when it is numeric. |
| Mapping.NonNumericPriceKept | src/Mapper/ItemMapper.php:87-91 | A price that is not numeric after trimming is kept as the trimmed text. |
| Mapping.NumericPriceFixed | src/Mapper/ItemMapper.php:87-93 | A numeric price comes out in fixed two-decimal notation and is still numeric; with at most two fraction digits its value is kept. |
| Mapping.PlainPriceNormalised | src/Mapper/ItemMapper.php:85-94 | An unsigned digits.digits price is rendered from its value rounded half up to hundredths. |
| Mapping.NormalizePriceIdempotent | src/Mapper/ItemMapper.php:85-94 | Normalising a normalised price changes nothing. |
| Mapping.FormattedIsTrimmed | src/Mapper/ItemMapper.php:87-93 | Fixed two-decimal text has nothing to trim. |
| Mapping.PriceExample | tests/Unit/Mapper/ItemMapperTest.php:44-51 | "738.7" normalises to "738.70". |
| Mapping.StockDigits | src/Mapper/ItemMapper.php:39 | (int) "10" is 10. |
| Mapping.StockPadded | src/Mapper/ItemMapper.php:39 | (int) of "10" after any run of PHP whitespace is 10, so "  10" is 10: leading blanks, tabs and line breaks are skipped. |
| Mapping.StockText | src/Mapper/ItemMapper.php:39 | (int) "abc" is 0. |
| Mapping.MissingColumnsExample | tests/Unit/Mapper/ItemMapperTest.php:62-74 | A row with only a GTIN is unsupported and fails, listing the six other columns. |
| Validation.CharInt | src/Domain/ItemValidator.php:65 | (int) of one character is a digit value below 10. |
| Validation.CheckDigit | src/Domain/ItemValidator.php:69 | The check digit is below 10. |
| Validation.WeightedSum | src/Domain/ItemValidator.php:64-67 | Definition: the sum of the payload's digit values, weight 1 at even positions and 3 at odd ones. |
| Validation.IsValidGtin13Checksum | src/Domain/ItemValidator.php:60-72 | The accumulating loop returns true exactly when the 13th character carries the check digit of the first twelve. |
| Validation.CheckGtin | src/Domain/ItemValidator.php:47-58 | isValidGtin() with the corrected pattern: 8 to 14 digits, plus the checksum when there are 13. |
| Validation.IsValidGtin | src/Domain/ItemValidator.php:47-58 | Definition: the corrected reading, a run of 8 to 14 digits with a correct check digit when there are 13. |
| Validation.IsValidGtinAsWritten | src/Domain/ItemValidator.php:47-58 | Definition: isValidGtin() as written, where the pattern also admits such a run followed by one final line feed, and the checksum applies only at length 13. |
| Validation.CheckGtinAsWritten | src/Domain/ItemValidator.php:47-58 | isValidGtin() as written: the result is exactly IsValidGtinAsWritten, which validate() uses. |
| Validation.TrailingLineFeedSkipsChecksum | src/Domain/ItemValidator.php:49-54 | As written, a 13-digit GTIN with a wrong check digit passes once a line feed follows it. |
| Validation.AsWrittenAgreesWithoutLineFeed | src/Domain/ItemValidator.php:49-57 | Both readings of the pattern agree on strings that do not end in a line feed. |
| Validation.TrimmedGtinAgrees | src/Mapper/ItemMapper.php:33 | On a trimmed GTIN, which is what the mapper hands over, the two readings agree. |
| Validation.UnterminatedGtinVerdict | src/Domain/ItemValidator.php:17-19 | On a GTIN that does not end in a line feed, validate()'s GTIN rule passes exactly when the corrected check does. |
| Validation.LineFeedGtinPasses | src/Domain/ItemValidator.php:17-19 | As written, validate() reports no InvalidGtin for the mistyped "4006381333932" followed by a line feed. |
| Validation.Payload400638133393 | tests/Unit/Domain/ItemValidatorTest.php:22-29 | The check digit of payload 400638133393 is 1. |
| Validation.Gtin13Examples | tests/Unit/Domain/ItemValidatorTest.php:31-46 | 4006381333931 is valid and 4006381333932 is not, under both readings of the pattern. |
| Validation.CheckDigitUnique | src/Domain/ItemValidator.php:60-72 | A 12-digit payload plus one digit is valid exactly when that digit is the check digit. |
| Validation.OtherLengthsNeedNoChecksum | src/Domain/ItemValidator.php:53-57 | A digit run of any accepted length other than 13 is valid without a checksum. |
| Validation.WeightedSumChange | src/Domain/ItemValidator.php:64-67 | Changing one payload digit changes the weighted sum by its weight times the difference. |
| Validation.WeightedDigitChangeNonZero | src/Domain/ItemValidator.php:66 | With weight 1 or 3, a non-zero digit change never leaves the sum unchanged modulo 10. |
| Validation.CheckDigitDetermines | src/Domain/ItemValidator.php:69 | Equal check digits mean sums that agree modulo 10. |
| Validation.SingleDigitErrorDetected | src/Domain/ItemValidator.php:60-72 | Changing any one digit of a valid GTIN-13 makes it invalid. |
| Validation.LanguageExamples | tests/Unit/Domain/ItemValidatorTest.php:73-102 | "DE", "de" and "en" are accepted and "xx" is not. |
| Validation.LanguageShape | src/Domain/ItemValidator.php:90-93 | Every accepted code has two characters, and lower-casing never changes the verdict. |
| Validation.IsValidPrice | src/Domain/ItemValidator.php:74-83 | Definition: isValidPrice(): numeric, with a value strictly between 0 and 10^13. |
| Validation.IsValidStock | src/Domain/ItemValidator.php:85-88 | Definition: isValidStock(): the stock is at least 0. |
| Validation.IsValidLanguage | src/Domain/ItemValidator.php:90-93 | Definition: isValidLanguage(): the lower-cased code is one of en, de, fr, it, es, nl and pl. |
| Validation.Errors | src/Domain/ItemValidator.php:15-39 | Definition: the categories whose rule fails, filtered from the six cases in declaration order. |
| Validation.FailedAmong | src/Domain/ItemValidator.php:15-39 | Filtering never lengthens the category list. |
| Validation.FailedAmongSnoc | src/Domain/ItemValidator.php:15-39 | One more checked category is appended exactly when its rule failed. |
| Validation.FailedAmongMembers | src/Domain/ItemValidator.php:15-39 | A category is kept exactly when it was checked and its rule failed. |
| Validation.FailedAmongIncreasing | src/Domain/ItemValidator.php:15-39 | Filtering keeps declaration order. |
| Validation.FailedCharacterised | src/Domain/ItemValidator.php:15-44 | The failed categories are exactly those whose rule failed, each once, in declaration order, and there are none exactly when every rule passed. |
| Validation.FailedInTurn | src/Domain/ItemValidator.php:15-39 | The failed list is the concatenation of six successive checks, the shape validate() has. |
| Validation.Validate | src/Domain/ItemValidator.php:13-45 | validate() as written returns exactly the failed categories in declaration order, and isValid holds exactly when every rule passes. The GTIN rule is the as-written isValidGtin(). |
| Validation.ReferenceItemPasses | tests/Unit/Domain/ItemValidatorTest.php:22-29 | The reference item passes every rule. |
| Validation.SingleDefectExamples | tests/Unit/Domain/ItemValidatorTest.php:31-95 | Each single-field defect of the reference item raises its own category. |
| Validation.UpperCaseLanguageExample | tests/Unit/Domain/ItemValidatorTest.php:97-102 | The reference item with language "DE" passes every rule. |
| Validation.Price1999 | src/Domain/ItemValidator.php:74-83 | "19.99" is a valid price. |
| Persistence.LastWithCharacterised | src/Repository/ItemRepository.php:60-70 | The lookup finds nothing exactly when no item has the GTIN; otherwise it finds an item with it that no later item shares. |
| Persistence.UpsertAll | src/Repository/ItemRepository.php:60-70 | Definition: the table after the batch's statements in order, each inserting the item or overwriting the row with its GTIN. |
| Persistence.UpsertAllLookup | src/Repository/ItemRepository.php:44-55 | Last write wins: a GTIN of the batch holds the batch's last item with that GTIN, and any other row is kept or stays absent. |
| Persistence.LastWriteWins | src/Repository/ItemRepository.php:44-55 | An item no later item overrides is stored under its GTIN. |
| Persistence.UntouchedRows | src/Repository/ItemRepository.php:44-55 | Rows whose GTIN the batch does not carry are left as they were. |
| Persistence.UpsertAllKeys | src/Repository/ItemRepository.php:44-55 | The keys afterwards are the old keys plus the batch's GTINs. |
| Persistence.UpsertAllKeyed | src/Repository/ItemRepository.php:44-55 | A batch keeps every row stored under its own GTIN. |
| Persistence.UpsertAllAppend | src/Repository/ItemRepository.php:60-70 | Writing two batches in turn is writing their concatenation. |
| Persistence.UpsertOne | src/Repository/ItemRepository.php:30-33 | Upserting one item inserts or overwrites its row and leaves every other row alone. |
| Persistence.SameGtinTwice | tests/Integration/Repository/ItemRepositoryTest.php:36-50 | The same GTIN written twice leaves one row holding the second item. |
| Persistence.TwoDistinctGtins | tests/Integration/Repository/ItemRepositoryTest.php:52-64 | Two distinct GTINs written into an empty table give two rows. |
| Persistence.Commits | src/Repository/ItemRepository.php:72 | n commits in a row: n entries, each Committed. |
| Persistence.ItemRepository.constructor | src/Repository/ItemRepository.php:22-25 | The repository starts with the given table, no transactions and the given faults. |
| Persistence.ItemRepository.UpsertBatch | src/Repository/ItemRepository.php:38-78 | An empty batch touches nothing. Otherwise one transaction is logged; on a fault it rolls back, keeps the table and fails with "Failed to upsert items"; without one it commits the batch's upserts in order. |
| Persistence.ItemRepository.Upsert | src/Repository/ItemRepository.php:30-33 | A one-item batch: one transaction; on success that item's row is set, and on a fault the table is kept and the error is the same "Failed to upsert items" RepositoryException. |
| Persistence.ItemRepository.FindByGtin | src/Repository/ItemRepository.php:83-107 | A failing query gives "Failed to fetch item"; otherwise the result is the stored row, or none exactly when the GTIN is absent. |
| RowVerdicts.WithoutGtin | src/Service/DataImporter.php:71-74 | Removing InvalidGtin never lengthens the list. |
| RowVerdicts.WithoutGtinMembers | src/Service/DataImporter.php:71-74 | The filter keeps exactly the categories other than InvalidGtin. |
| RowVerdicts.WithoutGtinShorter | src/Service/DataImporter.php:76 | The count changes exactly when InvalidGtin was among the errors. |
| RowVerdicts.Verdicts | src/Service/DataImporter.php:56 | One verdict per source row. |
| RowVerdicts.VerdictsPrefix | src/Service/DataImporter.php:56-105 | The verdicts of a prefix of the source are the prefix of its verdicts. |
| RowVerdicts.RunPrefix | src/Service/DataImporter.php:95-104 | Part way through, the batches flushed so far start the run's batches, and the reports so far start the run's reports, one per flushed batch. |
| RowVerdicts.StrictVerdict | src/Service/DataImporter.php:66-95 | Without the override, an item is kept exactly when every rule passes; otherwise the messages are those of all failed categories, and the override never fires. |
| RowVerdicts.LenientVerdict | src/Service/DataImporter.php:70-95 | With the override, InvalidGtin never reaches the messages; an item is kept exactly when the other rules pass; the override fires, recording the GTIN, exactly when the GTIN rule failed. |
| RowVerdicts.UnmappedVerdict | src/Service/DataImporter.php:59-64 | A row that fails to map is skipped with the mapper's single message, whatever the options. |
| RowVerdicts.VerdictOf | src/Service/DataImporter.php:59-93 | Definition: one row's verdict: map it, validate the mapped item, then apply the lenient override when it is on. |
| RowVerdicts.EffectiveErrors | src/Service/DataImporter.php:70-88 | Definition: with the override on and some error present, the errors without InvalidGtin; otherwise the validator's errors. |
| RowVerdicts.VerdictFrom | src/Service/DataImporter.php:59-93 | Definition: a mapping failure skips the row with the mapper's message; otherwise the row is kept exactly when no effective error remains, is skipped with those errors' messages otherwise, and records the GTIN as overridden when the override removed InvalidGtin. |
| RowVerdicts.MappedGtinVerdict | src/Mapper/ItemMapper.php:33 | A mapped GTIN is trimmed, so the importer's GTIN verdict is always the corrected one. |
| ImportRuns.Take | src/Service/DataImporter.php:78-83 | Taking k gives a prefix of length min(k, length). |
| ImportRuns.RunSnoc | src/Service/DataImporter.php:56-105 | For one more row: how the kept items, the skipped count, the errors map, the overrides and the progress reports move. |
| ImportRuns.ErrorsMap | src/Service/DataImporter.php:167 | Definition: each skipped row's messages under its line number, with a later row on the same line overwriting the earlier one. |
| ImportRuns.CountsAddUp | src/Service/DataImporter.php:57-95 | Every processed row is either kept or skipped. |
| ImportRuns.AcceptedInOrder | src/Service/DataImporter.php:95 | The kept items are exactly the items of the accepted rows. |
| ImportRuns.ErrorsMapKeys | src/Service/DataImporter.php:164-167 | The errors map has an entry exactly for the lines of skipped rows. |
| ImportRuns.ErrorsMapLastWins | src/Service/DataImporter.php:167 | A line's entry holds the messages of the last skipped row with that line. |
| ImportRuns.ErrorsMapEntries | src/Service/DataImporter.php:164-167 | With distinct lines, each skipped row's messages sit under its line. |
| ImportRuns.ErrorsMapSize | src/Service/DataImporter.php:164-167 | With distinct lines, there is one entry per skipped row. |
| ImportRuns.OverridesListed | src/Service/DataImporter.php:76-84 | The override samples are the lines and GTINs of the overridden rows, in source order. |
| ImportRuns.NoticeOf | src/Service/DataImporter.php:111-116 | Definition: the override notice, only with the override on and at least one override: the override count and the first five samples. |
| ImportRuns.EffectiveBatchSize | src/Service/DataImporter.php:97 | The flush threshold is at least 1, and is the batch size when that is positive. |
| ImportRuns.FlushTest | src/Service/DataImporter.php:97 | For a non-empty buffer, `count >= batchSize` is `count >= EffectiveBatchSize(batchSize)`. |
| ImportRuns.Pending | src/Service/DataImporter.php:95-99 | The buffer holds fewer than n items and no more than were kept. |
| ImportRuns.KeepOne | src/Service/DataImporter.php:95-99 | Keeping one item appends it to the buffer; filling the buffer turns it into one more full batch. |
| ImportRuns.FullBatchesCharacterised | src/Service/DataImporter.php:95-99 | The full batches and then the buffer are the kept items in order, and each full batch holds exactly n items. |
| ImportRuns.BatchesCharacterised | src/Service/DataImporter.php:95-109 | Over a run the batches carry every kept item once, in order; all but the last hold exactly n items, and each holds 1 to n. |
| ImportRuns.FullBatchesPrefix | src/Service/DataImporter.php:95-99 | The full batches of fewer kept items start those of more. |
| ImportRuns.ProgressCharacterised | src/Service/DataImporter.php:101-103 | There is one report per full batch and none for the final flush; each carries the estimate; the processed counts strictly increase and never exceed the rows. |
| ImportRuns.ProgressOf | src/Service/DataImporter.php:97-103 | Definition: one report (rows processed so far, estimate) after each in-loop flush, that is, after each row whose item fills the buffer. |
| ImportRuns.AcceptedPrefix | src/Service/DataImporter.php:95 | The items kept by a prefix of the rows start the items kept by all of them. |
| ImportRuns.ProgressPrefix | src/Service/DataImporter.php:101-103 | The reports of a prefix of the rows start the run's reports. |
| ImportRuns.StopAt | src/Service/DataImporter.php:95-98 | When the flush at row i fails, the earlier full batches start the run's batches, the failing batch is the buffer plus row i's item, and the reports so far are the run's first ones. |
| ImportRuns.DetermineStatus | src/Service/DataImporter.php:144-159 | Success exactly when rows were processed and none were skipped; Failed exactly when none were processed, or rows were skipped and none imported; otherwise PartialFailure. |
| ImportRuns.StatusOfRun | src/Service/DataImporter.php:144-159 | When every row is kept or skipped: success means all were kept, Failed means none were kept, and partial failure means some were kept and some skipped. |
| ImportRuns.ResultOf | src/Service/DataImporter.php:118-126 | Definition: the result of a completed run: its status, the row count, the kept and skipped counts, and the errors map. |
| ImportRuns.RecordError | src/Service/DataImporter.php:164-173 | One more skipped row; the messages go under its line and replace any earlier entry; nothing else changes. |
| Importer.StoredKeep | src/Service/DataImporter.php:95-97 | Keeping an item without filling the buffer leaves the stored state as it was. |
| Importer.StoredFlush | src/Service/DataImporter.php:97-99 | A flush without a fault commits one more full batch; a dry run still writes nothing. |
| Importer.StopInLoop | src/Service/DataImporter.php:97-98 | A failing flush inside the loop leaves the run stopped at the batch after the rows already flushed. |
| Importer.StoppedBlocks | src/Service/DataImporter.php:98 | A stopped run did not get all of its batches through. |
| Importer.StoredWhole | src/Service/DataImporter.php:107 | With an empty buffer at the end, the full batches are all the batches and hold every kept item. |
| Importer.StoredLastFlush | src/Service/DataImporter.php:107-109 | A final flush without a fault completes the run's batches and commits. |
| Importer.StoppedOnLastFlush | src/Service/DataImporter.php:107-109 | A fault on the final flush stops the run at its last batch. |
| Importer.DataImporter.constructor | src/Service/DataImporter.php:28-34 | The importer holds the given repository and URL test. |
| Importer.DataImporter.CountRow | src/Service/DataImporter.php:57-84 | One more row is processed, and the override is counted and sampled up to five times. |
| Importer.DataImporter.Judge | src/Service/DataImporter.php:59-93 | One row's mapping, validation and override give exactly that row's verdict, VerdictOf. |
| Importer.DataImporter.ProcessBatch | src/Service/DataImporter.php:132-142 | A dry run counts the items and touches nothing; otherwise the repository's batch write either commits the items or rolls back and fails. |
| Importer.DataImporter.Buffer | src/Service/DataImporter.php:95-104 | Buffering a kept item flushes a full buffer, reports progress when a callback is set, and keeps the stored state in step; a failing flush changes nothing else. |
| Importer.DataImporter.Step | src/Service/DataImporter.php:57-104 | One loop iteration keeps the tallies and the stored state in step with the rows so far, or reports where the flush failed. |
| Importer.DataImporter.Finish | src/Service/DataImporter.php:107-126 | The final flush, the notice and the result: success exactly when every batch went through, with ResultOf, NoticeOf and the run's reports; otherwise the run stopped at a batch. |
| Importer.DataImporter.ImportRows | src/Service/DataImporter.php:39-127 | The loop over precomputed verdicts meets Import's contract. |
| Importer.DataImporter.Import | src/Service/DataImporter.php:39-127 | A dry run succeeds and leaves the repository untouched. Otherwise the run succeeds exactly when every batch goes through; it then returns ResultOf of the row verdicts, the notice and the progress reports, and the table holds every kept item with one commit per batch. A failed run stops at one batch: the batches before it are committed and that one is rolled back. |

## Left out

- Reading the feed: the CSV reader is not part of this model. Its rows arrive as a sequence of `SourceRow` (line number and row map), and `getEstimatedCount()` arrives as the `estimate` parameter.
- The console command, the service container and the logger are not part of this model. The override notice is returned as `notice`. The debug and warning log lines are not modelled.
- The progress callback: `hasCallback` says whether one is set. The calls it would receive are returned in `progress`.
- SQL and the database: the SQL text and `updated_at` are not modelled. The table is a map from GTIN to item. Database failures are a map, fixed in advance, from transaction number to `Fault`; the map stands in for a failing statement or commit.
- `FindByGtin` takes `fetchFails` in place of the database's own fetch error.
- Exceptions: a `RepositoryException` escaping `import()` becomes a `Failure` result that carries what the repository holds at that point.
- `filter_var(..., FILTER_VALIDATE_URL)` is the parameter `isUrl`. `AgreesWithUrlExamples` pins down only the two URLs the recorded examples use.
- `is_numeric()`, `(float)` and `number_format()` are modelled only for plain decimal literals, with exact arithmetic. Exponents, hexadecimal, integer overflow and binary floating point rounding are left out. `(int)` saturation is also left out.
- `trim()` and `strtolower()` are modelled for single-byte characters only; there is no locale or multibyte handling.
- `PhpStrings.Join` (`implode()`) has no contract of its own; it is used only to build the missing-columns message.
- `ImportOptions` in `src/DTO/ImportOptions.php` declares only `batchSize` and `dryRun`. The importer and the command also use `skipGtinValidation`, so the model gives the options that third field.
- The order of the errors map: `ImportResult.errors` is a Dafny `map`, which has no insertion order. The command prints the first ten entries in PHP's array order, which is row order (src/Command/ImportCommand.php:125). Because the reader's line numbers increase, that order is the order of the line keys.
- The title rule follows the code. It checks the mapped title for `=== ''`, and that title has already been trimmed by the mapper.

## Findings

| source | as written | input that shows it | evidently intended | confidence | as-written member | corrected member |
|---|---|---|---|---|---|---|
| src/Domain/ItemValidator.php:49-54 | `/^\d{8,14}$/` without the `D` modifier: PCRE's `$` also matches before a final line feed | "4006381333932\n" passes the pattern; at 14 characters the checksum is skipped, so a 13-digit GTIN with a wrong check digit is accepted | exactly 8 to 14 digits, and the checksum whenever there are 13 | not executed; `validate()` is modelled as written (`Validation.Validate`, `LineFeedGtinPasses`). Inside `import()` the mapper trims the GTIN first, so the importer always gets the corrected verdict (`TrimmedGtinAgrees`, `RowVerdicts.MappedGtinVerdict`) | Validation.TrailingLineFeedSkipsChecksum | Validation.CheckGtin |
